/** Java's view of text: a `String` is a sequence of UTF-16 code units,
  * and `String.hashCode` folds `31 * h + u` over those units in `int`.
  * A model string is a sequence of Unicode scalar values, so a character
  * beyond the Basic Multilingual Plane stands for two units, a surrogate
  * pair. */
module JavaText {
  import opened Basics

  const FirstSupplementary: int := 0x1_0000
  const HighSurrogate: int := 0xd800
  const LowSurrogate: int := 0xdc00
  const SurrogateEnd: int := 0xe000

  /** The code units Java stores for one character. */
  function Units(c: char): (u: seq<int>)
    ensures 1 <= |u| <= 2
    ensures forall k :: 0 <= k < |u| ==> 0 <= u[k] < FirstSupplementary
    ensures |u| == 1 <==> (c as int) < FirstSupplementary
    ensures |u| == 1 ==> u[0] == c as int
    ensures |u| == 2 ==> HighSurrogate <= u[0] < LowSurrogate <= u[1] < SurrogateEnd
  {
    var v := c as int;
    if v < FirstSupplementary then [v]
    else [HighSurrogate + (v - FirstSupplementary) / 0x400, LowSurrogate + (v - FirstSupplementary) % 0x400]
  }

  /** The UTF-16 code units of a string, character by character. */
  function Utf16(s: string): (u: seq<int>)
    ensures |s| <= |u| <= 2 * |s|
  {
    if s == [] then [] else Utf16(s[..|s| - 1]) + Units(s[|s| - 1])
  }

  /** Reading code units back into characters: a low surrogate must follow
    * a high one, and neither may stand alone. */
  function Decode(u: seq<int>): (r: Option<string>)
  {
    if u == [] then Some([])
    else
      var last := u[|u| - 1];
      if last < 0 || last >= FirstSupplementary || HighSurrogate <= last < LowSurrogate then None
      else if last < LowSurrogate || last >= SurrogateEnd then
        match Decode(u[..|u| - 1])
        case None => None
        case Some(s) => Some(s + [last as char])
      else if |u| < 2 || !(HighSurrogate <= u[|u| - 2] < LowSurrogate) then None
      else
        var v := FirstSupplementary + (u[|u| - 2] - HighSurrogate) * 0x400 + (last - LowSurrogate);
        match Decode(u[..|u| - 2])
        case None => None
        case Some(s) => Some(s + [v as char])
  }

  /** A unit that is not a surrogate reads back as its character. */
  lemma DecodeSnocUnit(a: seq<int>, c: char)
    requires (c as int) < FirstSupplementary
    ensures Decode(a + [c as int]) == match Decode(a) case None => None case Some(s) => Some(s + [c])
  {
    assert (a + [c as int])[..|a|] == a;
  }

  /** A surrogate pair reads back as the character it encodes. */
  lemma DecodeSnocPair(a: seq<int>, c: char)
    requires (c as int) >= FirstSupplementary
    ensures Decode(a + Units(c)) == match Decode(a) case None => None case Some(s) => Some(s + [c])
  {
    var u := Units(c);
    var v := c as int;
    assert (a + u)[..|a|] == a;
    assert FirstSupplementary + (u[0] - HighSurrogate) * 0x400 + (u[1] - LowSurrogate) == v;
  }

  /** Every string's code units read back as the string, so no two
    * strings share their code units. */
  lemma {:induction false} Utf16RoundTrip(s: string)
    ensures Decode(Utf16(s)) == Some(s)
  {
    if s != [] {
      var init, c := s[..|s| - 1], s[|s| - 1];
      Utf16RoundTrip(init);
      if (c as int) < FirstSupplementary {
        assert Units(c) == [c as int];
        DecodeSnocUnit(Utf16(init), c);
      } else {
        DecodeSnocPair(Utf16(init), c);
      }
      assert init + [c] == s;
    }
  }

  /** A string of the Basic Multilingual Plane is one unit per character. */
  lemma {:induction false} Utf16OfBmp(s: string)
    requires forall i :: 0 <= i < |s| ==> (s[i] as int) < FirstSupplementary
    ensures |Utf16(s)| == |s|
    ensures forall i :: 0 <= i < |s| ==> Utf16(s)[i] == s[i] as int
  {
    if s != [] {
      Utf16OfBmp(s[..|s| - 1]);
    }
  }

  /** The code units of a concatenation are the concatenated units. */
  lemma {:induction false} Utf16Append(a: string, b: string)
    ensures Utf16(a + b) == Utf16(a) + Utf16(b)
    decreases |b|
  {
    if b != [] {
      var b', c := b[..|b| - 1], b[|b| - 1];
      assert (a + b)[..|a + b| - 1] == a + b';
      assert (a + b)[|a + b| - 1] == c;
      Utf16Append(a, b');
      assert Utf16(a + b) == Utf16(a + b') + Units(c);
      assert Utf16(b) == Utf16(b') + Units(c);
    } else {
      assert a + b == a;
    }
  }

  /** The loop of `String.hashCode`: `h = 31 * h + u` for each code unit
    * in turn, in `int`, starting from `h`. */
  function Fold(h: int32, u: seq<int>): int32
    decreases |u|
  {
    if u == [] then h else Fold(Wrap32(31 * h + u[0]), u[1..])
  }

  /** Folding two runs of units in turn is folding their concatenation. */
  lemma {:induction false} FoldAppend(h: int32, a: seq<int>, b: seq<int>)
    ensures Fold(h, a + b) == Fold(Fold(h, a), b)
    decreases |a|
  {
    if a != [] {
      assert (a + b)[1..] == a[1..] + b;
      assert (a + b)[0] == a[0];
      FoldAppend(Wrap32(31 * h + a[0]), a[1..], b);
    } else {
      assert a + b == b;
    }
  }

  /** `String.hashCode`, taken one character at a time: the fold goes
    * on over the one or two code units of each character. */
  function StringHash(s: string): (h: int32)
    ensures h == Fold(0, Utf16(s))
  {
    if s == [] then 0
    else
      FoldAppend(0, Utf16(s[..|s| - 1]), Units(s[|s| - 1]));
      Fold(StringHash(s[..|s| - 1]), Units(s[|s| - 1]))
  }

  /** Java hashes U+1F600 through its surrogate pair 0xd83d, 0xde00:
    * 31 * 55357 + 56832, not the code point 128512. */
  lemma StringHashOfSupplementary()
    ensures StringHash("\U{1F600}") == 1772899
  {
    var s := "\U{1F600}";
    assert s[..0] == [];
    assert Units(s[0]) == [0xd83d, 0xde00];
    assert Fold(0, [0xd83d, 0xde00]) == Fold(0xd83d, [0xde00]);
  }

  /** For a string of the Basic Multilingual Plane the hash is the fold
    * over the characters' codes. */
  lemma {:induction false} StringHashOfBmp(s: string)
    requires forall i :: 0 <= i < |s| ==> (s[i] as int) < FirstSupplementary
    ensures s != [] ==> StringHash(s) == Wrap32(31 * StringHash(s[..|s| - 1]) + s[|s| - 1] as int)
  {
    if s != [] {
      var c := s[|s| - 1] as int;
      assert Units(s[|s| - 1]) == [c];
      assert Fold(StringHash(s[..|s| - 1]), [c]) == Fold(Wrap32(31 * StringHash(s[..|s| - 1]) + c), []);
    }
  }
}
