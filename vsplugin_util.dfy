/** The Visual Studio plugin's utilities: the text helpers of the .NET
  * string class that the plugin relies on (trimming, splitting,
  * case-insensitive comparison), the `ComponentList` of names kept in a
  * project setting, path normalisation and relative paths, and adding or
  * removing an Ice library in the C++ linker's settings. */
module VsUtil {
  import opened Basics

  // ---------------------------------------------------------------------
  // Text
  // ---------------------------------------------------------------------

  /** The ASCII white space `String.Trim` removes. */
  predicate IsWhiteSpace(c: char)
  {
    c == ' ' || ('\t' <= c <= '\r')
  }

  /** No character of `drop` at either end. */
  predicate TrimmedBy(s: string, drop: char -> bool)
  {
    s == [] || (!drop(s[0]) && !drop(s[|s| - 1]))
  }

  function TrimStart(s: string, drop: char -> bool): (r: string)
    ensures |r| <= |s| && r == s[|s| - |r|..]
    ensures r == [] || !drop(r[0])
    ensures s == [] || !drop(s[0]) ==> r == s
  {
    if s != [] && drop(s[0]) then TrimStart(s[1..], drop) else s
  }

  function TrimEnd(s: string, drop: char -> bool): (r: string)
    ensures |r| <= |s| && r == s[..|r|]
    ensures r == [] || !drop(r[|r| - 1])
    ensures s == [] || !drop(s[|s| - 1]) ==> r == s
  {
    if s != [] && drop(s[|s| - 1]) then TrimEnd(s[..|s| - 1], drop) else s
  }

  /** `String.Trim(chars)`: the characters of `drop` removed from both ends;
    * what is left is a piece of the original with none at either end, and
    * a string without any at its ends is left as it is. */
  function TrimBy(s: string, drop: char -> bool): (r: string)
    ensures TrimmedBy(r, drop)
    ensures TrimmedBy(s, drop) ==> r == s
    ensures forall c :: c in r ==> c in s
  {
    var t := TrimStart(s, drop);
    var r := TrimEnd(t, drop);
    assert r == [] || (r[0] == t[0] && !drop(r[0]));
    assert forall c :: c in r ==> c in t;
    assert forall c :: c in t ==> c in s;
    r
  }

  /** `String.Trim()`. */
  function Trim(s: string): (r: string)
    ensures TrimmedBy(r, IsWhiteSpace)
    ensures TrimmedBy(s, IsWhiteSpace) ==> r == s
    ensures forall c :: c in r ==> c in s
  {
    TrimBy(s, IsWhiteSpace)
  }

  /** A string that starts with white space trims to what follows it. */
  lemma TrimSkipsLeadingSpace(s: string)
    requires s != [] && !IsWhiteSpace(s[0]) && !IsWhiteSpace(s[|s| - 1])
    ensures Trim(" " + s) == s
  {
    var t := " " + s;
    assert t[1..] == s;
    assert TrimStart(t, IsWhiteSpace) == TrimStart(s, IsWhiteSpace);
  }

  /** The ASCII lower-case of a letter; other characters are unchanged. */
  function Lower(c: char): char
  {
    if 'A' <= c <= 'Z' then ((c as int) + 32) as char else c
  }

  /** `String.Equals(…, IgnoreCase)` over ASCII letters. */
  predicate EqualsIgnoreCase(a: string, b: string)
  {
    |a| == |b| && forall i :: 0 <= i < |a| ==> Lower(a[i]) == Lower(b[i])
  }

  /** `String.Split(sep)`: the pieces between separators, empty ones
    * included; there is always at least one. */
  function Split(s: string, sep: char): (r: seq<string>)
    ensures |r| >= 1
    ensures forall k :: 0 <= k < |r| ==> sep !in r[k]
  {
    if s == [] then [""]
    else
      var init := Split(s[..|s| - 1], sep);
      if s[|s| - 1] == sep then init + [""]
      else init[..|init| - 1] + [init[|init| - 1] + [s[|s| - 1]]]
  }

  /** A string without the separator is one piece. */
  lemma {:induction false} SplitWhole(s: string, sep: char)
    requires sep !in s
    ensures Split(s, sep) == [s]
  {
    if s != [] {
      SplitWhole(s[..|s| - 1], sep);
      assert s[..|s| - 1] + [s[|s| - 1]] == s;
    }
  }

  /** The pieces of `a`, a separator, then `b` are those of `a` followed by
    * those of `b`. */
  lemma {:induction false} SplitAt(a: string, sep: char, b: string)
    ensures Split(a + [sep] + b, sep) == Split(a, sep) + Split(b, sep)
  {
    var s := a + [sep] + b;
    if b == [] {
      assert s[..|s| - 1] == a;
    } else {
      var binit := b[..|b| - 1];
      var c := b[|b| - 1];
      assert s[..|s| - 1] == a + [sep] + binit;
      SplitAt(a, sep, binit);
      var x := Split(a, sep);
      var y := Split(binit, sep);
      var xy := x + y;
      assert Split(s[..|s| - 1], sep) == xy;
      if c != sep {
        assert xy[..|xy| - 1] == x + y[..|y| - 1];
        assert xy[|xy| - 1] == y[|y| - 1];
        var tail := [y[|y| - 1] + [c]];
        assert Split(b, sep) == y[..|y| - 1] + tail;
        assert Split(s, sep) == (x + y[..|y| - 1]) + tail;
        Assoc(x, y[..|y| - 1], tail);
      } else {
        assert Split(b, sep) == y + [""];
        assert Split(s, sep) == xy + [""];
        Assoc(x, y, [""]);
      }
    }
  }

  lemma Assoc<T>(a: seq<T>, b: seq<T>, c: seq<T>)
    ensures (a + b) + c == a + (b + c)
  {
  }

  // ---------------------------------------------------------------------
  // ComponentList
  // ---------------------------------------------------------------------

  /** `Add`'s effect: the value, trimmed, is appended unless that exact
    * string is already there. */
  function Added(items: seq<string>, value: string): (r: seq<string>)
    ensures Trim(value) in r
    ensures r == items || r == items + [Trim(value)]
    ensures r == items <==> Trim(value) in items
  {
    if Trim(value) in items then items else items + [Trim(value)]
  }

  /** No string is listed twice. */
  predicate Distinct(items: seq<string>)
  {
    forall i, j :: 0 <= i < j < |items| ==> items[i] != items[j]
  }

  /** Every entry is trimmed. */
  predicate AllTrimmed(items: seq<string>)
  {
    forall k :: 0 <= k < |items| ==> TrimmedBy(items[k], IsWhiteSpace)
  }

  /** Adding keeps a list free of repeats and of untrimmed entries, and
    * adding the same value twice adds it once. */
  lemma AddedKeepsDistinct(items: seq<string>, value: string)
    ensures Distinct(items) ==> Distinct(Added(items, value))
    ensures AllTrimmed(items) ==> AllTrimmed(Added(items, value))
    ensures Added(Added(items, value), value) == Added(items, value)
  {
  }

  /** The position of the first entry equal to `value` ignoring case. */
  function FindIgnoreCase(items: seq<string>, value: string): (r: Option<nat>)
    ensures r.Some? ==> r.value < |items| && EqualsIgnoreCase(items[r.value], value)
    ensures r.Some? ==> forall k :: 0 <= k < r.value ==> !EqualsIgnoreCase(items[k], value)
    ensures r.None? ==> forall k :: 0 <= k < |items| ==> !EqualsIgnoreCase(items[k], value)
  {
    if items == [] then None
    else if EqualsIgnoreCase(items[0], value) then Some(0)
    else match FindIgnoreCase(items[1..], value)
      case None => None
      case Some(k) => Some(k + 1)
  }

  /** `Contains`: whether an entry equals the value ignoring case and is not
    * empty; the empty string is never contained. */
  predicate ContainsIgnoreCase(items: seq<string>, value: string)
  {
    var found := FindIgnoreCase(items, value);
    found.Some? && items[found.value] != ""
  }

  lemma ContainsMeaning(items: seq<string>, value: string)
    ensures ContainsIgnoreCase(items, value)
        <==> value != "" && exists k :: 0 <= k < |items| && EqualsIgnoreCase(items[k], value)
  {
    var found := FindIgnoreCase(items, value);
    if found.Some? {
      assert |items[found.value]| == |value|;
    }
  }

  /** `List.Remove`: the first entry equal to `value` is taken out. */
  function RemoveFirst(items: seq<string>, value: string): (r: seq<string>)
    ensures value !in items ==> r == items
  {
    if items == [] then []
    else if items[0] == value then items[1..]
    else [items[0]] + RemoveFirst(items[1..], value)
  }

  /** `Remove`'s effect: the first entry equal to the value ignoring case
    * is taken out, unless it is empty. */
  function Removed(items: seq<string>, value: string): seq<string>
  {
    var found := FindIgnoreCase(items, value);
    if found.Some? && items[found.value] != "" then RemoveFirst(items, items[found.value]) else items
  }

  /** The entry taken out is the first match: the others stay, in order. */
  lemma {:induction false} RemovedIsFirstMatch(items: seq<string>, value: string)
    ensures ContainsIgnoreCase(items, value) ==>
              var k := FindIgnoreCase(items, value).value;
              Removed(items, value) == items[..k] + items[k + 1..]
    ensures !ContainsIgnoreCase(items, value) ==> Removed(items, value) == items
  {
    if ContainsIgnoreCase(items, value) {
      var k := FindIgnoreCase(items, value).value;
      RemoveFirstAt(items, k);
    }
  }

  /** `List.Remove(items[k])` removes position `k` when no earlier entry
    * equals it. */
  lemma {:induction false} RemoveFirstAt(items: seq<string>, k: nat)
    requires k < |items|
    requires forall j :: 0 <= j < k ==> items[j] != items[k]
    ensures RemoveFirst(items, items[k]) == items[..k] + items[k + 1..]
  {
    if k > 0 {
      RemoveFirstAt(items[1..], k - 1);
      assert items[1..][..k - 1] == items[1..k];
      assert items[1..][k..] == items[k + 1..];
      assert [items[0]] + items[1..k] == items[..k];
    }
  }

  /** The list the `string[]` constructor builds: each value added in turn. */
  function ValuesItems(values: seq<string>): seq<string>
  {
    if values == [] then [] else Added(ValuesItems(values[..|values| - 1]), values[|values| - 1])
  }

  /** The list `init` builds from a string: each piece between separators
    * is added, trimmed, unless it has no characters at all. A piece of
    * only white space has characters, and is added as the empty string. */
  function InitItems(pieces: seq<string>): seq<string>
  {
    if pieces == [] then []
    else
      var items := InitItems(pieces[..|pieces| - 1]);
      var s := pieces[|pieces| - 1];
      if |s| > 0 then Added(items, Trim(s)) else items
  }

  lemma InitItemsStep(pieces: seq<string>, i: nat)
    requires i < |pieces|
    ensures InitItems(pieces[..i + 1])
            == if |pieces[i]| > 0 then Added(InitItems(pieces[..i]), Trim(pieces[i])) else InitItems(pieces[..i])
  {
    assert pieces[..i + 1][..i] == pieces[..i];
  }

  /** The separator `ToString` writes between entries: the character, then
    * a space unless the character is itself a space. */
  function Separator(sep: char): string
  {
    if sep == ' ' then [sep] else [sep, ' ']
  }

  /** `ToString(sep)`: the entries with the separator between them and none
    * after the last. */
  function Joined(items: seq<string>, sep: char): string
  {
    if items == [] then ""
    else if |items| == 1 then items[0]
    else Joined(items[..|items| - 1], sep) + Separator(sep) + items[|items| - 1]
  }

  /** How `Split` cuts `Joined`'s text: the first entry, then each later one
    * behind the space that follows the separator (none for a space). */
  function Pieces(items: seq<string>, sep: char): (r: seq<string>)
    requires items != []
    ensures |r| == |items|
  {
    if |items| == 1 then items
    else Pieces(items[..|items| - 1], sep) + [(if sep == ' ' then "" else " ") + items[|items| - 1]]
  }

  lemma {:induction false} SplitJoined(items: seq<string>, sep: char)
    requires items != []
    requires forall k :: 0 <= k < |items| ==> sep !in items[k]
    ensures Split(Joined(items, sep), sep) == Pieces(items, sep)
  {
    if |items| == 1 {
      SplitWhole(items[0], sep);
    } else {
      var init := items[..|items| - 1];
      var pad := if sep == ' ' then "" else " ";
      var last := pad + items[|items| - 1];
      SplitJoined(init, sep);
      assert Joined(items, sep) == Joined(init, sep) + [sep] + last;
      SplitAt(Joined(init, sep), sep, last);
      SplitWhole(last, sep);
    }
  }

  /** Entries that the text form keeps apart and gives back: none repeated,
    * none holding the separator, none empty and none with white space at
    * its ends. */
  predicate Listable(items: seq<string>, sep: char)
  {
    && Distinct(items)
    && (forall k :: 0 <= k < |items| ==> sep !in items[k] && items[k] != "")
    && AllTrimmed(items)
  }

  /** Reading back `ToString(sep)` with the string constructor gives the
    * same list. */
  lemma InitJoinedRoundTrip(items: seq<string>, sep: char)
    requires Listable(items, sep)
    ensures InitItems(Split(Joined(items, sep), sep)) == items
  {
    if items == [] {
      assert Split("", sep) == [""];
      assert InitItems([""]) == InitItems([]);
    } else {
      SplitJoined(items, sep);
      InitPiecesRoundTrip(items, sep);
    }
  }

  lemma {:induction false} InitPiecesRoundTrip(items: seq<string>, sep: char)
    requires items != [] && Listable(items, sep)
    ensures InitItems(Pieces(items, sep)) == items
  {
    var last := items[|items| - 1];
    var init := items[..|items| - 1];
    LastOfListable(items, sep);
    Snoc(items);
    if |items| == 1 {
      InitStep([], [], last, sep);
      assert Pieces(items, sep) == [] + [last];
    } else {
      InitPiecesRoundTrip(init, sep);
      InitStep(Pieces(init, sep), init, last, sep);
    }
  }

  /** One more piece, for an entry not listed yet, appends that entry. */
  lemma InitStep(pieces: seq<string>, init: seq<string>, last: string, sep: char)
    requires InitItems(pieces) == init
    requires last !in init && last != "" && TrimmedBy(last, IsWhiteSpace)
    ensures InitItems(pieces + [(if sep == ' ' || pieces == [] then "" else " ") + last]) == init + [last]
  {
    var piece := (if sep == ' ' || pieces == [] then "" else " ") + last;
    var p := pieces + [piece];
    assert p[..|p| - 1] == pieces;
    assert Trim(piece) == last by {
      if sep != ' ' && pieces != [] {
        TrimSkipsLeadingSpace(last);
      } else {
        assert piece == last;
      }
    }
  }

  lemma Snoc<T>(s: seq<T>)
    requires s != []
    ensures s == s[..|s| - 1] + [s[|s| - 1]]
  {
  }

  /** The last entry of a listable list is not among the others, is
    * trimmed and is not empty; the others are listable too. */
  lemma LastOfListable(items: seq<string>, sep: char)
    requires items != [] && Listable(items, sep)
    ensures var last := items[|items| - 1];
            && last !in items[..|items| - 1] && last != "" && TrimmedBy(last, IsWhiteSpace)
            && Listable(items[..|items| - 1], sep)
  {
    var last := items[|items| - 1];
    var init := items[..|items| - 1];
    assert forall k :: 0 <= k < |init| ==> init[k] == items[k];
  }

  /** Reading back `ToString(' ')` with the `string[]` constructor gives the
    * same list, empty entries included. */
  lemma ValuesJoinedRoundTrip(items: seq<string>)
    requires items != [] && WellFormed(items)
    ensures ValuesItems(Split(Joined(items, ' '), ' ')) == items
  {
    SplitJoined(items, ' ');
    ValuesPiecesRoundTrip(items);
  }

  lemma {:induction false} ValuesPiecesRoundTrip(items: seq<string>)
    requires items != [] && Distinct(items) && AllTrimmed(items)
    ensures ValuesItems(Pieces(items, ' ')) == items
  {
    var last := items[|items| - 1];
    var init := items[..|items| - 1];
    LastOfDistinct(items);
    Snoc(items);
    if |items| == 1 {
      ValuesStep([], [], last);
      assert Pieces(items, ' ') == [] + [last];
    } else {
      ValuesPiecesRoundTrip(init);
      ValuesStep(Pieces(init, ' '), init, last);
      assert Pieces(items, ' ') == Pieces(init, ' ') + ["" + last];
    }
  }

  lemma LastOfDistinct(items: seq<string>)
    requires items != [] && Distinct(items) && AllTrimmed(items)
    ensures var last := items[|items| - 1];
            && last !in items[..|items| - 1] && TrimmedBy(last, IsWhiteSpace)
            && Distinct(items[..|items| - 1]) && AllTrimmed(items[..|items| - 1])
  {
    var init := items[..|items| - 1];
    assert forall k :: 0 <= k < |init| ==> init[k] == items[k];
  }

  lemma ValuesStep(pieces: seq<string>, init: seq<string>, last: string)
    requires ValuesItems(pieces) == init
    requires last !in init && TrimmedBy(last, IsWhiteSpace)
    ensures ValuesItems(pieces + ["" + last]) == init + [last]
  {
    var p := pieces + ["" + last];
    assert p[..|p| - 1] == pieces;
    assert "" + last == last;
  }

  /** A list of names as the plugin keeps them in a project setting. */
  class ComponentList {
    var items: seq<string>

    constructor()
      ensures items == []
    {
      items := [];
    }

    /** The `string[]` constructor: each value added in turn. */
    constructor FromValues(values: seq<string>)
      ensures items == ValuesItems(values)
    {
      items := [];
      new;
      var i := 0;
      while i < |values|
        invariant 0 <= i <= |values|
        invariant items == ValuesItems(values[..i])
      {
        assert values[..i + 1][..i] == values[..i];
        Add(values[i]);
        i := i + 1;
      }
      assert values[..i] == values;
    }

    /** The `string` constructors: `init` with the given separator (a `;`
      * when none is given). */
    constructor FromString(value: string, separator: char)
      ensures items == InitItems(Split(value, separator))
    {
      items := [];
      new;
      var pieces := Split(value, separator);
      var i := 0;
      while i < |pieces|
        invariant 0 <= i <= |pieces|
        invariant items == InitItems(pieces[..i])
      {
        var s := pieces[i];
        InitItemsStep(pieces, i);
        if |s| > 0 {
          Add(Trim(s));
        }
        i := i + 1;
      }
      assert pieces[..i] == pieces;
    }

    /** `Add`: the trimmed value is appended unless it is already listed. */
    method Add(value: string)
      modifies this
      ensures items == Added(old(items), value)
    {
      var v := Trim(value);
      if v !in items {
        items := items + [v];
      }
    }

    /** `Contains`: case-insensitive, and never for the empty string. */
    method Contains(value: string) returns (r: bool)
      ensures r == ContainsIgnoreCase(items, value)
    {
      var found := FindIgnoreCase(items, value);
      r := found.Some? && items[found.value] != "";
    }

    /** `Remove`: the first case-insensitive match, when there is a
      * non-empty one, is removed. */
    method Remove(value: string)
      modifies this
      ensures items == Removed(old(items), value)
    {
      var found := FindIgnoreCase(items, value);
      if found.Some? && items[found.value] != "" {
        items := RemoveFirst(items, items[found.value]);
      }
    }

    /** `ToString(separator)`: the entries joined with the separator, a
      * space after it unless it is a space. */
    method ToString(separator: char) returns (r: string)
      ensures r == Joined(items, separator)
    {
      var sb := "";
      var cont := 0;
      while cont < |items|
        invariant 0 <= cont <= |items|
        invariant cont == 0 ==> sb == ""
        invariant 0 < cont < |items| ==> sb == Joined(items[..cont], separator) + Separator(separator)
        invariant 0 < cont == |items| ==> sb == Joined(items, separator)
      {
        ghost var before := sb;
        sb := sb + items[cont];
        JoinedStep(items, separator, cont, before);
        if cont < |items| - 1 {
          sb := sb + [separator];
          if separator != ' ' {
            sb := sb + " ";
          }
          Append3(before + items[cont], [separator], " ");
        }
        cont := cont + 1;
      }
      r := sb;
    }
  }

  lemma Append3(a: string, b: string, c: string)
    ensures (a + b) + c == a + (b + c)
  {
  }

  /** One turn of `ToString`'s loop. */
  lemma JoinedStep(items: seq<string>, sep: char, cont: nat, before: string)
    requires cont < |items|
    requires cont == 0 ==> before == ""
    requires cont > 0 ==> before == Joined(items[..cont], sep) + Separator(sep)
    ensures before + items[cont] == Joined(items[..cont + 1], sep)
  {
    var prefix := items[..cont + 1];
    assert prefix[..cont] == items[..cont];
    if cont == 0 {
      assert [] + items[0] == items[0];
    } else {
      Append3(Joined(items[..cont], sep), Separator(sep), items[cont]);
    }
  }

  // ---------------------------------------------------------------------
  // Paths
  // ---------------------------------------------------------------------

  predicate IsBackslash(c: char)
  {
    c == '\\'
  }

  /** `Replace('/', '\\')`. */
  function Backslashed(path: string): (r: string)
    ensures |r| == |path| && '/' !in r
    ensures forall i :: 0 <= i < |path| ==> r[i] == (if path[i] == '/' then '\\' else path[i])
  {
    if path == [] then [] else [if path[0] == '/' then '\\' else path[0]] + Backslashed(path[1..])
  }

  /** `Replace(".\\", "")`: every `.\` found scanning from the left is
    * removed, wherever it stands. */
  function WithoutDotBackslash(s: string): (r: string)
    ensures forall c :: c in r ==> c in s
  {
    if |s| >= 2 && s[0] == '.' && s[1] == '\\' then WithoutDotBackslash(s[2..])
    else if s == [] then []
    else [s[0]] + WithoutDotBackslash(s[1..])
  }

  /** The last two steps of `normalizePath`: one leading `\` is dropped,
    * then a trailing `\.`. */
  function TrimEnds(s: string): (r: string)
    ensures forall c :: c in r ==> c in s
    ensures |s| >= 3 && s[0] != '\\' ==> |r| >= |s| - 2 && r[..|s| - 2] == s[..|s| - 2]
  {
    var t := if |s| > 0 && s[0] == '\\' then s[1..] else s;
    var r := if |t| >= 2 && t[|t| - 2..] == "\\." then t[..|t| - 2] else t;
    assert forall c :: c in r ==> c in t;
    r
  }

  /** `normalizePath` as written: forward slashes become backslashes, every
    * `.\` is removed, then one leading `\` and a trailing `\.`. The
    * removal also hits the `.\` inside a parent reference `..\`. */
  function NormalizePathAsWritten(path: string): (r: string)
    ensures '/' !in r
  {
    TrimEnds(WithoutDotBackslash(Backslashed(path)))
  }

  /** A parent reference loses a dot: `../foo` becomes `.foo`. */
  lemma ParentReferenceBroken()
    ensures NormalizePathAsWritten("../foo") == ".foo"
  {
    assert Backslashed("../foo") == "..\\foo";
    assert WithoutDotBackslash("o") == "o";
    assert WithoutDotBackslash("oo") == "oo";
    assert WithoutDotBackslash("foo") == "foo";
    assert WithoutDotBackslash("\\foo") == "\\foo";
    assert WithoutDotBackslash(".\\foo") == "foo";
    assert WithoutDotBackslash("..\\foo") == ".foo";
  }

  /** The intended normalisation leaves `../foo` a parent reference. */
  lemma ParentReferenceKept()
    ensures NormalizePath("../foo") == "..\\foo"
  {
    assert Backslashed("../foo") == "..\\foo";
    assert WithoutCurrentDirs("o", false) == "o";
    assert WithoutCurrentDirs("oo", false) == "oo";
    assert WithoutCurrentDirs("foo", true) == "foo";
    assert WithoutCurrentDirs("\\foo", false) == "\\foo";
    assert WithoutCurrentDirs(".\\foo", false) == ".\\foo";
    assert WithoutCurrentDirs("..\\foo", true) == "..\\foo";
  }

  /** The intended removal: a `.\` is removed only where it is a whole path
    * component, at the start or right after a `\`. */
  function WithoutCurrentDirs(s: string, atStart: bool): (r: string)
    ensures forall c :: c in r ==> c in s
  {
    if atStart && |s| >= 2 && s[0] == '.' && s[1] == '\\' then WithoutCurrentDirs(s[2..], true)
    else if s == [] then []
    else [s[0]] + WithoutCurrentDirs(s[1..], s[0] == '\\')
  }

  /** `normalizePath` as intended: current-directory components are removed
    * and parent references kept. */
  function NormalizePath(path: string): (r: string)
    ensures '/' !in r
  {
    TrimEnds(WithoutCurrentDirs(Backslashed(path), true))
  }

  /** A leading parent reference survives normalisation. */
  lemma NormalizePathKeepsParents(rest: string)
    ensures |NormalizePath("../" + rest)| >= 2 && NormalizePath("../" + rest)[..2] == ".."
  {
    BackslashedAppend("../", rest);
    var b := Backslashed(rest);
    assert Backslashed("../") == "..\\";
    var w := WithoutCurrentDirs(b, true);
    WithoutCurrentDirsAfterParent(b);
    var s := "..\\" + w;
    var r := TrimEnds(s);
    assert NormalizePath("../" + rest) == r;
    if w == [] {
      assert s[|s| - 2..] == ".\\";
      assert r == s;
    } else {
      assert r[..2] == r[..|s| - 2][..2] == s[..2];
    }
  }

  lemma WithoutCurrentDirsAfterParent(b: string)
    ensures WithoutCurrentDirs("..\\" + b, true) == "..\\" + WithoutCurrentDirs(b, true)
  {
    var w := WithoutCurrentDirs(b, true);
    assert ("..\\" + b)[1..] == ".\\" + b;
    assert (".\\" + b)[1..] == "\\" + b;
    assert ("\\" + b)[1..] == b;
    assert WithoutCurrentDirs("\\" + b, false) == "\\" + w;
    assert WithoutCurrentDirs(".\\" + b, false) == "." + ("\\" + w);
    assert WithoutCurrentDirs("..\\" + b, true) == "." + ("." + ("\\" + w));
  }

  /** A leading current-directory reference is dropped. */
  lemma NormalizePathSkipsCurrentDir(rest: string)
    ensures NormalizePath("./" + rest) == NormalizePath(rest)
  {
    BackslashedAppend("./", rest);
    var b := Backslashed(rest);
    assert Backslashed("./") == ".\\";
    assert (".\\" + b)[2..] == b;
    assert WithoutCurrentDirs(".\\" + b, true) == WithoutCurrentDirs(b, true);
  }

  lemma BackslashedAppend(a: string, b: string)
    ensures Backslashed(a + b) == Backslashed(a) + Backslashed(b)
  {
    var l := Backslashed(a + b);
    var r := Backslashed(a) + Backslashed(b);
    assert |l| == |r|;
    forall i | 0 <= i < |l|
      ensures l[i] == r[i]
    {
      if i < |a| {
        assert (a + b)[i] == a[i];
      } else {
        assert (a + b)[i] == b[i - |a|];
      }
    }
  }

  /** The number of leading components two paths share, ignoring case. */
  function CommonCount(f: seq<string>, s: seq<string>): (n: nat)
    ensures n <= |f| && n <= |s|
    ensures forall k :: 0 <= k < n ==> EqualsIgnoreCase(f[k], s[k])
    ensures n == |f| || n == |s| || !EqualsIgnoreCase(f[n], s[n])
  {
    if f == [] || s == [] || !EqualsIgnoreCase(f[0], s[0]) then 0
    else
      var n := 1 + CommonCount(f[1..], s[1..]);
      assert forall k :: 1 <= k < n ==> f[1..][k - 1] == f[k] && s[1..][k - 1] == s[k];
      n
  }

  /** `k` parent references, separated by backslashes. */
  function Ups(k: nat): string
  {
    if k == 0 then "" else (if k > 1 then Ups(k - 1) + "\\" else "") + ".."
  }

  /** The components, each behind a backslash. */
  function Down(parts: seq<string>): string
  {
    if parts == [] then "" else Down(parts[..|parts| - 1]) + "\\" + parts[|parts| - 1]
  }

  /** The components of a path: `Trim('\\')`, then `Split('\\')`. */
  function Parts(path: string): (r: seq<string>)
    ensures |r| >= 1 && forall k :: 0 <= k < |r| ==> '\\' !in r[k]
  {
    Split(TrimBy(path, IsBackslash), '\\')
  }

  /** `relativePath`: the file's path as seen from the directory. */
  function RelativePathOf(mainDirPath: string, absoluteFilePath: string): string
  {
    var f := Parts(mainDirPath);
    var s := Parts(absoluteFilePath);
    var n := CommonCount(f, s);
    if n == 0 then absoluteFilePath
    else (if |f| == n then "." else Ups(|f| - n)) + Down(s[n..])
  }

  /** `n` copies of `..`. */
  function Repeat(n: nat, x: string): (r: seq<string>)
    ensures |r| == n && forall k :: 0 <= k < n ==> r[k] == x
  {
    if n == 0 then [] else Repeat(n - 1, x) + [x]
  }

  /** With no common leading component the path is returned unchanged;
    * otherwise, read component by component, the result climbs one `..`
    * per remaining directory component (or stays at `.`) and then goes
    * down the file's remaining components. */
  lemma RelativePathComponents(mainDirPath: string, absoluteFilePath: string)
    ensures var f := Parts(mainDirPath);
            var s := Parts(absoluteFilePath);
            var n := CommonCount(f, s);
            && (n == 0 ==> RelativePathOf(mainDirPath, absoluteFilePath) == absoluteFilePath)
            && (n > 0 ==> Split(RelativePathOf(mainDirPath, absoluteFilePath), '\\')
                          == (if |f| == n then ["."] else Repeat(|f| - n, "..")) + s[n..])
  {
    var f := Parts(mainDirPath);
    var s := Parts(absoluteFilePath);
    var n := CommonCount(f, s);
    if n > 0 {
      var head := if |f| == n then "." else Ups(|f| - n);
      if |f| == n {
        SplitWhole(".", '\\');
      } else {
        SplitUps(|f| - n);
      }
      SplitDown(head, s[n..]);
    }
  }

  lemma {:induction false} SplitUps(k: nat)
    requires k >= 1
    ensures Split(Ups(k), '\\') == Repeat(k, "..")
  {
    if k == 1 {
      SplitWhole("..", '\\');
      assert Ups(1) == "..";
    } else {
      SplitUps(k - 1);
      assert Ups(k) == Ups(k - 1) + ['\\'] + "..";
      SplitAt(Ups(k - 1), '\\', "..");
      SplitWhole("..", '\\');
    }
  }

  lemma {:induction false} SplitDown(head: string, parts: seq<string>)
    requires forall k :: 0 <= k < |parts| ==> '\\' !in parts[k]
    ensures Split(head + Down(parts), '\\') == Split(head, '\\') + parts
  {
    if parts == [] {
      assert head + "" == head;
    } else {
      var init := parts[..|parts| - 1];
      var last := parts[|parts| - 1];
      SplitDown(head, init);
      Append3(head, Down(init) + "\\", last);
      Append3(head, Down(init), "\\");
      assert head + Down(parts) == (head + Down(init)) + ['\\'] + last;
      SplitAt(head + Down(init), '\\', last);
      SplitWhole(last, '\\');
      Assoc(Split(head, '\\'), init, [last]);
      Snoc(parts);
    }
  }

  /** The first loop of `relativePath`: the count of shared leading
    * components. */
  method CountCommon(f: seq<string>, s: seq<string>) returns (sameCounter: nat)
    ensures sameCounter == CommonCount(f, s)
  {
    sameCounter := 0;
    var i := 0;
    while i < |f| && i < |s|
      invariant 0 <= i <= |f| && i <= |s|
      invariant sameCounter == i
      invariant forall k :: 0 <= k < i ==> EqualsIgnoreCase(f[k], s[k])
    {
      if !EqualsIgnoreCase(f[i], s[i]) {
        break;
      }
      sameCounter := sameCounter + 1;
      i := i + 1;
    }
  }

  /** The second loop of `relativePath`: one `..` per component from `from`
    * to `upTo`, separated by backslashes. */
  method ClimbUp(from: nat, upTo: nat) returns (newPath: string)
    requires from <= upTo
    ensures newPath == Ups(upTo - from)
  {
    newPath := "";
    var i := from;
    while i < upTo
      invariant from <= i <= upTo
      invariant newPath == Ups(i - from)
    {
      if i > from {
        newPath := newPath + "\\";
      }
      newPath := newPath + "..";
      i := i + 1;
    }
  }

  /** The third loop of `relativePath`: each remaining component behind a
    * backslash. */
  method GoDown(head: string, parts: seq<string>) returns (newPath: string)
    ensures newPath == head + Down(parts)
  {
    newPath := head;
    var i := 0;
    while i < |parts|
      invariant 0 <= i <= |parts|
      invariant newPath == head + Down(parts[..i])
    {
      newPath := newPath + "\\";
      newPath := newPath + parts[i];
      assert parts[..i + 1][..i] == parts[..i];
      Append3(head, Down(parts[..i]), "\\");
      Append3(head, Down(parts[..i]) + "\\", parts[i]);
      i := i + 1;
    }
    assert parts[..i] == parts;
  }

  /** `relativePath`: counts the shared leading components, then builds the
    * way up and the way down. */
  method RelativePath(mainDirPath: string, absoluteFilePath: string) returns (r: string)
    ensures r == RelativePathOf(mainDirPath, absoluteFilePath)
  {
    var firstPathParts := Parts(mainDirPath);
    var secondPathParts := Parts(absoluteFilePath);
    var sameCounter := CountCommon(firstPathParts, secondPathParts);
    if sameCounter == 0 {
      return absoluteFilePath;
    }
    var newPath := ClimbUp(sameCounter, |firstPathParts|);
    if |newPath| == 0 {
      newPath := ".";
    }
    assert |firstPathParts| > sameCounter ==> |Ups(|firstPathParts| - sameCounter)| > 0;
    r := GoDown(newPath, secondPathParts[sameCounter..]);
  }

  // ---------------------------------------------------------------------
  // Ice libraries in the C++ linker settings
  // ---------------------------------------------------------------------

  /** The Ice components that have a C++ library. */
  const CppNames: seq<string> :=
    ["Freeze", "Glacier2", "Ice", "IceBox", "IceGrid", "IcePatch2", "IceSSL", "IceStorm", "IceUtil"]

  /** A component's library: its name, `d` for the debug build, `.lib`. */
  function LibName(component: string, debug: bool): string
  {
    component + (if debug then "d" else "") + ".lib"
  }

  /** The linker settings of a C++ project; a missing dependency list is
    * the empty string. */
  class LinkerTool {
    var additionalDependencies: string

    constructor(deps: string)
      ensures additionalDependencies == deps
    {
      additionalDependencies := deps;
    }
  }

  /** The entries of a space-separated dependency list, as the `string[]`
    * constructor reads them. */
  function DependencyItems(deps: string): seq<string>
  {
    ValuesItems(Split(deps, ' '))
  }

  /** `addCppLib` on the dependency list: nothing for an empty or unknown
    * component (the name must match exactly) or a library already listed;
    * otherwise the list is rewritten with the library at its end. */
  function AddedCppLib(deps: string, component: string, debug: bool): string
  {
    if component == "" || component !in CppNames then deps
    else
      var items := DependencyItems(deps);
      var lib := LibName(component, debug);
      if ContainsIgnoreCase(items, lib) then deps else Joined(Added(items, lib), ' ')
  }

  /** `removeCppLib` on the dependency list: nothing for an empty list, a
    * component that is no Ice component even ignoring case, or a library
    * not listed; otherwise its first listing is removed and the list
    * rewritten. */
  function RemovedCppLib(deps: string, component: string, debug: bool): string
  {
    if deps == "" || !exists k :: 0 <= k < |CppNames| && EqualsIgnoreCase(CppNames[k], component) then deps
    else
      var items := DependencyItems(deps);
      var lib := LibName(component, debug);
      if ContainsIgnoreCase(items, lib) then Joined(Removed(items, lib), ' ') else deps
  }

  /** `addCppLib`. */
  method AddCppLib(tool: LinkerTool?, component: string, debug: bool)
    modifies tool
    ensures tool != null ==>
              tool.additionalDependencies == AddedCppLib(old(tool.additionalDependencies), component, debug)
  {
    if tool == null || component == "" {
      return;
    }
    if component !in CppNames {
      return;
    }
    var libName := LibName(component, debug);
    var additionalDependencies := tool.additionalDependencies;
    var components := new ComponentList.FromValues(Split(additionalDependencies, ' '));
    var contained := components.Contains(libName);
    if !contained {
      components.Add(libName);
      additionalDependencies := components.ToString(' ');
      tool.additionalDependencies := additionalDependencies;
    }
  }

  /** The search of `removeCppLib` for the component among the Ice
    * components, ignoring case. */
  method IsKnownComponent(component: string) returns (known: bool)
    ensures known <==> exists j :: 0 <= j < |CppNames| && EqualsIgnoreCase(CppNames[j], component)
  {
    known := false;
    var k := 0;
    while k < |CppNames| && !known
      invariant 0 <= k <= |CppNames|
      invariant known <==> exists j :: 0 <= j < k && EqualsIgnoreCase(CppNames[j], component)
    {
      known := EqualsIgnoreCase(CppNames[k], component);
      k := k + 1;
    }
  }

  /** `removeCppLib`. */
  method RemoveCppLib(tool: LinkerTool?, component: string, debug: bool)
    modifies tool
    ensures tool != null ==>
              tool.additionalDependencies == RemovedCppLib(old(tool.additionalDependencies), component, debug)
  {
    if tool == null || tool.additionalDependencies == "" {
      return;
    }
    var known := IsKnownComponent(component);
    if !known {
      return;
    }
    var libName := LibName(component, debug);
    RemovedCppLibRewrites(tool.additionalDependencies, component, debug);
    var components := new ComponentList.FromValues(Split(tool.additionalDependencies, ' '));
    var contained := components.Contains(libName);
    if contained {
      components.Remove(libName);
      tool.additionalDependencies := components.ToString(' ');
    }
  }

  /** A component's library name is not empty, holds no space and has no
    * white space at its ends. */
  lemma LibNameFacts(component: string, debug: bool)
    requires component in CppNames
    ensures var lib := LibName(component, debug);
            lib != "" && ' ' !in lib && TrimmedBy(lib, IsWhiteSpace) && Trim(lib) == lib
  {
    var lib := LibName(component, debug);
    assert ' ' !in component && component != [] && !IsWhiteSpace(component[0]);
    assert lib == component + ((if debug then "d" else "") + ".lib");
    assert lib[|lib| - 1] == 'b';
  }

  /** No entry holds a space. */
  predicate SpaceFree(items: seq<string>)
  {
    forall k :: 0 <= k < |items| ==> ' ' !in items[k]
  }

  /** What a dependency list read from text always is. */
  predicate WellFormed(items: seq<string>)
  {
    Distinct(items) && AllTrimmed(items) && SpaceFree(items)
  }

  /** The list read from a dependency string holds no repeats, no untrimmed
    * entry and no space, and has at least one entry. */
  lemma {:induction false} ValuesItemsWellFormed(values: seq<string>)
    requires SpaceFree(values)
    ensures WellFormed(ValuesItems(values))
    ensures values != [] ==> ValuesItems(values) != []
  {
    if values != [] {
      var init := values[..|values| - 1];
      var last := values[|values| - 1];
      assert SpaceFree(init) by {
        assert forall k :: 0 <= k < |init| ==> init[k] == values[k];
      }
      ValuesItemsWellFormed(init);
      var items := ValuesItems(init);
      AddedKeepsDistinct(items, last);
      assert ' ' !in last;
      AddedSpaceFree(items, last);
      assert ValuesItems(values) == Added(items, last);
    }
  }

  /** Adding a value without spaces keeps a list free of spaces. */
  lemma AddedSpaceFree(items: seq<string>, v: string)
    requires SpaceFree(items) && ' ' !in v
    ensures SpaceFree(Added(items, v))
  {
    var r := Added(items, v);
    if r != items {
      assert r == items + [Trim(v)];
      assert ' ' !in Trim(v);
      assert forall k :: 0 <= k < |items| ==> r[k] == items[k];
    }
  }

  lemma DependencyItemsWellFormed(deps: string)
    ensures DependencyItems(deps) != [] && WellFormed(DependencyItems(deps))
  {
    ValuesItemsWellFormed(Split(deps, ' '));
  }

  /** Appending a trimmed, space-free entry that is not listed keeps a list
    * well formed. */
  lemma AppendWellFormed(items: seq<string>, v: string)
    requires WellFormed(items) && v !in items && TrimmedBy(v, IsWhiteSpace) && ' ' !in v
    ensures WellFormed(items + [v])
  {
    var l := items + [v];
    assert forall k :: 0 <= k < |items| ==> l[k] == items[k];
  }

  /** A non-empty value not contained in a list is found at the end of the
    * list extended with it. */
  lemma FindAppended(items: seq<string>, v: string)
    requires v != "" && !ContainsIgnoreCase(items, v)
    ensures v !in items
    ensures FindIgnoreCase(items + [v], v) == Some(|items|)
    ensures ContainsIgnoreCase(items + [v], v)
  {
    ContainsMeaning(items, v);
    var l := items + [v];
    assert EqualsIgnoreCase(l[|items|], v);
    assert forall k :: 0 <= k < |items| ==> l[k] == items[k];
  }

  /** After `addCppLib` for an Ice component, the library is listed, and a
    * second `addCppLib` changes nothing. */
  lemma AddCppLibIdempotent(deps: string, component: string, debug: bool)
    ensures component in CppNames ==>
              ContainsIgnoreCase(DependencyItems(AddedCppLib(deps, component, debug)), LibName(component, debug))
    ensures AddedCppLib(AddedCppLib(deps, component, debug), component, debug) == AddedCppLib(deps, component, debug)
  {
    if component !in CppNames {
      assert AddedCppLib(deps, component, debug) == deps;
    } else {
      var items := DependencyItems(deps);
      var lib := LibName(component, debug);
      LibNameFacts(component, debug);
      if ContainsIgnoreCase(items, lib) {
        assert AddedCppLib(deps, component, debug) == deps;
        assert ContainsIgnoreCase(DependencyItems(AddedCppLib(deps, component, debug)), lib);
      } else {
        AddedDependencies(deps, component, debug);
        var added := AddedCppLib(deps, component, debug);
        assert DependencyItems(added) == items + [lib];
        assert ContainsIgnoreCase(DependencyItems(added), lib);
        assert AddedCppLib(added, component, debug) == added;
      }
    }
  }

  /** Adding a library that is not listed rewrites the list with the
    * library at its end, and reading the new text gives back that list. */
  lemma AddedDependencies(deps: string, component: string, debug: bool)
    requires component in CppNames
    requires !ContainsIgnoreCase(DependencyItems(deps), LibName(component, debug))
    ensures var items := DependencyItems(deps);
            var lib := LibName(component, debug);
            && AddedCppLib(deps, component, debug) == Joined(items + [lib], ' ')
            && DependencyItems(AddedCppLib(deps, component, debug)) == items + [lib]
            && ContainsIgnoreCase(items + [lib], lib)
            && FindIgnoreCase(items + [lib], lib) == Some(|items|)
  {
    var items := DependencyItems(deps);
    var lib := LibName(component, debug);
    LibNameFacts(component, debug);
    DependencyItemsWellFormed(deps);
    FindAppended(items, lib);
    var l := items + [lib];
    AddedCppLibAppends(deps, component, debug);
    AppendWellFormed(items, lib);
    ValuesJoinedRoundTrip(l);
  }

  lemma AddedCppLibAppends(deps: string, component: string, debug: bool)
    requires component in CppNames
    requires LibName(component, debug) !in DependencyItems(deps)
    requires !ContainsIgnoreCase(DependencyItems(deps), LibName(component, debug))
    ensures AddedCppLib(deps, component, debug) == Joined(DependencyItems(deps) + [LibName(component, debug)], ' ')
  {
    var items := DependencyItems(deps);
    var lib := LibName(component, debug);
    LibNameFacts(component, debug);
    AddedCppLibRewrites(deps, component, debug);
    AddedAbsent(items, lib);
  }

  /** For an Ice component whose library is not listed, `addCppLib`
    * rewrites the list with the library added. */
  lemma AddedCppLibRewrites(deps: string, component: string, debug: bool)
    requires component in CppNames
    requires !ContainsIgnoreCase(DependencyItems(deps), LibName(component, debug))
    ensures AddedCppLib(deps, component, debug) == Joined(Added(DependencyItems(deps), LibName(component, debug)), ' ')
  {
    CppNameNotEmpty(component);
  }

  /** No Ice component is named by the empty string. */
  lemma CppNameNotEmpty(component: string)
    requires component in CppNames
    ensures component != ""
  {
  }

  /** A trimmed value not yet listed is appended. */
  lemma AddedAbsent(items: seq<string>, v: string)
    requires v !in items && Trim(v) == v
    ensures Added(items, v) == items + [v]
  {
  }

  /** Removing a library just added gives back the list as it was read,
    * written out again. */
  lemma RemoveCppLibUndoesAdd(deps: string, component: string, debug: bool)
    requires component in CppNames
    requires !ContainsIgnoreCase(DependencyItems(deps), LibName(component, debug))
    ensures RemovedCppLib(AddedCppLib(deps, component, debug), component, debug)
            == Joined(DependencyItems(deps), ' ')
  {
    var items := DependencyItems(deps);
    var lib := LibName(component, debug);
    var added := AddedCppLib(deps, component, debug);
    AddedDependencies(deps, component, debug);
    LibNameFacts(component, debug);
    var l := items + [lib];
    JoinedEndsWithLast(l, ' ');
    KnownIgnoringCase(component);
    RemovedCppLibRewrites(added, component, debug);
    RemovedAppended(items, lib);
  }

  /** For a non-empty list and a component that names an Ice component
    * ignoring case, `removeCppLib` rewrites the list with the library
    * removed when it is listed, and leaves the list alone otherwise. */
  lemma RemovedCppLibRewrites(deps: string, component: string, debug: bool)
    requires deps != ""
    requires exists k :: 0 <= k < |CppNames| && EqualsIgnoreCase(CppNames[k], component)
    ensures var items := DependencyItems(deps);
            var lib := LibName(component, debug);
            RemovedCppLib(deps, component, debug)
            == if ContainsIgnoreCase(items, lib) then Joined(Removed(items, lib), ' ') else deps
  {
  }

  /** The text of a list is at least as long as its last entry. */
  lemma JoinedEndsWithLast(items: seq<string>, sep: char)
    requires items != []
    ensures |Joined(items, sep)| >= |items[|items| - 1]|
  {
  }

  /** Removing a value appended to a list that did not contain it gives
    * back the list. */
  lemma RemovedAppended(items: seq<string>, v: string)
    requires v != "" && !ContainsIgnoreCase(items, v)
    ensures Removed(items + [v], v) == items
  {
    var l := items + [v];
    FindAppended(items, v);
    RemovedIsFirstMatch(l, v);
    assert l[..|items|] == items && l[|items| + 1..] == [];
  }

  /** An Ice component matches itself ignoring case. */
  lemma KnownIgnoringCase(component: string)
    requires component in CppNames
    ensures exists k :: 0 <= k < |CppNames| && EqualsIgnoreCase(CppNames[k], component)
  {
    var k :| 0 <= k < |CppNames| && CppNames[k] == component;
    assert EqualsIgnoreCase(CppNames[k], component);
  }
}
