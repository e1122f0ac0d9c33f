/** The marshalling buffer of cpp/include/Ice/OutputStream.h: a growing byte
  * vector `b` that primitives append to, placeholders that are written first
  * and patched later, and a chain of open encapsulations. */
module Stream {
  import opened Basics

  /** A Slice encoding version, written on the wire as two bytes. */
  datatype EncodingVersion = EncodingVersion(major: byte, minor: byte)

  datatype FormatType = DefaultFormat | CompactFormat | SlicedFormat

  /** One open encapsulation: where its size placeholder starts and how it is encoded. */
  datatype Encaps = Encaps(start: nat, encoding: EncodingVersion, format: FormatType)

  datatype StreamError = UnsupportedEncoding(bad: EncodingVersion) | EncapsulationError

  /** The encodings this stream knows how to produce (1.0 and 1.1). */
  predicate SupportedEncoding(e: EncodingVersion)
  {
    e.major == 1 && e.minor <= 1
  }

  // ---------------------------------------------------------------------
  // Wire encodings (the specification of what the writers append)
  // ---------------------------------------------------------------------

  /** The four bytes of a 32-bit int, least significant first. */
  function IntBytes(v: int): (r: seq<byte>)
    ensures |r| == 4
  {
    var u := v % TwoTo32;
    [u % 256, (u / 256) % 256, (u / 65536) % 256, u / 16777216]
  }

  /** The unsigned value of four little-endian bytes. */
  function Unsigned(s: seq<byte>): (r: int)
    requires |s| == 4
    ensures 0 <= r < TwoTo32
  {
    s[0] as int + 256 * (s[1] as int) + 65536 * (s[2] as int) + 16777216 * (s[3] as int)
  }

  /** Reads back a 32-bit int from four little-endian bytes. */
  function DecodeInt(s: seq<byte>): (r: int32)
    requires |s| == 4
  {
    var u := Unsigned(s);
    if u > MaxInt32 then u - TwoTo32 else u
  }

  lemma {:induction false} IntRoundTrip(v: int)
    requires IsInt32(v)
    ensures DecodeInt(IntBytes(v)) == v
  {
    var u := v % TwoTo32;
    var s := IntBytes(v);
    assert Unsigned(s) == u by {
      var q0 := u / 256;
      var q1 := q0 / 256;
      assert u == u % 256 + 256 * q0;
      assert q0 == q0 % 256 + 256 * q1;
      assert q1 == q1 % 256 + 256 * (q1 / 256);
      assert q1 / 256 == u / 16777216;
      assert q0 % 256 == (u / 256) % 256;
      assert q1 % 256 == (u / 65536) % 256 by {
        assert q1 == u / 65536;
      }
    }
    if v >= 0 {
      assert u == v;
    } else {
      assert u == v + TwoTo32;
    }
  }

  /** Two distinct 32-bit ints never share an encoding. */
  lemma IntBytesInjective(v: int, w: int)
    requires IsInt32(v) && IsInt32(w) && IntBytes(v) == IntBytes(w)
    ensures v == w
  {
    IntRoundTrip(v);
    IntRoundTrip(w);
  }

  /** Sizes up to 254 take one byte; larger sizes take the marker 255 and an int. */
  function SizeBytes(v: nat): (r: seq<byte>)
    ensures |r| == (if v > 254 then 5 else 1)
  {
    if v > 254 then [255] + IntBytes(v) else [v]
  }

  /** The reading rule for sizes: the value and the number of bytes it took,
    * or None when the bytes are truncated or the size is negative. */
  function DecodeSize(s: seq<byte>): (r: Option<(int, nat)>)
    ensures r.Some? ==> r.value.0 >= 0 && r.value.1 <= |s|
  {
    if |s| == 0 then None
    else if s[0] != 255 then Some((s[0], 1))
    else if |s| < 5 then None
    else
      var v := DecodeInt(s[1..5]);
      if v < 0 then None else Some((v, 5))
  }

  lemma SizeRoundTrip(v: nat, rest: seq<byte>)
    requires v <= MaxInt32
    ensures DecodeSize(SizeBytes(v) + rest) == Some((v, |SizeBytes(v)|))
  {
    var s := SizeBytes(v) + rest;
    if v > 254 {
      assert s[1..5] == IntBytes(v);
      IntRoundTrip(v);
    }
  }

  /** The bytes of a sequence of ints: the count, then each element in order. */
  function IntSeqBytes(v: seq<int32>): (r: seq<byte>)
    ensures |r| == |SizeBytes(|v|)| + 4 * |v|
  {
    SizeBytes(|v|) + IntsBody(v)
  }

  /** The elements of an int sequence, each as four little-endian bytes. */
  function IntsBody(v: seq<int32>): (r: seq<byte>)
    ensures |r| == 4 * |v|
  {
    if |v| == 0 then [] else IntsBody(v[..|v| - 1]) + IntBytes(v[|v| - 1])
  }

  /** Element i of an int sequence sits at bytes 4i .. 4i+4 of its body. */
  lemma {:induction false} IntsBodyAt(v: seq<int32>, i: nat)
    requires i < |v|
    ensures IntsBody(v)[4 * i .. 4 * i + 4] == IntBytes(v[i])
  {
    if i < |v| - 1 {
      var init := v[..|v| - 1];
      IntsBodyAt(init, i);
      assert init[i] == v[i];
      assert IntsBody(v)[4 * i .. 4 * i + 4] == IntsBody(init)[4 * i .. 4 * i + 4];
    }
  }

  /** A string written without a converter: its size, then its raw bytes. */
  function StringBytes(v: seq<byte>): (r: seq<byte>)
    ensures |r| == |SizeBytes(|v|)| + |v|
  {
    SizeBytes(|v|) + v
  }

  /** The memory layout of an `Int` on a host of the given byte order. */
  function HostLayout(v: int, bigEndian: bool): (r: seq<byte>)
    ensures |r| == 4
  {
    var le := IntBytes(v);
    if bigEndian then [le[3], le[2], le[1], le[0]] else le
  }

  /** Splices `w` into `s` at `p`, overwriting |w| bytes. */
  function Patch(s: seq<byte>, p: nat, w: seq<byte>): (r: seq<byte>)
    requires p + |w| <= |s|
    ensures |r| == |s|
    ensures r[p .. p + |w|] == w
    ensures forall k :: 0 <= k < |s| && !(p <= k < p + |w|) ==> r[k] == s[k]
  {
    s[..p] + w + s[p + |w|..]
  }

  /** Setting one byte is patching it with a one-byte sequence. */
  lemma PatchByte(s: seq<byte>, p: nat, x: byte)
    requires p < |s|
    ensures s[p := x] == Patch(s, p, [x])
  {
    assert forall k :: 0 <= k < |s| ==> s[p := x][k] == Patch(s, p, [x])[k];
  }

  /** Patching a byte and then the bytes after it is one patch. */
  lemma PatchThen(s: seq<byte>, p: nat, x: byte, w: seq<byte>)
    requires p + 1 + |w| <= |s|
    ensures Patch(s[p := x], p + 1, w) == Patch(s, p, [x] + w)
  {
    var l := Patch(s[p := x], p + 1, w);
    var r := Patch(s, p, [x] + w);
    assert r[p + 1 .. p + 1 + |w|] == ([x] + w)[1..] == w;
    assert forall k :: p + 1 <= k < p + 1 + |w| ==> r[k] == w[k - p - 1];
    assert forall k :: p + 1 <= k < p + 1 + |w| ==> l[k] == w[k - p - 1];
    assert forall k :: 0 <= k < |s| ==> l[k] == r[k];
  }

  // ---------------------------------------------------------------------
  // The stream
  // ---------------------------------------------------------------------

  class OutputStream {
    /** The marshalled bytes. */
    var b: seq<byte>
    /** The open encapsulations, outermost first (the `previous` chain, reversed). */
    var encaps: seq<Encaps>
    /** Whether the host stores an `Int` most significant byte first. */
    const bigEndian: bool

    /** Each open encapsulation's size and version fields lie inside the buffer,
      * and inner encapsulations start after outer ones. */
    predicate Valid()
      reads this
    {
      (forall k :: 0 <= k < |encaps| ==> encaps[k].start + 6 <= |b|) &&
      (forall k :: 0 < k < |encaps| ==> encaps[k - 1].start + 6 <= encaps[k].start)
    }

    constructor(bigEndianHost: bool)
      ensures Valid() && b == [] && encaps == [] && bigEndian == bigEndianHost
    {
      b := [];
      encaps := [];
      bigEndian := bigEndianHost;
    }

    /** Appending bytes keeps every open encapsulation inside the buffer. */
    lemma GrowKeepsValid(old_b: seq<byte>)
      requires |old_b| <= |b|
      requires forall k :: 0 <= k < |encaps| ==> encaps[k].start + 6 <= |old_b|
      requires forall k :: 0 < k < |encaps| ==> encaps[k - 1].start + 6 <= encaps[k].start
      ensures Valid()
    {
    }

    method WriteByte(v: byte)
      requires Valid()
      modifies this
      ensures Valid() && b == old(b) + [v] && encaps == old(encaps)
    {
      b := b + [v];
    }

    method WriteBool(v: bool)
      requires Valid()
      modifies this
      ensures Valid() && b == old(b) + [if v then 1 else 0] && encaps == old(encaps)
    {
      b := b + [if v then 1 else 0];
    }

    /** `write(Int, iterator)`: copies the host layout of `v` into b[dest..dest+4],
      * reversing it on a big-endian host, so the result is little-endian either way. */
    method WriteIntAt(v: int32, dest: nat)
      requires Valid() && dest + 4 <= |b|
      modifies this
      ensures Valid() && encaps == old(encaps)
      ensures b == Patch(old(b), dest, IntBytes(v))
    {
      var src := HostLayout(v, bigEndian);
      if bigEndian {
        b := b[dest := src[3]];
        b := b[dest + 1 := src[2]];
        b := b[dest + 2 := src[1]];
        b := b[dest + 3 := src[0]];
      } else {
        b := b[dest := src[0]];
        b := b[dest + 1 := src[1]];
        b := b[dest + 2 := src[2]];
        b := b[dest + 3 := src[3]];
      }
      assert b == Patch(old(b), dest, IntBytes(v));
    }

    /** `write(Int)`: grows the buffer by four bytes and fills them. */
    method WriteInt(v: int32)
      requires Valid()
      modifies this
      ensures Valid() && encaps == old(encaps)
      ensures b == old(b) + IntBytes(v)
    {
      var position := |b|;
      b := b + [0, 0, 0, 0];
      WriteIntAt(v, position);
    }

    /** `rewrite(value, p)`: overwrites the four bytes at p. */
    method Rewrite(v: int32, p: nat)
      requires Valid() && p + 4 <= |b|
      modifies this
      ensures Valid() && encaps == old(encaps)
      ensures b == Patch(old(b), p, IntBytes(v))
    {
      WriteIntAt(v, p);
    }

    /** `writeSize`: one byte for 0..254, otherwise 255 followed by the int. */
    method WriteSize(v: int32)
      requires Valid() && v >= 0
      modifies this
      ensures Valid() && encaps == old(encaps)
      ensures b == old(b) + SizeBytes(v)
      ensures DecodeSize(b[|old(b)|..]) == Some((v as int, |b| - |old(b)|))
    {
      if v > 254 {
        WriteByte(255);
        WriteInt(v);
      } else {
        WriteByte(v);
      }
      assert b[|old(b)|..] == SizeBytes(v) + [];
      SizeRoundTrip(v, []);
    }

    /** `rewriteSize`: the same encoding as `writeSize`, in place at `dest`. */
    method RewriteSize(v: int32, dest: nat)
      requires Valid() && v >= 0 && dest + |SizeBytes(v)| <= |b|
      modifies this
      ensures Valid() && encaps == old(encaps)
      ensures b == Patch(old(b), dest, SizeBytes(v))
    {
      if v > 254 {
        PatchThen(b, dest, 255, IntBytes(v));
        b := b[dest := 255];
        WriteIntAt(v, dest + 1);
      } else {
        PatchByte(b, dest, v as byte);
        b := b[dest := v];
      }
    }

    /** `startSize`: a four-byte placeholder; returns where it starts. */
    method StartSize() returns (position: nat)
      requires Valid()
      modifies this
      ensures Valid() && encaps == old(encaps)
      ensures position == |old(b)| && b == old(b) + IntBytes(0)
    {
      position := |b|;
      WriteInt(0);
    }

    /** `endSize`: patches the placeholder at `position` with the number of
      * bytes written after it (wrapping like the C++ cast to `Int`). */
    method EndSize(position: nat)
      requires Valid() && position + 4 <= |b|
      modifies this
      ensures Valid() && encaps == old(encaps)
      ensures b == Patch(old(b), position, IntBytes(|old(b)| - position - 4))
      ensures |old(b)| - position - 4 <= MaxInt32 ==>
                DecodeInt(b[position .. position + 4]) == |old(b)| - position - 4
    {
      var n := Wrap32(|b| - position - 4);
      Rewrite(n, position);
      assert IntBytes(n) == IntBytes(|old(b)| - position - 4);
      if |old(b)| - position - 4 <= MaxInt32 {
        IntRoundTrip(|old(b)| - position - 4);
      }
    }

    /** `write(EncodingVersion)`: major then minor. */
    method WriteEncoding(e: EncodingVersion)
      requires Valid()
      modifies this
      ensures Valid() && encaps == old(encaps)
      ensures b == old(b) + [e.major, e.minor]
    {
      WriteByte(e.major);
      WriteByte(e.minor);
    }

    /** `startEncapsulation`: opens an encapsulation at the current end of the
      * buffer, writing a zero size placeholder and the encoding. */
    method StartEncapsulation(e: EncodingVersion, format: FormatType)
      returns (r: Status<StreamError>)
      requires Valid()
      modifies this
      ensures Valid()
      ensures !SupportedEncoding(e) ==>
                r == Raised(UnsupportedEncoding(e)) && b == old(b) && encaps == old(encaps)
      ensures SupportedEncoding(e) ==>
                r == Done && b == old(b) + IntBytes(0) + [e.major, e.minor] &&
                encaps == old(encaps) + [Encaps(|old(b)|, e, format)]
    {
      if !SupportedEncoding(e) {
        return Raised(UnsupportedEncoding(e));
      }
      var start := |b|;
      WriteInt(0);
      WriteEncoding(e);
      encaps := encaps + [Encaps(start, e, format)];
      r := Done;
    }

    /** `endEncapsulation`: patches the innermost size placeholder with the
      * number of bytes since the encapsulation started, size and encoding
      * fields included, and returns to the enclosing encapsulation. */
    method EndEncapsulation()
      requires Valid() && |encaps| > 0
      modifies this
      ensures Valid()
      ensures encaps == old(encaps)[..|old(encaps)| - 1]
      ensures var start := old(encaps)[|old(encaps)| - 1].start;
              b == Patch(old(b), start, IntBytes(|old(b)| - start)) &&
              (|old(b)| - start <= MaxInt32 ==> DecodeInt(b[start .. start + 4]) == |old(b)| - start)
    {
      var start := encaps[|encaps| - 1].start;
      var sz := Wrap32(|b| - start);
      Rewrite(sz, start);
      assert IntBytes(sz) == IntBytes(|old(b)| - start);
      if |old(b)| - start <= MaxInt32 {
        IntRoundTrip(|old(b)| - start);
      }
      encaps := encaps[..|encaps| - 1];
    }

    /** `writeEmptyEncapsulation`: size 6, then the encoding. */
    method WriteEmptyEncapsulation(e: EncodingVersion) returns (r: Status<StreamError>)
      requires Valid()
      modifies this
      ensures Valid() && encaps == old(encaps)
      ensures !SupportedEncoding(e) ==> r == Raised(UnsupportedEncoding(e)) && b == old(b)
      ensures SupportedEncoding(e) ==> r == Done && b == old(b) + IntBytes(6) + [e.major, e.minor]
    {
      if !SupportedEncoding(e) {
        return Raised(UnsupportedEncoding(e));
      }
      WriteInt(6);
      WriteEncoding(e);
      r := Done;
    }

    /** `writeEncapsulation(v, sz)`: copies an already marshalled encapsulation,
      * refusing one shorter than its own size and version fields. */
    method WriteEncapsulation(v: seq<byte>, sz: int32) returns (r: Status<StreamError>)
      requires Valid() && sz <= |v|
      modifies this
      ensures Valid() && encaps == old(encaps)
      ensures sz < 6 ==> r == Raised(EncapsulationError) && b == old(b)
      ensures sz >= 6 ==> r == Done && b == old(b) + v[..sz]
    {
      if sz < 6 {
        return Raised(EncapsulationError);
      }
      b := b + v[..sz];
      r := Done;
    }

    /** `writeBlob`: appends raw bytes. */
    method WriteBlob(v: seq<byte>)
      requires Valid()
      modifies this
      ensures Valid() && encaps == old(encaps)
      ensures b == old(b) + v
    {
      if |v| > 0 {
        b := b + v;
      }
    }

    /** `write(const vector<Int>&)` and the range write behind it: the size,
      * then every element in order. */
    method WriteIntSeq(v: seq<int32>)
      requires Valid() && |v| <= MaxInt32
      modifies this
      ensures Valid() && encaps == old(encaps)
      ensures b == old(b) + IntSeqBytes(v)
    {
      if |v| == 0 {
        WriteSize(0);
        return;
      }
      WriteSize(|v|);
      var i := 0;
      while i < |v|
        invariant 0 <= i <= |v|
        invariant Valid() && encaps == old(encaps)
        invariant b == old(b) + SizeBytes(|v|) + IntsBody(v[..i])
      {
        WriteInt(v[i]);
        assert v[..i + 1][..i] == v[..i];
        i := i + 1;
      }
      assert v[..i] == v;
    }

    /** `write(const string&)` when no string converter applies: the size,
      * then the raw bytes. */
    method WriteString(v: seq<byte>)
      requires Valid() && |v| <= MaxInt32
      modifies this
      ensures Valid() && encaps == old(encaps)
      ensures b == old(b) + StringBytes(v)
    {
      WriteSize(|v|);
      if |v| > 0 {
        b := b + v;
      }
    }

    /** `write(tag, Optional<Int>)`: an unset optional writes nothing; a set
      * one is written only when `writeOpt` accepts the tag (`accepted` is
      * that answer: the 1.0 encoder always refuses, and what decides it in
      * the 1.1 encoder is not part of this model), and then as its tag
      * header in the `F4` format followed by the four value bytes. */
    method WriteOptionalInt(tag: int32, v: Option<int32>, accepted: bool)
      requires Valid() && tag >= 0
      modifies this
      ensures Valid() && encaps == old(encaps)
      ensures v.None? || !accepted ==> b == old(b)
      ensures v.Some? && accepted ==> b == old(b) + OptionalHeader(tag, FormatF4) + IntBytes(v.value)
    {
      if v.None? {
        return;
      }
      if accepted {
        if tag < 30 {
          WriteByte(tag * 8 + FormatF4);
        } else {
          WriteByte(0xF0 + FormatF4);
          WriteSize(tag);
        }
        WriteInt(v.value);
      }
    }
  }

  /** The optional format of a four-byte value (`OptionalFormatF4`). */
  const FormatF4: byte := 2

  /** The tag header of an optional value in version 1.1 of the Ice
    * encoding: for a tag below 30, one byte with the tag in its upper five
    * bits and the format in the lower three; otherwise the byte 0xF0 with
    * the format, then the tag as a size. */
  function OptionalHeader(tag: int32, format: byte): seq<byte>
    requires tag >= 0 && format < 8
  {
    if tag < 30 then [tag * 8 + format] else [0xF0 + format] + SizeBytes(tag)
  }

  /** The reading rule for a tag header: the tag, the format and the number
    * of bytes the header took; the tag 30 says the real tag follows as a
    * size. */
  function DecodeOptionalHeader(s: seq<byte>): (r: Option<(int, int, nat)>)
    ensures r.Some? ==> 0 <= r.value.0 && 0 <= r.value.1 < 8 && 0 < r.value.2 <= |s|
  {
    if s == [] then None
    else
      var tag := s[0] / 8;
      var format := s[0] % 8;
      if tag != 30 then Some((tag, format, 1))
      else
        match DecodeSize(s[1..])
        case None => None
        case Some((t, n)) => Some((t, format, 1 + n))
  }

  /** A tag header reads back as its tag and format, whatever follows it. */
  lemma OptionalHeaderRoundTrip(tag: int32, format: byte, rest: seq<byte>)
    requires tag >= 0 && format < 8
    ensures DecodeOptionalHeader(OptionalHeader(tag, format) + rest)
         == Some((tag as int, format as int, |OptionalHeader(tag, format)|))
  {
    var s := OptionalHeader(tag, format) + rest;
    if tag >= 30 {
      assert s[0] / 8 == 30 && s[0] % 8 == format;
      assert s[1..] == SizeBytes(tag) + rest;
      SizeRoundTrip(tag, rest);
    } else {
      assert s[0] / 8 == tag && s[0] % 8 == format;
    }
  }

  /** A set optional `Int` reads back: its header gives the tag and the
    * format `F4`, and the four bytes after the header are the value. */
  lemma OptionalIntRoundTrip(tag: int32, v: int32, rest: seq<byte>)
    requires tag >= 0
    ensures var h := OptionalHeader(tag, FormatF4);
            var s := h + IntBytes(v) + rest;
            && DecodeOptionalHeader(s) == Some((tag as int, FormatF4 as int, |h|))
            && DecodeInt(s[|h|..|h| + 4]) == v
  {
    var h := OptionalHeader(tag, FormatF4);
    var s := h + IntBytes(v) + rest;
    assert s == h + (IntBytes(v) + rest);
    OptionalHeaderRoundTrip(tag, FormatF4, IntBytes(v) + rest);
    assert s[|h|..|h| + 4] == IntBytes(v);
    IntRoundTrip(v);
  }

  /** Every element of a marshalled int sequence reads back from its slot. */
  lemma IntSeqReadsBack(v: seq<int32>, i: nat)
    requires i < |v| <= MaxInt32
    ensures var off := |SizeBytes(|v|)| + 4 * i;
            DecodeInt(IntSeqBytes(v)[off .. off + 4]) == v[i]
  {
    var off := |SizeBytes(|v|)| + 4 * i;
    IntsBodyAt(v, i);
    assert IntSeqBytes(v)[off .. off + 4] == IntsBody(v)[4 * i .. 4 * i + 4];
    IntRoundTrip(v[i]);
  }

  /** The size prefix of a marshalled sequence reads back as its length. */
  lemma IntSeqSizeReadsBack(v: seq<int32>)
    requires |v| <= MaxInt32
    ensures DecodeSize(IntSeqBytes(v)) == Some((|v|, |SizeBytes(|v|)|))
  {
    SizeRoundTrip(|v|, IntsBody(v));
  }
}
