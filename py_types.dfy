/** The Python type descriptions of IcePy (`py/modules/IcePy/Types.cpp`):
  * which Python values each Slice type accepts, the calls each type makes on
  * an output stream to marshal a value and on an input stream to read one
  * back, and the global tables of class, proxy and exception descriptions.
  *
  * A stream is modelled at the level Types.cpp talks to it: the sequence
  * of typed writes (`writeByte`, `writeShort`, `writeSize`, ...) it
  * receives, which the input stream hands back in the same order. The C
  * `long` is 64 bits wide (an LP64 platform). */
module IcePyTypes {
  import opened Basics

  const MinShort: int := -0x8000
  const MaxShort: int := 0x7fff
  const MinLong: int := -0x8000_0000_0000_0000
  const MaxLong: int := 0x7fff_ffff_ffff_ffff

  /** A C `long`, and so a Python 2 `int`. */
  type clong = v: int | MinLong <= v <= MaxLong

  /** A Python value as the type descriptions see it. A float is a handle
    * with its truth value; an enumerator carries its class's type id and
    * its `value` attribute, if it has one; any other object is known by
    * its truth value, or by the error its truth test raises. */
  datatype PyValue =
    | PyNone
    | PyBool(b: bool)
    | PyInt(i: clong)
    | PyLong(n: int)
    | PyFloat(handle: nat, nonzero: bool)
    | PyStr(s: string)
    | PySeq(items: seq<PyValue>)
    | PyDict(entries: seq<(PyValue, PyValue)>)
    | PyEnumerator(typeId: string, value: Option<PyValue>)
    | PyObj(truth: Option<bool>)

  datatype PrimitiveKind =
    KindBool | KindByte | KindShort | KindInt | KindLong | KindFloat | KindDouble | KindString

  /** The type descriptions the marshalling code recurses through. An
    * enumeration is known by its id and its number of enumerators. */
  datatype TypeInfo =
    | Primitive(kind: PrimitiveKind)
    | Enum(id: string, count: nat)
    | Sequence(id: string, element: TypeInfo)
    | Dictionary(id: string, key: TypeInfo, value: TypeInfo)

  /** One call on an output stream, with what it writes. A sequence of
    * primitives is handed whole to `PrimitiveInfo::marshalSequence`. */
  datatype Write =
    | WBool(b: bool)
    | WByte(octet: byte)
    | WShort(v: int)
    | WInt(v: int)
    | WLong(v: int)
    | WFloat(handle: nat, nonzero: bool)
    | WDouble(handle: nat, nonzero: bool)
    | WString(s: string)
    | WSize(n: nat)
    | WPrimitiveSequence(kind: PrimitiveKind, value: PyValue)

  /** The Python exceptions (and the C++ `MarshalException`) raised. */
  datatype PyError =
    | InvalidLongValue(text: string)
    | EnumValueMissing(enumId: string)
    | EnumValueNotInt(enumId: string)
    | EnumValueOutOfRange(value: int, enumId: string)
    | EnumeratorOutOfRange(value: int, enumId: string)
    | InvalidElement(index: nat, seqId: string)
    | InvalidKey(dictId: string)
    | InvalidValue(dictId: string)
    | UnhashableKey(dictId: string)
    | MarshalException

  // ---------------------------------------------------------------------
  // Python-level conversions
  // ---------------------------------------------------------------------

  /** `PyObject_IsTrue`, none when the truth test raises. */
  function Truth(p: PyValue): Option<bool>
  {
    match p
    case PyNone => Some(false)
    case PyBool(b) => Some(b)
    case PyInt(i) => Some(i != 0)
    case PyLong(n) => Some(n != 0)
    case PyFloat(_, nz) => Some(nz)
    case PyStr(s) => Some(s != [])
    case PySeq(items) => Some(items != [])
    case PyDict(entries) => Some(entries != [])
    case PyEnumerator(_, _) => Some(true)
    case PyObj(t) => t
  }

  /** `PyInt_Check`: plain integers, booleans included. */
  predicate IsPyInt(p: PyValue)
  {
    p.PyInt? || p.PyBool?
  }

  /** `PyInt_Check(p) || PyLong_Check(p)`. */
  predicate IsInteger(p: PyValue)
  {
    IsPyInt(p) || p.PyLong?
  }

  /** The integer a Python number stands for. */
  function IntegerValue(p: PyValue): int
    requires IsInteger(p)
  {
    match p
    case PyBool(b) => if b then 1 else 0
    case PyInt(i) => i
    case PyLong(n) => n
  }

  /** `PyInt_AS_LONG` or `PyLong_AsLong`: a long that does not fit a C
    * `long` yields -1 (the error return, with an `OverflowError` set). */
  function AsLong(p: PyValue): (v: clong)
    requires IsInteger(p)
    ensures MinLong <= IntegerValue(p) <= MaxLong ==> v == IntegerValue(p)
  {
    var n := IntegerValue(p);
    if MinLong <= n <= MaxLong then n else -1
  }

  function DigitValue(c: char): int
  {
    (c as int) - ('0' as int)
  }

  /** The decimal value of a digit string. */
  function Digits(s: string): nat
    requires forall k :: 0 <= k < |s| ==> '0' <= s[k] <= '9'
  {
    if s == [] then 0 else 10 * Digits(s[..|s| - 1]) + DigitValue(s[|s| - 1])
  }

  /** The text a C string holds: `PyString_AS_STRING` and `c_str()` hand
    * on a `char*`, and what is read through it stops at the first NUL. */
  function CString(s: string): (r: string)
    ensures '\0' !in r
    ensures |r| <= |s| && r == s[..|r|]
    ensures |r| < |s| ==> s[|r|] == '\0'
    ensures '\0' !in s ==> r == s
  {
    if s == [] || s[0] == '\0' then [] else [s[0]] + CString(s[1..])
  }

  /** The text form of a long: an optional minus sign, then decimal digits,
    * within the 64-bit range; none for any other text. */
  function ParseLong(s: string): (r: Option<int>)
    ensures r.Some? ==> MinLong <= r.value <= MaxLong
  {
    var neg := |s| > 0 && s[0] == '-';
    var body := if neg then s[1..] else s;
    if body == [] || exists k :: 0 <= k < |body| && !('0' <= body[k] <= '9') then None
    else
      var d: int := Digits(body);
      var v := if neg then -d else d;
      if MinLong <= v <= MaxLong then Some(v) else None
  }

  // ---------------------------------------------------------------------
  // PrimitiveInfo::validate
  // ---------------------------------------------------------------------

  /** `PrimitiveInfo::validate` as written: the integral kinds take the
    * value through `AsLong`, so a long too large for a C `long` is checked
    * as -1. */
  predicate ValidatePrimitiveAsWritten(kind: PrimitiveKind, p: PyValue)
  {
    match kind
    case KindBool => Truth(p).Some?
    case KindByte => IsInteger(p) && 0 <= AsLong(p) <= 255
    case KindShort => IsInteger(p) && MinShort <= AsLong(p) <= MaxShort
    case KindInt => IsInteger(p) && MinInt32 <= AsLong(p) <= MaxInt32
    case KindLong => IsInteger(p) || p.PyStr?
    case KindFloat => p.PyFloat?
    case KindDouble => p.PyFloat?
    case KindString => p.PyStr?
  }

  /** `PrimitiveInfo::validate` as intended: an integral kind accepts a
    * Python number exactly when the number itself lies in the kind's
    * range. */
  predicate ValidatePrimitive(kind: PrimitiveKind, p: PyValue)
  {
    match kind
    case KindBool => Truth(p).Some?
    case KindByte => IsInteger(p) && 0 <= IntegerValue(p) <= 255
    case KindShort => IsInteger(p) && MinShort <= IntegerValue(p) <= MaxShort
    case KindInt => IsInteger(p) && MinInt32 <= IntegerValue(p) <= MaxInt32
    case KindLong => (IsInteger(p) && MinLong <= IntegerValue(p) <= MaxLong) || p.PyStr?
    case KindFloat => p.PyFloat?
    case KindDouble => p.PyFloat?
    case KindString => p.PyStr?
  }

  /** The two validations differ only on Python longs beyond the C `long`
    * range; what the intended one accepts the written one accepts too, and
    * for it the value `AsLong` passes on is the number itself. */
  lemma ValidatePrimitiveRange(kind: PrimitiveKind, p: PyValue)
    ensures ValidatePrimitive(kind, p) ==> ValidatePrimitiveAsWritten(kind, p)
    ensures !(p.PyLong? && !(MinLong <= p.n <= MaxLong)) ==>
              (ValidatePrimitive(kind, p) <==> ValidatePrimitiveAsWritten(kind, p))
    ensures ((kind == KindByte || kind == KindShort || kind == KindInt || kind == KindLong) &&
             ValidatePrimitive(kind, p) && IsInteger(p)) ==> AsLong(p) == IntegerValue(p)
    ensures kind == KindByte ==> (ValidatePrimitive(kind, p) <==> IsInteger(p) && 0 <= IntegerValue(p) <= 255)
    ensures kind == KindShort ==>
              (ValidatePrimitive(kind, p) <==> IsInteger(p) && MinShort <= IntegerValue(p) <= MaxShort)
    ensures kind == KindInt ==>
              (ValidatePrimitive(kind, p) <==> IsInteger(p) && MinInt32 <= IntegerValue(p) <= MaxInt32)
  {
  }

  /** `PrimitiveInfo::marshal`: the one write for the value, or the
    * `ValueError` of a long given as text that does not parse. */
  function MarshalPrimitive(kind: PrimitiveKind, p: PyValue): (r: Result<Write, PyError>)
    requires ValidatePrimitiveAsWritten(kind, p)
  {
    match kind
    case KindBool => Success(WBool(Truth(p).value))
    case KindByte => Success(WByte(AsLong(p)))
    case KindShort => Success(WShort(AsLong(p)))
    case KindInt => Success(WInt(AsLong(p)))
    case KindLong =>
      if p.PyStr? then
        (match ParseLong(CString(p.s))
         case None => Failure(InvalidLongValue(CString(p.s)))
         case Some(v) => Success(WLong(v)))
      else Success(WLong(AsLong(p)))
    case KindFloat => Success(WFloat(p.handle, p.nonzero))
    case KindDouble => Success(WDouble(p.handle, p.nonzero))
    case KindString => Success(WString(CString(p.s)))
  }

  /** A Python long of 2 to the 64th passes the written validation for
    * `int` and is marshalled as -1. */
  lemma OverflowingLongValidates()
    ensures ValidatePrimitiveAsWritten(KindInt, PyLong(0x1_0000_0000_0000_0000))
    ensures !ValidatePrimitive(KindInt, PyLong(0x1_0000_0000_0000_0000))
    ensures MarshalPrimitive(KindInt, PyLong(0x1_0000_0000_0000_0000)) == Success(WInt(-1))
  {
  }

  /** Under the intended validation an integral value is written as the
    * number itself. */
  lemma MarshalPrimitiveWritesValue(kind: PrimitiveKind, p: PyValue)
    requires ValidatePrimitive(kind, p) && IsInteger(p)
    requires kind == KindByte || kind == KindShort || kind == KindInt || kind == KindLong
    ensures ValidatePrimitiveAsWritten(kind, p)
    ensures kind == KindByte ==> MarshalPrimitive(kind, p) == Success(WByte(IntegerValue(p)))
    ensures kind == KindShort ==> MarshalPrimitive(kind, p) == Success(WShort(IntegerValue(p)))
    ensures kind == KindInt ==> MarshalPrimitive(kind, p) == Success(WInt(IntegerValue(p)))
    ensures kind == KindLong ==> MarshalPrimitive(kind, p) == Success(WLong(IntegerValue(p)))
  {
  }

  // ---------------------------------------------------------------------
  // EnumInfo
  // ---------------------------------------------------------------------

  /** The width an enumeration travels in: a byte for up to 127
    * enumerators, a short for up to 32767, an int beyond. */
  function EnumWrite(count: nat, v: int): (w: Write)
    requires 0 <= v < count
    ensures count <= 127 ==> w == WByte(v)
    ensures 127 < count <= 32767 ==> w == WShort(v)
    ensures count > 32767 ==> w == WInt(v)
  {
    if count <= 127 then WByte(v) else if count <= 32767 then WShort(v) else WInt(v)
  }

  /** `EnumInfo::marshal` as written: the `value` attribute, converted to a
    * C `int` before the range check. */
  function EnumMarshalAsWritten(p: PyValue, id: string, count: nat): (r: Result<Write, PyError>)
    requires p.PyEnumerator?
  {
    match p.value
    case None => Failure(EnumValueMissing(id))
    case Some(val) =>
      if !IsPyInt(val) then Failure(EnumValueNotInt(id))
      else
        var ival := Wrap32(AsLong(val));
        if ival < 0 || ival >= count then Failure(EnumValueOutOfRange(ival, id))
        else Success(EnumWrite(count, ival))
  }

  /** `EnumInfo::marshal` as intended: the range check applies to the
    * `value` attribute itself. */
  function EnumMarshal(p: PyValue, id: string, count: nat): (r: Result<Write, PyError>)
    requires p.PyEnumerator?
    ensures r.Success? <==> p.value.Some? && IsPyInt(p.value.value) && 0 <= AsLong(p.value.value) < count
    ensures r.Success? ==> r.value == EnumWrite(count, AsLong(p.value.value))
  {
    match p.value
    case None => Failure(EnumValueMissing(id))
    case Some(val) =>
      if !IsPyInt(val) then Failure(EnumValueNotInt(id))
      else
        var v := AsLong(val);
        if v < 0 || v >= count then Failure(EnumValueOutOfRange(v, id))
        else Success(EnumWrite(count, v))
  }

  /** An enumerator whose `value` is 2 to the 32nd plus one passes the
    * written range check of a two-enumerator type and goes out as
    * enumerator 1. */
  lemma TruncatedEnumValueAccepted()
    ensures EnumMarshalAsWritten(PyEnumerator("::E", Some(PyInt(0x1_0000_0001))), "::E", 2) == Success(WByte(1))
    ensures EnumMarshal(PyEnumerator("::E", Some(PyInt(0x1_0000_0001))), "::E", 2).Failure?
  {
  }

  /** Within the C `int` range the written and the intended marshalling
    * agree. */
  lemma EnumMarshalAgrees(p: PyValue, id: string, count: nat)
    requires p.PyEnumerator? && p.value.Some? && IsPyInt(p.value.value)
    requires IsInt32(AsLong(p.value.value))
    ensures EnumMarshalAsWritten(p, id, count) == EnumMarshal(p, id, count)
  {
  }

  /** `EnumInfo::unmarshal`: a read of the width the count calls for, then
    * the range check; the enumerator object for the value. */
  function EnumUnmarshal(ws: seq<Write>, id: string, count: nat): (r: Result<(PyValue, seq<Write>), PyError>)
    ensures r.Success? ==> r.value.0.PyEnumerator? && r.value.0.typeId == id && |r.value.1| < |ws|
  {
    if ws == [] then Failure(MarshalException)
    else
      var w := ws[0];
      var v :=
        if count <= 127 then (if w.WByte? then Some(w.octet as int) else None)
        else if count <= 32767 then (if w.WShort? then Some(w.v) else None)
        else (if w.WInt? then Some(w.v) else None);
      match v
      case None => Failure(MarshalException)
      case Some(val) =>
        if val < 0 || val >= count || !(MinLong <= val <= MaxLong) then Failure(EnumeratorOutOfRange(val, id))
        else Success((PyEnumerator(id, Some(PyInt(val))), ws[1..]))
  }

  /** Marshalling an enumerator and reading it back gives the enumerator
    * with the same value, and leaves the rest of the stream. */
  lemma EnumRoundTrip(p: PyValue, id: string, count: nat, rest: seq<Write>)
    requires p.PyEnumerator? && EnumMarshal(p, id, count).Success?
    ensures EnumUnmarshal([EnumMarshal(p, id, count).value] + rest, id, count)
         == Success((PyEnumerator(id, Some(PyInt(AsLong(p.value.value)))), rest))
  {
    assert ([EnumMarshal(p, id, count).value] + rest)[1..] == rest;
  }

  // ---------------------------------------------------------------------
  // validate and marshal over the type descriptions
  // ---------------------------------------------------------------------

  /** The elements of a value a sequence accepts: a string is a sequence of
    * one-character strings. */
  function Items(p: PyValue): seq<PyValue>
  {
    match p
    case PySeq(items) => items
    case PyStr(s) => seq(|s|, k requires 0 <= k < |s| => PyStr([s[k]]))
    case _ => []
  }

  /** `validate` of each type description. */
  predicate Validate(t: TypeInfo, p: PyValue)
  {
    match t
    case Primitive(kind) => ValidatePrimitive(kind, p)
    case Enum(id, _) => p.PyEnumerator? && p.typeId == id
    case Sequence(_, _) => p.PyNone? || p.PySeq? || p.PyStr?
    case Dictionary(_, _, _) => p.PyNone? || p.PyDict?
  }

  /** `marshal` of each type description, for a value that validates: the
    * writes made and whether marshalling completed. A sequence or a
    * dictionary that is `None` is written as size 0; otherwise the size
    * goes first, then each element (each key, then its value), each
    * validated just before it is written; the first failure stops the
    * writing where it is. */
  function Marshaled(t: TypeInfo, p: PyValue): (r: (seq<Write>, Status<PyError>))
    requires Validate(t, p)
    decreases t, 2
  {
    match t
    case Primitive(kind) =>
      ValidatePrimitiveRange(kind, p);
      (match MarshalPrimitive(kind, p)
       case Success(w) => ([w], Done)
       case Failure(e) => ([], Raised(e)))
    case Enum(id, count) =>
      (match EnumMarshal(p, id, count)
       case Success(w) => ([w], Done)
       case Failure(e) => ([], Raised(e)))
    case Sequence(_, element) =>
      if p.PyNone? then ([WSize(0)], Done)
      else if element.Primitive? then ([WPrimitiveSequence(element.kind, p)], Done)
      else
        var r := MarshalItems(t, Items(p), 0);
        ([WSize(|Items(p)|)] + r.0, r.1)
    case Dictionary(_, _, _) =>
      if p.PyNone? then ([WSize(0)], Done)
      else
        var r := MarshalEntries(t, p.entries, 0);
        ([WSize(|p.entries|)] + r.0, r.1)
  }

  /** The element loop of `SequenceInfo::marshal`, from element `i`. */
  function MarshalItems(t: TypeInfo, items: seq<PyValue>, i: nat): (r: (seq<Write>, Status<PyError>))
    requires t.Sequence? && i <= |items|
    decreases t, 1, |items| - i
  {
    if i == |items| then ([], Done)
    else if !Validate(t.element, items[i]) then ([], Raised(InvalidElement(i, t.id)))
    else
      var h := Marshaled(t.element, items[i]);
      if h.1.Raised? then h
      else
        var rest := MarshalItems(t, items, i + 1);
        (h.0 + rest.0, rest.1)
  }

  /** One pass of the entry loop of `DictionaryInfo::marshal`: the key is
    * validated and written, then the value. */
  function EntryMarshaled(t: TypeInfo, e: (PyValue, PyValue)): (r: (seq<Write>, Status<PyError>))
    requires t.Dictionary?
    decreases t, 0
  {
    if !Validate(t.key, e.0) then ([], Raised(InvalidKey(t.id)))
    else
      var k := Marshaled(t.key, e.0);
      if k.1.Raised? then k
      else if !Validate(t.value, e.1) then (k.0, Raised(InvalidValue(t.id)))
      else
        var v := Marshaled(t.value, e.1);
        (k.0 + v.0, v.1)
  }

  /** The entry loop of `DictionaryInfo::marshal`, from entry `i`. */
  function MarshalEntries(t: TypeInfo, entries: seq<(PyValue, PyValue)>, i: nat): (r: (seq<Write>, Status<PyError>))
    requires t.Dictionary? && i <= |entries|
    decreases t, 1, |entries| - i
  {
    if i == |entries| then ([], Done)
    else
      var h := EntryMarshaled(t, entries[i]);
      if h.1.Raised? then h
      else
        var rest := MarshalEntries(t, entries, i + 1);
        (h.0 + rest.0, rest.1)
  }

  // ---------------------------------------------------------------------
  // Python dictionaries
  // ---------------------------------------------------------------------

  /** Python's `==` between the keys of one dictionary: numbers, booleans
    * included, by value (`True == 1`); anything else by its value as a
    * whole. */
  predicate KeyEq(a: PyValue, b: PyValue)
  {
    if IsInteger(a) && IsInteger(b) then IntegerValue(a) == IntegerValue(b) else a == b
  }

  /** What `PyDict_SetItem` can hash: not a list, not a dictionary. */
  predicate Hashable(p: PyValue)
  {
    !p.PySeq? && !p.PyDict?
  }

  /** A Python dictionary never holds two equal keys. */
  predicate UniqueKeys(entries: seq<(PyValue, PyValue)>)
  {
    forall i, j :: 0 <= i < j < |entries| ==> !KeyEq(entries[i].0, entries[j].0)
  }

  /** The first entry whose key equals `k`, if there is one. */
  function KeyIndex(entries: seq<(PyValue, PyValue)>, k: PyValue): (r: Option<nat>)
    ensures r.Some? ==> r.value < |entries|
  {
    if entries == [] then None
    else if KeyEq(entries[0].0, k) then Some(0)
    else
      match KeyIndex(entries[1..], k)
      case None => None
      case Some(i) => Some(i + 1)
  }

  /** The entry found has a key equal to `k`, and none is found exactly
    * when no key equals `k`. */
  lemma {:induction false} KeyIndexFound(entries: seq<(PyValue, PyValue)>, k: PyValue)
    ensures KeyIndex(entries, k).Some? ==> KeyEq(entries[KeyIndex(entries, k).value].0, k)
    ensures KeyIndex(entries, k).None? <==> forall i :: 0 <= i < |entries| ==> !KeyEq(entries[i].0, k)
  {
    if entries != [] && !KeyEq(entries[0].0, k) {
      var tail := entries[1..];
      KeyIndexFound(tail, k);
      assert forall i :: 0 < i < |entries| ==> entries[i] == tail[i - 1];
    }
  }

  /** `PyDict_SetItem(d, k, v)`: an entry whose key equals `k` keeps its key
    * and takes the value `v`; otherwise the entry is added. */
  function SetItem(entries: seq<(PyValue, PyValue)>, k: PyValue, v: PyValue): seq<(PyValue, PyValue)>
  {
    match KeyIndex(entries, k)
    case Some(i) => entries[i := (entries[i].0, v)]
    case None => entries + [(k, v)]
  }

  /** Setting an item replaces the value of the first entry whose key
    * equals `k`, keeping that key and every other entry, or, when no key
    * equals `k` (see `KeyIndexFound`), appends the entry. */
  lemma SetItemCases(entries: seq<(PyValue, PyValue)>, k: PyValue, v: PyValue)
    ensures KeyIndex(entries, k).Some? ==>
              var i := KeyIndex(entries, k).value;
              SetItem(entries, k, v) == entries[i := (entries[i].0, v)]
    ensures KeyIndex(entries, k).None? ==> SetItem(entries, k, v) == entries + [(k, v)]
    ensures |SetItem(entries, k, v)| <= |entries| + 1
  {
  }

  /** Setting an item keeps the keys of a dictionary distinct, and the
    * dictionary then maps the key to the value set. */
  lemma SetItemKeepsUnique(entries: seq<(PyValue, PyValue)>, k: PyValue, v: PyValue)
    requires UniqueKeys(entries)
    ensures UniqueKeys(SetItem(entries, k, v))
    ensures var r := SetItem(entries, k, v);
            var i := KeyIndex(r, k);
            i.Some? && r[i.value].1 == v
  {
    var r := SetItem(entries, k, v);
    KeyIndexFound(entries, k);
    match KeyIndex(entries, k)
    case Some(i) =>
      assert forall j :: 0 <= j < |r| ==> r[j].0 == entries[j].0;
      KeyIndexUnique(r, k, i);
    case None =>
      assert forall j :: 0 <= j < |entries| ==> r[j] == entries[j];
      KeyIndexUnique(r, k, |entries|);
  }

  /** In a dictionary without repeated keys the entry found for a key is
    * the only one equal to it. */
  lemma {:induction false} KeyIndexUnique(entries: seq<(PyValue, PyValue)>, k: PyValue, i: nat)
    requires UniqueKeys(entries) && i < |entries| && KeyEq(entries[i].0, k)
    ensures KeyIndex(entries, k) == Some(i)
  {
    if i > 0 {
      assert !KeyEq(entries[0].0, entries[i].0);
      assert !KeyEq(entries[0].0, k) by {
        if KeyEq(entries[0].0, k) {
          KeyEqTransitive(entries[0].0, k, entries[i].0);
        }
      }
      var tail := entries[1..];
      assert UniqueKeys(tail) by {
        forall a, b | 0 <= a < b < |tail|
          ensures !KeyEq(tail[a].0, tail[b].0)
        {
          assert tail[a] == entries[a + 1] && tail[b] == entries[b + 1];
        }
      }
      assert tail[i - 1] == entries[i];
      KeyIndexUnique(tail, k, i - 1);
    }
  }

  /** Python's `==` on keys is symmetric and transitive. */
  lemma KeyEqTransitive(a: PyValue, b: PyValue, c: PyValue)
    requires KeyEq(a, b) && KeyEq(c, b)
    ensures KeyEq(a, c)
  {
  }

  // ---------------------------------------------------------------------
  // unmarshal over the type descriptions
  // ---------------------------------------------------------------------

  /** `PrimitiveInfo::unmarshal`: one read of the kind's type; integers come
    * back as Python ints (a C `long` holds every Slice long). */
  function UnmarshalPrimitive(kind: PrimitiveKind, ws: seq<Write>): (r: Result<(PyValue, seq<Write>), PyError>)
    ensures r.Success? ==> |r.value.1| < |ws|
  {
    if ws == [] then Failure(MarshalException)
    else
      var w := ws[0];
      var v: Option<PyValue> :=
        match kind
        case KindBool => if w.WBool? then Some(PyBool(w.b)) else None
        case KindByte => if w.WByte? then Some(PyInt(w.octet)) else None
        case KindShort => if w.WShort? && MinShort <= w.v <= MaxShort then Some(PyInt(w.v)) else None
        case KindInt => if w.WInt? && IsInt32(w.v) then Some(PyInt(w.v)) else None
        case KindLong => if w.WLong? && MinLong <= w.v <= MaxLong then Some(PyInt(w.v)) else None
        case KindFloat => if w.WFloat? then Some(PyFloat(w.handle, w.nonzero)) else None
        case KindDouble => if w.WDouble? then Some(PyFloat(w.handle, w.nonzero)) else None
        case KindString => if w.WString? then Some(PyStr(CString(w.s))) else None;
      if v.None? then Failure(MarshalException) else Success((v.value, ws[1..]))
  }

  /** `unmarshal` of each type description: the value read and the writes
    * left. A sequence reads its size and then that many elements into a
    * list; a dictionary reads its size and then sets each key read to the
    * value read after it (see `DictionaryReadUnique`). */
  function Unmarshaled(t: TypeInfo, ws: seq<Write>): (r: Result<(PyValue, seq<Write>), PyError>)
    ensures r.Success? ==> |r.value.1| < |ws|
    ensures r.Success? && t.Sequence? ==> r.value.0.PySeq?
    ensures r.Success? && t.Dictionary? ==> r.value.0.PyDict?
    decreases t, 2
  {
    match t
    case Primitive(kind) => UnmarshalPrimitive(kind, ws)
    case Enum(id, count) => EnumUnmarshal(ws, id, count)
    case Sequence(_, _) =>
      if ws == [] || !ws[0].WSize? then Failure(MarshalException)
      else
        (match UnmarshalItems(t, ws[1..], ws[0].n)
         case Failure(e) => Failure(e)
         case Success((items, rest)) => Success((PySeq(items), rest)))
    case Dictionary(_, _, _) =>
      if ws == [] || !ws[0].WSize? then Failure(MarshalException)
      else
        (match UnmarshalEntries(t, ws[1..], ws[0].n, [])
         case Failure(e) => Failure(e)
         case Success((entries, rest)) => Success((PyDict(entries), rest)))
  }

  function UnmarshalItems(t: TypeInfo, ws: seq<Write>, n: nat): (r: Result<(seq<PyValue>, seq<Write>), PyError>)
    requires t.Sequence?
    ensures r.Success? ==> |r.value.0| == n && |r.value.1| <= |ws|
    decreases t, 1, n
  {
    if n == 0 then Success(([], ws))
    else
      match Unmarshaled(t.element, ws)
      case Failure(e) => Failure(e)
      case Success((v, ws')) =>
        match UnmarshalItems(t, ws', n - 1)
        case Failure(e) => Failure(e)
        case Success((vs, rest)) => Success(([v] + vs, rest))
  }

  /** One key and its value: a key Python cannot hash makes
    * `PyDict_SetItem` fail before the value is read. */
  function UnmarshalEntry(t: TypeInfo, ws: seq<Write>): (r: Result<((PyValue, PyValue), seq<Write>), PyError>)
    requires t.Dictionary?
    ensures r.Success? ==> |r.value.1| < |ws| && Hashable(r.value.0.0)
    decreases t, 0
  {
    match Unmarshaled(t.key, ws)
    case Failure(e) => Failure(e)
    case Success((k, ws1)) =>
      if !Hashable(k) then Failure(UnhashableKey(t.id))
      else
        match Unmarshaled(t.value, ws1)
        case Failure(e) => Failure(e)
        case Success((v, ws2)) => Success(((k, v), ws2))
  }

  /** The entry loop of `DictionaryInfo::unmarshal`: `n` more entries set
    * into the dictionary `acc` read so far. */
  function UnmarshalEntries(t: TypeInfo, ws: seq<Write>, n: nat, acc: seq<(PyValue, PyValue)>)
    : (r: Result<(seq<(PyValue, PyValue)>, seq<Write>), PyError>)
    requires t.Dictionary?
    ensures r.Success? ==> |r.value.1| <= |ws|
    decreases t, 1, n
  {
    if n == 0 then Success((acc, ws))
    else
      match UnmarshalEntry(t, ws)
      case Failure(e) => Failure(e)
      case Success((kv, ws')) => UnmarshalEntries(t, ws', n - 1, SetItem(acc, kv.0, kv.1))
  }

  /** The entry loop adds at most one entry per key read and, started on a
    * dictionary without equal keys, ends on one. */
  lemma {:induction false} UnmarshalEntriesUnique(t: TypeInfo, ws: seq<Write>, n: nat, acc: seq<(PyValue, PyValue)>)
    requires t.Dictionary?
    ensures var r := UnmarshalEntries(t, ws, n, acc);
            r.Success? ==> |r.value.0| <= |acc| + n && (UniqueKeys(acc) ==> UniqueKeys(r.value.0))
    decreases n
  {
    if n > 0 {
      match UnmarshalEntry(t, ws)
      case Failure(_) =>
      case Success((kv, ws')) =>
        SetItemCases(acc, kv.0, kv.1);
        if UniqueKeys(acc) {
          SetItemKeepsUnique(acc, kv.0, kv.1);
        }
        UnmarshalEntriesUnique(t, ws', n - 1, SetItem(acc, kv.0, kv.1));
    }
  }

  /** A dictionary read never holds two equal keys. */
  lemma DictionaryReadUnique(t: TypeInfo, ws: seq<Write>)
    requires t.Dictionary?
    ensures Unmarshaled(t, ws).Success? ==> UniqueKeys(Unmarshaled(t, ws).value.0.entries)
  {
    if ws != [] && ws[0].WSize? {
      UnmarshalEntriesUnique(t, ws[1..], ws[0].n, []);
    }
  }

  // ---------------------------------------------------------------------
  // The round trip
  // ---------------------------------------------------------------------

  /** The type descriptions whose values come back from the stream: every
    * sequence in them has elements that are not primitive (those are
    * written by `PrimitiveInfo::marshalSequence`), and every dictionary has
    * primitive or enumeration keys (a list read as a key cannot be hashed,
    * see `ListKeyRefused`). */
  predicate RoundTrips(t: TypeInfo)
  {
    match t
    case Primitive(_) => true
    case Enum(_, _) => true
    case Sequence(_, element) => !element.Primitive? && RoundTrips(element)
    case Dictionary(_, key, value) => (key.Primitive? || key.Enum?) && RoundTrips(value)
  }

  /** What reading back a marshalled value yields: integers as Python ints,
    * booleans as `True`/`False`, a string up to its first NUL, a long given
    * as text as its number, an enumerator as the enumerator of its value, a
    * sequence (or `None`) as a list, and a dictionary (or `None`) as the
    * dictionary its entries' normal forms make when set one after the
    * other, so that keys whose normal forms are equal merge into one entry
    * holding the last value. */
  function Normal(t: TypeInfo, p: PyValue): PyValue
    decreases t, 2
  {
    match t
    case Primitive(kind) =>
      (match kind
       case KindBool => PyBool(Truth(p) == Some(true))
       case KindFloat => if p.PyFloat? then p else PyNone
       case KindDouble => if p.PyFloat? then p else PyNone
       case KindString => if p.PyStr? then PyStr(CString(p.s)) else PyNone
       case KindLong =>
         if p.PyStr? && ParseLong(CString(p.s)).Some? then PyInt(ParseLong(CString(p.s)).value)
         else if IsInteger(p) then PyInt(AsLong(p)) else PyNone
       case _ => if IsInteger(p) then PyInt(AsLong(p)) else PyNone)
    case Enum(id, _) =>
      if p.PyEnumerator? && p.value.Some? && IsPyInt(p.value.value) then
        PyEnumerator(id, Some(PyInt(AsLong(p.value.value))))
      else PyNone
    case Sequence(_, _) => PySeq(NormalItems(t, Items(p)))
    case Dictionary(_, _, _) => PyDict(if p.PyDict? then NormalEntries(t, p.entries, []) else [])
  }

  function NormalItems(t: TypeInfo, items: seq<PyValue>): (r: seq<PyValue>)
    requires t.Sequence?
    ensures |r| == |items|
    decreases t, 1, |items|
  {
    if items == [] then [] else [Normal(t.element, items[0])] + NormalItems(t, items[1..])
  }

  /** The entries' normal forms set into the dictionary `acc`, in order. */
  function NormalEntries(t: TypeInfo, entries: seq<(PyValue, PyValue)>, acc: seq<(PyValue, PyValue)>)
    : seq<(PyValue, PyValue)>
    requires t.Dictionary?
    decreases t, 1, |entries|
  {
    if entries == [] then acc
    else NormalEntries(t, entries[1..], SetItem(acc, Normal(t.key, entries[0].0), Normal(t.value, entries[0].1)))
  }

  /** Marshalling a value and reading it back gives its normal form and
    * leaves whatever followed on the stream. */
  lemma {:induction false} RoundTrip(t: TypeInfo, p: PyValue, rest: seq<Write>)
    requires RoundTrips(t) && Validate(t, p) && Marshaled(t, p).1 == Done
    ensures Unmarshaled(t, Marshaled(t, p).0 + rest) == Success((Normal(t, p), rest))
    decreases t, 3
  {
    match t
    case Primitive(kind) => PrimitiveRoundTrip(kind, p, rest);
    case Enum(id, count) => EnumRoundTrip(p, id, count, rest);
    case Sequence(_, _) => SequenceRoundTrip(t, p, rest);
    case Dictionary(_, _, _) => DictionaryRoundTrip(t, p, rest);
  }

  lemma PrimitiveRoundTrip(kind: PrimitiveKind, p: PyValue, rest: seq<Write>)
    requires ValidatePrimitive(kind, p) && Marshaled(Primitive(kind), p).1 == Done
    ensures Unmarshaled(Primitive(kind), Marshaled(Primitive(kind), p).0 + rest)
         == Success((Normal(Primitive(kind), p), rest))
  {
    ValidatePrimitiveRange(kind, p);
    assert (Marshaled(Primitive(kind), p).0 + rest)[1..] == rest;
  }

  lemma {:induction false} SequenceRoundTrip(t: TypeInfo, p: PyValue, rest: seq<Write>)
    requires t.Sequence? && RoundTrips(t) && Validate(t, p) && Marshaled(t, p).1 == Done
    ensures Unmarshaled(t, Marshaled(t, p).0 + rest) == Success((Normal(t, p), rest))
    decreases t, 2
  {
    var items := Items(p);
    var r := MarshalItems(t, items, 0);
    assert Marshaled(t, p).0 + rest == [WSize(|items|)] + (r.0 + rest);
    assert (Marshaled(t, p).0 + rest)[1..] == r.0 + rest;
    ItemsRoundTrip(t, items, 0, rest);
    assert items[0..] == items;
  }

  lemma {:induction false} DictionaryRoundTrip(t: TypeInfo, p: PyValue, rest: seq<Write>)
    requires t.Dictionary? && RoundTrips(t) && Validate(t, p) && Marshaled(t, p).1 == Done
    ensures Unmarshaled(t, Marshaled(t, p).0 + rest) == Success((Normal(t, p), rest))
    decreases t, 2
  {
    if p.PyDict? {
      var r := MarshalEntries(t, p.entries, 0);
      assert Marshaled(t, p).0 + rest == [WSize(|p.entries|)] + (r.0 + rest);
      assert (Marshaled(t, p).0 + rest)[1..] == r.0 + rest;
      EntriesRoundTrip(t, p.entries, 0, [], rest);
      assert p.entries[0..] == p.entries;
    } else {
      assert (Marshaled(t, p).0 + rest)[1..] == rest;
    }
  }

  lemma {:induction false} ItemsRoundTrip(t: TypeInfo, items: seq<PyValue>, i: nat, rest: seq<Write>)
    requires t.Sequence? && RoundTrips(t) && i <= |items| && MarshalItems(t, items, i).1 == Done
    ensures UnmarshalItems(t, MarshalItems(t, items, i).0 + rest, |items| - i)
         == Success((NormalItems(t, items[i..]), rest))
    decreases t, 1, |items| - i
  {
    if i < |items| {
      var h := Marshaled(t.element, items[i]);
      var tail := MarshalItems(t, items, i + 1);
      assert MarshalItems(t, items, i) == (h.0 + tail.0, tail.1);
      assert MarshalItems(t, items, i).0 + rest == h.0 + (tail.0 + rest);
      RoundTrip(t.element, items[i], tail.0 + rest);
      ItemsRoundTrip(t, items, i + 1, rest);
      assert items[i..][0] == items[i];
      assert items[i..][1..] == items[i + 1..];
    } else {
      assert items[i..] == [];
      assert MarshalItems(t, items, i).0 + rest == rest;
    }
  }

  lemma {:induction false} EntriesRoundTrip(t: TypeInfo, entries: seq<(PyValue, PyValue)>, i: nat,
                                            acc: seq<(PyValue, PyValue)>, rest: seq<Write>)
    requires t.Dictionary? && RoundTrips(t) && i <= |entries| && MarshalEntries(t, entries, i).1 == Done
    ensures UnmarshalEntries(t, MarshalEntries(t, entries, i).0 + rest, |entries| - i, acc)
         == Success((NormalEntries(t, entries[i..], acc), rest))
    decreases t, 1, |entries| - i
  {
    if i < |entries| {
      MarshalEntriesStep(t, entries, i);
      var acc' := SetItem(acc, Normal(t.key, entries[i].0), Normal(t.value, entries[i].1));
      EntriesRoundTrip(t, entries, i + 1, acc', rest);
      EntriesRoundTripStep(t, entries, i, acc, rest);
    } else {
      assert entries[i..] == [];
      assert MarshalEntries(t, entries, i).0 + rest == rest;
    }
  }

  /** One turn of `EntriesRoundTrip`: if the entries after `i` read back,
    * so do the entries from `i` on. */
  lemma EntriesRoundTripStep(t: TypeInfo, entries: seq<(PyValue, PyValue)>, i: nat,
                             acc: seq<(PyValue, PyValue)>, rest: seq<Write>)
    requires t.Dictionary? && RoundTrips(t) && i < |entries| && MarshalEntries(t, entries, i).1 == Done
    requires MarshalEntries(t, entries, i + 1).1 == Done
    requires var acc' := SetItem(acc, Normal(t.key, entries[i].0), Normal(t.value, entries[i].1));
             UnmarshalEntries(t, MarshalEntries(t, entries, i + 1).0 + rest, |entries| - (i + 1), acc')
             == Success((NormalEntries(t, entries[i + 1..], acc'), rest))
    ensures UnmarshalEntries(t, MarshalEntries(t, entries, i).0 + rest, |entries| - i, acc)
         == Success((NormalEntries(t, entries[i..], acc), rest))
    decreases t, 0, 2
  {
    var k := Normal(t.key, entries[i].0);
    var v := Normal(t.value, entries[i].1);
    EntryAtRoundTrip(t, entries, i, rest);
    NormalEntriesStep(t, entries, i, acc);
    UnmarshalEntriesStep(t, MarshalEntries(t, entries, i).0 + rest, |entries| - i, |entries| - (i + 1), acc, k, v,
                         MarshalEntries(t, entries, i + 1).0 + rest,
                         Success((NormalEntries(t, entries[i + 1..], SetItem(acc, k, v)), rest)));
  }

  /** The entry at `i` reads back as its normal form, leaving the writes of
    * the entries after it. */
  lemma EntryAtRoundTrip(t: TypeInfo, entries: seq<(PyValue, PyValue)>, i: nat, rest: seq<Write>)
    requires t.Dictionary? && RoundTrips(t) && i < |entries| && MarshalEntries(t, entries, i).1 == Done
    ensures UnmarshalEntry(t, MarshalEntries(t, entries, i).0 + rest)
         == Success(((Normal(t.key, entries[i].0), Normal(t.value, entries[i].1)), MarshalEntries(t, entries, i + 1).0 + rest))
    decreases t, 0, 1
  {
    var h := EntryMarshaled(t, entries[i]);
    var tail := MarshalEntries(t, entries, i + 1);
    MarshalEntriesStep(t, entries, i);
    assert MarshalEntries(t, entries, i).0 + rest == h.0 + (tail.0 + rest);
    EntryRoundTrip(t, entries[i], tail.0 + rest);
  }

  /** One turn of the marshalling entry loop that raised nothing: the entry
    * at `i` written, then the entries after it. */
  lemma MarshalEntriesStep(t: TypeInfo, entries: seq<(PyValue, PyValue)>, i: nat)
    requires t.Dictionary? && i < |entries| && MarshalEntries(t, entries, i).1 == Done
    ensures EntryMarshaled(t, entries[i]).1 == Done && MarshalEntries(t, entries, i + 1).1 == Done
    ensures MarshalEntries(t, entries, i).0 == EntryMarshaled(t, entries[i]).0 + MarshalEntries(t, entries, i + 1).0
  {
  }

  /** One turn of the entry loop: an entry read is set into the dictionary
    * and the loop goes on after it. */
  lemma UnmarshalEntriesStep(t: TypeInfo, ws: seq<Write>, n: nat, m: nat, acc: seq<(PyValue, PyValue)>,
                             k: PyValue, v: PyValue, ws': seq<Write>,
                             out: Result<(seq<(PyValue, PyValue)>, seq<Write>), PyError>)
    requires t.Dictionary? && n == m + 1
    requires UnmarshalEntry(t, ws) == Success(((k, v), ws'))
    requires UnmarshalEntries(t, ws', m, SetItem(acc, k, v)) == out
    ensures UnmarshalEntries(t, ws, n, acc) == out
  {
  }

  /** The normal forms of the entries from `i` on: the entry at `i` is set
    * first. */
  lemma NormalEntriesStep(t: TypeInfo, entries: seq<(PyValue, PyValue)>, i: nat, acc: seq<(PyValue, PyValue)>)
    requires t.Dictionary? && i < |entries|
    ensures NormalEntries(t, entries[i..], acc)
         == NormalEntries(t, entries[i + 1..], SetItem(acc, Normal(t.key, entries[i].0), Normal(t.value, entries[i].1)))
  {
    assert entries[i..][0] == entries[i];
    assert entries[i..][1..] == entries[i + 1..];
  }

  lemma {:induction false} EntryRoundTrip(t: TypeInfo, e: (PyValue, PyValue), rest: seq<Write>)
    requires t.Dictionary? && RoundTrips(t) && EntryMarshaled(t, e).1 == Done
    ensures UnmarshalEntry(t, EntryMarshaled(t, e).0 + rest)
         == Success(((Normal(t.key, e.0), Normal(t.value, e.1)), rest))
    decreases t, 0, 0
  {
    var k := Marshaled(t.key, e.0);
    var v := Marshaled(t.value, e.1);
    assert EntryMarshaled(t, e) == (k.0 + v.0, v.1);
    assert EntryMarshaled(t, e).0 + rest == k.0 + (v.0 + rest);
    RoundTrip(t.key, e.0, v.0 + rest);
    assert Hashable(Normal(t.key, e.0));
    RoundTrip(t.value, e.1, rest);
  }

  /** A dictionary whose keys are sequences or dictionaries is never read
    * back once it has an entry: the key read is a list or a dictionary,
    * which `PyDict_SetItem` cannot hash. */
  lemma ListKeyRefused(t: TypeInfo, ws: seq<Write>)
    requires t.Dictionary? && (t.key.Sequence? || t.key.Dictionary?)
    requires ws != [] && ws[0].WSize? && ws[0].n > 0
    ensures Unmarshaled(t, ws).Failure?
  {
    var r := Unmarshaled(t.key, ws[1..]);
    if r.Success? {
      assert !Hashable(r.value.0);
    }
    assert UnmarshalEntry(t, ws[1..]).Failure?;
    assert UnmarshalEntries(t, ws[1..], ws[0].n, []).Failure?;
  }

  /** The dictionary `{1: 7, 2: 8}` under `bool` keys is written with the
    * key `True` twice and read back as `{True: 8}`. */
  lemma EqualKeysMerge()
    ensures var t := Dictionary("::D", Primitive(KindBool), Primitive(KindInt));
            var p := PyDict([(PyInt(1), PyInt(7)), (PyInt(2), PyInt(8))]);
            && Marshaled(t, p) == ([WSize(2), WBool(true), WInt(7), WBool(true), WInt(8)], Done)
            && Unmarshaled(t, Marshaled(t, p).0) == Success((PyDict([(PyBool(true), PyInt(8))]), []))
  {
    var t := Dictionary("::D", Primitive(KindBool), Primitive(KindInt));
    var es := [(PyInt(1), PyInt(7)), (PyInt(2), PyInt(8))];
    var p := PyDict(es);
    EqualKeysWritten();
    EqualKeysNormal();
    RoundTrip(t, p, []);
    assert Marshaled(t, p).0 + [] == Marshaled(t, p).0;
  }

  /** The normal form of `{1: 7, 2: 8}` under `bool` keys is `{True: 8}`:
    * both keys become `True`, and the second setting keeps the first key
    * and takes the value 8. */
  lemma EqualKeysNormal()
    ensures var t := Dictionary("::D", Primitive(KindBool), Primitive(KindInt));
            Normal(t, PyDict([(PyInt(1), PyInt(7)), (PyInt(2), PyInt(8))])) == PyDict([(PyBool(true), PyInt(8))])
  {
    var t := Dictionary("::D", Primitive(KindBool), Primitive(KindInt));
    var es := [(PyInt(1), PyInt(7)), (PyInt(2), PyInt(8))];
    var p := PyDict(es);
    assert Normal(t.key, PyInt(1)) == PyBool(true) && Normal(t.key, PyInt(2)) == PyBool(true);
    assert Normal(t.value, PyInt(7)) == PyInt(7) && Normal(t.value, PyInt(8)) == PyInt(8);
    var one := SetItem([], PyBool(true), PyInt(7));
    assert one == [(PyBool(true), PyInt(7))];
    assert KeyIndex(one, PyBool(true)) == Some(0);
    var two := SetItem(one, PyBool(true), PyInt(8));
    assert two == [(PyBool(true), PyInt(8))];
    assert es[0] == (PyInt(1), PyInt(7)) && es[1..][0] == (PyInt(2), PyInt(8)) && es[1..][1..] == [];
    assert NormalEntries(t, es[1..][1..], two) == two;
    assert NormalEntries(t, es[1..], one) == NormalEntries(t, es[1..][1..], two);
    assert NormalEntries(t, es, []) == NormalEntries(t, es[1..], one);
    assert Normal(t, p) == PyDict(two);
  }

  /** `{1: 7, 2: 8}` under `bool` keys is valid and written with the key
    * `True` twice. */
  lemma EqualKeysWritten()
    ensures var t := Dictionary("::D", Primitive(KindBool), Primitive(KindInt));
            var p := PyDict([(PyInt(1), PyInt(7)), (PyInt(2), PyInt(8))]);
            Validate(t, p) && Marshaled(t, p) == ([WSize(2), WBool(true), WInt(7), WBool(true), WInt(8)], Done)
  {
    var t := Dictionary("::D", Primitive(KindBool), Primitive(KindInt));
    var es := [(PyInt(1), PyInt(7)), (PyInt(2), PyInt(8))];
    var p := PyDict(es);
    assert MarshalPrimitive(KindBool, PyInt(1)) == Success(WBool(true));
    assert MarshalPrimitive(KindBool, PyInt(2)) == Success(WBool(true));
    assert MarshalPrimitive(KindInt, PyInt(7)) == Success(WInt(7));
    assert MarshalPrimitive(KindInt, PyInt(8)) == Success(WInt(8));
    assert Marshaled(Primitive(KindBool), PyInt(1)) == ([WBool(true)], Done);
    assert Marshaled(Primitive(KindBool), PyInt(2)) == ([WBool(true)], Done);
    assert Marshaled(Primitive(KindInt), PyInt(7)) == ([WInt(7)], Done);
    assert Marshaled(Primitive(KindInt), PyInt(8)) == ([WInt(8)], Done);
    assert t.key == Primitive(KindBool) && t.value == Primitive(KindInt);
    assert es[0] == (PyInt(1), PyInt(7)) && es[1] == (PyInt(2), PyInt(8));
    assert Validate(t.key, PyInt(1)) && Validate(t.value, PyInt(7));
    assert Validate(t.key, PyInt(2)) && Validate(t.value, PyInt(8));
    assert EntryMarshaled(t, (PyInt(1), PyInt(7))) == ([WBool(true)] + [WInt(7)], Done);
    assert EntryMarshaled(t, (PyInt(2), PyInt(8))) == ([WBool(true)] + [WInt(8)], Done);
    assert MarshalEntries(t, es, 2) == ([], Done);
    assert MarshalEntries(t, es, 1) == (EntryMarshaled(t, es[1]).0 + [], Done);
    assert MarshalEntries(t, es, 0) == (EntryMarshaled(t, es[0]).0 + MarshalEntries(t, es, 1).0, Done);
    assert [WBool(true)] + [WInt(7)] + ([WBool(true)] + [WInt(8)] + [])
        == [WBool(true), WInt(7), WBool(true), WInt(8)];
    assert Marshaled(t, p) == ([WSize(2)] + MarshalEntries(t, es, 0).0, Done);
    assert [WSize(2)] + [WBool(true), WInt(7), WBool(true), WInt(8)]
        == [WSize(2), WBool(true), WInt(7), WBool(true), WInt(8)];
  }

  /** A string holding a NUL goes out, and comes back, cut at the NUL. */
  lemma NulCutsString(rest: seq<Write>)
    ensures Marshaled(Primitive(KindString), PyStr("a\0b")) == ([WString("a")], Done)
    ensures Unmarshaled(Primitive(KindString), [WString("a\0b")] + rest) == Success((PyStr("a"), rest))
  {
    assert CString("a\0b") == "a";
    assert ([WString("a\0b")] + rest)[1..] == rest;
  }

  /** `None` goes out as an empty sequence or dictionary and comes back as
    * one. */
  lemma NoneIsEmpty(t: TypeInfo)
    requires t.Sequence? || t.Dictionary?
    ensures Marshaled(t, PyNone) == ([WSize(0)], Done)
    ensures Unmarshaled(t, [WSize(0)]) == Success((if t.Sequence? then PySeq([]) else PyDict([]), []))
  {
  }

  // ---------------------------------------------------------------------
  // The streams
  // ---------------------------------------------------------------------

  class OutputStream {
    var writes: seq<Write>

    constructor()
      ensures writes == []
    {
      writes := [];
    }

    /** `marshal` of a validated value: the writes of `Marshaled` are
      * appended, and the outcome is its outcome. */
    method Marshal(t: TypeInfo, p: PyValue) returns (s: Status<PyError>)
      requires Validate(t, p)
      modifies this
      ensures writes == old(writes) + Marshaled(t, p).0
      ensures s == Marshaled(t, p).1
      decreases t, 2
    {
      match t
      case Primitive(kind) =>
        ValidatePrimitiveRange(kind, p);
        var r := MarshalPrimitive(kind, p);
        if r.Failure? {
          return Raised(r.error);
        }
        writes := writes + [r.value];
        s := Done;
      case Enum(id, count) =>
        var r := EnumMarshal(p, id, count);
        if r.Failure? {
          return Raised(r.error);
        }
        writes := writes + [r.value];
        s := Done;
      case Sequence(_, element) =>
        if p.PyNone? {
          writes := writes + [WSize(0)];
          return Done;
        }
        if element.Primitive? {
          writes := writes + [WPrimitiveSequence(element.kind, p)];
          return Done;
        }
        s := MarshalSequence(t, Items(p));
      case Dictionary(_, _, _) =>
        if p.PyNone? {
          writes := writes + [WSize(0)];
          return Done;
        }
        s := MarshalDictionary(t, p.entries);
    }

    /** The size, then the element loop of `SequenceInfo::marshal`. */
    method MarshalSequence(t: TypeInfo, items: seq<PyValue>) returns (s: Status<PyError>)
      requires t.Sequence?
      modifies this
      ensures writes == old(writes) + [WSize(|items|)] + MarshalItems(t, items, 0).0
      ensures s == MarshalItems(t, items, 0).1
      decreases t, 1
    {
      writes := writes + [WSize(|items|)];
      ghost var start := writes;
      var i := 0;
      while i < |items|
        invariant 0 <= i <= |items|
        invariant writes + MarshalItems(t, items, i).0 == start + MarshalItems(t, items, 0).0
        invariant MarshalItems(t, items, i).1 == MarshalItems(t, items, 0).1
        decreases |items| - i
      {
        if !Validate(t.element, items[i]) {
          return Raised(InvalidElement(i, t.id));
        }
        s := Marshal(t.element, items[i]);
        if s.Raised? {
          return;
        }
        i := i + 1;
      }
      s := Done;
    }

    /** The size, then the entry loop of `DictionaryInfo::marshal`. */
    method MarshalDictionary(t: TypeInfo, entries: seq<(PyValue, PyValue)>) returns (s: Status<PyError>)
      requires t.Dictionary?
      modifies this
      ensures writes == old(writes) + [WSize(|entries|)] + MarshalEntries(t, entries, 0).0
      ensures s == MarshalEntries(t, entries, 0).1
      decreases t, 1
    {
      writes := writes + [WSize(|entries|)];
      ghost var start := writes;
      var i := 0;
      while i < |entries|
        invariant 0 <= i <= |entries|
        invariant writes + MarshalEntries(t, entries, i).0 == start + MarshalEntries(t, entries, 0).0
        invariant MarshalEntries(t, entries, i).1 == MarshalEntries(t, entries, 0).1
        decreases |entries| - i
      {
        s := MarshalEntry(t, entries[i]);
        if s.Raised? {
          return;
        }
        i := i + 1;
      }
      s := Done;
    }

    /** One pass of the entry loop: the key, then the value. */
    method MarshalEntry(t: TypeInfo, e: (PyValue, PyValue)) returns (s: Status<PyError>)
      requires t.Dictionary?
      modifies this
      ensures writes == old(writes) + EntryMarshaled(t, e).0
      ensures s == EntryMarshaled(t, e).1
      decreases t, 0
    {
      if !Validate(t.key, e.0) {
        return Raised(InvalidKey(t.id));
      }
      s := Marshal(t.key, e.0);
      if s.Raised? {
        return;
      }
      if !Validate(t.value, e.1) {
        return Raised(InvalidValue(t.id));
      }
      s := Marshal(t.value, e.1);
    }
  }

  /** The check `ObjectReader::read` makes on the `Ice::Object` slice: its
    * size must be 0, or `MarshalException` is raised. */
  function ObjectSliceTail(ws: seq<Write>): (r: Result<seq<Write>, PyError>)
    ensures r.Success? <==> ws != [] && ws[0] == WSize(0)
    ensures r.Success? ==> r.value == ws[1..]
  {
    if ws != [] && ws[0] == WSize(0) then Success(ws[1..]) else Failure(MarshalException)
  }

  class InputStream {
    var remaining: seq<Write>

    constructor(writes: seq<Write>)
      ensures remaining == writes
    {
      remaining := writes;
    }

    /** `EnumInfo::unmarshal` on the stream. */
    method ReadEnum(id: string, count: nat) returns (r: Result<PyValue, PyError>)
      modifies this
      ensures EnumUnmarshal(old(remaining), id, count).Success? ==>
                r == Success(EnumUnmarshal(old(remaining), id, count).value.0)
                && remaining == EnumUnmarshal(old(remaining), id, count).value.1
      ensures EnumUnmarshal(old(remaining), id, count).Failure? ==>
                r == Failure(EnumUnmarshal(old(remaining), id, count).error)
    {
      var e := EnumUnmarshal(remaining, id, count);
      if e.Failure? {
        return Failure(e.error);
      }
      remaining := e.value.1;
      r := Success(e.value.0);
    }

    /** The size check on the `Ice::Object` slice in `ObjectReader::read`. */
    method ReadObjectSlice() returns (s: Status<PyError>)
      modifies this
      ensures s.Done? <==> old(remaining) != [] && old(remaining)[0] == WSize(0)
      ensures s.Done? ==> remaining == old(remaining)[1..]
      ensures s.Raised? ==> s.error == MarshalException
    {
      var r := ObjectSliceTail(remaining);
      if r.Failure? {
        return Raised(r.error);
      }
      remaining := r.value;
      s := Done;
    }
  }

  // ---------------------------------------------------------------------
  // The global tables
  // ---------------------------------------------------------------------

  /** A proxy type description: its id and the Python class set by
    * `defineProxy` (a handle). */
  class ProxyInfo {
    const id: string
    var pythonType: Option<nat>

    constructor(id: string)
      ensures this.id == id && pythonType == None
    {
      this.id := id;
      pythonType := None;
    }
  }

  /** The id a proxy type is registered under. */
  function ProxyId(id: string): (r: string)
    ensures |r| == |id| + 3 && r[..|id|] == id && r[|id|..] == "Prx"
  {
    id + "Prx"
  }

  /** The tables of class, proxy and exception descriptions. Class and
    * exception descriptions are handles. */
  class TypeTables {
    var classInfos: map<string, nat>
    var proxyInfos: map<string, ProxyInfo>
    var exceptionInfos: map<string, nat>

    /** Every proxy description sits under its own id. */
    predicate Valid()
      reads this, proxyInfos.Values
    {
      forall k :: k in proxyInfos ==> proxyInfos[k].id == k
    }

    constructor()
      ensures classInfos == map[] && proxyInfos == map[] && exceptionInfos == map[]
      ensures Valid()
    {
      classInfos := map[];
      proxyInfos := map[];
      exceptionInfos := map[];
    }

    /** `addClassInfo`: the id must not be registered yet. */
    method AddClassInfo(id: string, info: nat)
      requires id !in classInfos
      modifies this`classInfos
      ensures classInfos == old(classInfos)[id := info]
    {
      classInfos := classInfos[id := info];
    }

    /** `addExceptionInfo`: the id must not be registered yet. */
    method AddExceptionInfo(id: string, info: nat)
      requires id !in exceptionInfos
      modifies this`exceptionInfos
      ensures exceptionInfos == old(exceptionInfos)[id := info]
    {
      exceptionInfos := exceptionInfos[id := info];
    }

    /** `lookupClassInfo`: the description, or none for an unknown id. */
    method LookupClassInfo(id: string) returns (r: Option<nat>)
      ensures r.Some? <==> id in classInfos
      ensures r.Some? ==> r.value == classInfos[id]
    {
      r := if id in classInfos then Some(classInfos[id]) else None;
    }

    /** `lookupExceptionInfo`: the description, or none for an unknown id. */
    method LookupExceptionInfo(id: string) returns (r: Option<nat>)
      ensures r.Some? <==> id in exceptionInfos
      ensures r.Some? ==> r.value == exceptionInfos[id]
    {
      r := if id in exceptionInfos then Some(exceptionInfos[id]) else None;
    }

    /** `lookupProxyInfo`: the description, or none for an unknown id. */
    method LookupProxyInfo(id: string) returns (r: Option<ProxyInfo>)
      ensures r.Some? <==> id in proxyInfos
      ensures r.Some? ==> r.value == proxyInfos[id]
    {
      r := if id in proxyInfos then Some(proxyInfos[id]) else None;
    }

    /** `declareProxy`: the description registered under the id followed by
      * `Prx`, created and registered when there is none. */
    method DeclareProxy(id: string) returns (info: ProxyInfo)
      requires Valid()
      modifies this`proxyInfos
      ensures Valid()
      ensures info.id == ProxyId(id)
      ensures ProxyId(id) in old(proxyInfos) ==> info == old(proxyInfos)[ProxyId(id)] && proxyInfos == old(proxyInfos)
      ensures ProxyId(id) !in old(proxyInfos) ==>
                fresh(info) && info.pythonType == None && proxyInfos == old(proxyInfos)[ProxyId(id) := info]
    {
      var proxyId := ProxyId(id);
      var found := LookupProxyInfo(proxyId);
      if found.Some? {
        info := found.value;
      } else {
        info := new ProxyInfo(proxyId);
        proxyInfos := proxyInfos[proxyId := info];
      }
    }

    /** `defineProxy`: as `declareProxy`, then the description's Python
      * class is set. */
    method DefineProxy(id: string, pythonType: nat) returns (info: ProxyInfo)
      requires Valid()
      modifies this`proxyInfos, proxyInfos.Values
      ensures Valid()
      ensures info.id == ProxyId(id) && info.pythonType == Some(pythonType)
      ensures ProxyId(id) in old(proxyInfos) ==> info == old(proxyInfos)[ProxyId(id)] && proxyInfos == old(proxyInfos)
      ensures ProxyId(id) !in old(proxyInfos) ==> fresh(info) && proxyInfos == old(proxyInfos)[ProxyId(id) := info]
      ensures forall k :: k in old(proxyInfos) && k != ProxyId(id) ==>
                proxyInfos[k].pythonType == old(proxyInfos[k].pythonType)
    {
      info := DeclareProxy(id);
      info.pythonType := Some(pythonType);
    }
  }
}
