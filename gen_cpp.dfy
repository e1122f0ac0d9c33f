/** The parts of the C++ code generator (`slice2cpp`'s `Gen`) that do not
  * walk the Slice syntax tree: how a constant's value is spelled in C++,
  * which types may be `constexpr`, the deprecation attribute, the wide
  * string context stack, the extra `#include` lines, the header extension
  * taken from metadata and the base name of the generated files. */
module SliceCppGen {
  import opened Basics

  // ---------------------------------------------------------------------
  // Generated text
  // ---------------------------------------------------------------------

  /** A C++ string as the generator sees it: a sequence of 8-bit `char`s. */
  type byteString = s: string | forall i :: 0 <= i < |s| ==> s[i] as int < 256

  /** The output stream the generated code is written to. */
  class Output {
    var text: string

    constructor()
      ensures text == ""
    {
      text := "";
    }

    method Write(s: string)
      modifies this
      ensures text == old(text) + s
    {
      text := text + s;
    }
  }

  // ---------------------------------------------------------------------
  // String constants
  // ---------------------------------------------------------------------

  /** The basic source character set of C++: letters, digits, space and
    * the graphic characters a C++ source may hold. */
  predicate IsBasic(c: char)
  {
    ('a' <= c <= 'z') || ('A' <= c <= 'Z') || ('0' <= c <= '9') || c in "_{}[]#()<>%:;.?*+-/^&|~!=,\\\"' "
  }

  predicate IsOctalDigit(c: char)
  {
    '0' <= c <= '7'
  }

  function OctalDigit(d: nat): (c: char)
    requires d < 8
    ensures IsOctalDigit(c) && (c as int) - ('0' as int) == d
  {
    (('0' as int) + d) as char
  }

  /** `\` followed by three octal digits: the escape for a byte outside the
    * basic source set, zero-padded to width three. */
  function OctalEscape(b: nat): (r: string)
    requires b < 256
    ensures |r| == 4 && r[0] == '\\'
    ensures IsOctalDigit(r[1]) && IsOctalDigit(r[2]) && IsOctalDigit(r[3])
    ensures OctalValue(r[1], r[2], r[3]) == b
  {
    ['\\', OctalDigit(b / 64), OctalDigit(b / 8 % 8), OctalDigit(b % 8)]
  }

  function OctalValue(d1: char, d2: char, d3: char): int
  {
    64 * ((d1 as int) - ('0' as int)) + 8 * ((d2 as int) - ('0' as int)) + ((d3 as int) - ('0' as int))
  }

  /** How one character of a string constant is written: outside the basic
    * set as an octal escape of its unsigned byte; `\` and `"` behind a
    * backslash; any other character as itself. */
  function EscapeChar(c: char): string
    requires c as int < 256
  {
    if !IsBasic(c) then OctalEscape(c as int)
    else if c == '\\' || c == '"' then ['\\', c]
    else [c]
  }

  /** The body of a string constant, character by character. */
  function Escaped(s: byteString): string
  {
    if s == [] then "" else EscapeChar(s[0]) + Escaped(s[1..])
  }

  lemma {:induction false} EscapedAppend(s: byteString, c: char)
    requires c as int < 256
    ensures Escaped(s + [c]) == Escaped(s) + EscapeChar(c)
  {
    if s == [] {
      assert s + [c] == [c];
      assert [c][1..] == [];
    } else {
      assert (s + [c])[1..] == s[1..] + [c];
      EscapedAppend(s[1..], c);
    }
  }

  /** A C++ compiler's reading of an escaped string body: a backslash and
    * three octal digits give that byte, a backslash and any other
    * character give that character, anything else is itself. The reader
    * takes trigraphs to be off: a `??` sequence is read as two question
    * marks. */
  function Unescape(t: string): string
  {
    if t == [] then ""
    else if t[0] == '\\' && |t| >= 4 && IsOctalDigit(t[1]) && IsOctalDigit(t[2]) && IsOctalDigit(t[3]) then
      [OctalValue(t[1], t[2], t[3]) as char] + Unescape(t[4..])
    else if t[0] == '\\' && |t| >= 2 then [t[1]] + Unescape(t[2..])
    else [t[0]] + Unescape(t[1..])
  }

  lemma EscapeCharRoundTrip(c: char, rest: string)
    requires c as int < 256
    ensures Unescape(EscapeChar(c) + rest) == [c] + Unescape(rest)
  {
    var t := EscapeChar(c) + rest;
    if !IsBasic(c) {
      assert t[4..] == rest;
    } else if c == '\\' || c == '"' {
      assert t[2..] == rest;
    } else {
      assert t[1..] == rest;
    }
  }

  /** The C++ compiler reads the escaped body back as the original bytes. */
  lemma {:induction false} EscapedRoundTrip(s: byteString)
    ensures Unescape(Escaped(s)) == s
  {
    if s != [] {
      EscapedRoundTrip(s[1..]);
      EscapeCharRoundTrip(s[0], Escaped(s[1..]));
    }
  }

  /** Every character of the escaped body is in the basic source set, and
    * no `"` in it is left unescaped, so it cannot end the literal early. */
  lemma {:induction false} EscapedIsBasic(s: byteString)
    ensures forall i :: 0 <= i < |Escaped(s)| ==> IsBasic(Escaped(s)[i])
  {
    if s != [] {
      EscapedIsBasic(s[1..]);
      var head := EscapeChar(s[0]);
      assert forall i :: 0 <= i < |head| ==> IsBasic(head[i]);
      assert forall i :: |head| <= i < |Escaped(s)| ==> Escaped(s)[i] == Escaped(s[1..])[i - |head|];
    }
  }

  /** A string constant: an `L` prefix in a wide-string context, then the
    * escaped body in double quotes. */
  function StringLiteral(value: byteString, wide: bool): (r: string)
    ensures |r| == |Escaped(value)| + (if wide then 3 else 2) && r[|r| - 1] == '"'
    ensures wide ==> r[0] == 'L' && r[1] == '"' && r[2..|r| - 1] == Escaped(value)
    ensures !wide ==> r[0] == '"' && r[1..|r| - 1] == Escaped(value)
  {
    Opening(wide) + Escaped(value) + "\""
  }

  /** The start of a string constant: its opening quote, behind an `L` in a
    * wide-string context. */
  function Opening(wide: bool): string
  {
    if wide then "L\"" else "\""
  }

  lemma Append3(a: string, b: string, c: string)
    ensures (a + b) + c == a + (b + c)
  {
  }

  // ---------------------------------------------------------------------
  // Other constants
  // ---------------------------------------------------------------------

  /** `TypeContextUseWstring`, the wide-string bit of a type context. */
  const TypeContextUseWstring: int := 16

  /** Whether the wide-string bit is set in a type context, as `&` does on
    * a two's-complement integer. */
  predicate HasWstringBit(useWstring: int)
  {
    (useWstring / TypeContextUseWstring) % 2 == 1
  }

  /** The type of a constant's value, as far as its spelling depends on it:
    * a reference to another constant (`scoped` is its scoped name), a
    * string, a `long`, a `float`, an enumerator of the enumeration `name`
    * (`unscoped` when it carries the `%unscoped` metadata), or any other
    * type, written as its value. */
  datatype ConstantType =
    | ConstantRef(scoped: string)
    | StringType
    | LongType
    | FloatType
    | EnumType(name: string, unscoped: bool)
    | OtherType

  /** Whether `::` starts at position `j` of `s`. */
  predicate ScopeAt(s: string, j: int)
  {
    0 <= j && j + 2 <= |s| && s[j] == ':' && s[j + 1] == ':'
  }

  /** The last position of `::` in `s`, if any. */
  function LastScope(s: string): (r: Option<nat>)
    ensures r.Some? ==> ScopeAt(s, r.value) && s[r.value..r.value + 2] == "::"
    ensures r.Some? ==> forall j :: r.value < j ==> !ScopeAt(s, j)
    ensures r.None? ==> forall j :: !ScopeAt(s, j)
  {
    if |s| < 2 then None
    else if s[|s| - 2] == ':' && s[|s| - 1] == ':' then Some(|s| - 2)
    else
      var r := LastScope(s[..|s| - 1]);
      assert forall j :: ScopeAt(s, j) ==> ScopeAt(s[..|s| - 1], j);
      r
  }

  /** An enumerator in C++11 mode is qualified by its enumeration: the
    * scope of the value, then the enumeration's name, then the
    * enumerator. */
  function ScopedEnumerator(value: string, enumName: string): (r: string)
    ensures LastScope(value).None? ==> r == enumName + "::" + value
    ensures LastScope(value).Some? ==>
              r == value[..LastScope(value).value + 2] + enumName + "::" + value[LastScope(value).value + 2..]
  {
    match LastScope(value)
    case None => enumName + "::" + value
    case Some(pos) => value[..pos + 2] + enumName + "::" + value[pos + 2..]
  }

  /** The spelling of a float constant: the value, `.0` when it has no
    * decimal point, and the `F` suffix. */
  function FloatLiteral(value: string): (r: string)
  {
    value + (if '.' in value then "" else ".0") + "F"
  }

  /** A float constant keeps its value as a prefix, always has a decimal
    * point and ends in `F`; the suffix adds nothing when the value already
    * had a point. */
  lemma FloatLiteralFacts(value: string)
    ensures |FloatLiteral(value)| > |value| && FloatLiteral(value)[..|value|] == value
    ensures '.' in FloatLiteral(value)
    ensures FloatLiteral(value)[|FloatLiteral(value)| - 1] == 'F'
    ensures '.' in value <==> FloatLiteral(value) == value + "F"
  {
    var r := FloatLiteral(value);
    assert r[..|value|] == value;
    if '.' !in value {
      assert r[|value|] == '.';
      assert r != value + "F" by {
        assert (value + "F")[|value|] == 'F';
      }
    }
  }

  /** The spelling of a `long` constant: a `LL` suffix in C++11 mode,
    * otherwise the `ICE_INT64` macro around the value. */
  function LongLiteral(value: string, cpp11: bool): (r: string)
    ensures |r| == |value| + (if cpp11 then 2 else 11)
    ensures cpp11 ==> r[..|value|] == value && r[|value|..] == "LL"
    ensures !cpp11 ==> r[..10] == "ICE_INT64(" && r[10..|r| - 1] == value && r[|r| - 1] == ')'
  {
    if cpp11 then value + "LL" else "ICE_INT64(" + value + ")"
  }

  /** What `writeConstantValue` writes for a constant: `fixKwd` is the
    * generator's escape of C++ keywords, and `metaType` what the C++
    * type metadata of the constant says (`wstring` makes a string wide). */
  function ConstantText(t: ConstantType, value: byteString, useWstring: int, metaType: string, cpp11: bool,
                        fixKwd: string -> string): string
  {
    match t
    case ConstantRef(scoped) => fixKwd(scoped)
    case StringType => StringLiteral(value, HasWstringBit(useWstring) || metaType == "wstring")
    case LongType => LongLiteral(value, cpp11)
    case FloatType => FloatLiteral(value)
    case EnumType(name, unscoped) =>
      if !cpp11 || unscoped then fixKwd(value) else fixKwd(ScopedEnumerator(value, name))
    case OtherType => value
  }

  /** `writeConstantValue`: writes the constant's spelling to `out`; a
    * string goes out character by character. */
  method WriteConstantValue(out: Output, t: ConstantType, value: byteString, useWstring: int, metaType: string,
                            cpp11: bool, fixKwd: string -> string)
    modifies out
    ensures out.text == old(out.text) + ConstantText(t, value, useWstring, metaType, cpp11, fixKwd)
  {
    match t
    case ConstantRef(scoped) =>
      out.Write(fixKwd(scoped));
    case StringType =>
      WriteStringLiteral(out, value, HasWstringBit(useWstring) || metaType == "wstring");
    case LongType =>
      if cpp11 {
        out.Write(value + "LL");
      } else {
        out.Write("ICE_INT64(" + value + ")");
      }
    case FloatType =>
      out.Write(value);
      if '.' !in value {
        out.Write(".0");
      }
      out.Write("F");
    case EnumType(name, unscoped) =>
      if !cpp11 || unscoped {
        out.Write(fixKwd(value));
      } else {
        out.Write(fixKwd(ScopedEnumerator(value, name)));
      }
    case OtherType =>
      out.Write(value);
  }

  /** The string branch of `writeConstantValue`. */
  method WriteStringLiteral(out: Output, value: byteString, wide: bool)
    modifies out
    ensures out.text == old(out.text) + StringLiteral(value, wide)
  {
    ghost var old_text := out.text;
    if wide {
      out.Write("L");
    }
    out.Write("\"");
    ghost var start := out.text;
    assert start == old_text + Opening(wide);
    var i := 0;
    while i < |value|
      invariant 0 <= i <= |value|
      invariant out.text == start + Escaped(value[..i])
    {
      var c := value[i];
      ghost var done: byteString := value[..i];
      ghost var next: byteString := value[..i + 1];
      assert next == done + [c];
      EscapedAppend(done, c);
      ghost var before := out.text;
      WriteEscapedChar(out, c);
      Append3(start, Escaped(done), EscapeChar(c));
      i := i + 1;
    }
    assert value[..i] == value;
    out.Write("\"");
    Append3(old_text, Opening(wide) + Escaped(value), "\"");
    Append3(old_text, Opening(wide), Escaped(value));
  }

  /** One turn of the character loop of `writeConstantValue`. */
  method WriteEscapedChar(out: Output, c: char)
    requires c as int < 256
    modifies out
    ensures out.text == old(out.text) + EscapeChar(c)
  {
    if !IsBasic(c) {
      out.Write(OctalEscape(c as int));
    } else {
      if c == '\\' || c == '"' {
        out.Write("\\");
      }
      out.Write([c]);
    }
  }

  // ---------------------------------------------------------------------
  // constexpr types
  // ---------------------------------------------------------------------

  datatype BuiltinKind = Byte | Bool | Short | Int | Long | Float | Double | String | Object | ObjectProxy
                       | LocalObject | Value

  /** A Slice type, as far as `isConstexprType` tells types apart. */
  datatype SliceType =
    | Builtin(kind: BuiltinKind)
    | Enum
    | Proxy
    | ClassDecl
    | Struct(members: seq<SliceType>)
    | Sequence(element: SliceType)
    | Dictionary(key: SliceType, value: SliceType)

  /** `isConstexprType`: every builtin except `string` and `LocalObject`,
    * enumerations, proxies and classes are; a struct is when each of its
    * members is; sequences and dictionaries are not. */
  function IsConstexprType(t: SliceType): bool
    decreases t, 1
  {
    match t
    case Builtin(kind) => kind != String && kind != LocalObject
    case Enum => true
    case Proxy => true
    case ClassDecl => true
    case Struct(members) => AllConstexpr(t, members, 0)
    case Sequence(_) => false
    case Dictionary(_, _) => false
  }

  /** The loop over a struct's members, from `i` on. */
  function AllConstexpr(s: SliceType, members: seq<SliceType>, i: nat): bool
    requires s.Struct? && members == s.members && i <= |members|
    decreases s, 0, |members| - i
  {
    if i == |members| then true
    else if !IsConstexprType(members[i]) then false
    else AllConstexpr(s, members, i + 1)
  }

  /** A leaf a C++ `constexpr` cannot hold: a string, a local object, a
    * sequence or a dictionary. */
  predicate NonConstexprLeaf(t: SliceType)
  {
    t == Builtin(String) || t == Builtin(LocalObject) || t.Sequence? || t.Dictionary?
  }

  /** Whether such a leaf is reachable through struct members. */
  predicate HoldsNonConstexpr(t: SliceType)
  {
    NonConstexprLeaf(t) || (t.Struct? && exists m :: m in t.members && HoldsNonConstexpr(m))
  }

  /** A type is constexpr exactly when no string, local object, sequence or
    * dictionary is reachable from it through struct members. */
  lemma {:induction false} ConstexprIffNoNonConstexprLeaf(t: SliceType)
    ensures IsConstexprType(t) <==> !HoldsNonConstexpr(t)
    decreases t, 1
  {
    if t.Struct? {
      AllConstexprIffMembers(t, t.members, 0);
    }
  }

  lemma {:induction false} AllConstexprIffMembers(s: SliceType, members: seq<SliceType>, i: nat)
    requires s.Struct? && members == s.members && i <= |members|
    ensures AllConstexpr(s, members, i) <==> forall k :: i <= k < |members| ==> !HoldsNonConstexpr(members[k])
    decreases s, 0, |members| - i
  {
    if i < |members| {
      ConstexprIffNoNonConstexprLeaf(members[i]);
      AllConstexprIffMembers(s, members, i + 1);
    }
  }

  // ---------------------------------------------------------------------
  // Deprecation
  // ---------------------------------------------------------------------

  /** The attribute for a deprecated symbol. `meta1` is the `deprecate`
    * metadata of the symbol, `meta2` that of its container when there is
    * one; the symbol's own metadata wins. The message is the text after
    * `deprecate:` when there is any, else "is deprecated". */
  function DeprecateSymbol(meta1: Option<string>, meta2: Option<string>): (r: string)
    ensures meta1.None? && meta2.None? <==> r == ""
  {
    if meta1.None? && meta2.None? then ""
    else "ICE_DEPRECATED_API(\"" + DeprecateMessage(if meta1.Some? then meta1.value else meta2.value) + "\") "
  }

  function DeprecateMessage(meta: string): string
  {
    if |meta| > 10 && meta[..10] == "deprecate:" then meta[10..] else "is deprecated"
  }

  /** The attribute carries `deprecate:`'s text, or the default message for
    * a bare `deprecate`; the symbol's metadata is preferred to its
    * container's. */
  lemma DeprecateSymbolMessage(msg: string, other: Option<string>)
    ensures msg != [] ==>
              DeprecateSymbol(Some("deprecate:" + msg), other) == "ICE_DEPRECATED_API(\"" + msg + "\") "
    ensures DeprecateSymbol(Some("deprecate"), other) == "ICE_DEPRECATED_API(\"is deprecated\") "
    ensures msg != [] ==>
              DeprecateSymbol(None, Some("deprecate:" + msg)) == "ICE_DEPRECATED_API(\"" + msg + "\") "
  {
    assert ("deprecate:" + msg)[..10] == "deprecate:";
    assert ("deprecate:" + msg)[10..] == msg;
  }

  // ---------------------------------------------------------------------
  // Wide string context
  // ---------------------------------------------------------------------

  /** The context a symbol's metadata gives: `cpp:type:wstring` turns wide
    * strings on, `cpp:type:string` off, and otherwise the enclosing
    * context stays. */
  function UseWstringFor(meta: seq<string>, use: int): (r: int)
    ensures "cpp:type:wstring" in meta ==> HasWstringBit(r)
    ensures "cpp:type:wstring" !in meta && "cpp:type:string" in meta ==> !HasWstringBit(r)
    ensures "cpp:type:wstring" !in meta && "cpp:type:string" !in meta ==> r == use
  {
    if "cpp:type:wstring" in meta then TypeContextUseWstring
    else if "cpp:type:string" in meta then 0
    else use
  }

  /** The stack of enclosing contexts the generator keeps while it visits
    * nested definitions. */
  class WstringHistory {
    var hist: seq<int>

    constructor()
      ensures hist == []
    {
      hist := [];
    }

    /** `setUseWstring`: remembers the current context and returns the one
      * the symbol's metadata asks for. */
    method SetUseWstring(meta: seq<string>, use: int) returns (r: int)
      modifies this
      ensures hist == old(hist) + [use]
      ensures r == UseWstringFor(meta, use)
    {
      hist := hist + [use];
      if "cpp:type:wstring" in meta {
        r := TypeContextUseWstring;
      } else if "cpp:type:string" in meta {
        r := 0;
      } else {
        r := use;
      }
    }

    /** `resetUseWstring`: returns to the context last remembered. */
    method ResetUseWstring() returns (r: int)
      requires hist != []
      modifies this
      ensures r == old(hist)[|old(hist)| - 1]
      ensures hist == old(hist)[..|old(hist)| - 1]
    {
      r := hist[|hist| - 1];
      hist := hist[..|hist| - 1];
    }

    /** A visit that sets the context on entry and resets it on exit leaves
      * the stack as it found it and the context as it was. */
    method EnterAndLeave(meta: seq<string>, use: int) returns (inner: int, outer: int)
      modifies this
      ensures inner == UseWstringFor(meta, use)
      ensures outer == use && hist == old(hist)
    {
      inner := SetUseWstring(meta, use);
      outer := ResetUseWstring();
      assert hist == (old(hist) + [use])[..|old(hist)|];
    }
  }

  // ---------------------------------------------------------------------
  // Extra headers
  // ---------------------------------------------------------------------

  /** The last position of `c` in `s`, if any. */
  function LastIndexOf(s: string, c: char): (r: Option<nat>)
    ensures r.Some? ==> r.value < |s| && s[r.value] == c && c !in s[r.value + 1..]
    ensures r.None? <==> c !in s
  {
    if s == [] then None
    else if s[|s| - 1] == c then Some(|s| - 1)
    else
      var r := LastIndexOf(s[..|s| - 1], c);
      assert r.Some? ==> s[r.value + 1..] == s[..|s| - 1][r.value + 1..] + [s[|s| - 1]];
      assert s == s[..|s| - 1] + [s[|s| - 1]];
      r
  }

  /** An extra header option: the header, and after its last comma the
    * include guard, when there is a comma. */
  function SplitHeader(entry: string): (r: (string, string))
    ensures LastIndexOf(entry, ',').Some? ==> r.0 + "," + r.1 == entry && ',' !in r.1
    ensures LastIndexOf(entry, ',').None? ==> r == (entry, "")
  {
    match LastIndexOf(entry, ',')
    case None => (entry, "")
    case Some(pos) =>
      assert entry == entry[..pos] + "," + entry[pos + 1..];
      (entry[..pos], entry[pos + 1..])
  }

  /** The lines for one extra header: the `#include`, inside `#ifndef` and
    * `#define` of the guard and a closing `#endif` when there is a guard. */
  function ExtraHeader(entry: string): string
  {
    HeaderLines(SplitHeader(entry).0, SplitHeader(entry).1)
  }

  function HeaderLines(hdr: string, guard: string): string
  {
    GuardOpening(guard) + IncludeLine(hdr) + GuardClosing(guard)
  }

  function GuardOpening(guard: string): string
  {
    if guard == "" then "" else "\n#ifndef " + guard + "\n#define " + guard
  }

  function IncludeLine(hdr: string): string
  {
    "\n#include <" + hdr + ">"
  }

  function GuardClosing(guard: string): string
  {
    if guard == "" then "" else "\n#endif"
  }

  function ExtraHeaders(entries: seq<string>): string
  {
    if entries == [] then "" else ExtraHeaders(entries[..|entries| - 1]) + ExtraHeader(entries[|entries| - 1])
  }

  /** A header given without a guard is included as it is. */
  lemma ExtraHeaderUnguarded(hdr: string)
    requires ',' !in hdr
    ensures ExtraHeader(hdr) == "\n#include <" + hdr + ">"
  {
    assert SplitHeader(hdr) == (hdr, "");
    assert HeaderLines(hdr, "") == "" + IncludeLine(hdr) + "";
    assert "" + IncludeLine(hdr) + "" == IncludeLine(hdr);
  }

  /** A header given with a guard is included inside that guard. */
  lemma ExtraHeaderGuarded(hdr: string, guard: string)
    requires ',' !in guard && guard != ""
    ensures ExtraHeader(hdr + "," + guard)
         == "\n#ifndef " + guard + "\n#define " + guard + "\n#include <" + hdr + ">" + "\n#endif"
  {
    SplitHeaderOf(hdr, guard);
    assert ExtraHeader(hdr + "," + guard) == HeaderLines(hdr, guard);
    Append3("\n#ifndef " + guard + "\n#define " + guard, IncludeLine(hdr), "\n#endif");
  }

  /** An option with a comma-free guard splits into that header and that
    * guard. */
  lemma SplitHeaderOf(hdr: string, guard: string)
    requires ',' !in guard
    ensures SplitHeader(hdr + "," + guard) == (hdr, guard)
  {
    var e := hdr + "," + guard;
    LastCommaBeforeGuard(hdr, guard);
    assert e[..|hdr|] == hdr;
    assert e[|hdr| + 1..] == guard;
  }

  lemma {:induction false} LastCommaBeforeGuard(hdr: string, guard: string)
    requires ',' !in guard
    ensures LastIndexOf(hdr + "," + guard, ',') == Some(|hdr|)
  {
    var e := hdr + "," + guard;
    if guard != [] {
      var init := guard[..|guard| - 1];
      assert e[..|e| - 1] == hdr + "," + init;
      assert e[|e| - 1] == guard[|guard| - 1];
      LastCommaBeforeGuard(hdr, init);
    }
  }

  /** `writeExtraHeaders`: writes the lines for each extra header option, in
    * order. */
  method WriteExtraHeaders(out: Output, extraHeaders: seq<string>)
    modifies out
    ensures out.text == old(out.text) + ExtraHeaders(extraHeaders)
  {
    ghost var start := out.text;
    var i := 0;
    while i < |extraHeaders|
      invariant 0 <= i <= |extraHeaders|
      invariant out.text == start + ExtraHeaders(extraHeaders[..i])
    {
      assert extraHeaders[..i + 1][..i] == extraHeaders[..i];
      WriteExtraHeader(out, extraHeaders[i]);
      Append3(start, ExtraHeaders(extraHeaders[..i]), ExtraHeader(extraHeaders[i]));
      i := i + 1;
    }
    assert extraHeaders[..i] == extraHeaders;
  }

  /** One turn of the loop of `writeExtraHeaders`. */
  method WriteExtraHeader(out: Output, entry: string)
    modifies out
    ensures out.text == old(out.text) + ExtraHeader(entry)
  {
    var hdr := entry;
    var guard := "";
    var pos := LastIndexOf(entry, ',');
    if pos.Some? {
      hdr := entry[..pos.value];
      guard := entry[pos.value + 1..];
    }
    assert (hdr, guard) == SplitHeader(entry);
    WriteHeaderLines(out, hdr, guard);
  }

  /** The lines written for a header and its guard. */
  method WriteHeaderLines(out: Output, hdr: string, guard: string)
    modifies out
    ensures out.text == old(out.text) + HeaderLines(hdr, guard)
  {
    ghost var start := out.text;
    WriteGuardOpening(out, guard);
    ghost var guarded := out.text;
    out.Write("\n#include <");
    out.Write(hdr + ">");
    Append3(guarded, "\n#include <", hdr + ">");
    ghost var included := out.text;
    if guard != "" {
      out.Write("\n#endif");
    }
    assert out.text == included + GuardClosing(guard);
    Append3(start, GuardOpening(guard), IncludeLine(hdr));
    Append3(start, GuardOpening(guard) + IncludeLine(hdr), GuardClosing(guard));
  }

  /** The `#ifndef` and `#define` lines of a guard, when there is one. */
  method WriteGuardOpening(out: Output, guard: string)
    modifies out
    ensures out.text == old(out.text) + GuardOpening(guard)
  {
    if guard != "" {
      out.Write("\n#ifndef " + guard);
      out.Write("\n#define " + guard);
      Append3(old(out.text), "\n#ifndef " + guard, "\n#define " + guard);
    }
  }

  // ---------------------------------------------------------------------
  // File names
  // ---------------------------------------------------------------------

  const HeaderExtPrefix: string := "cpp:header-ext:"

  /** `getHeaderExt`: the text after `cpp:header-ext:` in the file's
    * metadata of that prefix (`meta`, empty when there is none), or nothing
    * when the metadata has no text after the prefix. */
  function HeaderExt(meta: string): string
  {
    if |meta| > |HeaderExtPrefix| then meta[|HeaderExtPrefix|..] else ""
  }

  /** The extension given in the metadata is the one used; without it the
    * default extension stays. */
  lemma HeaderExtGiven(ext: string)
    ensures HeaderExt(HeaderExtPrefix + ext) == ext
    ensures HeaderExt("") == "" && HeaderExt(HeaderExtPrefix) == ""
  {
    assert (HeaderExtPrefix + ext)[|HeaderExtPrefix|..] == ext;
  }

  predicate IsSeparator(c: char)
  {
    c == '/' || c == '\\'
  }

  /** The base name the constructor keeps: everything after the last `/`
    * or `\`. */
  function BaseName(base: string): (r: string)
    ensures forall i :: 0 <= i < |r| ==> !IsSeparator(r[i])
    ensures |r| <= |base| && base[|base| - |r|..] == r
    ensures (forall i :: 0 <= i < |base| ==> !IsSeparator(base[i])) ==> r == base
    ensures |r| < |base| ==> IsSeparator(base[|base| - |r| - 1])
  {
    if base == [] then ""
    else if IsSeparator(base[|base| - 1]) then ""
    else
      var init := BaseName(base[..|base| - 1]);
      assert base[|base| - 1 - |init|..] == init + [base[|base| - 1]];
      init + [base[|base| - 1]]
  }

  /** Stripping the directory twice is stripping it once. */
  lemma BaseNameIdempotent(base: string)
    ensures BaseName(BaseName(base)) == BaseName(base)
  {
  }
}
