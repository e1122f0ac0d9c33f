/** The endpoint factory manager (`IceInternal.EndpointFactoryManager`, in
  * Java and in C#): a list of factories, one per endpoint type, that turns
  * an endpoint string or a stream's type tag into a call on the right
  * factory. What a factory builds is outside this module; the manager's
  * result names the factory and the text or type it is handed. */
module IceEndpointFactories {
  import opened Basics
  import IceTcpEndpoint

  /** A registered factory: its `type()` and its `protocol()`. */
  datatype Factory = Factory(endpointType: int, protocol: string)

  /** `factory.create(text)`: the factory and the text it parses. */
  datatype Delegation = CreateWith(factory: Factory, text: string)

  /** `EndpointParseException` with its `str`. */
  datatype ParseError = EndpointParseException(str: string)

  /** What `read` returns: the factory that reads the rest of the stream, or
    * an `UnknownEndpoint` that keeps the type. */
  datatype ReadOutcome = ReadWith(factory: Factory) | UnknownEndpoint(endpointType: int)

  /** The assertion in `add`: no two factories share a type. */
  predicate UniqueTypes(fs: seq<Factory>)
  {
    forall i, j :: 0 <= i < j < |fs| ==> fs[i].endpointType != fs[j].endpointType
  }

  /** The first factory of type `t`, if any. */
  function FindType(fs: seq<Factory>, t: int): (r: Option<Factory>)
    ensures r.Some? ==> r.value in fs && r.value.endpointType == t
    ensures r.None? <==> forall f :: f in fs ==> f.endpointType != t
  {
    if fs == [] then None
    else if fs[0].endpointType == t then Some(fs[0])
    else FindType(fs[1..], t)
  }

  /** The first factory for `protocol`, if any. */
  function FindProtocol(fs: seq<Factory>, protocol: string): (r: Option<Factory>)
    ensures r.Some? ==> r.value in fs && r.value.protocol == protocol
    ensures r.None? <==> forall f :: f in fs ==> f.protocol != protocol
  {
    if fs == [] then None
    else if fs[0].protocol == protocol then Some(fs[0])
    else FindProtocol(fs[1..], protocol)
  }

  /** With unique types, the factory found for a type is the only one. */
  lemma {:induction false} FindTypeUnique(fs: seq<Factory>, f: Factory)
    requires UniqueTypes(fs) && f in fs
    ensures FindType(fs, f.endpointType) == Some(f)
  {
    if fs[0] != f {
      assert forall i, j :: 0 <= i < j < |fs[1..]| ==> fs[1..][i] == fs[i + 1] && fs[1..][j] == fs[j + 1];
      FindTypeUnique(fs[1..], f);
    }
  }

  /** After `add(f)`, `get` of its type finds `f`, and the other types find
    * what they found before. */
  lemma AddThenGet(fs: seq<Factory>, f: Factory, t: int)
    requires UniqueTypes(fs) && forall g :: g in fs ==> g.endpointType != f.endpointType
    ensures UniqueTypes(fs + [f])
    ensures FindType(fs + [f], t) == if t == f.endpointType then Some(f) else FindType(fs, t)
  {
    if t == f.endpointType {
      FindTypeUnique(fs + [f], f);
    } else {
      AppendFindType(fs, f, t);
    }
  }

  lemma {:induction false} AppendFindType(fs: seq<Factory>, f: Factory, t: int)
    requires f.endpointType != t
    ensures FindType(fs + [f], t) == FindType(fs, t)
  {
    if fs != [] {
      assert (fs + [f])[1..] == fs[1..] + [f];
      AppendFindType(fs[1..], f, t);
    }
  }

  // ---------------------------------------------------------------------
  // Trimming and the protocol prefix
  // ---------------------------------------------------------------------

  /** Java's `String.trim` drops every character up to U+0020. */
  predicate JavaSpace(c: char)
  {
    c as int <= 0x20
  }

  /** .NET's `String.Trim` drops the Unicode white space characters. */
  predicate DotNetSpace(c: char)
  {
    var n := c as int;
    || (0x09 <= n <= 0x0d) || n == 0x20 || n == 0x85 || n == 0xa0 || n == 0x1680
    || (0x2000 <= n <= 0x200a) || n == 0x2028 || n == 0x2029 || n == 0x202f
    || n == 0x205f || n == 0x3000
  }

  /** How many characters `space` accepts at the start of `s`. */
  function LeadingSpace(s: string, space: char -> bool): (n: nat)
    ensures n <= |s|
    ensures forall i :: 0 <= i < n ==> space(s[i])
    ensures n < |s| ==> !space(s[n])
  {
    if s == [] || !space(s[0]) then 0 else 1 + LeadingSpace(s[1..], space)
  }

  /** How many characters `space` accepts at the end of `s`. */
  function TrailingSpace(s: string, space: char -> bool): (n: nat)
    ensures n <= |s|
    ensures forall i :: |s| - n <= i < |s| ==> space(s[i])
    ensures n < |s| ==> !space(s[|s| - 1 - n])
  {
    if s == [] || !space(s[|s| - 1]) then 0 else 1 + TrailingSpace(s[..|s| - 1], space)
  }

  /** `trim`: without the leading and trailing characters `space` accepts. */
  function Trim(s: string, space: char -> bool): (r: string)
    ensures r != [] ==> !space(r[0]) && !space(r[|r| - 1])
    ensures r == [] <==> forall i :: 0 <= i < |s| ==> space(s[i])
  {
    var a := LeadingSpace(s, space);
    var t := s[a..];
    t[..|t| - TrailingSpace(t, space)]
  }

  /** A string whose ends are not blank is its own trim. */
  lemma TrimUnchanged(s: string, space: char -> bool)
    requires s != [] && !space(s[0]) && !space(s[|s| - 1])
    ensures Trim(s, space) == s
  {
  }

  /** The length of the blank run that starts `s`. */
  function BlankRun(s: string): (n: nat)
    ensures n <= |s|
    ensures forall i :: 0 <= i < n ==> IceTcpEndpoint.IsBlank(s[i])
    ensures n < |s| ==> !IceTcpEndpoint.IsBlank(s[n])
  {
    if s != [] && IceTcpEndpoint.IsBlank(s[0]) then 1 + BlankRun(s[1..]) else 0
  }

  /** The characters before which `$` also matches when they end the
    * string: Java's line terminators (`\n`, `\r`, U+0085, U+2028 and
    * U+2029), a final `\r\n` aside. */
  predicate JavaLineEnd(c: char)
  {
    c == '\n' || c == '\r' || c == '\U{85}' || c == '\U{2028}' || c == '\U{2029}'
  }

  /** .NET's `$` also matches before a final `\n` only. */
  predicate DotNetLineEnd(c: char)
  {
    c == '\n'
  }

  /** The first match of `([ \t\n\r]+)|$` in `s`, where `$` matches at the
    * end and before a last character `lineEnd` accepts: the first blank
    * run, or else the empty match before that last character, or else the
    * empty match at the end. */
  function ProtocolMatch(s: string, lineEnd: char -> bool): (m: (nat, nat))
    ensures m.0 <= m.1 <= |s|
    ensures forall i :: 0 <= i < m.0 ==> !IceTcpEndpoint.IsBlank(s[i])
    ensures forall i :: m.0 <= i < m.1 ==> IceTcpEndpoint.IsBlank(s[i])
    ensures m.0 < m.1 <==> m.0 < |s| && IceTcpEndpoint.IsBlank(s[m.0])
    ensures m.0 == m.1 < |s| ==> m.0 == |s| - 1 && lineEnd(s[m.0])
    ensures m.0 == |s| && |s| > 0 ==> !lineEnd(s[|s| - 1])
    ensures m.0 < m.1 < |s| ==> !IceTcpEndpoint.IsBlank(s[m.1])
  {
    var start := IceTcpEndpoint.RunLength(s);
    if start == |s| && |s| > 0 && lineEnd(s[|s| - 1]) then (|s| - 1, |s| - 1)
    else (start, start + BlankRun(s[start..]))
  }

  /** `create(str)` once `str` is trimmed to `s`: the first word names the
    * protocol (`default` stands for the default protocol), and the first
    * factory for it is handed the rest after the blanks; an empty `s` or an
    * unknown protocol is `EndpointParseException` with the original string. */
  function CreateTrimmed(fs: seq<Factory>, defaultProtocol: string, lineEnd: char -> bool, str: string, s: string)
    : (r: Result<Delegation, ParseError>)
    ensures r.Failure? ==> r.error == EndpointParseException(str)
    ensures s == [] ==> r.Failure?
    ensures r.Success? ==> r.value.factory in fs
  {
    if s == [] then Failure(EndpointParseException(str))
    else
      var m := ProtocolMatch(s, lineEnd);
      var protocol := if s[..m.0] == "default" then defaultProtocol else s[..m.0];
      match FindProtocol(fs, protocol)
      case None => Failure(EndpointParseException(str))
      case Some(f) => Success(CreateWith(f, s[m.1..]))
  }

  /** `create(str)`, trimming with `space`, where `$` also matches before
    * a last character `lineEnd` accepts. */
  function CreateSpec(fs: seq<Factory>, defaultProtocol: string, space: char -> bool, lineEnd: char -> bool,
                      str: string): Result<Delegation, ParseError>
  {
    CreateTrimmed(fs, defaultProtocol, lineEnd, str, Trim(str, space))
  }

  /** A string that is all `trim` characters is refused, with itself as the
    * exception's text. */
  lemma CreateBlank(fs: seq<Factory>, defaultProtocol: string, space: char -> bool, lineEnd: char -> bool,
                    str: string)
    requires forall i :: 0 <= i < |str| ==> space(str[i])
    ensures CreateSpec(fs, defaultProtocol, space, lineEnd, str) == Failure(EndpointParseException(str))
  {
  }

  /** `s` is a first word of `k` characters, then either blanks up to `n`
    * and the rest, or (with `n == k`) only a last character before which
    * `$` matches, or nothing. */
  predicate WordThenBlanks(s: string, lineEnd: char -> bool, k: nat, n: nat)
  {
    && k <= n <= |s|
    && IceTcpEndpoint.NoBlank(s[..k])
    && (k < |s| ==> || (k < n && IceTcpEndpoint.IsBlank(s[k]))
                    || (k == n == |s| - 1 && !IceTcpEndpoint.IsBlank(s[k]) && lineEnd(s[k])))
    && (k == |s| && k > 0 ==> !lineEnd(s[k - 1]))
    && (forall i :: k <= i < n ==> IceTcpEndpoint.IsBlank(s[i]))
    && (n < |s| ==> !IceTcpEndpoint.IsBlank(s[n]))
  }

  /** What a successful `create` means, for a `trim` that removes the
    * blanks: the factory serves the string's first word (or the default
    * protocol for `default`), and it is handed the rest of the trimmed
    * string after the blanks that end that word; a word that runs up to a
    * last line terminator hands on that terminator. */
  lemma CreateMeans(fs: seq<Factory>, defaultProtocol: string, space: char -> bool, lineEnd: char -> bool,
                    str: string)
    requires space(' ') && space('\t') && space('\n') && space('\r')
    requires CreateSpec(fs, defaultProtocol, space, lineEnd, str).Success?
    ensures var s := Trim(str, space);
            var d := CreateSpec(fs, defaultProtocol, space, lineEnd, str).value;
            exists k: nat, n: nat ::
              && WordThenBlanks(s, lineEnd, k, n)
              && d.text == s[n..]
              && d.factory.protocol == (if s[..k] == "default" then defaultProtocol else s[..k])
  {
    var s := Trim(str, space);
    var m := ProtocolMatch(s, lineEnd);
    assert WordThenBlanks(s, lineEnd, m.0, m.1);
  }

  /** The match in a string that starts with `tcp` and one blank before an
    * option. */
  lemma TcpMatch(s: string, lineEnd: char -> bool)
    requires |s| > 4 && s[..3] == "tcp" && s[3] == ' ' && s[4] == '-'
    ensures ProtocolMatch(s, lineEnd) == (3, 4)
  {
    assert IceTcpEndpoint.RunLength(s) == 3 by {
      assert s[1..][1..][1..][0] == ' ';
    }
    assert BlankRun(s[3..]) == 1 by {
      assert s[3..][1..][0] == '-';
    }
  }

  lemma TrimPrinted(e: IceTcpEndpoint.TcpEndpoint, space: char -> bool, lineEnd: char -> bool, fs: seq<Factory>,
                    defaultProtocol: string)
    requires !space('t') && forall d :: IceTcpEndpoint.IsDigit(d) ==> !space(d)
    ensures CreateSpec(fs, defaultProtocol, space, lineEnd, IceTcpEndpoint.ToString(e))
              == CreateTrimmed(fs, defaultProtocol, lineEnd, IceTcpEndpoint.ToString(e), IceTcpEndpoint.ToString(e))
  {
    var s := IceTcpEndpoint.ToString(e);
    var x := if e.timeout != -1 then IceTcpEndpoint.Decimal(e.timeout) else IceTcpEndpoint.Decimal(e.port);
    assert s == s[..|s| - |x|] + x;
    assert IceTcpEndpoint.IsDigit(x[|x| - 1]);
    TrimUnchanged(s, space);
  }

  lemma CreateOfTcp(fs: seq<Factory>, defaultProtocol: string, lineEnd: char -> bool, s: string)
    requires |s| > 4 && s[..3] == "tcp" && s[3] == ' ' && s[4] == '-'
    requires FindProtocol(fs, "tcp").Some?
    ensures CreateTrimmed(fs, defaultProtocol, lineEnd, s, s)
              == Success(CreateWith(FindProtocol(fs, "tcp").value, s[4..]))
  {
    TcpMatch(s, lineEnd);
    assert s[..3] != "default";
  }

  /** The string form of a TCP endpoint reaches the TCP factory with the
    * text its parser reads back as the same endpoint. */
  lemma CreateTcpPrinted(fs: seq<Factory>, defaultProtocol: string, space: char -> bool, lineEnd: char -> bool,
                         e: IceTcpEndpoint.TcpEndpoint, defaultHost: string)
    requires IceTcpEndpoint.Printable(e)
    requires !space('t') && forall d :: IceTcpEndpoint.IsDigit(d) ==> !space(d)
    requires FindProtocol(fs, "tcp").Some?
    ensures var r := CreateSpec(fs, defaultProtocol, space, lineEnd, IceTcpEndpoint.ToString(e));
            && r.Success? && r.value.factory.protocol == "tcp"
            && IceTcpEndpoint.Parse(r.value.text, defaultHost) == Some(e)
  {
    var s := IceTcpEndpoint.ToString(e);
    TrimPrinted(e, space, lineEnd, fs, defaultProtocol);
    CreateOfTcp(fs, defaultProtocol, lineEnd, s);
    IceTcpEndpoint.ParsePrinted(e, defaultHost);
  }

  /** Java's `String.trim` keeps a final U+2028 and `$` matches before it,
    * so `tcp` followed by it hands the TCP factory that one character. */
  lemma JavaLineEndHandedOn(fs: seq<Factory>, defaultProtocol: string, f: Factory)
    requires FindProtocol(fs, "tcp") == Some(f)
    ensures CreateSpec(fs, defaultProtocol, JavaSpace, JavaLineEnd, "tcp\U{2028}")
              == Success(CreateWith(f, "\U{2028}"))
  {
    var s := "tcp\U{2028}";
    TrimUnchanged(s, JavaSpace);
    assert IceTcpEndpoint.RunLength(s) == 4 by {
      assert s[1..][1..][1..][1..] == [];
    }
    assert s[..3] == "tcp";
  }

  /** .NET's `String.Trim` drops that U+2028, so the C# manager hands the
    * TCP factory the empty string. */
  lemma DotNetLineEndTrimmed(fs: seq<Factory>, defaultProtocol: string, f: Factory)
    requires FindProtocol(fs, "tcp") == Some(f)
    ensures CreateSpec(fs, defaultProtocol, DotNetSpace, DotNetLineEnd, "tcp\U{2028}") == Success(CreateWith(f, ""))
  {
    var s := "tcp\U{2028}";
    assert !DotNetSpace(s[0]) && DotNetSpace(s[3]) && !DotNetSpace(s[..3][2]);
    assert LeadingSpace(s, DotNetSpace) == 0;
    assert TrailingSpace(s[..3], DotNetSpace) == 0;
    assert TrailingSpace(s, DotNetSpace) == 1;
    assert s[0..][..3] == "tcp";
    var t := "tcp";
    assert IceTcpEndpoint.RunLength(t) == 3 by {
      assert t[1..][1..][1..] == [];
    }
    assert ProtocolMatch(t, DotNetLineEnd) == (3, 3);
  }

  // ---------------------------------------------------------------------
  // The manager
  // ---------------------------------------------------------------------

  /** `EndpointFactoryManager`: the list of factories and, for `destroy`,
    * the factories whose own `destroy` has been called. `space` is what the
    * language's `trim` removes, and `lineEnd` what its `$` may match before. */
  class EndpointFactoryManager {
    var factories: seq<Factory>
    var destroyed: seq<Factory>
    const defaultProtocol: string
    const space: char -> bool
    const lineEnd: char -> bool

    predicate Valid()
      reads this
    {
      UniqueTypes(factories)
    }

    /** The Java manager, whose `create` trims with `String.trim`. */
    constructor ForJava(defaultProtocol: string)
      ensures Valid() && factories == [] && destroyed == []
      ensures this.defaultProtocol == defaultProtocol && space == JavaSpace && lineEnd == JavaLineEnd
    {
      factories := [];
      destroyed := [];
      this.defaultProtocol := defaultProtocol;
      space := JavaSpace;
      lineEnd := JavaLineEnd;
    }

    /** The C# manager, whose `create` trims with `String.Trim`. */
    constructor ForCSharp(defaultProtocol: string)
      ensures Valid() && factories == [] && destroyed == []
      ensures this.defaultProtocol == defaultProtocol && space == DotNetSpace && lineEnd == DotNetLineEnd
    {
      factories := [];
      destroyed := [];
      this.defaultProtocol := defaultProtocol;
      space := DotNetSpace;
      lineEnd := DotNetLineEnd;
    }

    /** `add`: the caller never registers a type twice (the loop asserts
    * it); the factory goes at the end. */
    method Add(factory: Factory)
      requires Valid()
      requires forall f :: f in factories ==> f.endpointType != factory.endpointType
      modifies this
      ensures Valid()
      ensures factories == old(factories) + [factory] && destroyed == old(destroyed)
    {
      var i := 0;
      while i < |factories|
        invariant 0 <= i <= |factories|
      {
        assert factories[i].endpointType != factory.endpointType;
        i := i + 1;
      }
      factories := factories + [factory];
    }

    /** `get(type)`: the factory of that type, or null. */
    method Get(t: int) returns (r: Option<Factory>)
      ensures r == FindType(factories, t)
    {
      var i := 0;
      while i < |factories|
        invariant 0 <= i <= |factories|
        invariant FindType(factories, t) == FindType(factories[i..], t)
      {
        assert factories[i..][1..] == factories[i + 1..];
        if factories[i].endpointType == t {
          return Some(factories[i]);
        }
        i := i + 1;
      }
      return None;
    }

    /** `create(str)`: trims, splits off the protocol, and hands the rest to
      * the first factory for the protocol. */
    method Create(str: string) returns (r: Result<Delegation, ParseError>)
      ensures r == CreateSpec(factories, defaultProtocol, space, lineEnd, str)
    {
      var s := Trim(str, space);
      if |s| == 0 {
        return Failure(EndpointParseException(str));
      }
      var m := ProtocolMatch(s, lineEnd);
      var protocol := s[..m.0];
      if protocol == "default" {
        protocol := defaultProtocol;
      }
      var i := 0;
      while i < |factories|
        invariant 0 <= i <= |factories|
        invariant FindProtocol(factories, protocol) == FindProtocol(factories[i..], protocol)
      {
        assert factories[i..][1..] == factories[i + 1..];
        if factories[i].protocol == protocol {
          return Success(CreateWith(factories[i], s[m.1..]));
        }
        i := i + 1;
      }
      return Failure(EndpointParseException(str));
    }

    /** `read`, after the type short: the factory of that type reads the
      * rest, an unknown type gives an `UnknownEndpoint`. */
    method Read(t: int) returns (r: ReadOutcome)
      ensures FindType(factories, t).Some? ==> r == ReadWith(FindType(factories, t).value)
      ensures FindType(factories, t).None? ==> r == UnknownEndpoint(t)
    {
      var f := Get(t);
      if f.Some? {
        return ReadWith(f.value);
      }
      return UnknownEndpoint(t);
    }

    /** `destroy`: every factory is destroyed, in order, and the list is
      * emptied. */
    method Destroy()
      modifies this
      ensures Valid()
      ensures factories == [] && destroyed == old(destroyed) + old(factories)
    {
      var i := 0;
      while i < |factories|
        invariant 0 <= i <= |factories|
        invariant factories == old(factories)
        invariant destroyed == old(destroyed) + factories[..i]
      {
        destroyed := destroyed + [factories[i]];
        i := i + 1;
      }
      assert factories[..i] == factories;
      factories := [];
    }
  }
}
