/** The factory that builds proxy references (cppe/src/IceE/ReferenceFactory.cpp):
  * the stringified-proxy parser, unmarshalling a reference from a stream,
  * `copy`, the `create` overloads and `destroy`. The run-time services the
  * parser calls (`stringToIdentity`, `IceUtil::unescapeString`, the endpoint
  * factories) are the parameters in `Env`. */
module IceReferenceFactory {
  import opened Basics
  import opened IceReference

  // ---------------------------------------------------------------------
  // Scanning helpers, as `std::string` searches
  // ---------------------------------------------------------------------

  /** The whitespace the parser skips. */
  const Delims: set<char> := {' ', '\t', '\n', '\r'}

  /** Where an unquoted identity or option argument ends. */
  const TokenStops: set<char> := {' ', '\t', '\n', '\r', ':', '@'}

  /** `s.find_first_not_of(delim, from)`, with `|s|` standing for `npos`. */
  function SkipDelims(s: string, from: nat): (i: nat)
    requires from <= |s|
    ensures from <= i <= |s|
    ensures i < |s| ==> s[i] !in Delims
    decreases |s| - from
  {
    if from == |s| || s[from] !in Delims then from else SkipDelims(s, from + 1)
  }

  /** Everything `SkipDelims` skips is whitespace. */
  lemma {:induction false} SkipDelimsSkips(s: string, from: nat)
    requires from <= |s|
    ensures forall k :: from <= k < SkipDelims(s, from) ==> s[k] in Delims
    decreases |s| - from
  {
    if from < |s| && s[from] in Delims {
      SkipDelimsSkips(s, from + 1);
    }
  }

  /** `s.find_first_of(stops, from)`, with `|s|` standing for `npos`. */
  function FindFirstOf(s: string, from: nat, stops: set<char>): (i: nat)
    requires from <= |s|
    ensures from <= i <= |s|
    ensures i < |s| ==> s[i] in stops
    decreases |s| - from
  {
    if from == |s| || s[from] in stops then from else FindFirstOf(s, from + 1, stops)
  }

  /** Nothing `FindFirstOf` passes over is a stop character. */
  lemma {:induction false} FindFirstOfSkips(s: string, from: nat, stops: set<char>)
    requires from <= |s|
    ensures forall k :: from <= k < FindFirstOf(s, from, stops) ==> s[k] !in stops
    decreases |s| - from
  {
    if from < |s| && s[from] !in stops {
      FindFirstOfSkips(s, from + 1, stops);
    }
  }

  /** What `IceUtil::checkQuote` reports about the character at a position. */
  datatype Quote = NotQuoted | ClosedAt(pos: nat) | Unmatched

  /** The search for the closing quote: the first occurrence of `q` from
    * `from` that is not preceded by a backslash. */
  function ClosingQuote(s: string, q: char, from: nat): (r: Quote)
    requires 1 <= from <= |s|
    ensures r.ClosedAt? ==> from <= r.pos < |s| && s[r.pos] == q && s[r.pos - 1] != '\\'
    ensures r != NotQuoted
    decreases |s| - from
  {
    if from == |s| then Unmatched
    else
      var pos := FindFirstOf(s, from, {q});
      if pos == |s| then Unmatched
      else if s[pos - 1] != '\\' then ClosedAt(pos)
      else ClosingQuote(s, q, pos + 1)
  }

  /** `IceUtil::checkQuote(s, start)`: not quoted unless the character is a
    * single or double quote; otherwise where the matching quote is. */
  function CheckQuote(s: string, start: nat): (r: Quote)
    requires start < |s|
    ensures r.NotQuoted? <==> s[start] != '"' && s[start] != '\''
    ensures r.ClosedAt? ==> start < r.pos < |s| && s[r.pos] == s[start]
  {
    var q := s[start];
    if q != '"' && q != '\'' then NotQuoted else ClosingQuote(s, q, start + 1)
  }

  /** A token: its text, where the text starts and the index just after the
    * token (after the closing quote, if quoted). */
  datatype Tok = Tok(text: string, start: nat, end: nat)

  /** A possibly quoted token at the non-blank position `beg`; unquoted it
    * runs to the first of `stops`. None for an unmatched quote. */
  function ReadToken(s: string, beg: nat, stops: set<char>): (t: Option<Tok>)
    requires beg < |s|
    ensures t.Some? ==> beg <= t.value.start <= t.value.end <= |s|
    ensures t.Some? && s[beg] !in stops ==> beg < t.value.end
    ensures t.Some? && CheckQuote(s, beg).NotQuoted? ==>
              t.value.start == beg && t.value.end == FindFirstOf(s, beg, stops)
              && t.value.text == s[beg..t.value.end]
  {
    match CheckQuote(s, beg)
    case Unmatched => None
    case NotQuoted =>
      var e := FindFirstOf(s, beg, stops);
      Some(Tok(s[beg..e], beg, e))
    case ClosedAt(q) => Some(Tok(s[beg + 1..q], beg + 1, q + 1))
  }

  // ---------------------------------------------------------------------
  // The stringified-proxy grammar
  // ---------------------------------------------------------------------

  /** The run-time services the parser calls: `stringToIdentity` (None for
    * `IdentityParseException`), `IceUtil::unescapeString` (None when it
    * fails), and the endpoint factories, which give the expanded endpoints
    * for an endpoint string or nothing when no factory knows it. */
  datatype Env = Env(
    stringToIdentity: string -> Option<Identity>,
    unescape: string -> Option<string>,
    endpoint: string -> seq<Endpoint>)

  datatype ParseError =
    | ProxyParse(str: string)
    | IllegalIdentity(id: Identity)
    | IdentityParse(text: string)
    | EndpointParse(endpoint: string)
    | ProxyUnmarshal
    | UnmarshalOutOfBounds
    | CommunicatorDestroyed

  /** What the options set: facet, mode and secure flag. */
  datatype Options = Options(facet: string, mode: Mode, secure: bool)

  /** Twoway, not secure, no facet. */
  const DefaultOptions := Options([], Twoway, false)

  /** The mode an option letter selects, if it selects one. */
  function ModeOption(c: char): Option<Mode>
  {
    if c == 't' then Some(Twoway)
    else if c == 'o' then Some(Oneway)
    else if c == 'O' then Some(BatchOneway)
    else if c == 'd' then Some(Datagram)
    else if c == 'D' then Some(BatchDatagram)
    else None
  }

  /** The printer's mode letters are exactly the parser's mode options. */
  lemma ModeLettersAgree(m: Mode, c: char)
    ensures ModeOption(ModeLetter(m)) == Some(m)
    ensures ModeOption(c) == Some(m) ==> c == ModeLetter(m)
    ensures ModeOption('s').None? && ModeOption('f').None?
  {
  }

  /** One option `-c` with its argument (empty when there is none): `-f`
    * needs an argument that unescapes, the others refuse one, and any other
    * letter is an error (None). */
  function ApplyOption(c: char, arg: string, opts: Options, env: Env): (r: Option<Options>)
    ensures r.Some? && c != 'f' ==> arg == [] && (c == 's' || ModeOption(c).Some?)
    ensures r.Some? && c == 'f' ==> arg != [] && env.unescape(arg) == Some(r.value.facet)
  {
    if c == 'f' then
      if arg == [] then None
      else
        match env.unescape(arg)
        case None => None
        case Some(f) => Some(opts.(facet := f))
    else if arg != [] then None
    else if c == 's' then Some(opts.(secure := true))
    else
      match ModeOption(c)
      case None => None
      case Some(m) => Some(opts.(mode := m))
  }

  /** The argument following an option that ends at `end`: absent when the
    * next non-blank is `@`, `:` or `-` or there is none, otherwise a
    * possibly quoted token. Gives the argument and where scanning resumes;
    * None for an unmatched quote. */
  function Argument(s: string, end: nat): (r: Option<(string, nat)>)
    requires end <= |s|
    ensures r.Some? ==> end <= r.value.1 <= |s|
  {
    var ab := SkipDelims(s, end);
    if ab == |s| || s[ab] == '@' || s[ab] == ':' || s[ab] == '-' then Some(([], end))
    else
      match ReadToken(s, ab, TokenStops)
      case None => None
      case Some(t) => Some((t.text, t.end))
  }

  /** The options loop from index `end`: the options in force when it stops
    * and the index where it stopped (a `:` or `@`, or `|s|` at the end). */
  function OptionsFrom(s: string, str: string, end: nat, opts: Options, env: Env)
    : (r: Result<(Options, nat), ParseError>)
    requires end <= |s|
    ensures r.Success? ==> end <= r.value.1 <= |s|
    ensures r.Success? && r.value.1 < |s| ==> s[r.value.1] == ':' || s[r.value.1] == '@'
    ensures r.Failure? ==> r.error == ProxyParse(str)
    decreases |s| - end
  {
    var beg := SkipDelims(s, end);
    if beg == |s| || s[beg] == ':' || s[beg] == '@' then Success((opts, beg))
    else
      var e := FindFirstOf(s, beg, TokenStops);
      var option := s[beg..e];
      if |option| != 2 || option[0] != '-' then Failure(ProxyParse(str))
      else
        match Argument(s, e)
        case None => Failure(ProxyParse(str))
        case Some((arg, next)) =>
          match ApplyOption(option[1], arg, opts, env)
          case None => Failure(ProxyParse(str))
          case Some(opts') => OptionsFrom(s, str, next, opts', env)
  }

  /** The endpoint list from a `:` at `end`: each segment up to the next `:`
    * goes to the endpoint factories. Gives the endpoints created and the
    * segments no factory knew, both in order. */
  function Segments(s: string, end: nat, env: Env): (r: (seq<Endpoint>, seq<string>))
    requires end <= |s|
    ensures end < |s| && s[end] == ':' ==> r.0 != [] || r.1 != []
    decreases |s| - end
  {
    if end < |s| && s[end] == ':' then
      var e := FindFirstOf(s, end + 1, {':'});
      var es := s[end + 1..e];
      var rest := Segments(s, e, env);
      if env.endpoint(es) != [] then (env.endpoint(es) + rest.0, rest.1)
      else (rest.0, [es] + rest.1)
    else ([], [])
  }

  /** One segment of the endpoint list: appended to what was read before
    * the `:` at `at`, it goes to the endpoints or to the unknown segments,
    * and the list goes on at the next `:`. */
  lemma SegmentsStep(s: string, at: nat, env: Env, eps: seq<Endpoint>, unknown: seq<string>)
    requires at < |s| && s[at] == ':'
    ensures var e := FindFirstOf(s, at + 1, {':'});
            var es := s[at + 1..e];
            var r := Segments(s, e, env);
            if env.endpoint(es) != [] then
              eps + Segments(s, at, env).0 == (eps + env.endpoint(es)) + r.0 &&
              unknown + Segments(s, at, env).1 == unknown + r.1
            else
              eps + Segments(s, at, env).0 == eps + r.0 &&
              unknown + Segments(s, at, env).1 == (unknown + [es]) + r.1
  {
  }

  function MakeDirect(id: Identity, opts: Options, eps: seq<Endpoint>, routerInfo: nat): Reference
  {
    Reference(opts.mode, opts.secure, id, [], opts.facet, false, -1, Direct(eps, routerInfo))
  }

  function MakeIndirect(id: Identity, opts: Options, adapterId: string, routerInfo: nat, locatorInfo: nat)
    : Reference
  {
    Reference(opts.mode, opts.secure, id, [], opts.facet, false, -1, Indirect(adapterId, routerInfo, locatorInfo))
  }

  /** The adapter id after the `@` at `at`: a token up to the next blank,
    * nothing but blanks after it, and a non-empty unescaped value. */
  function AdapterFrom(s: string, str: string, at: nat, env: Env): (r: Result<string, ParseError>)
    requires at < |s|
    ensures r.Success? ==> r.value != []
    ensures r.Failure? ==> r.error == ProxyParse(str)
  {
    var b := SkipDelims(s, at + 1);
    if b == |s| then Failure(ProxyParse(str))
    else
      match ReadToken(s, b, Delims)
      case None => Failure(ProxyParse(str))
      case Some(t) =>
        if SkipDelims(s, t.end) != |s| then Failure(ProxyParse(str))
        else
          match env.unescape(t.text)
          case None => Failure(ProxyParse(str))
          case Some(a) => if a == [] then Failure(ProxyParse(str)) else Success(a)
  }

  /** What follows the options: nothing (an indirect reference without
    * adapter id), endpoints after `:`, or an adapter id after `@`. */
  function TailFrom(s: string, str: string, beg: nat, id: Identity, opts: Options, env: Env,
                    routerInfo: nat, locatorInfo: nat): Result<Option<Reference>, ParseError>
    requires beg <= |s|
  {
    if beg == |s| then Success(Some(MakeIndirect(id, opts, [], routerInfo, locatorInfo)))
    else if s[beg] == ':' then
      var (eps, unknown) := Segments(s, beg, env);
      if eps == [] then Failure(EndpointParse(unknown[0]))
      else Success(Some(MakeDirect(id, opts, eps, routerInfo)))
    else if s[beg] == '@' then
      match AdapterFrom(s, str, beg, env)
      case Failure(e) => Failure(e)
      case Success(a) => Success(Some(MakeIndirect(id, opts, a, routerInfo, locatorInfo)))
    else Failure(ProxyParse(str))
  }

  /** The identity token at the first non-blank: None when there is none,
    * its quote is unmatched, or it is empty before a `:` or `@`. */
  function IdentityToken(s: string): (t: Option<Tok>)
  {
    var beg := SkipDelims(s, 0);
    if beg == |s| then None
    else
      match ReadToken(s, beg, TokenStops)
      case None => None
      case Some(t) => if t.start == t.end then None else Some(t)
  }

  /** `create(const string&)`: the whole stringified-proxy grammar. None is
    * the null reference. `routerInfo` and `locatorInfo` are the infos of the
    * default router and locator. */
  function Parse(str: string, env: Env, routerInfo: nat, locatorInfo: nat)
    : (r: Result<Option<Reference>, ParseError>)
    ensures str != [] && SkipDelims(str, 0) == |str| ==> r == Failure(ProxyParse(str))
    ensures r.Failure? && r.error.IllegalIdentity? ==> r.error.id.name == [] && r.error.id.category != []
    ensures r.Failure? ==> r.error.ProxyParse? || r.error.IllegalIdentity? || r.error.IdentityParse?
                           || r.error.EndpointParse?
    ensures r.Failure? && r.error.ProxyParse? ==> r.error.str == str
    ensures r == Success(None) <==>
              str == [] ||
              (IdentityToken(str).Some? && env.stringToIdentity(IdentityToken(str).value.text) == Some(Identity([], []))
               && SkipDelims(str, IdentityToken(str).value.end) == |str|)
    ensures r.Success? && r.value.Some? ==>
              var ref := r.value.value;
              && WellFormed(ref) && ref.identity.name != [] && !ref.kind.Fixed?
              && ref.context == [] && !ref.overrideTimeout
              && (ref.kind.Direct? ==> ref.kind.endpoints != [] && ref.kind.routerInfo == routerInfo)
              && (ref.kind.Indirect? ==> ref.kind.routerInfo == routerInfo && ref.kind.locatorInfo == locatorInfo)
  {
    if str == [] then Success(None)
    else
      match IdentityToken(str)
      case None => Failure(ProxyParse(str))
      case Some(t) =>
        match env.stringToIdentity(t.text)
        case None => Failure(IdentityParse(t.text))
        case Some(id) =>
          if id.name == [] then
            if id.category != [] then Failure(IllegalIdentity(id))
            else if SkipDelims(str, t.end) != |str| then Failure(ProxyParse(str))
            else Success(None)
          else
            match OptionsFrom(str, str, t.end, DefaultOptions, env)
            case Failure(e) => Failure(e)
            case Success((opts, beg)) => TailFrom(str, str, beg, id, opts, env, routerInfo, locatorInfo)
  }

  // ---------------------------------------------------------------------
  // Unmarshalling
  // ---------------------------------------------------------------------

  /** The `sz` endpoints that follow position `from`, if the stream holds them. */
  function EndpointsAt(ts: seq<Token>, from: nat, sz: nat): (r: Option<seq<Endpoint>>)
    ensures r.Some? ==> |r.value| == sz && from + sz <= |ts|
  {
    if from + sz <= |ts| && forall i :: from <= i < from + sz ==> ts[i].EndpointToken? then
      Some(seq(sz, i requires 0 <= i < sz && from + sz <= |ts| => ts[from + i].endpoint))
    else None
  }

  /** `create(ident, BasicStream*)`, reading after the identity: the facet
    * path (at most one element), the mode byte (at most `ModeLast`), the
    * secure flag, then either endpoints (a direct reference) or a zero
    * size and the adapter id (an indirect one). A missing or mistyped
    * value is `UnmarshalOutOfBounds`. Gives the reference and the unread
    * rest of the stream. */
  function ReadFromStream(id: Identity, ts: seq<Token>, routerInfo: nat, locatorInfo: nat)
    : (r: Result<(Option<Reference>, seq<Token>), ParseError>)
    ensures r.Success? ==> (r.value.0.None? <==> IsNullIdentity(id))
    ensures r.Success? ==> exists k :: 0 <= k <= |ts| && r.value.1 == ts[k..]
    ensures r.Failure? ==> r.error == UnmarshalOutOfBounds || r.error == ProxyUnmarshal
    ensures (!IsNullIdentity(id) && |ts| > 0 && ts[0].StringSeqToken? && |ts[0].strings| > 1)
              ==> r == Failure(ProxyUnmarshal)
    ensures r.Success? && r.value.0.Some? ==>
              && r.value.0.value.identity == id
              && r.value.0.value.context == []
              && !r.value.0.value.overrideTimeout
              && !r.value.0.value.kind.Fixed?
              && (r.value.0.value.kind.Direct? ==> r.value.0.value.kind.endpoints != [])
  {
    if IsNullIdentity(id) then assert ts[0..] == ts; Success((None, ts))
    else if |ts| == 0 || !ts[0].StringSeqToken? then Failure(UnmarshalOutOfBounds)
    else if |ts[0].strings| > 1 then Failure(ProxyUnmarshal)
    else
      var facet := if ts[0].strings == [] then [] else ts[0].strings[0];
      if |ts| < 2 || !ts[1].ByteToken? then Failure(UnmarshalOutOfBounds)
      else
        match ModeOfOrdinal(ts[1].b)
        case None => Failure(ProxyUnmarshal)
        case Some(mode) =>
          if |ts| < 4 || !ts[2].BoolToken? || !ts[3].SizeToken? then Failure(UnmarshalOutOfBounds)
          else
            var opts := Options(facet, mode, ts[2].flag);
            var sz := ts[3].size;
            if sz > 0 then
              match EndpointsAt(ts, 4, sz)
              case None => Failure(UnmarshalOutOfBounds)
              case Some(eps) => Success((Some(MakeDirect(id, opts, eps, routerInfo)), ts[4 + sz..]))
            else if |ts| < 5 || !ts[4].StringToken? then Failure(UnmarshalOutOfBounds)
            else Success((Some(MakeIndirect(id, opts, ts[4].text, routerInfo, locatorInfo)), ts[5..]))
  }

  /** What `streamWrite` writes for `r`, followed by `rest`, reads back as
    * `r` and leaves `rest` unread, when `r` is a reference the factory
    * itself could have built: not fixed, no context, no timeout override,
    * and a direct reference with at least one endpoint. */
  lemma StreamRoundTrip(r: Reference, rest: seq<Token>, routerInfo: nat, locatorInfo: nat)
    requires !IsNullIdentity(r.identity) && !r.kind.Fixed?
    requires r.context == [] && !r.overrideTimeout && r.timeout == -1
    requires r.kind.Direct? ==> r.kind.endpoints != [] && r.kind.routerInfo == routerInfo
    requires r.kind.Indirect? ==> r.kind.routerInfo == routerInfo && r.kind.locatorInfo == locatorInfo
    ensures StreamWrite(r).Success?
    ensures ReadFromStream(r.identity, StreamWrite(r).value + rest, routerInfo, locatorInfo)
              == Success((Some(r), rest))
  {
    var ts := StreamWrite(r).value + rest;
    ModeOrdinalRoundTrip(r.mode);
    var opts := Options(r.facet, r.mode, r.secure);
    match r.kind
    case Direct(eps, _) =>
      var written := StreamWrite(r).value;
      assert written[3] == SizeToken(|eps|);
      assert |written| == 4 + |eps|;
      forall i | 4 <= i < 4 + |eps|
        ensures ts[i] == EndpointToken(eps[i - 4])
      {
        assert ts[i] == written[i];
      }
      assert EndpointsAt(ts, 4, |eps|).value == eps;
      assert ts[4 + |eps|..] == rest;
      assert MakeDirect(r.identity, opts, eps, routerInfo) == r;
    case Indirect(ad, _, _) =>
      assert ts[3] == SizeToken(0) && ts[4] == StringToken(ad);
      assert ts[5..] == rest;
      assert MakeIndirect(r.identity, opts, ad, routerInfo, locatorInfo) == r;
  }

  /** A direct reference without endpoints is written as a zero size and an
    * empty adapter id, so it reads back as an indirect reference. */
  lemma EmptyDirectReadsIndirect(r: Reference, rest: seq<Token>, routerInfo: nat, locatorInfo: nat)
    requires !IsNullIdentity(r.identity) && r.kind.Direct? && r.kind.endpoints == []
    ensures StreamWrite(r).Success?
    ensures ReadFromStream(r.identity, StreamWrite(r).value + rest, routerInfo, locatorInfo)
              == Success((Some(MakeIndirect(r.identity, Options(r.facet, r.mode, r.secure), "", routerInfo, locatorInfo)), rest))
  {
    var ts := StreamWrite(r).value + rest;
    ModeOrdinalRoundTrip(r.mode);
    assert ts[3] == SizeToken(0) && ts[4] == StringToken("");
    assert ts[5..] == rest;
  }

  // ---------------------------------------------------------------------
  // The factory
  // ---------------------------------------------------------------------

  /** `copy` and the `create` overloads that take the parts: a destroyed
    * factory raises, the null identity yields the null reference. */
  function Checked(destroyed: bool, r: Reference): (c: Result<Option<Reference>, ParseError>)
    ensures destroyed <==> c == Failure(CommunicatorDestroyed)
    ensures c.Success? ==> (c.value.None? <==> IsNullIdentity(r.identity))
    ensures c.Success? && c.value.Some? ==> c.value.value == r
  {
    if destroyed then Failure(CommunicatorDestroyed)
    else if IsNullIdentity(r.identity) then Success(None)
    else Success(Some(r))
  }

  class ReferenceFactory {
    const env: Env
    /** The router and locator managers' `get`: the info handle for a proxy
      * handle (0, the null proxy, gives the null info). */
    const routerInfoOf: nat -> nat
    const locatorInfoOf: nat -> nat
    /** `_instance` has been cleared by `destroy`. */
    var destroyed: bool
    var defaultRouter: nat
    var defaultLocator: nat

    constructor(env: Env, routerInfoOf: nat -> nat, locatorInfoOf: nat -> nat)
      ensures this.env == env && this.routerInfoOf == routerInfoOf && this.locatorInfoOf == locatorInfoOf
      ensures !destroyed && defaultRouter == 0 && defaultLocator == 0
    {
      this.env := env;
      this.routerInfoOf := routerInfoOf;
      this.locatorInfoOf := locatorInfoOf;
      destroyed := false;
      defaultRouter := 0;
      defaultLocator := 0;
    }

    function RouterInfo(): nat
      reads this
    {
      routerInfoOf(defaultRouter)
    }

    function LocatorInfo(): nat
      reads this
    {
      locatorInfoOf(defaultLocator)
    }

    /** `copy`: a clone, unless the factory is destroyed or the identity null. */
    method Copy(r: Reference) returns (c: Result<Option<Reference>, ParseError>)
      ensures c == Checked(destroyed, r)
    {
      if destroyed {
        return Failure(CommunicatorDestroyed);
      }
      if r.identity.name == [] && r.identity.category == [] {
        return Success(None);
      }
      return Success(Some(r));
    }

    /** `create` of a direct reference from its parts. */
    method CreateDirect(id: Identity, ctx: Context, facet: string, mode: Mode, secure: bool,
                        eps: seq<Endpoint>, routerInfo: nat)
      returns (c: Result<Option<Reference>, ParseError>)
      ensures c == Checked(destroyed, Reference(mode, secure, id, ctx, facet, false, -1, Direct(eps, routerInfo)))
    {
      c := Copy(Reference(mode, secure, id, ctx, facet, false, -1, Direct(eps, routerInfo)));
    }

    /** `create` of an indirect reference from its parts. */
    method CreateIndirect(id: Identity, ctx: Context, facet: string, mode: Mode, secure: bool,
                          adapterId: string, routerInfo: nat, locatorInfo: nat)
      returns (c: Result<Option<Reference>, ParseError>)
      ensures c == Checked(destroyed, Reference(mode, secure, id, ctx, facet, false, -1,
                                                 Indirect(adapterId, routerInfo, locatorInfo)))
    {
      c := Copy(Reference(mode, secure, id, ctx, facet, false, -1, Indirect(adapterId, routerInfo, locatorInfo)));
    }

    /** `create` of a fixed reference over connections (never secure). */
    method CreateFixed(id: Identity, ctx: Context, facet: string, mode: Mode, connections: seq<nat>)
      returns (c: Result<Option<Reference>, ParseError>)
      ensures c == Checked(destroyed, Reference(mode, false, id, ctx, facet, false, -1, Fixed(connections)))
    {
      c := Copy(Reference(mode, false, id, ctx, facet, false, -1, Fixed(connections)));
    }

    method SetDefaultRouter(router: nat)
      modifies this
      ensures defaultRouter == router
      ensures destroyed == old(destroyed) && defaultLocator == old(defaultLocator)
    {
      defaultRouter := router;
    }

    method SetDefaultLocator(locator: nat)
      modifies this
      ensures defaultLocator == locator
      ensures destroyed == old(destroyed) && defaultRouter == old(defaultRouter)
    {
      defaultLocator := locator;
    }

    /** `destroy`: clears the instance and the defaults; a second call raises. */
    method Destroy() returns (st: Status<ParseError>)
      modifies this
      ensures old(destroyed) ==> st == Raised(CommunicatorDestroyed) && unchanged(this)
      ensures !old(destroyed) ==> st == Done && destroyed && defaultRouter == 0 && defaultLocator == 0
    {
      if destroyed {
        return Raised(CommunicatorDestroyed);
      }
      destroyed := true;
      defaultRouter := 0;
      defaultLocator := 0;
      return Done;
    }

    /** `create(const string&)`, scanning with `beg`/`end` as the source does.
      * The run-time services it calls need a live factory. */
    method Create(str: string) returns (r: Result<Option<Reference>, ParseError>)
      requires !destroyed
      ensures r == Parse(str, env, RouterInfo(), LocatorInfo())
    {
      if str == [] {
        return Success(None);
      }
      var s := str;
      var beg := SkipDelims(s, 0);
      if beg == |s| {
        return Failure(ProxyParse(str));
      }
      var tok := ReadToken(s, beg, TokenStops);
      if tok.None? || tok.value.start == tok.value.end {
        return Failure(ProxyParse(str));
      }
      var end := tok.value.end;
      var parsed := env.stringToIdentity(tok.value.text);
      if parsed.None? {
        return Failure(IdentityParse(tok.value.text));
      }
      var ident := parsed.value;
      if ident.name == [] {
        if ident.category != [] {
          return Failure(IllegalIdentity(ident));
        } else if SkipDelims(s, end) != |s| {
          return Failure(ProxyParse(str));
        }
        return Success(None);
      }

      var options := ScanOptions(s, str, end);
      if options.Failure? {
        return Failure(options.error);
      }
      var opts := options.value.0;
      beg := options.value.1;
      if beg == |s| {
        return Success(Some(MakeIndirect(ident, opts, [], RouterInfo(), LocatorInfo())));
      }
      if s[beg] == ':' {
        var eps, unknown := ScanEndpoints(s, beg);
        if eps == [] {
          return Failure(EndpointParse(unknown[0]));
        }
        return Success(Some(MakeDirect(ident, opts, eps, RouterInfo())));
      }
      var adapter := ScanAdapter(s, str, beg);
      if adapter.Failure? {
        return Failure(adapter.error);
      }
      return Success(Some(MakeIndirect(ident, opts, adapter.value, RouterInfo(), LocatorInfo())));
    }

    /** The options loop of `create(const string&)`: each `-x` option and
      * its argument, until the end, a `:` or a `@`. */
    method ScanOptions(s: string, str: string, start: nat) returns (r: Result<(Options, nat), ParseError>)
      requires start <= |s|
      ensures r == OptionsFrom(s, str, start, DefaultOptions, env)
    {
      var opts := DefaultOptions;
      var end := start;
      var beg: nat;
      while true
        invariant end <= |s|
        invariant OptionsFrom(s, str, end, opts, env) == OptionsFrom(s, str, start, DefaultOptions, env)
        decreases |s| - end
      {
        beg := SkipDelims(s, end);
        if beg == |s| || s[beg] == ':' || s[beg] == '@' {
          break;
        }
        end := FindFirstOf(s, beg, TokenStops);
        var option := s[beg..end];
        if |option| != 2 || option[0] != '-' {
          return Failure(ProxyParse(str));
        }
        var argument: string := [];
        var argumentBeg := SkipDelims(s, end);
        if argumentBeg != |s| && s[argumentBeg] != '@' && s[argumentBeg] != ':' && s[argumentBeg] != '-' {
          var t := ReadToken(s, argumentBeg, TokenStops);
          if t.None? {
            return Failure(ProxyParse(str));
          }
          argument := t.value.text;
          end := t.value.end;
        }
        var next := ApplyOption(option[1], argument, opts, env);
        if next.None? {
          return Failure(ProxyParse(str));
        }
        opts := next.value;
      }
      return Success((opts, beg));
    }

    /** The endpoint loop of `create(const string&)`: one segment per `:`,
      * created by the endpoint factories or kept as unknown. */
    method ScanEndpoints(s: string, start: nat) returns (endpoints: seq<Endpoint>, unknownEndpoints: seq<string>)
      requires start <= |s|
      ensures (endpoints, unknownEndpoints) == Segments(s, start, env)
    {
      endpoints := [];
      unknownEndpoints := [];
      var end := start;
      assert [] + Segments(s, end, env).0 == Segments(s, end, env).0;
      assert [] + Segments(s, end, env).1 == Segments(s, end, env).1;
      while end < |s| && s[end] == ':'
        invariant start <= end <= |s|
        invariant endpoints + Segments(s, end, env).0 == Segments(s, start, env).0
        invariant unknownEndpoints + Segments(s, end, env).1 == Segments(s, start, env).1
        decreases |s| - end
      {
        SegmentsStep(s, end, env, endpoints, unknownEndpoints);
        var beg := end + 1;
        end := FindFirstOf(s, beg, {':'});
        var es := s[beg..end];
        var endp := env.endpoint(es);
        if endp != [] {
          endpoints := endpoints + endp;
        } else {
          unknownEndpoints := unknownEndpoints + [es];
        }
      }
      assert endpoints + [] == endpoints && unknownEndpoints + [] == unknownEndpoints;
    }

    /** The `@` branch of `create(const string&)`. */
    method ScanAdapter(s: string, str: string, at: nat) returns (r: Result<string, ParseError>)
      requires at < |s|
      ensures r == AdapterFrom(s, str, at, env)
    {
      var beg := SkipDelims(s, at + 1);
      if beg == |s| {
        return Failure(ProxyParse(str));
      }
      var t := ReadToken(s, beg, Delims);
      if t.None? {
        return Failure(ProxyParse(str));
      }
      if SkipDelims(s, t.value.end) != |s| {
        return Failure(ProxyParse(str));
      }
      var adapter := env.unescape(t.value.text);
      if adapter.None? || adapter.value == [] {
        return Failure(ProxyParse(str));
      }
      return Success(adapter.value);
    }

    /** `create(ident, BasicStream*)`: reads what `streamWrite` wrote after
      * the identity; the endpoints are read one by one (`while(sz--)`). */
    method CreateFromStream(id: Identity, ts: seq<Token>)
      returns (r: Result<(Option<Reference>, seq<Token>), ParseError>)
      requires !destroyed
      ensures r == ReadFromStream(id, ts, RouterInfo(), LocatorInfo())
    {
      if id.name == [] && id.category == [] {
        return Success((None, ts));
      }
      if |ts| == 0 || !ts[0].StringSeqToken? {
        return Failure(UnmarshalOutOfBounds);
      }
      var facetPath := ts[0].strings;
      var facet: string := [];
      if facetPath != [] {
        if |facetPath| > 1 {
          return Failure(ProxyUnmarshal);
        }
        facet := facetPath[0];
      }
      if |ts| < 2 || !ts[1].ByteToken? {
        return Failure(UnmarshalOutOfBounds);
      }
      var mode := ModeOfOrdinal(ts[1].b);
      if mode.None? {
        return Failure(ProxyUnmarshal);
      }
      if |ts| < 4 || !ts[2].BoolToken? || !ts[3].SizeToken? {
        return Failure(UnmarshalOutOfBounds);
      }
      var opts := Options(facet, mode.value, ts[2].flag);
      var sz := ts[3].size;
      if sz > 0 {
        var endpoints: seq<Endpoint> := [];
        var pos := 4;
        while pos < 4 + sz
          invariant 4 <= pos <= 4 + sz && pos <= |ts|
          invariant |endpoints| == pos - 4
          invariant forall i :: 4 <= i < pos ==> ts[i].EndpointToken? && endpoints[i - 4] == ts[i].endpoint
          decreases 4 + sz - pos
        {
          if pos == |ts| || !ts[pos].EndpointToken? {
            return Failure(UnmarshalOutOfBounds);
          }
          endpoints := endpoints + [ts[pos].endpoint];
          pos := pos + 1;
        }
        assert forall i :: 4 <= i < 4 + sz ==> ts[i].EndpointToken?;
        assert EndpointsAt(ts, 4, sz).value == endpoints;
        return Success((Some(MakeDirect(id, opts, endpoints, RouterInfo())), ts[4 + sz..]));
      }
      if |ts| < 5 || !ts[4].StringToken? {
        return Failure(UnmarshalOutOfBounds);
      }
      return Success((Some(MakeIndirect(id, opts, ts[4].text, RouterInfo(), LocatorInfo())), ts[5..]));
    }
  }
}
