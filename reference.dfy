/** Proxy references of the embedded run time (cppe/src/IceE/Reference.cpp):
  * what a reference holds, how it is copied on change, hashed, compared,
  * printed, marshalled and how its endpoints are filtered. A reference is
  * an immutable value; the one field the source updates in place, the
  * memoised hash, lives in the class `MemoReference`. */
module IceReference {
  import opened Basics
  import opened Ordering

  // ---------------------------------------------------------------------
  // Modes, identities, contexts and endpoints
  // ---------------------------------------------------------------------

  /** Invocation modes in declaration order; `ModeLast` is the largest. */
  datatype Mode = Twoway | Oneway | BatchOneway | Datagram | BatchDatagram

  const ModeLast: nat := 4

  function ModeOrdinal(m: Mode): (n: nat)
    ensures n <= ModeLast
  {
    match m
    case Twoway => 0
    case Oneway => 1
    case BatchOneway => 2
    case Datagram => 3
    case BatchDatagram => 4
  }

  /** The mode a marshalled mode byte stands for, if it is in range. */
  function ModeOfOrdinal(n: int): (m: Option<Mode>)
    ensures m.Some? <==> 0 <= n <= ModeLast
    ensures m.Some? ==> ModeOrdinal(m.value) == n
  {
    if n == 0 then Some(Twoway)
    else if n == 1 then Some(Oneway)
    else if n == 2 then Some(BatchOneway)
    else if n == 3 then Some(Datagram)
    else if n == 4 then Some(BatchDatagram)
    else None
  }

  lemma ModeOrdinalRoundTrip(m: Mode)
    ensures ModeOfOrdinal(ModeOrdinal(m)) == Some(m)
  {
  }

  /** The letter of the stringified-proxy option that selects a mode. */
  function ModeLetter(m: Mode): char
  {
    match m
    case Twoway => 't'
    case Oneway => 'o'
    case BatchOneway => 'O'
    case Datagram => 'd'
    case BatchDatagram => 'D'
  }

  datatype Identity = Identity(name: string, category: string)

  /** The identity with empty name and empty category, for which the
    * factory yields a null reference. */
  predicate IsNullIdentity(id: Identity)
  {
    id.name == [] && id.category == []
  }

  /** The request context, a `std::map<string, string>`, as its entries in
    * ascending key order. */
  type Context = seq<(string, string)>

  /** An endpoint as a reference sees it: the transport-specific settings,
    * the timeout, and whether its transport is unknown to this run time. */
  datatype Endpoint = Endpoint(settings: string, timeout: int, unknown: bool)

  /** Which subclass a reference is, with the fields only that subclass has.
    * Router and locator infos are handles compared by address; 0 is null. */
  datatype Kind =
    | Fixed(connections: seq<nat>)
    | Direct(endpoints: seq<Endpoint>, routerInfo: nat)
    | Indirect(adapterId: string, routerInfo: nat, locatorInfo: nat)

  /** `getType()`, in the order of the `Type` enumeration. */
  function TypeOrdinal(k: Kind): nat
  {
    match k
    case Direct(_, _) => 0
    case Indirect(_, _, _) => 1
    case Fixed(_) => 2
  }

  datatype Reference = Reference(
    mode: Mode,
    secure: bool,
    identity: Identity,
    context: Context,
    facet: string,
    overrideTimeout: bool,
    timeout: int,
    kind: Kind)

  /** What the constructors establish and every change keeps: the timeout
    * is -1 until it is overridden, a fixed reference is never secure and
    * never overrides its timeout, and a direct reference that overrides the
    * timeout carries it on every endpoint. */
  predicate WellFormed(r: Reference)
  {
    && (!r.overrideTimeout ==> r.timeout == -1)
    && (r.kind.Fixed? ==> !r.secure && !r.overrideTimeout)
    && (r.kind.Direct? && r.overrideTimeout ==>
          forall i :: 0 <= i < |r.kind.endpoints| ==> r.kind.endpoints[i].timeout == r.timeout)
  }

  /** `getEndpoints()`: only a direct reference has endpoints of its own. */
  function Endpoints(r: Reference): (eps: seq<Endpoint>)
    ensures !r.kind.Direct? ==> eps == []
  {
    if r.kind.Direct? then r.kind.endpoints else []
  }

  datatype RefError =
    | MarshalException(reason: string)
    | FeatureNotSupported(feature: string)
    | NoEndpoint(proxy: string)

  // ---------------------------------------------------------------------
  // Copy on change
  // ---------------------------------------------------------------------

  /** What a `change*` call returns: the reference itself, or a new copy. */
  datatype Changed = Self | Copy(ref: Reference)

  /** The reference a caller holds after a `change*` call. */
  function Outcome(r: Reference, c: Changed): Reference
  {
    if c.Self? then r else c.ref
  }

  function ChangeMode(r: Reference, m: Mode): (c: Changed)
    ensures c.Self? <==> m == r.mode
    ensures Outcome(r, c) == r.(mode := m)
  {
    if m == r.mode then Self else Copy(r.(mode := m))
  }

  function ChangeIdentity(r: Reference, id: Identity): (c: Changed)
    ensures c.Self? <==> id == r.identity
    ensures Outcome(r, c) == r.(identity := id)
  {
    if id == r.identity then Self else Copy(r.(identity := id))
  }

  function ChangeFacet(r: Reference, f: string): (c: Changed)
    ensures c.Self? <==> f == r.facet
    ensures Outcome(r, c) == r.(facet := f)
  {
    if f == r.facet then Self else Copy(r.(facet := f))
  }

  /** `changeContext` always copies. */
  function ChangeContext(r: Reference, ctx: Context): (c: Changed)
    ensures c.Copy? && c.ref == r.(context := ctx)
  {
    Copy(r.(context := ctx))
  }

  /** Every endpoint with its timeout replaced, as `Endpoint::timeout` does. */
  function EndpointsWithTimeout(eps: seq<Endpoint>, t: int): (r: seq<Endpoint>)
    ensures |r| == |eps|
    ensures forall i :: 0 <= i < |r| ==> r[i] == eps[i].(timeout := t)
  {
    seq(|eps|, i requires 0 <= i < |eps| => eps[i].(timeout := t))
  }

  /** `applyOverrides`: the reference's timeout, if overridden, on every endpoint. */
  function ApplyOverrides(r: Reference, eps: seq<Endpoint>): (out: seq<Endpoint>)
    ensures |out| == |eps|
    ensures forall i :: 0 <= i < |out| ==>
              out[i] == if r.overrideTimeout then eps[i].(timeout := r.timeout) else eps[i]
  {
    if r.overrideTimeout then EndpointsWithTimeout(eps, r.timeout) else eps
  }

  /** `changeTimeout`: a fixed reference ignores it; otherwise the reference
    * itself is returned only when it already overrides with that value, and
    * a direct copy also rewrites its endpoints' timeouts. */
  function ChangeTimeout(r: Reference, t: int): (c: Changed)
  {
    if r.kind.Fixed? || (r.overrideTimeout && t == r.timeout) then Self
    else
      var base := r.(timeout := t, overrideTimeout := true);
      if r.kind.Direct? then
        Copy(base.(kind := r.kind.(endpoints := EndpointsWithTimeout(r.kind.endpoints, t))))
      else Copy(base)
  }

  lemma ChangeTimeoutOutcome(r: Reference, t: int)
    requires WellFormed(r)
    ensures ChangeTimeout(r, t).Self? <==> r.kind.Fixed? || (r.overrideTimeout && r.timeout == t)
    ensures var o := Outcome(r, ChangeTimeout(r, t));
            && WellFormed(o)
            && o.mode == r.mode && o.secure == r.secure && o.identity == r.identity
            && o.context == r.context && o.facet == r.facet
            && TypeOrdinal(o.kind) == TypeOrdinal(r.kind)
            && (!r.kind.Fixed? ==> o.overrideTimeout && o.timeout == t)
            && |Endpoints(o)| == |Endpoints(r)|
            && (forall i :: 0 <= i < |Endpoints(o)| ==>
                  Endpoints(o)[i] == Endpoints(r)[i].(timeout := t))
  {
  }

  /** `changeEndpoints` of a direct reference: new endpoints take the
    * reference's timeout override. */
  function ChangeEndpoints(r: Reference, eps: seq<Endpoint>): (c: Changed)
    requires r.kind.Direct?
    ensures c.Self? <==> eps == r.kind.endpoints
    ensures c.Copy? ==> c.ref == r.(kind := r.kind.(endpoints := ApplyOverrides(r, eps)))
  {
    if eps == r.kind.endpoints then Self
    else Copy(r.(kind := r.kind.(endpoints := ApplyOverrides(r, eps))))
  }

  /** `changeRouter`: a fixed reference ignores it. */
  function ChangeRouter(r: Reference, info: nat): (c: Changed)
    ensures c.Self? <==> r.kind.Fixed? || info == r.kind.routerInfo
    ensures c.Copy? ==> c.ref == r.(kind := r.kind.(routerInfo := info))
  {
    if r.kind.Fixed? || info == r.kind.routerInfo then Self
    else Copy(r.(kind := r.kind.(routerInfo := info)))
  }

  /** `changeLocator`: only an indirect reference has a locator. */
  function ChangeLocator(r: Reference, info: nat): (c: Changed)
    ensures c.Self? <==> !r.kind.Indirect? || info == r.kind.locatorInfo
    ensures c.Copy? ==> c.ref == r.(kind := r.kind.(locatorInfo := info))
  {
    if !r.kind.Indirect? || info == r.kind.locatorInfo then Self
    else Copy(r.(kind := r.kind.(locatorInfo := info)))
  }

  /** Every change keeps a reference well formed. */
  lemma ChangesPreserveWellFormed(r: Reference, m: Mode, id: Identity, f: string, ctx: Context,
                                  t: int, eps: seq<Endpoint>, info: nat)
    requires WellFormed(r)
    ensures WellFormed(Outcome(r, ChangeMode(r, m)))
    ensures WellFormed(Outcome(r, ChangeIdentity(r, id)))
    ensures WellFormed(Outcome(r, ChangeFacet(r, f)))
    ensures WellFormed(Outcome(r, ChangeContext(r, ctx)))
    ensures WellFormed(Outcome(r, ChangeTimeout(r, t)))
    ensures r.kind.Direct? ==> WellFormed(Outcome(r, ChangeEndpoints(r, eps)))
    ensures WellFormed(Outcome(r, ChangeRouter(r, info)))
    ensures WellFormed(Outcome(r, ChangeLocator(r, info)))
  {
    ChangeTimeoutOutcome(r, t);
  }

  // ---------------------------------------------------------------------
  // Hashing
  // ---------------------------------------------------------------------

  /** A string character converted to `Int` the way a signed C++ `char` is. */
  function SignedChar(c: char): (v: int)
    ensures -128 <= v < 128
  {
    var b := c as int % 256;
    if b >= 128 then b - 256 else b
  }

  /** One step `h = 5 * h + v` in 32-bit arithmetic. */
  function HashStep(h: int32, v: int): int32
  {
    Wrap32(5 * h + v)
  }

  /** `h = 5 * h + c` folded over the characters of `s`, first to last. */
  function HashFold(h: int32, s: string): int32
    decreases |s|
  {
    if s == [] then h else HashStep(HashFold(h, s[..|s| - 1]), SignedChar(s[|s| - 1]))
  }

  /** The fold over every key and then its value, in key order. */
  function HashContext(h: int32, ctx: Context): int32
    decreases |ctx|
  {
    if ctx == [] then h
    else
      var last := ctx[|ctx| - 1];
      HashFold(HashFold(HashContext(h, ctx[..|ctx| - 1]), last.0), last.1)
  }

  /** `Reference::hash`: mode, identity name and category, context, facet,
    * then the secure flag. */
  function BaseHash(r: Reference): int32
  {
    var h := HashFold(HashFold(ModeOrdinal(r.mode), r.identity.name), r.identity.category);
    HashStep(HashFold(HashContext(h, r.context), r.facet), if r.secure then 1 else 0)
  }

  /** The hash of any reference: an indirect one also folds in its adapter id. */
  function HashValue(r: Reference): int32
  {
    if r.kind.Indirect? then HashFold(BaseHash(r), r.kind.adapterId) else BaseHash(r)
  }

  lemma {:induction false} HashFoldAppend(h: int32, a: string, b: string)
    ensures HashFold(h, a + b) == HashFold(HashFold(h, a), b)
    decreases |b|
  {
    if b == [] {
      assert a + b == a;
    } else {
      var b' := b[..|b| - 1];
      assert (a + b)[..|a + b| - 1] == a + b';
      HashFoldAppend(h, a, b');
    }
  }

  /** References that `operator==` finds equal hash alike. */
  lemma EqualReferencesHashAlike(a: Reference, b: Reference)
    requires Equal(a, b)
    ensures HashValue(a) == HashValue(b)
  {
  }

  /** The hash ignores timeouts, endpoints, routers and locators. */
  lemma HashIgnoresTimeoutAndRouting(r: Reference, t: int, info: nat)
    ensures HashValue(Outcome(r, ChangeTimeout(r, t))) == HashValue(r)
    ensures HashValue(Outcome(r, ChangeRouter(r, info))) == HashValue(r)
    ensures HashValue(Outcome(r, ChangeLocator(r, info))) == HashValue(r)
  {
  }

  /** The loop `for(p = s.begin(); p != s.end(); ++p) h = 5 * h + *p;`. */
  method FoldChars(h0: int32, s: string) returns (h: int32)
    ensures h == HashFold(h0, s)
  {
    h := h0;
    var i := 0;
    while i < |s|
      invariant 0 <= i <= |s|
      invariant h == HashFold(h0, s[..i])
    {
      assert s[..i + 1][..i] == s[..i];
      h := HashStep(h, SignedChar(s[i]));
      i := i + 1;
    }
    assert s[..i] == s;
  }

  /** The loop over the context entries, folding each key and then its value. */
  method FoldContext(h0: int32, ctx: Context) returns (h: int32)
    ensures h == HashContext(h0, ctx)
  {
    h := h0;
    var i := 0;
    while i < |ctx|
      invariant 0 <= i <= |ctx|
      invariant h == HashContext(h0, ctx[..i])
    {
      assert ctx[..i + 1][..i] == ctx[..i];
      h := FoldChars(h, ctx[i].0);
      h := FoldChars(h, ctx[i].1);
      i := i + 1;
    }
    assert ctx[..i] == ctx;
  }

  /** A reference object with its memoised hash (`_hashValue`,
    * `_hashInitialized`). */
  class MemoReference {
    const value: Reference
    var hashValue: int32
    var hashInitialized: bool

    predicate Valid()
      reads this
    {
      hashInitialized ==> hashValue == HashValue(value)
    }

    constructor(r: Reference)
      ensures value == r && !hashInitialized && Valid()
    {
      value := r;
      hashValue := 0;
      hashInitialized := false;
    }

    /** `Reference::hash`: computes and memoises the base hash. */
    method BaseHashMemo() returns (h: int32)
      requires !hashInitialized
      modifies this
      ensures h == BaseHash(value)
      ensures hashInitialized && hashValue == h
    {
      h := FoldChars(ModeOrdinal(value.mode), value.identity.name);
      h := FoldChars(h, value.identity.category);
      h := FoldContext(h, value.context);
      h := FoldChars(h, value.facet);
      h := HashStep(h, if value.secure then 1 else 0);
      hashValue := h;
      hashInitialized := true;
    }

    /** `hash()`, with `IndirectReference::hash` folding the adapter id into
      * the memoised base hash. A second call returns the memo. */
    method Hash() returns (h: int32)
      requires Valid()
      modifies this
      ensures Valid() && hashInitialized
      ensures h == HashValue(value)
      ensures old(hashInitialized) ==> h == old(hashValue) && unchanged(this)
    {
      if hashInitialized {
        return hashValue;
      }
      h := BaseHashMemo();
      if value.kind.Indirect? {
        h := FoldChars(hashValue, value.kind.adapterId);
        hashValue := h;
      }
    }
  }

  // ---------------------------------------------------------------------
  // Equality and ordering
  // ---------------------------------------------------------------------

  predicate IdentityLess(a: Identity, b: Identity)
  {
    StringLess(a.name, b.name) || (!StringLess(b.name, a.name) && StringLess(a.category, b.category))
  }

  predicate EntryLess(p: (string, string), q: (string, string))
  {
    StringLess(p.0, q.0) || (!StringLess(q.0, p.0) && StringLess(p.1, q.1))
  }

  predicate ContextLess(a: Context, b: Context)
  {
    SeqLess(a, b, EntryLess)
  }

  predicate BoolLess(a: bool, b: bool)
  {
    !a && b
  }

  predicate NatLess(x: nat, y: nat)
  {
    x < y
  }

  /** The endpoint order, abstracted to a lexicographic order on the fields. */
  predicate EndpointLess(e: Endpoint, f: Endpoint)
  {
    || StringLess(e.settings, f.settings)
    || (e.settings == f.settings && e.timeout < f.timeout)
    || (e.settings == f.settings && e.timeout == f.timeout && BoolLess(e.unknown, f.unknown))
  }

  /** `Reference::operator==`: the timeout counts only when overridden. */
  predicate BaseEqual(a: Reference, b: Reference)
  {
    && TypeOrdinal(a.kind) == TypeOrdinal(b.kind)
    && a.mode == b.mode
    && a.secure == b.secure
    && a.identity == b.identity
    && a.context == b.context
    && a.facet == b.facet
    && a.overrideTimeout == b.overrideTimeout
    && (a.overrideTimeout ==> a.timeout == b.timeout)
  }

  /** `Reference::operator<`: mode, secure, identity, context, facet, override
    * flag, timeout when both override, then type. */
  predicate BaseLess(a: Reference, b: Reference)
  {
    if a.mode != b.mode then ModeOrdinal(a.mode) < ModeOrdinal(b.mode)
    else if a.secure != b.secure then BoolLess(a.secure, b.secure)
    else if a.identity != b.identity then IdentityLess(a.identity, b.identity)
    else if a.context != b.context then ContextLess(a.context, b.context)
    else if a.facet != b.facet then StringLess(a.facet, b.facet)
    else if a.overrideTimeout != b.overrideTimeout then BoolLess(a.overrideTimeout, b.overrideTimeout)
    else if a.overrideTimeout && a.timeout != b.timeout then a.timeout < b.timeout
    else TypeOrdinal(a.kind) < TypeOrdinal(b.kind)
  }

  /** `operator==` of the subclasses. */
  predicate Equal(a: Reference, b: Reference)
  {
    && BaseEqual(a, b)
    && match a.kind
       case Fixed(cs) => b.kind.Fixed? && cs == b.kind.connections
       case Direct(eps, ri) => b.kind.Direct? && ri == b.kind.routerInfo && eps == b.kind.endpoints
       case Indirect(ad, ri, li) =>
         b.kind.Indirect? && ri == b.kind.routerInfo && ad == b.kind.adapterId && li == b.kind.locatorInfo
  }

  /** `operator<` of the subclasses: the base order, then (for equal bases)
    * the router, then the subclass's own fields. */
  predicate Less(a: Reference, b: Reference)
  {
    || BaseLess(a, b)
    || (BaseEqual(a, b) &&
        match a.kind
        case Fixed(cs) => b.kind.Fixed? && SeqLess(cs, b.kind.connections, NatLess)
        case Direct(eps, ri) =>
          b.kind.Direct? &&
          (ri < b.kind.routerInfo ||
           (ri == b.kind.routerInfo && SeqLess(eps, b.kind.endpoints, EndpointLess)))
        case Indirect(ad, ri, li) =>
          b.kind.Indirect? &&
          (ri < b.kind.routerInfo ||
           (ri == b.kind.routerInfo &&
            (StringLess(ad, b.kind.adapterId) ||
             (!StringLess(b.kind.adapterId, ad) && li < b.kind.locatorInfo)))))
  }

  lemma IdentityLessStrictTotal()
    ensures StrictTotal(IdentityLess)
  {
    StringLessStrictTotal();
  }

  lemma EntryLessStrictTotal()
    ensures StrictTotal(EntryLess)
  {
    StringLessStrictTotal();
  }

  lemma EndpointLessStrictTotal()
    ensures StrictTotal(EndpointLess)
  {
    StringLessStrictTotal();
  }

  lemma ContextLessFacts(a: Context, b: Context, c: Context)
    ensures !ContextLess(a, a)
    ensures ContextLess(a, b) && ContextLess(b, c) ==> ContextLess(a, c)
    ensures a == b || ContextLess(a, b) || ContextLess(b, a)
  {
    EntryLessStrictTotal();
    SeqLessIrreflexive(a, EntryLess);
    if ContextLess(a, b) && ContextLess(b, c) {
      SeqLessTransitive(a, b, c, EntryLess);
    }
    SeqLessTotal(a, b, EntryLess);
  }

  /** Between well-formed references `operator==` is value equality. */
  lemma EqualIsSameValue(a: Reference, b: Reference)
    requires WellFormed(a) && WellFormed(b)
    ensures Equal(a, b) <==> a == b
  {
  }

  lemma LessIrreflexive(a: Reference)
    ensures !Less(a, a)
  {
    IdentityLessStrictTotal();
    StringLessStrictTotal();
    ContextLessFacts(a.context, a.context, a.context);
    match a.kind
    case Fixed(cs) => SeqLessIrreflexive(cs, NatLess);
    case Direct(eps, _) =>
      EndpointLessStrictTotal();
      SeqLessIrreflexive(eps, EndpointLess);
    case Indirect(_, _, _) =>
  }

  /** Exactly one of `a < b`, `b < a`, `a == b` holds for well-formed references. */
  lemma LessTrichotomy(a: Reference, b: Reference)
    requires WellFormed(a) && WellFormed(b)
    ensures a == b || Less(a, b) || Less(b, a)
    ensures !(Less(a, b) && Less(b, a))
    ensures a == b ==> !Less(a, b)
  {
    IdentityLessStrictTotal();
    StringLessStrictTotal();
    ContextLessFacts(a.context, b.context, a.context);
    ContextLessFacts(b.context, a.context, b.context);
    LessIrreflexive(a);
    if BaseEqual(a, b) {
      match a.kind
      case Fixed(cs) =>
        assert NatLessTotal: StrictTotal(NatLess);
        SeqLessTotal(cs, b.kind.connections, NatLess);
        if SeqLess(cs, b.kind.connections, NatLess) {
          SeqLessAsymmetric(cs, b.kind.connections, NatLess);
        }
      case Direct(eps, _) =>
        EndpointLessStrictTotal();
        SeqLessTotal(eps, b.kind.endpoints, EndpointLess);
        if SeqLess(eps, b.kind.endpoints, EndpointLess) {
          SeqLessAsymmetric(eps, b.kind.endpoints, EndpointLess);
        }
      case Indirect(ad, _, _) =>
        SeqLessTotal(ad, b.kind.adapterId, CharLess);
    }
  }

  lemma LessTransitive(a: Reference, b: Reference, c: Reference)
    requires Less(a, b) && Less(b, c)
    ensures Less(a, c)
  {
    IdentityLessStrictTotal();
    StringLessStrictTotal();
    ContextLessFacts(a.context, b.context, c.context);
    if BaseEqual(a, b) && BaseEqual(b, c) {
      match a.kind
      case Fixed(cs) =>
        assert StrictTotal(NatLess);
        if SeqLess(cs, b.kind.connections, NatLess) && SeqLess(b.kind.connections, c.kind.connections, NatLess) {
          SeqLessTransitive(cs, b.kind.connections, c.kind.connections, NatLess);
        }
      case Direct(eps, _) =>
        EndpointLessStrictTotal();
        if SeqLess(eps, b.kind.endpoints, EndpointLess) && SeqLess(b.kind.endpoints, c.kind.endpoints, EndpointLess) {
          SeqLessTransitive(eps, b.kind.endpoints, c.kind.endpoints, EndpointLess);
        }
      case Indirect(_, _, _) =>
    }
  }

  // ---------------------------------------------------------------------
  // Printing
  // ---------------------------------------------------------------------

  /** The run-time helpers `toString` relies on: `identityToString`,
    * `IceUtil::escapeString` and each endpoint's own `toString`. */
  datatype Printer = Printer(
    identity: Identity -> string,
    escape: string -> string,
    endpoint: Endpoint -> string)

  predicate HasAny(s: string, cs: set<char>)
  {
    exists i :: 0 <= i < |s| && s[i] in cs
  }

  /** The characters the proxy parser treats as separators. */
  const Separators: set<char> := {' ', ':', '@'}

  function QuoteIf(s: string, q: bool): string
  {
    if q then "\"" + s + "\"" else s
  }

  function IdentityPart(r: Reference, p: Printer): string
  {
    var id := p.identity(r.identity);
    QuoteIf(id, HasAny(id, Separators))
  }

  function ModePart(r: Reference): string
  {
    " -" + [ModeLetter(r.mode)] + (if r.secure then " -s" else "")
  }

  /** The facet option as the source prints it: quoted only when it holds a
    * separator. */
  function FacetPartAsWritten(r: Reference, p: Printer): string
  {
    if r.facet == [] then []
    else
      var fs := p.escape(r.facet);
      " -f " + QuoteIf(fs, HasAny(fs, Separators))
  }

  /** The facet option, also quoted when it starts with `-` (which the parser
    * would otherwise read as a missing argument). */
  function FacetPart(r: Reference, p: Printer): string
  {
    if r.facet == [] then []
    else
      var fs := p.escape(r.facet);
      " -f " + QuoteIf(fs, HasAny(fs, Separators) || (|fs| > 0 && fs[0] == '-'))
  }

  /** `:` and each endpoint's string, skipping endpoints that print as empty. */
  function EndpointsPart(eps: seq<Endpoint>, p: Printer): string
    decreases |eps|
  {
    if eps == [] then []
    else
      var es := p.endpoint(eps[0]);
      (if es == [] then [] else ":" + es) + EndpointsPart(eps[1..], p)
  }

  /** The adapter id as the source appends it: escaped and quoted when the
    * escaped form holds a space, otherwise the raw (unescaped) id. */
  function AdapterPartAsWritten(adapterId: string, p: Printer): string
  {
    if adapterId == [] then []
    else
      var a := p.escape(adapterId);
      " @ " + (if ' ' in a then "\"" + a + "\"" else adapterId)
  }

  /** The adapter id, always in its escaped form. */
  function AdapterPart(adapterId: string, p: Printer): string
  {
    if adapterId == [] then []
    else
      var a := p.escape(adapterId);
      " @ " + QuoteIf(a, ' ' in a)
  }

  /** `toString` as written; a fixed reference cannot be stringified. */
  function ToStringAsWritten(r: Reference, p: Printer): (s: Result<string, RefError>)
    ensures s.Failure? <==> r.kind.Fixed?
  {
    var base := IdentityPart(r, p) + FacetPartAsWritten(r, p) + ModePart(r);
    match r.kind
    case Fixed(_) => Failure(MarshalException("Cannot marshal a fixed proxy"))
    case Direct(eps, _) => Success(base + EndpointsPart(eps, p))
    case Indirect(ad, _, _) => Success(base + AdapterPartAsWritten(ad, p))
  }

  /** `toString` with the facet and adapter id printed so that the proxy
    * parser reads them back. */
  function ToString(r: Reference, p: Printer): (s: Result<string, RefError>)
    ensures s.Failure? <==> r.kind.Fixed?
  {
    var base := IdentityPart(r, p) + FacetPart(r, p) + ModePart(r);
    match r.kind
    case Fixed(_) => Failure(MarshalException("Cannot marshal a fixed proxy"))
    case Direct(eps, _) => Success(base + EndpointsPart(eps, p))
    case Indirect(ad, _, _) => Success(base + AdapterPart(ad, p))
  }

  // ---------------------------------------------------------------------
  // Marshalling
  // ---------------------------------------------------------------------

  /** The typed values a reference writes to a stream, in order. */
  datatype Token =
    | StringSeqToken(strings: seq<string>)
    | ByteToken(b: byte)
    | BoolToken(flag: bool)
    | SizeToken(size: nat)
    | EndpointToken(endpoint: Endpoint)
    | StringToken(text: string)

  function EndpointTokens(eps: seq<Endpoint>): (ts: seq<Token>)
    ensures |ts| == |eps|
    ensures forall i :: 0 <= i < |ts| ==> ts[i] == EndpointToken(eps[i])
  {
    seq(|eps|, i requires 0 <= i < |eps| => EndpointToken(eps[i]))
  }

  /** `streamWrite` (after the identity, which the caller writes): the facet
    * as a path of at most one element, the mode byte, the secure flag, then
    * the endpoints, or a zero size and the adapter id. */
  function StreamWrite(r: Reference): (ts: Result<seq<Token>, RefError>)
    ensures ts.Failure? <==> r.kind.Fixed?
    ensures ts.Success? ==>
              && |ts.value| >= 4
              && ts.value[0] == StringSeqToken(if r.facet == [] then [] else [r.facet])
              && ts.value[1] == ByteToken(ModeOrdinal(r.mode))
              && ts.value[2] == BoolToken(r.secure)
  {
    var head := [StringSeqToken(if r.facet == [] then [] else [r.facet]),
                 ByteToken(ModeOrdinal(r.mode)), BoolToken(r.secure)];
    match r.kind
    case Fixed(_) => Failure(MarshalException("Cannot marshal a fixed proxy"))
    case Direct(eps, _) =>
      if |eps| > 0 then Success(head + [SizeToken(|eps|)] + EndpointTokens(eps))
      else Success(head + [SizeToken(0), StringToken("")])
    case Indirect(ad, _, _) => Success(head + [SizeToken(0), StringToken(ad)])
  }

  // ---------------------------------------------------------------------
  // Endpoint selection
  // ---------------------------------------------------------------------

  /** The feature `filterEndpoints` refuses for a mode and security, if any:
    * ssl, datagram, batch datagram, and batch when the build lacks it. */
  function UnsupportedFeature(m: Mode, secure: bool, hasBatch: bool): Option<string>
  {
    if secure then Some("ssl")
    else if m == Datagram then Some("datagram")
    else if m == BatchDatagram then Some("batch datagram")
    else if !hasBatch && m == BatchOneway then Some("batch")
    else None
  }

  /** The endpoints whose transport is known, in order. */
  function Known(eps: seq<Endpoint>): (k: seq<Endpoint>)
    ensures forall e :: e in k <==> e in eps && !e.unknown
    ensures |k| <= |eps|
  {
    if eps == [] then []
    else (if eps[0].unknown then [] else [eps[0]]) + Known(eps[1..])
  }

  lemma {:induction false} KnownPrefix(eps: seq<Endpoint>, i: nat)
    requires i < |eps|
    ensures Known(eps[..i + 1]) == Known(eps[..i]) + (if eps[i].unknown then [] else [eps[i]])
    decreases i
  {
    if i == 0 {
      assert eps[..1][1..] == [];
    } else {
      var t := eps[1..];
      assert eps[..i + 1][1..] == t[..i];
      assert eps[..i][1..] == t[..i - 1];
      KnownPrefix(t, i - 1);
    }
  }

  /** `filterEndpoints`: refuses unsupported features, otherwise yields the
    * known endpoints in some order (the source shuffles them at random). */
  method FilterEndpoints(all: seq<Endpoint>, m: Mode, secure: bool, hasBatch: bool)
    returns (r: Result<seq<Endpoint>, RefError>)
    ensures r.Failure? <==> UnsupportedFeature(m, secure, hasBatch).Some?
    ensures r.Failure? ==> r.error == FeatureNotSupported(UnsupportedFeature(m, secure, hasBatch).value)
    ensures r.Success? ==> multiset(r.value) == multiset(Known(all))
  {
    var unsupported := UnsupportedFeature(m, secure, hasBatch);
    if unsupported.Some? {
      return Failure(FeatureNotSupported(unsupported.value));
    }
    var kept: seq<Endpoint> := [];
    var i := 0;
    while i < |all|
      invariant 0 <= i <= |all|
      invariant kept == Known(all[..i])
    {
      KnownPrefix(all, i);
      if !all[i].unknown {
        kept := kept + [all[i]];
      }
      i := i + 1;
    }
    assert all[..i] == all;
    return Success(kept);
  }

  /** `FixedReference::getConnection`: no connections is `NoEndpoint`, an
    * unsupported feature is refused, otherwise one of the connections is
    * chosen (`choice` stands for the random shuffle). */
  function FixedConnection(r: Reference, hasBatch: bool, choice: nat): (c: Result<nat, RefError>)
    requires r.kind.Fixed?
    ensures r.kind.connections == [] ==> c == Failure(NoEndpoint(""))
    ensures c.Failure? && r.kind.connections != [] ==>
              && UnsupportedFeature(r.mode, r.secure, hasBatch).Some?
              && c.error == FeatureNotSupported(UnsupportedFeature(r.mode, r.secure, hasBatch).value)
    ensures c.Success? <==> r.kind.connections != [] && UnsupportedFeature(r.mode, r.secure, hasBatch).None?
    ensures c.Success? ==> c.value in r.kind.connections
  {
    var cs := r.kind.connections;
    if cs == [] then Failure(NoEndpoint(""))
    else
      var unsupported := UnsupportedFeature(r.mode, r.secure, hasBatch);
      if unsupported.Some? then Failure(FeatureNotSupported(unsupported.value))
      else Success(cs[choice % |cs|])
  }
}
