/** The C++ proxy (`IceProxy::Ice::Object`): the identity comparators, the
  * `ice_*` setters with their argument checks and their rule of returning
  * the proxy itself when nothing changes, the two-way checks, the cached
  * request handler, and the decision `__handleException` takes. */
module IceProxy {
  import opened Basics
  import opened Ordering
  import opened IceReference

  // ---------------------------------------------------------------------
  // The reference a proxy holds
  // ---------------------------------------------------------------------

  datatype EndpointSelection = RandomSelection | OrderedSelection

  datatype EncodingVersion = EncodingVersion(major: nat, minor: nat)

  /** What the proxy's reference says about the settings the `ice_*`
    * operations read and change. Endpoints, routers and locators are
    * handles compared by address; 0 is no router or locator. `compress`
    * and `timeout` are `None` when not overridden. */
  datatype Settings = Settings(
    identity: Identity,
    context: Context,
    facet: string,
    adapterId: string,
    endpoints: seq<nat>,
    locatorCacheTimeout: int32,
    cacheConnection: bool,
    endpointSelection: EndpointSelection,
    secure: bool,
    preferSecure: bool,
    encoding: EncodingVersion,
    collocationOptimized: bool,
    invocationTimeout: int32,
    mode: Mode,
    router: nat,
    locator: nat,
    compress: Option<bool>,
    timeout: Option<int32>,
    connectionId: string)

  /** One `ice_*` change. The five mode setters (`ice_twoway` …
    * `ice_batchDatagram`) are `SetMode`. */
  datatype Setting =
    | SetIdentity(identity: Identity)
    | SetContext(context: Context)
    | SetFacet(facet: string)
    | SetAdapterId(adapterId: string)
    | SetEndpoints(endpoints: seq<nat>)
    | SetLocatorCacheTimeout(locatorCacheTimeout: int32)
    | SetConnectionCached(cacheConnection: bool)
    | SetEndpointSelection(endpointSelection: EndpointSelection)
    | SetSecure(secure: bool)
    | SetPreferSecure(preferSecure: bool)
    | SetEncoding(encoding: EncodingVersion)
    | SetCollocationOptimized(collocationOptimized: bool)
    | SetInvocationTimeout(invocationTimeout: int32)
    | SetMode(mode: Mode)
    | SetRouter(router: nat)
    | SetLocator(locator: nat)
    | SetCompress(compress: bool)
    | SetTimeout(timeout: int32)
    | SetConnectionId(connectionId: string)

  datatype ProxyError =
    | IllegalIdentityException
    | IllegalArgumentException(operation: string, value: int32)
    | TwowayOnlyException(operation: string)
    | AsyncTwowayOnly(operation: string)

  /** The setting a change is about, one number per setter. */
  function Field(c: Setting): nat
  {
    match c
    case SetIdentity(_) => 0
    case SetContext(_) => 1
    case SetFacet(_) => 2
    case SetAdapterId(_) => 3
    case SetEndpoints(_) => 4
    case SetLocatorCacheTimeout(_) => 5
    case SetConnectionCached(_) => 6
    case SetEndpointSelection(_) => 7
    case SetSecure(_) => 8
    case SetPreferSecure(_) => 9
    case SetEncoding(_) => 10
    case SetCollocationOptimized(_) => 11
    case SetInvocationTimeout(_) => 12
    case SetMode(_) => 13
    case SetRouter(_) => 14
    case SetLocator(_) => 15
    case SetCompress(_) => 16
    case SetTimeout(_) => 17
    case SetConnectionId(_) => 18
  }

  /** The change is already in effect: the getter returns the new value. */
  predicate Holds(s: Settings, c: Setting)
  {
    match c
    case SetIdentity(v) => s.identity == v
    case SetContext(v) => s.context == v
    case SetFacet(v) => s.facet == v
    case SetAdapterId(v) => s.adapterId == v
    case SetEndpoints(v) => s.endpoints == v
    case SetLocatorCacheTimeout(v) => s.locatorCacheTimeout == v
    case SetConnectionCached(v) => s.cacheConnection == v
    case SetEndpointSelection(v) => s.endpointSelection == v
    case SetSecure(v) => s.secure == v
    case SetPreferSecure(v) => s.preferSecure == v
    case SetEncoding(v) => s.encoding == v
    case SetCollocationOptimized(v) => s.collocationOptimized == v
    case SetInvocationTimeout(v) => s.invocationTimeout == v
    case SetMode(v) => s.mode == v
    case SetRouter(v) => s.router == v
    case SetLocator(v) => s.locator == v
    case SetCompress(v) => s.compress == Some(v)
    case SetTimeout(v) => s.timeout == Some(v)
    case SetConnectionId(v) => s.connectionId == v
  }

  /** The argument checks: an identity needs a name, the locator cache
    * timeout is at least -1, the invocation timeout is positive or -1 or
    * -2, and the timeout is positive or -1. */
  function Check(c: Setting): (r: Option<ProxyError>)
    ensures r.None? <==>
      match c
      case SetIdentity(id) => id.name != []
      case SetLocatorCacheTimeout(t) => t >= -1
      case SetInvocationTimeout(t) => t >= 1 || t == -1 || t == -2
      case SetTimeout(t) => t >= 1 || t == -1
      case _ => true
  {
    match c
    case SetIdentity(id) => if id.name == [] then Some(IllegalIdentityException) else None
    case SetLocatorCacheTimeout(t) =>
      if t < -1 then Some(IllegalArgumentException("ice_locatorCacheTimeout", t)) else None
    case SetInvocationTimeout(t) =>
      if t < 1 && t != -1 && t != -2 then Some(IllegalArgumentException("ice_invocationTimeout", t)) else None
    case SetTimeout(t) =>
      if t < 1 && t != -1 then Some(IllegalArgumentException("ice_timeout", t)) else None
    case _ => None
  }

  /** The reference's `changeX`: the one setting replaced. */
  function Change(s: Settings, c: Setting): Settings
  {
    match c
    case SetIdentity(v) => s.(identity := v)
    case SetContext(v) => s.(context := v)
    case SetFacet(v) => s.(facet := v)
    case SetAdapterId(v) => s.(adapterId := v)
    case SetEndpoints(v) => s.(endpoints := v)
    case SetLocatorCacheTimeout(v) => s.(locatorCacheTimeout := v)
    case SetConnectionCached(v) => s.(cacheConnection := v)
    case SetEndpointSelection(v) => s.(endpointSelection := v)
    case SetSecure(v) => s.(secure := v)
    case SetPreferSecure(v) => s.(preferSecure := v)
    case SetEncoding(v) => s.(encoding := v)
    case SetCollocationOptimized(v) => s.(collocationOptimized := v)
    case SetInvocationTimeout(v) => s.(invocationTimeout := v)
    case SetMode(v) => s.(mode := v)
    case SetRouter(v) => s.(router := v)
    case SetLocator(v) => s.(locator := v)
    case SetCompress(v) => s.(compress := Some(v))
    case SetTimeout(v) => s.(timeout := Some(v))
    case SetConnectionId(v) => s.(connectionId := v)
  }

  /** A setter on the settings: the argument check, then the change. */
  function Apply(s: Settings, c: Setting): (r: Result<Settings, ProxyError>)
    ensures r.Failure? <==> Check(c).Some?
    ensures r.Success? ==> Holds(r.value, c)
  {
    match Check(c)
    case Some(e) => Failure(e)
    case None => Success(Change(s, c))
  }

  /** A setter leaves the settings as they are exactly when its argument
    * passes the check and its value is already in effect. */
  lemma ApplyUnchanged(s: Settings, c: Setting)
    ensures Apply(s, c) == Success(s) <==> Check(c).None? && Holds(s, c)
  {
    if Check(c).None? && !Holds(s, c) {
      assert Holds(Change(s, c), c);
    }
  }

  /** Setting the same value twice is setting it once. */
  lemma ApplyIdempotent(s: Settings, c: Setting)
    requires Apply(s, c).Success?
    ensures Apply(Apply(s, c).value, c) == Apply(s, c)
  {
    ApplyUnchanged(Apply(s, c).value, c);
  }

  // ---------------------------------------------------------------------
  // The proxy
  // ---------------------------------------------------------------------

  /** A request handler, by address. */
  type Handler = nat

  datatype OperationMode = Normal | Nonmutating | Idempotent

  /** An exception reaching `__handleException`: a local exception (with
    * the classes the rule tests for) or any other. */
  datatype InvocationException =
    | LocalException(name: string, closeConnection: bool, objectNotExist: bool, communicatorDestroyed: bool)
    | OtherException(name: string)

  /** What the proxy factory's `checkRetryAfterException` does, which is
    * not part of this proxy: return a new count or throw. */
  datatype RetryCheck = Retried(count: int32) | Threw(thrown: InvocationException)

  /** What `__handleException` does: return the count to retry with, or
    * throw. */
  datatype Handled = RetryWith(count: int32) | Throw(thrown: InvocationException)

  /** Retrying keeps at-most-once semantics: the request was not sent, the
    * operation does not mutate, the server closed the connection
    * gracefully, or the object does not exist. */
  predicate Retryable(ex: InvocationException, mode: OperationMode, sent: bool)
  {
    && ex.LocalException?
    && (!sent || mode == Nonmutating || mode == Idempotent || ex.closeConnection || ex.objectNotExist)
  }

  /** The decision of `__handleException`, given the factory's check. */
  function HandleDecision(ex: InvocationException, mode: OperationMode, sent: bool, cnt: int32,
                          check: (InvocationException, int32) -> RetryCheck): (r: Handled)
    ensures !Retryable(ex, mode, sent) ==> r == Throw(ex)
    ensures r.RetryWith? <==> Retryable(ex, mode, sent) && check(ex, cnt).Retried?
    ensures r.RetryWith? ==> r.count == check(ex, cnt).count
    ensures r.Throw? && Retryable(ex, mode, sent) ==>
              r.thrown == (if check(ex, cnt).thrown.LocalException? && check(ex, cnt).thrown.communicatorDestroyed
                           then ex else check(ex, cnt).thrown)
  {
    if Retryable(ex, mode, sent) then
      match check(ex, cnt)
      case Retried(c) => RetryWith(c)
      case Threw(e) => if e.LocalException? && e.communicatorDestroyed then Throw(ex) else Throw(e)
    else Throw(ex)
  }

  /** A sent request of a normal operation is retried only after a graceful
    * close or a missing object. */
  lemma AtMostOnce(ex: InvocationException, sent: bool, cnt: int32,
                   check: (InvocationException, int32) -> RetryCheck)
    requires sent && HandleDecision(ex, Normal, sent, cnt, check).RetryWith?
    ensures ex.LocalException? && (ex.closeConnection || ex.objectNotExist)
  {
  }

  class ObjectPrx {
    /** The reference, set once by `setup`. */
    const reference: Settings
    /** The cached request handler (`_requestHandler`), null at first. */
    var requestHandler: Option<Handler>

    /** `new IceProxy::Ice::Object` followed by `setup`. */
    constructor Setup(ref: Settings)
      ensures reference == ref && requestHandler.None?
    {
      reference := ref;
      requestHandler := None;
    }

    /** The `ice_*` setters: the argument check, then this proxy when the
      * setting is already in effect, otherwise a new proxy on the changed
      * reference. `ice_context` always makes a new proxy. */
    method Set(c: Setting) returns (r: Result<ObjectPrx, ProxyError>)
      ensures r.Failure? <==> Check(c).Some?
      ensures r.Failure? ==> r.error == Check(c).value
      ensures r.Success? && Holds(reference, c) && !c.SetContext? ==> r.value == this
      ensures r.Success? && (!Holds(reference, c) || c.SetContext?) ==>
                fresh(r.value) && r.value.reference == Apply(reference, c).value && r.value.requestHandler.None?
    {
      var e := Check(c);
      if e.Some? {
        return Failure(e.value);
      }
      if Holds(reference, c) && !c.SetContext? {
        return Success(this);
      }
      var p := new ObjectPrx.Setup(Change(reference, c));
      return Success(p);
    }

    predicate IsTwoway()
    {
      reference.mode == Twoway
    }

    /** `__checkTwowayOnly`: only a two-way proxy may call `operation`. */
    function CheckTwowayOnly(operation: string): (r: Option<ProxyError>)
      ensures r.None? <==> reference.mode == Twoway
      ensures r.Some? ==> r.value == TwowayOnlyException(operation)
    {
      if !IsTwoway() then Some(TwowayOnlyException(operation)) else None
    }

    /** `__checkAsyncTwowayOnly`: the same check, raising
      * `IllegalArgumentException`. */
    function CheckAsyncTwowayOnly(operation: string): (r: Option<ProxyError>)
      ensures r.None? <==> reference.mode == Twoway
      ensures r.Some? ==> r.value == AsyncTwowayOnly(operation)
    {
      if !IsTwoway() then Some(AsyncTwowayOnly(operation)) else None
    }

    /** `__getRequestHandler`: the cached handler when connections are
      * cached and one is set, otherwise the one the reference makes
      * (`made`). */
    method GetRequestHandler(made: Handler) returns (h: Handler)
      ensures reference.cacheConnection && requestHandler.Some? ==> h == requestHandler.value
      ensures !(reference.cacheConnection && requestHandler.Some?) ==> h == made
    {
      if reference.cacheConnection && requestHandler.Some? {
        return requestHandler.value;
      }
      return made;
    }

    /** `__setRequestHandler`: with connection caching the first handler
      * set wins and is returned; without it the handler is returned and
      * nothing is cached. */
    method SetRequestHandler(handler: Handler) returns (h: Handler)
      modifies this
      ensures reference.cacheConnection ==>
                requestHandler == (if old(requestHandler).Some? then old(requestHandler) else Some(handler))
      ensures reference.cacheConnection ==> requestHandler == Some(h)
      ensures !reference.cacheConnection ==> requestHandler == old(requestHandler) && h == handler
    {
      if reference.cacheConnection {
        if requestHandler.None? {
          requestHandler := Some(handler);
        }
        return requestHandler.value;
      }
      return handler;
    }

    /** Whether `__updateRequestHandler(previous, handler)` replaces the
      * cached handler `cached`. */
    predicate Replaces(cached: Option<Handler>, previous: Option<Handler>, handler: Option<Handler>)
    {
      reference.cacheConnection && previous.Some? && cached.Some? && cached != handler
    }

    /** `__updateRequestHandler`: with connection caching and a previous
      * handler, a cached handler other than `handler` is replaced by what
      * its `update(previous, handler)` returns. */
    method UpdateRequestHandler(previous: Option<Handler>, handler: Option<Handler>,
                                update: (Handler, Handler, Option<Handler>) -> Option<Handler>)
      modifies this
      ensures Replaces(old(requestHandler), previous, handler) ==>
                requestHandler == update(old(requestHandler).value, previous.value, handler)
      ensures !Replaces(old(requestHandler), previous, handler) ==> requestHandler == old(requestHandler)
    {
      if reference.cacheConnection && previous.Some? {
        if requestHandler.Some? && requestHandler != handler {
          requestHandler := update(requestHandler.value, previous.value, handler);
        }
      }
    }

    /** `__handleException`: clear the request handler the failed call
      * used, then retry or throw as `HandleDecision` says. */
    method HandleException(ex: InvocationException, handler: Option<Handler>, mode: OperationMode, sent: bool,
                           cnt: int32, check: (InvocationException, int32) -> RetryCheck,
                           update: (Handler, Handler, Option<Handler>) -> Option<Handler>)
      returns (r: Handled)
      modifies this
      ensures r == HandleDecision(ex, mode, sent, cnt, check)
      ensures Replaces(old(requestHandler), handler, None) ==>
                requestHandler == update(old(requestHandler).value, handler.value, None)
      ensures !Replaces(old(requestHandler), handler, None) ==> requestHandler == old(requestHandler)
    {
      UpdateRequestHandler(handler, None, update);
      if Retryable(ex, mode, sent) {
        var checked := check(ex, cnt);
        match checked
        case Retried(c) => r := RetryWith(c);
        case Threw(e) => r := if e.LocalException? && e.communicatorDestroyed then Throw(ex) else Throw(e);
      } else {
        r := Throw(ex);
      }
    }
  }

  // ---------------------------------------------------------------------
  // The identity comparators
  // ---------------------------------------------------------------------

  /** `proxyIdentityLess`: a null proxy comes before every other proxy,
    * otherwise the identities decide. */
  predicate ProxyIdentityLess(l: ObjectPrx?, r: ObjectPrx?)
  {
    if l == null then r != null
    else r != null && IdentityLess(l.reference.identity, r.reference.identity)
  }

  /** `proxyIdentityEqual`: two nulls are equal, a null and a proxy are
    * not, and two proxies are when their identities are. */
  predicate ProxyIdentityEqual(l: ObjectPrx?, r: ObjectPrx?)
  {
    if l == null || r == null then l == r
    else l.reference.identity == r.reference.identity
  }

  /** `proxyIdentityAndFacetLess`: the identity, then the facet. */
  predicate ProxyIdentityAndFacetLess(l: ObjectPrx?, r: ObjectPrx?)
  {
    if l == null then r != null
    else
      && r != null
      && (|| IdentityLess(l.reference.identity, r.reference.identity)
          || (!IdentityLess(r.reference.identity, l.reference.identity)
              && StringLess(l.reference.facet, r.reference.facet)))
  }

  /** `proxyIdentityAndFacetEqual`: the identities and the facets. */
  predicate ProxyIdentityAndFacetEqual(l: ObjectPrx?, r: ObjectPrx?)
  {
    if l == null || r == null then l == r
    else l.reference.identity == r.reference.identity && l.reference.facet == r.reference.facet
  }

  /** The identity order is a strict weak order whose equivalence is the
    * identity equality. */
  lemma ProxyIdentityOrder(a: ObjectPrx?, b: ObjectPrx?, c: ObjectPrx?)
    ensures !ProxyIdentityLess(a, a)
    ensures ProxyIdentityLess(a, b) && ProxyIdentityLess(b, c) ==> ProxyIdentityLess(a, c)
    ensures ProxyIdentityEqual(a, b) <==> !ProxyIdentityLess(a, b) && !ProxyIdentityLess(b, a)
  {
    IdentityLessStrictTotal();
  }

  /** The identity-and-facet order is a strict weak order whose equivalence
    * is the identity-and-facet equality. */
  lemma ProxyIdentityAndFacetOrder(a: ObjectPrx?, b: ObjectPrx?, c: ObjectPrx?)
    ensures !ProxyIdentityAndFacetLess(a, a)
    ensures ProxyIdentityAndFacetLess(a, b) && ProxyIdentityAndFacetLess(b, c) ==> ProxyIdentityAndFacetLess(a, c)
    ensures ProxyIdentityAndFacetEqual(a, b) <==> !ProxyIdentityAndFacetLess(a, b) && !ProxyIdentityAndFacetLess(b, a)
  {
    IdentityLessStrictTotal();
    StringLessStrictTotal();
  }

  /** Proxies equal by identity and facet are equal by identity, and an
    * identity-less pair is identity-and-facet-less. */
  lemma IdentityAndFacetRefines(a: ObjectPrx?, b: ObjectPrx?)
    ensures ProxyIdentityAndFacetEqual(a, b) ==> ProxyIdentityEqual(a, b)
    ensures ProxyIdentityLess(a, b) ==> ProxyIdentityAndFacetLess(a, b)
  {
  }
}
