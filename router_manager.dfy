/** Routers: the per-router memo (`RouterInfo`) that caches the router's
  * client and server proxies, the adapter and the routing table, and the
  * manager (`RouterManager`) that hands out one memo per router. A proxy is
  * modelled by its reference; the remote calls on the router are answers
  * passed in, or results that say whether the call is made. */
module IceRouters {
  import opened Basics
  import opened IceReference

  /** An object adapter, as a handle. */
  type AdapterHandle = nat

  datatype RouterError = NoEndpointException

  /** A proxy that is not routed: a fixed proxy carries no router, any other
    * has the null router info. */
  predicate Routerless(r: Reference)
  {
    !r.kind.Fixed? ==> r.kind.routerInfo == 0
  }

  /** `ice_router(null)`: the proxy with its router taken away. */
  function Unrouted(r: Reference): (u: Reference)
    ensures Routerless(u)
    ensures u.mode == r.mode && u.secure == r.secure && u.identity == r.identity
    ensures u.context == r.context && u.facet == r.facet && u.timeout == r.timeout
    ensures u.kind.Fixed? <==> r.kind.Fixed?
    ensures Routerless(r) ==> u == r
  {
    Outcome(r, ChangeRouter(r, 0))
  }

  /** Taking the router away twice is taking it away once, and two proxies
    * that differ only in their router lose it to the same proxy. */
  lemma UnroutedIdempotent(r: Reference, info: nat)
    ensures Unrouted(Unrouted(r)) == Unrouted(r)
    ensures Unrouted(Outcome(r, ChangeRouter(r, info))) == Unrouted(r)
  {
  }

  class RouterInfo {
    const router: Reference
    var clientProxy: Option<Reference>
    var serverProxy: Option<Reference>
    var routingTable: set<Reference>
    var adapter: Option<AdapterHandle>

    /** The cached proxies are never routed. */
    predicate Valid()
      reads this
    {
      && (clientProxy.Some? ==> Routerless(clientProxy.value))
      && (serverProxy.Some? ==> Routerless(serverProxy.value))
    }

    /** A memo with nothing cached yet, for a non-null router. */
    constructor(router: Reference)
      ensures this.router == router
      ensures clientProxy == None && serverProxy == None
      ensures routingTable == {} && adapter == None
      ensures Valid()
    {
      this.router := router;
      clientProxy := None;
      serverProxy := None;
      routingTable := {};
      adapter := None;
    }

    /** `destroy`: both proxies, the adapter and the routing table are
      * dropped; the router stays. */
    method Destroy()
      modifies this
      ensures clientProxy == None && serverProxy == None
      ensures routingTable == {} && adapter == None
      ensures Valid()
    {
      clientProxy := None;
      serverProxy := None;
      adapter := None;
      routingTable := {};
    }

    /** `Equals`: a memo equals another memo exactly when their routers are
      * the same; nothing equals null. */
    method Equals(other: RouterInfo?) returns (r: bool)
      ensures r <==> other != null && other.router == router
    {
      r := other != null && other.router == router;
    }

    /** `GetHashCode`: the router's hash. */
    function HashCode(): (h: int32)
      ensures h == HashValue(router)
    {
      HashValue(router)
    }

    /** `getClientProxy`: the cached client proxy, fetched from the router
      * (whose answer is `answer`) on first use and cached without its
      * router; a null answer raises `NoEndpointException` and caches
      * nothing. Once cached, the answer is no longer asked for. */
    method GetClientProxy(answer: Option<Reference>) returns (r: Result<Reference, RouterError>)
      requires Valid()
      modifies this`clientProxy
      ensures old(clientProxy).Some? ==> clientProxy == old(clientProxy) && r == Success(clientProxy.value)
      ensures old(clientProxy).None? && answer.None? ==> clientProxy == None && r == Failure(NoEndpointException)
      ensures old(clientProxy).None? && answer.Some? ==>
                clientProxy == Some(Unrouted(answer.value)) && r == Success(Unrouted(answer.value))
      ensures r.Success? ==> clientProxy == Some(r.value) && Routerless(r.value)
      ensures Valid()
    {
      if clientProxy.None? {
        clientProxy := answer;
        if clientProxy.None? {
          return Failure(NoEndpointException);
        }
        clientProxy := Some(Unrouted(clientProxy.value));
      }
      r := Success(clientProxy.value);
    }

    /** `setClientProxy`: the given proxy, without its router, is cached. */
    method SetClientProxy(proxy: Reference)
      requires Valid()
      modifies this`clientProxy
      ensures clientProxy == Some(Unrouted(proxy))
      ensures Valid()
    {
      clientProxy := Some(Unrouted(proxy));
    }

    /** `getServerProxy`: the same lazy fetch as the client proxy. */
    method GetServerProxy(answer: Option<Reference>) returns (r: Result<Reference, RouterError>)
      requires Valid()
      modifies this`serverProxy
      ensures old(serverProxy).Some? ==> serverProxy == old(serverProxy) && r == Success(serverProxy.value)
      ensures old(serverProxy).None? && answer.None? ==> serverProxy == None && r == Failure(NoEndpointException)
      ensures old(serverProxy).None? && answer.Some? ==>
                serverProxy == Some(Unrouted(answer.value)) && r == Success(Unrouted(answer.value))
      ensures r.Success? ==> serverProxy == Some(r.value) && Routerless(r.value)
      ensures Valid()
    {
      if serverProxy.None? {
        serverProxy := answer;
        if serverProxy.None? {
          return Failure(NoEndpointException);
        }
        serverProxy := Some(Unrouted(serverProxy.value));
      }
      r := Success(serverProxy.value);
    }

    /** `setServerProxy`: the given proxy, without its router, is cached. */
    method SetServerProxy(proxy: Reference)
      requires Valid()
      modifies this`serverProxy
      ensures serverProxy == Some(Unrouted(proxy))
      ensures Valid()
    {
      serverProxy := Some(Unrouted(proxy));
    }

    /** `addProxy`: the proxy joins the routing table, and the router is told
      * (`forwarded`) only when the table did not hold it yet. */
    method AddProxy(proxy: Reference) returns (forwarded: bool)
      modifies this`routingTable
      ensures forwarded <==> proxy !in old(routingTable)
      ensures routingTable == old(routingTable) + {proxy}
    {
      forwarded := proxy !in routingTable;
      routingTable := routingTable + {proxy};
    }

    /** `setAdapter`. */
    method SetAdapter(a: Option<AdapterHandle>)
      modifies this`adapter
      ensures adapter == a
    {
      adapter := a;
    }

    /** `getAdapter`: the adapter last set, or none. */
    method GetAdapter() returns (a: Option<AdapterHandle>)
      ensures a == adapter
    {
      a := adapter;
    }
  }

  /** Memos that the same router would give equal, with equal hashes. */
  lemma SameRouterSameHash(a: RouterInfo, b: RouterInfo)
    requires a.router == b.router
    ensures a.HashCode() == b.HashCode()
  {
  }

  class RouterManager {
    var table: map<Reference, RouterInfo>

    /** Every memo is stored under its own router, and that router is not
      * routed. */
    predicate Valid()
      reads this, table.Values
    {
      forall k :: k in table ==> table[k].router == k && Routerless(k) && table[k].Valid()
    }

    constructor()
      ensures table == map[]
      ensures Valid()
    {
      table := map[];
    }

    /** `get`: none for no router; otherwise the memo stored under the router
      * without its own router, created and stored on first use. */
    method Get(rtr: Option<Reference>) returns (info: RouterInfo?)
      requires Valid()
      modifies this`table
      ensures Valid()
      ensures rtr.None? ==> info == null && table == old(table)
      ensures rtr.Some? ==> info != null && info.router == Unrouted(rtr.value)
      ensures rtr.Some? && Unrouted(rtr.value) in old(table) ==>
                info == old(table)[Unrouted(rtr.value)] && table == old(table)
      ensures rtr.Some? && Unrouted(rtr.value) !in old(table) ==>
                fresh(info) && table == old(table)[Unrouted(rtr.value) := info]
                && info.clientProxy == None && info.serverProxy == None
                && info.routingTable == {} && info.adapter == None
    {
      if rtr.None? {
        return null;
      }
      var router := Unrouted(rtr.value);
      if router in table {
        info := table[router];
      } else {
        info := new RouterInfo(router);
        table := table[router := info];
      }
    }

    /** `destroy`: every stored memo is destroyed, then the table is
      * emptied. */
    method Destroy()
      modifies this, table.Values
      ensures table == map[]
      ensures forall i :: i in old(table.Values) ==>
                i.clientProxy == None && i.serverProxy == None && i.routingTable == {} && i.adapter == None
    {
      var pending := table.Values;
      while pending != {}
        invariant pending <= old(table.Values)
        invariant table == old(table)
        invariant forall i :: i in old(table.Values) - pending ==>
                    i.clientProxy == None && i.serverProxy == None && i.routingTable == {} && i.adapter == None
        decreases pending
      {
        var i :| i in pending;
        i.Destroy();
        pending := pending - {i};
      }
      table := map[];
    }
  }
}
