/** The locator cache (`IceInternal.LocatorTable`): the endpoints last
  * resolved for each adapter id and the proxy last resolved for each object
  * identity, in two tables that a locator info fills, reads and empties. */
module IceLocatorTable {
  import opened Basics
  import opened IceReference
  import IceProxyFactory

  /** The value of `key` in `table`, or none: a `HashMap.get` that answers
    * null for a missing key. */
  function Lookup<K, V>(table: map<K, V>, key: K): (r: Option<V>)
    ensures r.Some? <==> key in table
    ensures r.Some? ==> r.value == table[key]
  {
    if key in table then Some(table[key]) else None
  }

  /** A removal undoes the entry that the last put left: removing after a
    * put answers the value put and leaves the table without the key, just
    * as removing from the table before the put would. */
  lemma RemoveUndoesPut<K, V>(table: map<K, V>, key: K, value: V)
    ensures Lookup(table[key := value], key) == Some(value)
    ensures table[key := value] - {key} == table - {key}
    ensures forall k :: k != key ==> Lookup(table[key := value], k) == Lookup(table, k)
  {
  }

  class LocatorTable {
    var adapterEndpoints: map<string, seq<Endpoint>>
    var objects: map<Identity, IceProxyFactory.ObjectProxy>

    constructor()
      ensures adapterEndpoints == map[] && objects == map[]
    {
      adapterEndpoints := map[];
      objects := map[];
    }

    /** `clear`: both tables are emptied. */
    method Clear()
      modifies this
      ensures adapterEndpoints == map[] && objects == map[]
    {
      adapterEndpoints := map[];
      objects := map[];
    }

    /** `getAdapterEndpoints`: the endpoints cached for the adapter id, or
      * none. */
    method GetAdapterEndpoints(adapter: string) returns (r: Option<seq<Endpoint>>)
      ensures r.Some? <==> adapter in adapterEndpoints
      ensures r.Some? ==> r.value == adapterEndpoints[adapter]
    {
      r := Lookup(adapterEndpoints, adapter);
    }

    /** `addAdapterEndpoints`: the adapter's entry is set, replacing any
      * earlier one; the object table is untouched. */
    method AddAdapterEndpoints(adapter: string, endpoints: seq<Endpoint>)
      modifies this`adapterEndpoints
      ensures adapterEndpoints == old(adapterEndpoints)[adapter := endpoints]
    {
      adapterEndpoints := adapterEndpoints[adapter := endpoints];
    }

    /** `removeAdapterEndpoints`: the adapter's entry is dropped and
      * returned, or none when there was none. */
    method RemoveAdapterEndpoints(adapter: string) returns (r: Option<seq<Endpoint>>)
      modifies this`adapterEndpoints
      ensures r == Lookup(old(adapterEndpoints), adapter)
      ensures adapterEndpoints == old(adapterEndpoints) - {adapter}
    {
      r := Lookup(adapterEndpoints, adapter);
      adapterEndpoints := adapterEndpoints - {adapter};
    }

    /** `getProxy`: the proxy cached for the identity, or none. */
    method GetProxy(id: Identity) returns (r: Option<IceProxyFactory.ObjectProxy>)
      ensures r.Some? <==> id in objects
      ensures r.Some? ==> r.value == objects[id]
    {
      r := Lookup(objects, id);
    }

    /** `addProxy`: the identity's entry is set, replacing any earlier one;
      * the endpoint table is untouched. */
    method AddProxy(id: Identity, proxy: IceProxyFactory.ObjectProxy)
      modifies this`objects
      ensures objects == old(objects)[id := proxy]
    {
      objects := objects[id := proxy];
    }

    /** `removeProxy`: the identity's entry is dropped and returned, or none
      * when there was none. */
    method RemoveProxy(id: Identity) returns (r: Option<IceProxyFactory.ObjectProxy>)
      modifies this`objects
      ensures r == Lookup(old(objects), id)
      ensures objects == old(objects) - {id}
    {
      r := Lookup(objects, id);
      objects := objects - {id};
    }
  }
}
