/** The object adapter factories of the Java run time
  * (`IceInternal.ObjectAdapterFactory`) and of the C# run time: adapter
  * creation with unique names, lookup of the adapter a proxy is local to,
  * and the shutdown, wait and destroy lifecycle. The adapters themselves are
  * not part of this model: a factory's calls on them are recorded in
  * `calls`, and whether an adapter is local to a proxy is the parameter
  * `isLocal`. */
module IceObjectAdapterFactories {
  import opened Basics

  /** An `Ice.ObjectAdapterI`, by its name and whether the name was the
    * caller's (not a generated UUID). */
  class ObjectAdapter {
    const name: string
    const named: bool

    constructor(name: string, named: bool)
      ensures this.name == name && this.named == named
    {
      this.name := name;
      this.named := named;
    }
  }

  /** The calls a factory makes on its adapters. */
  datatype CallKind = DeactivateCall | WaitForDeactivateCall | DestroyCall | FlushCall

  datatype AdapterCall = AdapterCall(kind: CallKind, adapter: ObjectAdapter)

  /** What `adapter.isLocal(proxy)` does for the proxy at hand. */
  datatype LocalAnswer = Local | NotLocal | AdapterDeactivated

  datatype FactoryError = ObjectAdapterDeactivatedException | AlreadyRegisteredException(kind: string, id: string)

  /** The call `kind` on each adapter of `adapters`, in order. */
  function Each(kind: CallKind, adapters: seq<ObjectAdapter>): (cs: seq<AdapterCall>)
    ensures |cs| == |adapters|
    ensures forall i :: 0 <= i < |cs| ==> cs[i] == AdapterCall(kind, adapters[i])
  {
    seq(|adapters|, i requires 0 <= i < |adapters| => AdapterCall(kind, adapters[i]))
  }

  /** The call `kind` on each adapter of the set `s` once, in some order. */
  predicate EachOnce(cs: seq<AdapterCall>, kind: CallKind, s: set<ObjectAdapter>)
  {
    && (forall i :: 0 <= i < |cs| ==> cs[i].kind == kind && cs[i].adapter in s)
    && (forall i, j :: 0 <= i < j < |cs| ==> cs[i].adapter != cs[j].adapter)
    && AdaptersIn(cs) == s
  }

  /** The adapters the calls `cs` are made on. */
  function AdaptersIn(cs: seq<AdapterCall>): set<ObjectAdapter>
  {
    set i | 0 <= i < |cs| :: cs[i].adapter
  }

  /** The position of the first adapter of `adapters` local to the proxy,
    * skipping the ones that raise `ObjectAdapterDeactivatedException`;
    * `|adapters|` when there is none. */
  function FirstLocalIndex(adapters: seq<ObjectAdapter>, isLocal: ObjectAdapter -> LocalAnswer): (k: nat)
    ensures k <= |adapters|
    ensures forall i :: 0 <= i < k ==> isLocal(adapters[i]) != Local
    ensures k < |adapters| ==> isLocal(adapters[k]) == Local
  {
    if adapters == [] || isLocal(adapters[0]) == Local then 0
    else 1 + FirstLocalIndex(adapters[1..], isLocal)
  }

  /** The first adapter local to the proxy, or null. */
  function FirstLocal(adapters: seq<ObjectAdapter>, isLocal: ObjectAdapter -> LocalAnswer): ObjectAdapter?
  {
    var k := FirstLocalIndex(adapters, isLocal);
    if k < |adapters| then adapters[k] else null
  }

  /** The first local adapter is the one before which none is local. */
  lemma {:induction false} FirstLocalIs(adapters: seq<ObjectAdapter>, isLocal: ObjectAdapter -> LocalAnswer, k: nat)
    requires k <= |adapters|
    requires forall i :: 0 <= i < k ==> isLocal(adapters[i]) != Local
    requires k < |adapters| ==> isLocal(adapters[k]) == Local
    ensures FirstLocalIndex(adapters, isLocal) == k
    decreases k
  {
    if k > 0 {
      FirstLocalIs(adapters[1..], isLocal, k - 1);
    }
  }

  /** `java.util.List.remove(Object)`: the first occurrence removed, if any. */
  function RemoveFirst(adapters: seq<ObjectAdapter>, a: ObjectAdapter): (r: seq<ObjectAdapter>)
    ensures a !in adapters ==> r == adapters
    ensures a in adapters ==> |r| == |adapters| - 1 && multiset(r) == multiset(adapters) - multiset{a}
  {
    if adapters == [] then []
    else
      assert adapters == [adapters[0]] + adapters[1..];
      if adapters[0] == a then adapters[1..]
      else [adapters[0]] + RemoveFirst(adapters[1..], a)
  }

  // ---------------------------------------------------------------------
  // The Java factory
  // ---------------------------------------------------------------------

  class JavaObjectAdapterFactory {
    /** `_instance != null`: not shut down yet. */
    var alive: bool
    var namesInUse: set<string>
    /** `_adapters`, null (`None`) once destroyed. */
    var adapters: Option<seq<ObjectAdapter>>
    var waitForShutdown: bool
    var calls: seq<AdapterCall>

    /** A factory that is not shut down has its adapter list. */
    predicate Valid()
      reads this
    {
      alive ==> adapters.Some?
    }

    constructor()
      ensures Valid()
      ensures alive && namesInUse == {} && adapters == Some([]) && !waitForShutdown && calls == []
    {
      alive := true;
      namesInUse := {};
      adapters := Some([]);
      waitForShutdown := false;
      calls := [];
    }

    predicate IsShutdown()
      reads this
    {
      !alive
    }

    /** `shutdown`: the first call clears the instance and deactivates
      * every adapter, in list order; later calls do nothing. */
    method Shutdown()
      modifies this
      ensures !alive
      ensures namesInUse == old(namesInUse) && adapters == old(adapters)
      ensures waitForShutdown == old(waitForShutdown)
      ensures !old(alive) ==> calls == old(calls)
      ensures old(alive) && adapters.Some? ==> calls == old(calls) + Each(DeactivateCall, adapters.value)
      ensures old(alive) && adapters.None? ==> calls == old(calls)
    {
      if !alive {
        return;
      }
      alive := false;
      if adapters.Some? {
        var list := adapters.value;
        var i := 0;
        while i < |list|
          invariant 0 <= i <= |list|
          invariant !alive && adapters == old(adapters) && namesInUse == old(namesInUse)
          invariant waitForShutdown == old(waitForShutdown)
          invariant calls == old(calls) + Each(DeactivateCall, list[..i])
        {
          assert list[..i + 1] == list[..i] + [list[i]];
          calls := calls + [AdapterCall(DeactivateCall, list[i])];
          i := i + 1;
        }
        assert list[..i] == list;
      }
    }

    /** `waitForShutdown`. The thread waits while the factory is not shut
      * down or another thread is waiting; the model then returns `false`
      * and changes nothing, and the caller calls again after the next
      * notification. Otherwise the thread waits for the deactivation of
      * every adapter and returns `true`. */
    method WaitForShutdown() returns (done: bool)
      modifies this
      ensures done <==> !old(alive) && !old(waitForShutdown)
      ensures alive == old(alive) && namesInUse == old(namesInUse) && adapters == old(adapters)
      ensures waitForShutdown == old(waitForShutdown)
      ensures done && adapters.Some? ==> calls == old(calls) + Each(WaitForDeactivateCall, adapters.value)
      ensures !(done && adapters.Some?) ==> calls == old(calls)
    {
      if alive || waitForShutdown {
        return false;
      }
      waitForShutdown := true;
      if adapters.Some? {
        var list := adapters.value;
        var i := 0;
        while i < |list|
          invariant 0 <= i <= |list|
          invariant alive == old(alive) && adapters == old(adapters) && namesInUse == old(namesInUse)
          invariant calls == old(calls) + Each(WaitForDeactivateCall, list[..i])
        {
          assert list[..i + 1] == list[..i] + [list[i]];
          calls := calls + [AdapterCall(WaitForDeactivateCall, list[i])];
          i := i + 1;
        }
        assert list[..i] == list;
      }
      waitForShutdown := false;
      return true;
    }

    /** `destroy`: wait for shutdown, then drop the adapter list and
      * destroy every adapter it held. */
    method Destroy() returns (done: bool)
      modifies this
      ensures done <==> !old(alive) && !old(waitForShutdown)
      ensures !done ==> adapters == old(adapters) && calls == old(calls)
      ensures done ==> adapters.None?
      ensures done && old(adapters).Some? ==>
                calls == old(calls) + Each(WaitForDeactivateCall, old(adapters).value)
                                    + Each(DestroyCall, old(adapters).value)
      ensures done && old(adapters).None? ==> calls == old(calls)
      ensures alive == old(alive) && namesInUse == old(namesInUse) && waitForShutdown == old(waitForShutdown)
    {
      done := WaitForShutdown();
      if !done {
        return;
      }
      var list := adapters;
      adapters := None;
      if list.Some? {
        var i := 0;
        var before := calls;
        while i < |list.value|
          invariant 0 <= i <= |list.value|
          invariant alive == old(alive) && adapters.None? && namesInUse == old(namesInUse)
          invariant waitForShutdown == old(waitForShutdown)
          invariant calls == before + Each(DestroyCall, list.value[..i])
        {
          assert list.value[..i + 1] == list.value[..i] + [list.value[i]];
          calls := calls + [AdapterCall(DestroyCall, list.value[i])];
          i := i + 1;
        }
        assert list.value[..i] == list.value;
      }
    }

    /** `createObjectAdapter`: refused after shutdown; an empty name gets
      * the UUID `uuid` and is not recorded; any other name must not be in
      * use, and is recorded. The adapter is appended to the list. */
    method CreateObjectAdapter(name: string, uuid: string) returns (r: Result<ObjectAdapter, FactoryError>)
      requires Valid()
      modifies this
      ensures Valid()
      ensures !old(alive) ==> r == Failure(ObjectAdapterDeactivatedException)
      ensures old(alive) && name != [] && name in old(namesInUse) ==>
                r == Failure(AlreadyRegisteredException("object adapter", name))
      ensures r.Failure? ==> namesInUse == old(namesInUse) && adapters == old(adapters)
      ensures r.Success? <==> old(alive) && (name == [] || name !in old(namesInUse))
      ensures r.Success? ==>
                && fresh(r.value)
                && r.value.name == (if name == [] then uuid else name) && r.value.named == (name != [])
                && namesInUse == (if name == [] then old(namesInUse) else old(namesInUse) + {name})
                && adapters == Some(old(adapters).value + [r.value])
      ensures alive == old(alive) && waitForShutdown == old(waitForShutdown) && calls == old(calls)
    {
      if !alive {
        return Failure(ObjectAdapterDeactivatedException);
      }
      var adapter: ObjectAdapter;
      if name == [] {
        adapter := new ObjectAdapter(uuid, false);
      } else {
        if name in namesInUse {
          return Failure(AlreadyRegisteredException("object adapter", name));
        }
        namesInUse := namesInUse + {name};
        adapter := new ObjectAdapter(name, true);
      }
      adapters := Some(adapters.value + [adapter]);
      return Success(adapter);
    }

    /** `findObjectAdapter`: null after shutdown, otherwise the first
      * adapter in list order that is local to the proxy. */
    method FindObjectAdapter(isLocal: ObjectAdapter -> LocalAnswer) returns (r: ObjectAdapter?)
      requires Valid()
      ensures !alive ==> r == null
      ensures alive ==> r == FirstLocal(adapters.value, isLocal)
    {
      if !alive {
        return null;
      }
      var list := adapters.value;
      var i := 0;
      while i < |list|
        invariant 0 <= i <= |list|
        invariant forall j :: 0 <= j < i ==> isLocal(list[j]) != Local
      {
        if isLocal(list[i]) == Local {
          FirstLocalIs(list, isLocal, i);
          return list[i];
        }
        i := i + 1;
      }
      FirstLocalIs(list, isLocal, |list|);
      return null;
    }

    /** `removeObjectAdapter`: after shutdown nothing; otherwise the
      * adapter leaves the list and its name is free again. */
    method RemoveObjectAdapter(adapter: ObjectAdapter)
      requires Valid()
      modifies this
      ensures Valid()
      ensures !old(alive) ==> namesInUse == old(namesInUse) && adapters == old(adapters)
      ensures old(alive) ==>
                adapters == Some(RemoveFirst(old(adapters).value, adapter))
                && namesInUse == old(namesInUse) - {adapter.name}
      ensures alive == old(alive) && waitForShutdown == old(waitForShutdown) && calls == old(calls)
    {
      if !alive {
        return;
      }
      adapters := Some(RemoveFirst(adapters.value, adapter));
      namesInUse := namesInUse - {adapter.name};
    }

    /** `flushBatchRequests`: nothing once destroyed, otherwise a flush of
      * every adapter in list order. */
    method FlushBatchRequests()
      modifies this
      ensures adapters.None? ==> calls == old(calls)
      ensures adapters.Some? ==> calls == old(calls) + Each(FlushCall, adapters.value)
      ensures alive == old(alive) && namesInUse == old(namesInUse) && adapters == old(adapters)
      ensures waitForShutdown == old(waitForShutdown)
    {
      if adapters.None? {
        return;
      }
      var list := adapters.value;
      var i := 0;
      while i < |list|
        invariant 0 <= i <= |list|
        invariant alive == old(alive) && adapters == old(adapters) && namesInUse == old(namesInUse)
        invariant waitForShutdown == old(waitForShutdown)
        invariant calls == old(calls) + Each(FlushCall, list[..i])
      {
        assert list[..i + 1] == list[..i] + [list[i]];
        calls := calls + [AdapterCall(FlushCall, list[i])];
        i := i + 1;
      }
      assert list[..i] == list;
    }
  }

  // ---------------------------------------------------------------------
  // The C# factory
  // ---------------------------------------------------------------------

  class CSharpObjectAdapterFactory {
    /** `_instance != null`: not shut down yet. */
    var alive: bool
    /** `_adapters`, the Hashtable from names to adapters. */
    var adapters: map<string, ObjectAdapter>
    var waitForShutdown: bool
    var calls: seq<AdapterCall>

    constructor()
      ensures alive && adapters == map[] && !waitForShutdown && calls == []
    {
      alive := true;
      adapters := map[];
      waitForShutdown := false;
      calls := [];
    }

    /** The call `kind` once on each adapter of the table, in the table's
      * enumeration order, which the model leaves open. */
    method CallEach(kind: CallKind)
      modifies this
      ensures |calls| >= |old(calls)| && calls[..|old(calls)|] == old(calls)
      ensures EachOnce(calls[|old(calls)|..], kind, adapters.Values)
      ensures alive == old(alive) && adapters == old(adapters) && waitForShutdown == old(waitForShutdown)
    {
      var rest := adapters.Values;
      var added: seq<AdapterCall> := [];
      while rest != {}
        invariant rest <= adapters.Values
        invariant calls == old(calls) + added
        invariant forall i :: 0 <= i < |added| ==> added[i].kind == kind && added[i].adapter in adapters.Values
        invariant forall i :: 0 <= i < |added| ==> added[i].adapter !in rest
        invariant forall i, j :: 0 <= i < j < |added| ==> added[i].adapter != added[j].adapter
        invariant AdaptersIn(added) == adapters.Values - rest
        invariant alive == old(alive) && adapters == old(adapters) && waitForShutdown == old(waitForShutdown)
        decreases rest
      {
        var a := Pick(rest);
        ghost var before := added;
        calls := calls + [AdapterCall(kind, a)];
        added := added + [AdapterCall(kind, a)];
        assert AdaptersIn(added) == AdaptersIn(before) + {a} by {
          assert forall i :: 0 <= i < |before| ==> added[i] == before[i];
          assert added[|before|].adapter == a;
        }
        rest := rest - {a};
      }
      assert calls[|old(calls)|..] == added;
    }

    /** `shutdown`: the first call deactivates every adapter and clears the
      * instance; later calls do nothing. */
    method Shutdown()
      modifies this
      ensures !alive
      ensures adapters == old(adapters) && waitForShutdown == old(waitForShutdown)
      ensures !old(alive) ==> calls == old(calls)
      ensures old(alive) ==>
                |calls| >= |old(calls)| && calls[..|old(calls)|] == old(calls)
                && EachOnce(calls[|old(calls)|..], DeactivateCall, adapters.Values)
    {
      if !alive {
        return;
      }
      CallEach(DeactivateCall);
      alive := false;
    }

    /** `waitForShutdown`: as in Java, `false` with no change while the
      * thread would wait; otherwise every adapter is waited for and the
      * table is emptied. */
    method WaitForShutdown() returns (done: bool)
      modifies this
      ensures done <==> !old(alive) && !old(waitForShutdown)
      ensures alive == old(alive) && waitForShutdown == old(waitForShutdown)
      ensures !done ==> adapters == old(adapters) && calls == old(calls)
      ensures done ==>
                adapters == map[]
                && |calls| >= |old(calls)| && calls[..|old(calls)|] == old(calls)
                && EachOnce(calls[|old(calls)|..], WaitForDeactivateCall, old(adapters).Values)
    {
      if alive || waitForShutdown {
        return false;
      }
      waitForShutdown := true;
      CallEach(WaitForDeactivateCall);
      adapters := map[];
      waitForShutdown := false;
      return true;
    }

    /** `createObjectAdapter`: refused after shutdown; a name already in
      * the table gives the adapter registered under it; otherwise a new
      * adapter is registered under the name. */
    method CreateObjectAdapter(name: string) returns (r: Result<ObjectAdapter, FactoryError>)
      modifies this
      ensures !old(alive) ==> r == Failure(ObjectAdapterDeactivatedException) && adapters == old(adapters)
      ensures old(alive) && name in old(adapters) ==> r == Success(old(adapters)[name]) && adapters == old(adapters)
      ensures old(alive) && name !in old(adapters) ==>
                r.Success? && fresh(r.value) && r.value.name == name && adapters == old(adapters)[name := r.value]
      ensures alive == old(alive) && waitForShutdown == old(waitForShutdown) && calls == old(calls)
    {
      if !alive {
        return Failure(ObjectAdapterDeactivatedException);
      }
      if name in adapters {
        return Success(adapters[name]);
      }
      var adapter := new ObjectAdapter(name, true);
      adapters := adapters[name := adapter];
      return Success(adapter);
    }

    /** `findObjectAdapter`: null after shutdown, otherwise an adapter of
      * the table local to the proxy, or null when there is none. */
    method FindObjectAdapter(isLocal: ObjectAdapter -> LocalAnswer) returns (r: ObjectAdapter?)
      ensures !alive ==> r == null
      ensures alive && r != null ==> r in adapters.Values && isLocal(r) == Local
      ensures alive && r == null ==> forall a :: a in adapters.Values ==> isLocal(a) != Local
    {
      if !alive {
        return null;
      }
      var rest := adapters.Values;
      while rest != {}
        invariant rest <= adapters.Values
        invariant forall a :: a in adapters.Values && a !in rest ==> isLocal(a) != Local
        decreases rest
      {
        var a := Pick(rest);
        if isLocal(a) == Local {
          return a;
        }
        rest := rest - {a};
      }
      return null;
    }

    /** `flushBatchRequests`: a flush of every adapter the table held when
      * the snapshot was taken. */
    method FlushBatchRequests()
      modifies this
      ensures |calls| >= |old(calls)| && calls[..|old(calls)|] == old(calls)
      ensures EachOnce(calls[|old(calls)|..], FlushCall, adapters.Values)
      ensures alive == old(alive) && adapters == old(adapters) && waitForShutdown == old(waitForShutdown)
    {
      CallEach(FlushCall);
    }
  }
}
