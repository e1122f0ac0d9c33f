/** The Freeze evictor object (java/src/Freeze/EvictorI.java): its fields and
  * the operations that servants, the object adapter and the application call. */
module FreezeEvictor {
  import opened Basics
  import opened IceEvictor

  /** The walk of `evict()`: from the least recently used end of `list`,
    * drop idle entries while the list is longer than `target`. */
  method Scan(list: seq<Key>, cache: map<Key, Element>, target: int) returns (kept: seq<Key>, victims: set<Key>)
    ensures kept == Survivors(list, cache, |list| - target)
    ensures victims == Members(Victims(list, cache, |list| - target))
  {
    var i := |list|;
    var size := |list|;
    var rest: seq<Key> := [];
    var gone: seq<Key> := [];
    while i > 0 && size > target
      invariant 0 <= i <= |list|
      invariant size == i + |rest|
      invariant Survivors(list, cache, |list| - target) == Kept(list, cache, i, size - target) + rest
      invariant Victims(list, cache, |list| - target) == Dropped(list, cache, i, size - target) + gone
      decreases i
    {
      var k := list[i - 1];
      if Idle(cache, k) {
        gone := [k] + gone;
        size := size - 1;
      } else {
        rest := [k] + rest;
      }
      i := i - 1;
    }
    kept := list[..i] + rest;
    victims := Members(gone);
  }

  class Evictor {
    var deactivated: bool
    var evictorSize: int32
    /** The facets that have an object store. */
    var stores: set<string>
    /** The stores' caches, merged: every pinned element. */
    var cache: map<Key, Element>
    /** The evictor list, most recently used first. */
    var evictorList: seq<Key>
    var modifiedQueue: seq<Key>

    ghost predicate Valid()
      reads this
    {
      "" in stores
      && evictorSize >= 0
      && Consistent(evictorList, cache, modifiedQueue)
    }

    /** The usage counts of `k` that belong to the modified queue. */
    function Owed(k: Key): nat
      reads this
    {
      multiset(modifiedQueue)[k]
    }

    /** A new evictor over the databases of `facets`; the default facet's
      * store always exists. */
    constructor(facets: set<string>)
      ensures Valid() && !deactivated
      ensures stores == facets + {""} && evictorSize == 10
      ensures cache == map[] && evictorList == [] && modifiedQueue == []
    {
      deactivated := false;
      evictorSize := 10;
      stores := facets + {""};
      cache := map[];
      evictorList := [];
      modifiedQueue := [];
    }

    /** `pin` on the store's cache: loads the database record if needed. */
    method Pin(k: Key, stored: Option<Servant>) returns (found: bool)
      requires Valid()
      modifies this`cache
      ensures Valid()
      ensures found <==> Pinned(old(cache), k, stored).Some?
      ensures cache == if found then old(cache)[k := Pinned(old(cache), k, stored).value] else old(cache)
    {
      found := k in cache || stored.Some?;
      if k !in cache && stored.Some? {
        cache := cache[k := Element(Clean, stored, -1, 0)];
      }
    }

    /** `putIfAbsent` on the store's cache. */
    method PutIfAbsent(k: Key, stored: Option<Servant>)
      requires Valid()
      modifies this`cache
      ensures Valid()
      ensures cache == old(cache)[k := Installed(old(cache), k, stored)]
    {
      if k !in cache {
        cache := cache[k := Installed(cache, k, stored)];
      }
    }

    /** `fixEvictPosition`: an element that is not kept moves to the front of
      * the evictor list; a brand-new one joins it with usage count 0. */
    method FixEvictPosition(k: Key)
      requires Valid() && k in cache
      modifies this`cache, this`evictorList
      ensures Valid()
      ensures cache == old(cache)[k := Fixed(old(cache[k]))] && cache[k].usageCount >= 0
      ensures evictorList == if old(cache[k]).keepCount == 0 then [k] + Without(old(evictorList), k) else old(evictorList)
    {
      var e := cache[k];
      if e.keepCount == 0 {
        FixKeepsValid(evictorList, cache, modifiedQueue, k);
        cache := cache[k := Fixed(e)];
        evictorList := [k] + Without(evictorList, k);
      } else {
        assert cache[k := Fixed(e)] == cache;
      }
    }

    /** `evict()`: walk the evictor list from its least recently used end and
      * drop idle elements until the list is no longer than `evictorSize`. */
    method Evict()
      requires Valid()
      modifies this`cache, this`evictorList
      ensures Valid()
      ensures var excess := |old(evictorList)| - evictorSize;
        evictorList == Survivors(old(evictorList), old(cache), excess)
        && cache == old(cache) - Members(Victims(old(evictorList), old(cache), excess))
      ensures forall k | k in old(cache) && k !in cache :: old(cache[k]).usageCount == 0 && !Dirty(old(cache[k]).status)
    {
      var list, c := evictorList, cache;
      ghost var excess := |list| - evictorSize;
      var kept, victims := Scan(list, c, evictorSize);
      EvictDropsOnlyIdle(list, c, |list|, excess);
      assert list[..|list|] == list;
      QueueDrop(modifiedQueue, c, victims);
      EvictValid(list, c, excess);
      var c' := c - victims;
      assert forall k | k in c' :: ElementValid(c'[k]) by {
        forall k | k in c'
          ensures ElementValid(c'[k])
        {
          assert c'[k] == c[k];
        }
      }
      evictorList := kept;
      cache := c - victims;
    }

    /** `evict(element)`: drop one unused element that is not kept. */
    method EvictElement(k: Key)
      requires Valid() && k in cache
      requires cache[k].usageCount == 0 && cache[k].keepCount == 0
      modifies this`cache, this`evictorList
      ensures Valid()
      ensures cache == old(cache) - {k} && evictorList == Without(old(evictorList), k)
    {
      ListDrop(evictorList, cache, k);
      QueueDrop(modifiedQueue, cache, {k});
      evictorList := Without(evictorList, k);
      cache := cache - {k};
    }

    /** Moves the fixed element `k` to the status of `st` with `servant`, and
      * queues it when `st` says so. */
    method ApplyStep(k: Key, st: Step, servant: Option<Servant>)
      requires Valid() && k in cache && cache[k].usageCount >= 0
      requires KeepsChangesQueued(cache[k].status, st)
      requires ElementValid(cache[k].(status := st.status, servant := servant))
      modifies this`cache, this`modifiedQueue
      ensures Valid()
      ensures var e := old(cache[k]).(status := st.status, servant := servant);
        cache == old(cache)[k := if st.enqueue then e.(usageCount := e.usageCount + 1) else e]
      ensures modifiedQueue == old(modifiedQueue) + (if st.enqueue then [k] else [])
    {
      var e := cache[k].(status := st.status, servant := servant);
      StepKeepsValid(evictorList, cache, modifiedQueue, k, e, st.enqueue);
      // `addToModifiedQueue`: the queue entry owns one more usage count.
      cache := cache[k := if st.enqueue then e.(usageCount := e.usageCount + 1) else e];
      modifiedQueue := modifiedQueue + (if st.enqueue then [k] else []);
    }

    /** `addFacet`: register `servant` under `k`, whose database record is
      * `stored`; the facet's store is created when missing. */
    method AddFacet(k: Key, servant: Servant, stored: Option<Servant>) returns (r: Status<EvictorError>)
      requires Valid()
      modifies this`stores, this`cache, this`evictorList, this`modifiedQueue
      ensures Valid()
      ensures old(deactivated) ==> r == Raised(EvictorDeactivatedException) && unchanged(this)
      ensures !old(deactivated) ==> stores == old(stores) + {k.facet} && k in cache
      ensures !old(deactivated) ==> OnlyChanges(old(cache), cache, k)
      ensures !old(deactivated) ==> (r.Raised? <==> Live(Installed(old(cache), k, stored).status))
      ensures r.Raised? && !old(deactivated) ==>
        (r.error == AlreadyRegisteredException(k)
         && cache[k].status == Installed(old(cache), k, stored).status
         && modifiedQueue == old(modifiedQueue))
      ensures r.Done? ==>
        (cache[k].servant == Some(servant)
         && cache[k].status == AddStep(Installed(old(cache), k, stored).status).value.status
         && modifiedQueue == old(modifiedQueue)
              + (if AddStep(Installed(old(cache), k, stored).status).value.enqueue then [k] else []))
      ensures !old(deactivated) && Installed(old(cache), k, stored).keepCount == 0 ==>
        evictorList == [k] + Without(old(evictorList), k)
    {
      if deactivated {
        return Raised(EvictorDeactivatedException);
      }
      stores := stores + {k.facet};
      PutIfAbsent(k, stored);
      var added := AddInstalled(k, servant);
      r := if added then Done else Raised(AlreadyRegisteredException(k));
    }

    /** `addFacet` on an installed element: `fixEvictPosition`, then the
      * registration step when no servant is registered yet. */
    method AddInstalled(k: Key, servant: Servant) returns (added: bool)
      requires Valid() && k in cache
      modifies this`cache, this`evictorList, this`modifiedQueue
      ensures Valid()
      ensures added <==> !Live(old(cache[k]).status)
      ensures k in cache && OnlyChanges(old(cache), cache, k)
      ensures !added ==> cache[k].status == old(cache[k]).status && modifiedQueue == old(modifiedQueue)
      ensures added ==>
        (cache[k].servant == Some(servant)
         && cache[k].status == AddStep(old(cache[k]).status).value.status
         && modifiedQueue == old(modifiedQueue) + (if AddStep(old(cache[k]).status).value.enqueue then [k] else []))
      ensures old(cache[k]).keepCount == 0 ==> evictorList == [k] + Without(old(evictorList), k)
    {
      FixEvictPosition(k);
      match AddStep(cache[k].status) {
        case None =>
          added := false;
        case Some(st) =>
          ApplyStep(k, st, Some(servant));
          added := true;
      }
    }

    /** `createObject`: register or replace `servant` under `identity` in
      * the default facet, whose database record is `stored`. */
    method CreateObject(identity: IceReference.Identity, servant: Servant, stored: Option<Servant>)
      returns (r: Status<EvictorError>)
      requires Valid()
      modifies this`stores, this`cache, this`evictorList, this`modifiedQueue
      ensures Valid()
      ensures r.Raised? <==> old(deactivated)
      ensures r.Raised? ==> r.error == EvictorDeactivatedException && unchanged(this)
      ensures r.Done? ==> Key(identity, "") in cache && OnlyChanges(old(cache), cache, Key(identity, ""))
      ensures r.Done? ==>
        (var k := Key(identity, "");
         var st := CreateStep(Installed(old(cache), k, stored).status);
         cache[k].servant == Some(servant) && cache[k].status == st.status
         && modifiedQueue == old(modifiedQueue) + (if st.enqueue then [k] else []))
    {
      if deactivated {
        return Raised(EvictorDeactivatedException);
      }
      var k := Key(identity, "");
      PutIfAbsent(k, stored);
      FixEvictPosition(k);
      var e := cache[k];
      ApplyStep(k, CreateStep(e.status), Some(servant));
      r := Done;
    }

    /** `removeFacet`: unregister the servant under `k`, whose database
      * record is `stored`; a kept element loses all its keep counts. */
    method RemoveFacet(k: Key, stored: Option<Servant>) returns (r: Status<EvictorError>)
      requires Valid()
      modifies this`cache, this`evictorList, this`modifiedQueue
      ensures Valid()
      ensures old(deactivated) ==> r == Raised(EvictorDeactivatedException) && unchanged(this)
      ensures !old(deactivated) ==>
        (r.Done? <==> k.facet in stores && Pinned(old(cache), k, stored).Some?
                      && Live(Pinned(old(cache), k, stored).value.status))
      ensures r.Raised? && !old(deactivated) ==> r.error == NotRegisteredException(k)
      ensures r.Done? ==>
        (k in cache && OnlyChanges(old(cache), cache, k) && |evictorList| > 0 && evictorList[0] == k
         && cache[k] == RemovedFacet(Pinned(old(cache), k, stored).value)
         && modifiedQueue == old(modifiedQueue) + (if RemoveStep(Pinned(old(cache), k, stored).value.status).value.enqueue then [k] else []))
    {
      if deactivated {
        return Raised(EvictorDeactivatedException);
      }
      if k.facet !in stores {
        return Raised(NotRegisteredException(k));
      }
      var found := Pin(k, stored);
      if !found {
        return Raised(NotRegisteredException(k));
      }
      var removed := RemovePinned(k);
      r := if removed then Done else Raised(NotRegisteredException(k));
    }

    /** `removeFacet` on a pinned element: `fixEvictPosition`, then the
      * removal step when the element is registered. */
    method RemovePinned(k: Key) returns (removed: bool)
      requires Valid() && k in cache
      modifies this`cache, this`evictorList, this`modifiedQueue
      ensures Valid()
      ensures removed <==> Live(old(cache[k]).status)
      ensures k in cache && OnlyChanges(old(cache), cache, k)
      ensures removed ==>
        (cache[k] == RemovedFacet(old(cache[k])) && |evictorList| > 0 && evictorList[0] == k
         && modifiedQueue == old(modifiedQueue) + (if RemoveStep(old(cache[k]).status).value.enqueue then [k] else []))
    {
      FixEvictPosition(k);
      match RemoveStep(cache[k].status) {
        case None =>
          removed := false;
        case Some(st) =>
          Remove(k, st);
          removed := true;
      }
    }

    /** The removal step of `removeFacet` on a registered element that
      * `fixEvictPosition` has seen: its new status, no servant, and a kept
      * element goes back on the front of the list. */
    method Remove(k: Key, st: Step)
      requires Valid() && k in cache && cache[k].usageCount >= 0
      requires RemoveStep(cache[k].status) == Some(st)
      modifies this`cache, this`evictorList, this`modifiedQueue
      ensures Valid()
      ensures cache == old(cache)[k := Removed(old(cache[k]), st)]
      ensures evictorList == if old(cache[k]).keepCount > 0 then [k] + old(evictorList) else old(evictorList)
      ensures modifiedQueue == old(modifiedQueue) + (if st.enqueue then [k] else [])
    {
      var e := cache[k];
      RemoveKeepsValid(evictorList, cache, modifiedQueue, k, st);
      // `addToModifiedQueue`: the queue entry owns one more usage count.
      cache := cache[k := Removed(e, st)];
      modifiedQueue := modifiedQueue + (if st.enqueue then [k] else []);
      // A kept element was off the list; it goes back on the front.
      evictorList := if e.keepCount > 0 then [k] + evictorList else evictorList;
    }

    /** `keepFacet`: pin the registered element under `k` in memory; the
      * first keep takes it off the evictor list. */
    method KeepFacet(k: Key, stored: Option<Servant>) returns (r: Status<EvictorError>)
      requires Valid()
      modifies this`cache, this`evictorList
      ensures Valid()
      ensures old(deactivated) ==> r == Raised(EvictorDeactivatedException) && unchanged(this)
      ensures !old(deactivated) ==>
        (r.Done? <==> k.facet in stores && Pinned(old(cache), k, stored).Some?
                      && Live(Pinned(old(cache), k, stored).value.status))
      ensures r.Raised? && !old(deactivated) ==> r.error == NotRegisteredException(k)
      ensures r.Done? ==> k in cache && OnlyChanges(old(cache), cache, k) && k !in evictorList
      ensures r.Done? ==>
        (var e := Pinned(old(cache), k, stored).value;
         cache[k].keepCount == e.keepCount + 1 && cache[k].status == e.status
         && evictorList == Without(old(evictorList), k))
    {
      if deactivated {
        return Raised(EvictorDeactivatedException);
      }
      if k.facet !in stores {
        return Raised(NotRegisteredException(k));
      }
      var found := Pin(k, stored);
      if !found {
        return Raised(NotRegisteredException(k));
      }
      var e := cache[k];
      if !Live(e.status) {
        return Raised(NotRegisteredException(k));
      }
      Keep(k);
      r := Done;
    }

    /** The keep step of `keepFacet` on a registered cached element. */
    method Keep(k: Key)
      requires Valid() && k in cache && Live(cache[k].status)
      modifies this`cache, this`evictorList
      ensures Valid()
      ensures cache == old(cache)[k := KeptOnce(old(cache[k]))]
      ensures evictorList == Without(old(evictorList), k)
    {
      var e := cache[k];
      KeepKeepsValid(evictorList, cache, modifiedQueue, k);
      // The first keep of a listed element takes it off the list (taking out
      // an unlisted key changes nothing); a brand-new element gets usage
      // count 0; later keeps only count.
      evictorList := Without(evictorList, k);
      cache := cache[k := KeptOnce(e)];
    }

    /** `releaseFacet`: give back one keep count of the element under `k`;
      * the last one puts it back on the front of the evictor list. */
    method ReleaseFacet(k: Key) returns (r: Status<EvictorError>)
      requires Valid()
      modifies this`cache, this`evictorList
      ensures Valid()
      ensures old(deactivated) ==> r == Raised(EvictorDeactivatedException) && unchanged(this)
      ensures !old(deactivated) ==> (r.Done? <==> k.facet in stores && k in old(cache) && old(cache[k]).keepCount > 0)
      ensures r.Raised? && !old(deactivated) ==> r.error == NotRegisteredException(k) && unchanged(this)
      ensures r.Done? ==>
        (cache == old(cache)[k := old(cache[k]).(keepCount := old(cache[k]).keepCount - 1)]
         && evictorList == if cache[k].keepCount == 0 then [k] + old(evictorList) else old(evictorList))
    {
      if deactivated {
        return Raised(EvictorDeactivatedException);
      }
      if k.facet !in stores || k !in cache || cache[k].keepCount == 0 {
        return Raised(NotRegisteredException(k));
      }
      Release(k);
      r := Done;
    }

    /** The release step of `releaseFacet` on a kept element. */
    method Release(k: Key)
      requires Valid() && k in cache && cache[k].keepCount > 0
      modifies this`cache, this`evictorList
      ensures Valid()
      ensures cache == old(cache)[k := ReleasedOnce(old(cache[k]))]
      ensures evictorList == if old(cache[k]).keepCount == 1 then [k] + old(evictorList) else old(evictorList)
    {
      var e := cache[k];
      ReleaseKeepsValid(evictorList, cache, modifiedQueue, k);
      // The last keep puts the element back on the front of the list.
      evictorList := if e.keepCount == 1 then [k] + evictorList else evictorList;
      cache := cache[k := ReleasedOnce(e)];
    }

    /** `locate`: the servant of the registered element under `k`, whose
      * database record is `stored`; the dispatch then owns one usage count. */
    method Locate(k: Key, stored: Option<Servant>) returns (r: Result<Option<Servant>, EvictorError>)
      requires Valid()
      modifies this`cache, this`evictorList
      ensures Valid()
      ensures old(deactivated) ==> r == Failure(EvictorDeactivatedException) && unchanged(this)
      ensures !old(deactivated) ==> r.Success?
      ensures r.Success? ==>
        (r.value.Some? <==> k.facet in stores && Pinned(old(cache), k, stored).Some?
                            && Live(Pinned(old(cache), k, stored).value.status))
      ensures r.Success? && r.value.Some? ==>
        (k in cache && r.value == cache[k].servant && OnlyChanges(old(cache), cache, k)
         && cache[k].usageCount > Owed(k)
         && cache[k].usageCount == Held(Pinned(old(cache), k, stored).value) + 1)
    {
      if deactivated {
        return Failure(EvictorDeactivatedException);
      }
      if k.facet !in stores {
        return Success(None);
      }
      var found := Pin(k, stored);
      if !found || !Live(cache[k].status) {
        return Success(None);
      }
      var servant := Dispatch(k);
      r := Success(servant);
    }

    /** The dispatch step of `locate` on a live element: `fixEvictPosition`,
      * then one more usage count for the dispatch. */
    method Dispatch(k: Key) returns (servant: Option<Servant>)
      requires Valid() && k in cache && Live(cache[k].status)
      modifies this`cache, this`evictorList
      ensures Valid()
      ensures k in cache && cache[k] == Dispatched(old(cache[k])) && OnlyChanges(old(cache), cache, k)
      ensures evictorList == if old(cache[k]).keepCount == 0 then [k] + Without(old(evictorList), k) else old(evictorList)
      ensures servant == cache[k].servant && servant.Some? && cache[k].usageCount > Owed(k)
    {
      FixEvictPosition(k);
      Use(k);
      servant := cache[k].servant;
    }

    /** The dispatch owns one more usage count of the fixed element `k`. */
    method Use(k: Key)
      requires Valid() && k in cache && cache[k].usageCount >= 0
      modifies this`cache
      ensures Valid()
      ensures cache == old(cache)[k := old(cache[k]).(usageCount := old(cache[k]).usageCount + 1)]
    {
      var e := cache[k];
      UseKeepsValid(evictorList, cache, modifiedQueue, k);
      cache := cache[k := e.(usageCount := e.usageCount + 1)];
    }

    /** `finished`: the dispatch on `k` gives back its usage count; an
      * operation that may have mutated a clean servant queues it, otherwise
      * an element nobody uses lets the evictor shrink. */
    method Finished(k: Key, mode: OperationMode)
      requires Valid() && k in cache && cache[k].usageCount > Owed(k)
      modifies this`cache, this`evictorList, this`modifiedQueue
      ensures Valid()
      ensures modifiedQueue == old(modifiedQueue) + (if FinishStep(old(cache[k]).status, mode).enqueue then [k] else [])
      ensures !LastUse(old(cache[k]), mode) ==>
        (cache == old(cache)[k := Returned(old(cache[k]), FinishStep(old(cache[k]).status, mode))]
         && evictorList == old(evictorList))
      ensures LastUse(old(cache[k]), mode) ==>
        evictorList == Survivors(old(evictorList), old(cache)[k := Returned(old(cache[k]), FinishStep(old(cache[k]).status, mode))],
                                 |old(evictorList)| - evictorSize)
    {
      var st := FinishStep(cache[k].status, mode);
      GiveBack(k, st);
      if !st.enqueue && cache[k].usageCount == 0 && cache[k].keepCount == 0 {
        Evict();
      }
    }

    /** The usage-count step of `finished`: the status of `st`, one usage
      * count less, and `addToModifiedQueue` when `st` queues the element. */
    method GiveBack(k: Key, st: Step)
      requires Valid() && k in cache && cache[k].usageCount > Owed(k)
      requires KeepsChangesQueued(cache[k].status, st) && (Live(st.status) <==> Live(cache[k].status))
      modifies this`cache, this`modifiedQueue
      ensures Valid()
      ensures cache == old(cache)[k := Returned(old(cache[k]), st)]
      ensures modifiedQueue == old(modifiedQueue) + (if st.enqueue then [k] else [])
    {
      ReturnKeepsValid(evictorList, cache, modifiedQueue, k, st);
      cache := cache[k := Returned(cache[k], st)];
      modifiedQueue := modifiedQueue + (if st.enqueue then [k] else []);
    }

    /** `setSize`: refused after deactivation, ignored when negative, and
      * otherwise evicts down to the new size. */
    method SetSize(n: int32) returns (r: Status<EvictorError>)
      requires Valid()
      modifies this`evictorSize, this`cache, this`evictorList
      ensures Valid()
      ensures r.Raised? <==> old(deactivated)
      ensures r.Raised? ==> r.error == EvictorDeactivatedException
      ensures evictorSize == if old(deactivated) || n < 0 then old(evictorSize) else n
      ensures old(deactivated) || n < 0 ==> cache == old(cache) && evictorList == old(evictorList)
      ensures !old(deactivated) && n >= 0 ==>
        evictorList == Survivors(old(evictorList), old(cache), |old(evictorList)| - n)
    {
      if deactivated {
        return Raised(EvictorDeactivatedException);
      }
      r := Done;
      if n < 0 {
        return;
      }
      evictorSize := n;
      Evict();
    }
    /** `deactivate`: evict everything that can go and refuse all further
      * operations. */
    method Deactivate()
      requires Valid()
      modifies this`deactivated, this`evictorSize, this`cache, this`evictorList
      ensures Valid() && deactivated
      ensures old(deactivated) ==> unchanged(this)
      ensures !old(deactivated) ==>
        (evictorSize == 0 && evictorList == Survivors(old(evictorList), old(cache), |old(evictorList)|))
    {
      if !deactivated {
        evictorSize := 0;
        Evict();
        deactivated := true;
      }
    }
  }
}
