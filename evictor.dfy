/** The Freeze evictor (java/src/Freeze/EvictorI.java): a cache of persistent
  * servants keyed by identity and facet. Each cached element carries a status
  * (clean, created, modified, destroyed, dead), a usage count (dispatches in
  * progress plus entries on the modified queue) and a keep count. Elements that
  * are neither kept nor brand-new sit in the evictor list, most recently used
  * first; eviction walks that list from its least recently used end. */
module IceEvictor {
  import opened Basics
  import IceReference

  /** The persistence status of a cached facet. */
  datatype ElementStatus = Clean | Created | Modified | Destroyed | Dead

  /** Registered from the client's point of view: the element holds a servant. */
  predicate Live(s: ElementStatus) { s == Clean || s == Created || s == Modified }

  /** The element holds a change that the database does not have yet. */
  predicate Dirty(s: ElementStatus) { s == Created || s == Modified || s == Destroyed }

  /** Servants are opaque to the evictor. */
  type Servant = nat

  /** A cache key: the object's identity and the facet, whose store holds it. */
  datatype Key = Key(identity: IceReference.Identity, facet: string)

  datatype Element = Element(status: ElementStatus, servant: Option<Servant>, usageCount: int, keepCount: nat)

  datatype OperationMode = Normal | Nonmutating | Idempotent

  datatype EvictorError =
    | EvictorDeactivatedException
    | AlreadyRegisteredException(key: Key)
    | NotRegisteredException(key: Key)

  /** One transition of the status machine: the new status, and whether the
    * element goes on the modified queue. */
  datatype Step = Step(status: ElementStatus, enqueue: bool)

  /** A step never leaves a change unsaved: a step into a dirty status either
    * starts from a dirty status (already queued) or queues the element. */
  predicate KeepsChangesQueued(before: ElementStatus, st: Step)
  {
    Dirty(st.status) ==> Dirty(before) || st.enqueue
  }

  /** `addFacet`: a registered facet is refused; a destroyed one is revived as
    * modified; a dead one becomes created and is queued. */
  function AddStep(s: ElementStatus): (r: Option<Step>)
    ensures r.Some? <==> !Live(s)
    ensures r.Some? ==> Live(r.value.status) && KeepsChangesQueued(s, r.value)
    ensures r.Some? ==> (r.value.status == Created <==> s == Dead)
  {
    match s
    case Clean | Created | Modified => None
    case Destroyed => Some(Step(Modified, false))
    case Dead => Some(Step(Created, true))
  }

  /** `createObject`: always registers; only a clean or dead element needs a
    * new entry on the modified queue. */
  function CreateStep(s: ElementStatus): (r: Step)
    ensures Live(r.status) && KeepsChangesQueued(s, r)
    ensures r.enqueue <==> s == Clean || s == Dead
    ensures r.status == Created <==> s == Created || s == Dead
  {
    match s
    case Clean => Step(Modified, true)
    case Created => Step(Created, false)
    case Modified => Step(Modified, false)
    case Destroyed => Step(Modified, false)
    case Dead => Step(Created, true)
  }

  /** `removeFacet`: only a registered facet can be removed; a facet created
    * since the last save simply dies, the others wait to be deleted. */
  function RemoveStep(s: ElementStatus): (r: Option<Step>)
    ensures r.Some? <==> Live(s)
    ensures r.Some? ==> !Live(r.value.status) && KeepsChangesQueued(s, r.value)
    ensures r.Some? ==> (r.value.status == Dead <==> s == Created)
  {
    match s
    case Clean => Some(Step(Destroyed, true))
    case Created => Some(Step(Dead, false))
    case Modified => Some(Step(Destroyed, false))
    case Destroyed | Dead => None
  }

  /** `finished`: an operation that may have mutated a clean servant marks it
    * modified and queues it; nothing else changes status. */
  function FinishStep(s: ElementStatus, mode: OperationMode): (r: Step)
    ensures r.enqueue <==> mode != Nonmutating && s == Clean
    ensures r.status == (if r.enqueue then Modified else s)
    ensures KeepsChangesQueued(s, r) && (Live(r.status) <==> Live(s))
  {
    if mode != Nonmutating && s == Clean then Step(Modified, true) else Step(s, false)
  }

  /** Registration round trip: after a successful remove the facet can be
    * added again, and after a successful add it can be removed again. */
  lemma AddRemoveCycle(s: ElementStatus)
    ensures AddStep(s).Some? ==> RemoveStep(AddStep(s).value.status).Some?
    ensures RemoveStep(s).Some? ==> AddStep(RemoveStep(s).value.status).Some?
    ensures AddStep(s).Some? <==> RemoveStep(s).None?
  {
  }

  /** The element the store's cache hands out when `key` is pinned: the cached
    * one, or one loaded from the database record `stored` (clean, brand-new,
    * usage count -1), or none. */
  function Pinned(cache: map<Key, Element>, key: Key, stored: Option<Servant>): (r: Option<Element>)
    ensures key in cache ==> r == Some(cache[key])
    ensures key !in cache ==> (r.Some? <==> stored.Some?)
    ensures key !in cache && r.Some? ==> r.value.status == Clean && r.value.usageCount < 0
  {
    if key in cache then Some(cache[key])
    else if stored.Some? then Some(Element(Clean, stored, -1, 0))
    else None
  }

  /** `putIfAbsent` on the store's cache: like `Pinned`, except that an object
    * the database does not hold either gets a brand-new dead element. */
  function Installed(cache: map<Key, Element>, key: Key, stored: Option<Servant>): (r: Element)
    ensures key in cache ==> r == cache[key]
    ensures key !in cache ==> r.usageCount < 0 && r.keepCount == 0 && (Live(r.status) <==> stored.Some?)
  {
    if key in cache then cache[key]
    else if stored.Some? then Element(Clean, stored, -1, 0)
    else Element(Dead, None, -1, 0)
  }

  /** `after` differs from `before` at most in the entry for `k`. */
  ghost predicate OnlyChanges(before: map<Key, Element>, after: map<Key, Element>, k: Key)
  {
    forall x | x != k :: (x in before <==> x in after) && (x in before ==> before[x] == after[x])
  }

  predicate Distinct(s: seq<Key>)
  {
    forall i, j | 0 <= i < j < |s| :: s[i] != s[j]
  }

  /** `s` with `k` taken out (the evictor list's iterator removal). */
  function Without(s: seq<Key>, k: Key): (r: seq<Key>)
    ensures forall x :: x in r <==> x in s && x != k
    ensures Distinct(s) ==> Distinct(r)
    ensures Distinct(s) && k in s ==> |r| == |s| - 1
    ensures k !in s ==> r == s
  {
    if s == [] then []
    else
      DistinctTail(s);
      var rest := Without(s[1..], k);
      if s[0] == k then rest
      else
        DistinctCons(s[0], rest);
        [s[0]] + rest
  }

  lemma DistinctTail(s: seq<Key>)
    ensures s != [] && Distinct(s) ==> Distinct(s[1..]) && s[0] !in s[1..]
  {
  }

  lemma DistinctCons(x: Key, rest: seq<Key>)
    ensures Distinct(rest) && x !in rest ==> Distinct([x] + rest)
  {
    if Distinct(rest) && x !in rest {
      var s := [x] + rest;
      forall i, j | 0 <= i < j < |s|
        ensures s[i] != s[j]
      {
        assert s[j] == rest[j - 1];
        if i > 0 {
          assert s[i] == rest[i - 1];
        }
      }
    }
  }

  /** The element is on the evictor list: it is not kept and not brand-new. */
  predicate Listed(e: Element) { e.keepCount == 0 && e.usageCount >= 0 }

  /** The usage counts that belong to someone: a brand-new element owns none. */
  function Held(e: Element): nat { if e.usageCount < 0 then 0 else e.usageCount }

  /** What the source asserts of every element: a servant exactly while live,
    * and a kept element is live and no longer brand-new. */
  predicate ElementValid(e: Element)
  {
    e.usageCount >= -1
    && (e.servant.Some? <==> Live(e.status))
    && (e.keepCount > 0 ==> e.usageCount >= 0 && Live(e.status))
  }

  /** The evictor list holds each listed element exactly once. */
  predicate ListValid(list: seq<Key>, cache: map<Key, Element>)
  {
    Distinct(list)
    && (forall i | 0 <= i < |list| :: list[i] in cache)
    && (forall k | k in cache :: k in list <==> Listed(cache[k]))
  }

  /** Every entry of the modified queue owns one usage count of a cached
    * element, and every unsaved change is on the queue. */
  predicate QueueValid(queue: seq<Key>, cache: map<Key, Element>)
  {
    (forall i | 0 <= i < |queue| :: queue[i] in cache)
    && (forall k {:trigger multiset(queue)[k]} | k in cache :: multiset(queue)[k] <= Held(cache[k]))
    && (forall k | k in cache && Dirty(cache[k].status) :: k in queue)
  }

  /** The cached element `k` is in use by nobody: no dispatch and no entry
    * on the modified queue. */
  predicate Idle(cache: map<Key, Element>, k: Key) { k in cache && cache[k].usageCount == 0 }

  /** How many of the first `i` entries of `list` are idle. */
  function IdleCount(list: seq<Key>, cache: map<Key, Element>, i: nat): (n: nat)
    requires i <= |list|
    ensures n <= i
  {
    if i == 0 then 0
    else IdleCount(list, cache, i - 1) + (if Idle(cache, list[i - 1]) then 1 else 0)
  }

  /** The entries among the first `i` of `list` that `evict` drops: walking
    * from position `i - 1` towards the front, every idle entry while the
    * list is `excess` entries too long. */
  function Dropped(list: seq<Key>, cache: map<Key, Element>, i: nat, excess: int): (r: seq<Key>)
    requires i <= |list|
    ensures excess <= 0 ==> r == []
  {
    if i == 0 || excess <= 0 then []
    else if Idle(cache, list[i - 1]) then Dropped(list, cache, i - 1, excess - 1) + [list[i - 1]]
    else Dropped(list, cache, i - 1, excess)
  }

  /** The entries among the first `i` of `list` that `evict` keeps, in order. */
  function Kept(list: seq<Key>, cache: map<Key, Element>, i: nat, excess: int): (r: seq<Key>)
    requires i <= |list|
    ensures excess <= 0 ==> r == list[..i]
  {
    if i == 0 || excess <= 0 then list[..i]
    else if Idle(cache, list[i - 1]) then Kept(list, cache, i - 1, excess - 1)
    else Kept(list, cache, i - 1, excess) + [list[i - 1]]
  }

  /** The entries `evict()` drops from the evictor list `list`. */
  function Victims(list: seq<Key>, cache: map<Key, Element>, excess: int): seq<Key>
  {
    Dropped(list, cache, |list|, excess)
  }

  /** The evictor list `evict()` leaves. */
  function Survivors(list: seq<Key>, cache: map<Key, Element>, excess: int): seq<Key>
  {
    Kept(list, cache, |list|, excess)
  }

  function Min(a: int, b: int): int { if a <= b then a else b }

  /** `evict` goes as far as it must: it drops exactly as many entries as the
    * list is too long, unless it runs out of idle entries first; what it
    * does not drop it keeps. */
  lemma {:induction false} EvictReachesTarget(list: seq<Key>, cache: map<Key, Element>, i: nat, excess: int)
    requires i <= |list|
    ensures |Dropped(list, cache, i, excess)| == if excess <= 0 then 0 else Min(excess, IdleCount(list, cache, i))
    ensures |Kept(list, cache, i, excess)| + |Dropped(list, cache, i, excess)| == i
  {
    if i > 0 && excess > 0 {
      EvictReachesTarget(list, cache, i - 1, excess - 1);
      EvictReachesTarget(list, cache, i - 1, excess);
    }
  }

  /** Eviction only drops idle entries, and both parts come from the walked
    * prefix of the list. */
  lemma {:induction false} EvictDropsOnlyIdle(list: seq<Key>, cache: map<Key, Element>, i: nat, excess: int)
    requires i <= |list|
    ensures forall x | x in Dropped(list, cache, i, excess) :: Idle(cache, x) && x in list[..i]
    ensures forall x | x in Kept(list, cache, i, excess) :: x in list[..i]
  {
    if i > 0 && excess > 0 {
      assert list[..i] == list[..i - 1] + [list[i - 1]];
      EvictDropsOnlyIdle(list, cache, i - 1, excess - 1);
      EvictDropsOnlyIdle(list, cache, i - 1, excess);
    }
  }

  /** Eviction splits a list of distinct keys: each walked entry is kept or
    * dropped, never both, and the kept ones stay distinct. */
  lemma {:induction false} EvictPartition(list: seq<Key>, cache: map<Key, Element>, i: nat, excess: int)
    requires i <= |list| && Distinct(list)
    ensures Distinct(Kept(list, cache, i, excess))
    ensures forall x | x in list[..i] :: x in Kept(list, cache, i, excess) <==> x !in Dropped(list, cache, i, excess)
  {
    if i > 0 && excess > 0 {
      var last := list[i - 1];
      assert list[..i] == list[..i - 1] + [last];
      assert last !in list[..i - 1];
      EvictDropsOnlyIdle(list, cache, i - 1, excess - 1);
      EvictDropsOnlyIdle(list, cache, i - 1, excess);
      EvictPartition(list, cache, i - 1, excess - 1);
      EvictPartition(list, cache, i - 1, excess);
      if !Idle(cache, last) {
        DistinctSnoc(Kept(list, cache, i - 1, excess), last);
      }
    } else if i > 0 {
      DistinctPrefix(list, i);
    } else {
      DistinctPrefix(list, 0);
    }
  }

  lemma DistinctPrefix(s: seq<Key>, i: nat)
    requires i <= |s| && Distinct(s)
    ensures Distinct(s[..i])
  {
  }

  lemma DistinctSnoc(s: seq<Key>, x: Key)
    ensures Distinct(s) && x !in s ==> Distinct(s + [x])
  {
  }

  /** Eviction works from the least recently used end: when the idle entries
    * behind position `j` already cover the excess, the first `j` entries are
    * kept, unmoved, as the front of what remains. */
  lemma {:induction false} EvictKeepsFront(list: seq<Key>, cache: map<Key, Element>, j: nat, i: nat, excess: int)
    requires j <= i <= |list|
    requires IdleCount(list, cache, i) - IdleCount(list, cache, j) >= excess
    ensures list[..j] <= Kept(list, cache, i, excess)
  {
    if i == j || excess <= 0 {
      assert list[..j] <= list[..i];
    } else if Idle(cache, list[i - 1]) {
      EvictKeepsFront(list, cache, j, i - 1, excess - 1);
    } else {
      EvictKeepsFront(list, cache, j, i - 1, excess);
    }
  }

  /** The set of keys in `s`. */
  function Members(s: seq<Key>): (r: set<Key>)
    ensures forall x :: x in r <==> x in s
  {
    set x | x in s
  }

  /** Java's `(txSize + 1) / 2` on an `int`: the transaction size after a
    * deadlock. */
  function HalveTxSize(txSize: int32): int32
  {
    var n: int := Wrap32(txSize + 1);
    if n >= 0 then n / 2 else -((-n) / 2)
  }

  /** Halving never reaches zero and makes progress until a single object is
    * saved per transaction. The transaction size counts queued objects, so
    * it stays below `Integer.MAX_VALUE`. */
  lemma HalvingProgress(txSize: int32)
    requires 1 <= txSize < MaxInt32
    ensures 1 <= HalveTxSize(txSize) <= txSize
    ensures txSize > 1 ==> HalveTxSize(txSize) < txSize
  {
  }

  /** The first transaction size: the queue length capped by `maxTxSize`. */
  function FirstTxSize(queued: nat, maxTxSize: int32): (r: int)
    requires maxTxSize > 0
    ensures r <= queued && r <= maxTxSize
    ensures queued > 0 ==> r >= 1
  {
    if queued > maxTxSize then maxTxSize else queued
  }

  /** Changing an element without moving it in or out of the list. */
  lemma ListUpdate(list: seq<Key>, cache: map<Key, Element>, k: Key, e: Element)
    requires ListValid(list, cache) && k in cache && Listed(e) == Listed(cache[k])
    ensures ListValid(list, cache[k := e])
  {
  }

  /** Putting a listed element at the front of the list. */
  lemma ListMoveFront(list: seq<Key>, cache: map<Key, Element>, k: Key, e: Element)
    requires ListValid(list, cache) && k in cache && Listed(e)
    ensures ListValid([k] + Without(list, k), cache[k := e])
    ensures |[k] + Without(list, k)| == |list| + (if k in list then 0 else 1)
  {
    var rest := Without(list, k);
    var moved := [k] + rest;
    var updated := cache[k := e];
    DistinctCons(k, rest);
    forall i | 0 <= i < |moved|
      ensures moved[i] in updated
    {
      if i > 0 {
        assert moved[i] == rest[i - 1];
        assert moved[i] in list;
      }
    }
    forall x | x in updated
      ensures x in moved <==> Listed(updated[x])
    {
      if x != k {
        assert x in moved <==> x in list;
      }
    }
  }

  /** Taking an element that stops being listed out of the list. */
  lemma ListTakeOut(list: seq<Key>, cache: map<Key, Element>, k: Key, e: Element)
    requires ListValid(list, cache) && k in cache && !Listed(e)
    ensures ListValid(Without(list, k), cache[k := e])
    ensures |Without(list, k)| == |list| - (if k in list then 1 else 0)
  {
    var rest := Without(list, k);
    forall i | 0 <= i < |rest|
      ensures rest[i] in cache[k := e]
    {
      assert rest[i] in list;
    }
  }

  /** Dropping an element from the cache and from the list. */
  lemma ListDrop(list: seq<Key>, cache: map<Key, Element>, k: Key)
    requires ListValid(list, cache) && k in cache
    ensures ListValid(Without(list, k), cache - {k})
    ensures |Without(list, k)| == |list| - (if k in list then 1 else 0)
  {
    var rest := Without(list, k);
    forall i | 0 <= i < |rest|
      ensures rest[i] in cache - {k}
    {
      assert rest[i] in list;
    }
  }

  /** A status step on `k`, queued when the step says so, keeps the queue
    * accounting and leaves no change unsaved. */
  lemma QueueStep(queue: seq<Key>, cache: map<Key, Element>, k: Key, e: Element, enqueue: bool)
    requires QueueValid(queue, cache) && k in cache
    requires multiset(queue)[k] <= e.usageCount
    requires Dirty(e.status) ==> Dirty(cache[k].status) || enqueue
    ensures QueueValid(queue + (if enqueue then [k] else []),
      cache[k := if enqueue then e.(usageCount := e.usageCount + 1) else e])
  {
    var q := queue + (if enqueue then [k] else []);
    var c := cache[k := if enqueue then e.(usageCount := e.usageCount + 1) else e];
    forall i | 0 <= i < |q|
      ensures q[i] in c
    {
      if i < |queue| {
        assert q[i] == queue[i];
      }
    }
    forall x | x in c && Dirty(c[x].status)
      ensures x in q
    {
      assert x in queue || (x == k && enqueue);
      if x in queue {
        var i :| 0 <= i < |queue| && queue[i] == x;
        assert q[i] == x;
      } else {
        assert q[|q| - 1] == k;
      }
    }
  }

  /** A dispatch that gives back its usage count keeps the queue accounting. */
  lemma QueueRelease(queue: seq<Key>, cache: map<Key, Element>, k: Key, e: Element)
    requires QueueValid(queue, cache) && k in cache
    requires e.status == cache[k].status && multiset(queue)[k] <= e.usageCount
    ensures QueueValid(queue, cache[k := e])
  {
  }

  /** Dropping an idle element that is off the queue. */
  lemma QueueDrop(queue: seq<Key>, cache: map<Key, Element>, gone: set<Key>)
    requires QueueValid(queue, cache)
    requires forall x | x in gone :: Idle(cache, x)
    ensures QueueValid(queue, cache - gone)
    ensures forall x | x in gone :: x in cache && !Dirty(cache[x].status)
  {
    forall i | 0 <= i < |queue|
      ensures queue[i] !in gone
    {
      assert queue[i] in multiset(queue);
    }
  }

  /** The list and cache that eviction leaves are consistent. */
  lemma EvictValid(list: seq<Key>, cache: map<Key, Element>, excess: int)
    requires ListValid(list, cache)
    ensures ListValid(Survivors(list, cache, excess), cache - Members(Victims(list, cache, excess)))
  {
    var kept := Survivors(list, cache, excess);
    var gone := Members(Victims(list, cache, excess));
    assert list[..|list|] == list;
    EvictPartition(list, cache, |list|, excess);
    EvictDropsOnlyIdle(list, cache, |list|, excess);
    forall i | 0 <= i < |kept|
      ensures kept[i] in cache - gone
    {
      assert kept[i] in list;
    }
  }

  predicate ElementsValid(cache: map<Key, Element>)
  {
    forall k | k in cache :: ElementValid(cache[k])
  }

  /** The evictor list, the cache and the modified queue agree. */
  predicate Consistent(list: seq<Key>, cache: map<Key, Element>, queue: seq<Key>)
  {
    ListValid(list, cache) && QueueValid(queue, cache) && ElementsValid(cache)
  }

  /** The element `fixEvictPosition` leaves: a brand-new one gets usage count 0. */
  function Fixed(e: Element): (r: Element)
    ensures e.keepCount == 0 ==> Listed(r)
    ensures r.status == e.status && r.servant == e.servant && r.keepCount == e.keepCount
  {
    if e.keepCount == 0 && e.usageCount < 0 then e.(usageCount := 0) else e
  }

  /** The element `locate` leaves: `fixEvictPosition`, then one more usage
    * count for the dispatch. */
  function Dispatched(e: Element): (r: Element)
    ensures r.status == e.status && r.servant == e.servant && r.keepCount == e.keepCount
    ensures r.usageCount == Fixed(e).usageCount + 1
  {
    Fixed(e).(usageCount := Fixed(e).usageCount + 1)
  }

  /** `fixEvictPosition` keeps the list, the queue and the elements consistent. */
  lemma FixKeepsValid(list: seq<Key>, cache: map<Key, Element>, queue: seq<Key>, k: Key)
    requires Consistent(list, cache, queue)
    requires k in cache && cache[k].keepCount == 0
    ensures var c := cache[k := Fixed(cache[k])];
      Consistent([k] + Without(list, k), c, queue)
    ensures |[k] + Without(list, k)| == |list| + (if cache[k].usageCount < 0 then 1 else 0)
  {
    var e' := Fixed(cache[k]);
    ListMoveFront(list, cache, k, e');
    QueueRelease(queue, cache, k, e');
    assert ElementValid(e');
  }

  /** A status step on a fixed element that keeps it on or off the list. */
  lemma StepKeepsValid(list: seq<Key>, cache: map<Key, Element>, queue: seq<Key>, k: Key, e: Element, enqueue: bool)
    requires Consistent(list, cache, queue) && k in cache
    requires multiset(queue)[k] <= e.usageCount && ElementValid(e) && Listed(e) == Listed(cache[k])
    requires Dirty(e.status) ==> Dirty(cache[k].status) || enqueue
    ensures var c := cache[k := if enqueue then e.(usageCount := e.usageCount + 1) else e];
      Consistent(list, c, queue + (if enqueue then [k] else []))
  {
    var e' := if enqueue then e.(usageCount := e.usageCount + 1) else e;
    ListUpdate(list, cache, k, e');
    QueueStep(queue, cache, k, e, enqueue);
    assert ElementValid(e');
  }

  /** `removeFacet` on a registered element: the status step, and a kept
    * element goes back on the front of the list with keep count 0. */
  /** The element `removeFacet` leaves: its new status, no servant, no keep
    * count, and one more usage count when it joins the modified queue. */
  function Removed(e: Element, st: Step): (r: Element)
    ensures r.status == st.status && r.servant == None && r.keepCount == 0
    ensures r.usageCount == e.usageCount + (if st.enqueue then 1 else 0)
  {
    var e' := e.(status := st.status, servant := None, keepCount := 0);
    if st.enqueue then e'.(usageCount := e'.usageCount + 1) else e'
  }

  /** The element `finished` leaves: the status of `st`, and the dispatch's
    * usage count passes to the modified queue when `st` queues it. */
  function Returned(e: Element, st: Step): (r: Element)
    ensures r.status == st.status && r.servant == e.servant && r.keepCount == e.keepCount
    ensures r.usageCount == e.usageCount - (if st.enqueue then 0 else 1)
  {
    var e' := e.(status := st.status, usageCount := e.usageCount - 1);
    if st.enqueue then e'.(usageCount := e'.usageCount + 1) else e'
  }

  /** `finished` on the last dispatch of an element that is not kept and
    * that the operation did not queue: the evictor then shrinks. */
  predicate LastUse(e: Element, mode: OperationMode)
  {
    !FinishStep(e.status, mode).enqueue && e.usageCount == 1 && e.keepCount == 0
  }

  /** `finished`: giving back the dispatch's usage count keeps the list, the
    * queue and the elements consistent. */
  lemma ReturnKeepsValid(list: seq<Key>, cache: map<Key, Element>, queue: seq<Key>, k: Key, st: Step)
    requires Consistent(list, cache, queue) && k in cache && cache[k].usageCount > multiset(queue)[k]
    requires KeepsChangesQueued(cache[k].status, st) && (Live(st.status) <==> Live(cache[k].status))
    ensures Consistent(list, cache[k := Returned(cache[k], st)], queue + (if st.enqueue then [k] else []))
  {
    var e := cache[k];
    StepKeepsValid(list, cache, queue, k, e.(status := st.status, usageCount := e.usageCount - 1), st.enqueue);
  }

  /** `locate`: the dispatch owns one more usage count of a fixed element. */
  lemma UseKeepsValid(list: seq<Key>, cache: map<Key, Element>, queue: seq<Key>, k: Key)
    requires Consistent(list, cache, queue) && k in cache && cache[k].usageCount >= 0
    ensures Consistent(list, cache[k := cache[k].(usageCount := cache[k].usageCount + 1)], queue)
  {
    var e := cache[k];
    StepKeepsValid(list, cache, queue, k, e.(usageCount := e.usageCount + 1), false);
  }

  /** The element a successful `removeFacet` leaves behind, from the one it
    * found: `fixEvictPosition`, then the removal step. */
  function RemovedFacet(e: Element): (r: Element)
    requires Live(e.status)
    ensures !Live(r.status) && r.servant == None && r.keepCount == 0
    ensures r.status == Dead <==> e.status == Created
  {
    Removed(Fixed(e), RemoveStep(e.status).value)
  }

  lemma RemoveKeepsValid(list: seq<Key>, cache: map<Key, Element>, queue: seq<Key>, k: Key, st: Step)
    requires Consistent(list, cache, queue) && k in cache
    requires cache[k].usageCount >= 0 && !Live(st.status) && KeepsChangesQueued(cache[k].status, st)
    ensures var c := cache[k := Removed(cache[k], st)];
      var l := if cache[k].keepCount > 0 then [k] + list else list;
      Consistent(l, c, queue + (if st.enqueue then [k] else []))
  {
    var e := cache[k].(status := st.status, servant := None, keepCount := 0);
    var e' := if st.enqueue then e.(usageCount := e.usageCount + 1) else e;
    if cache[k].keepCount > 0 {
      ListMoveFront(list, cache, k, e');
      assert Without(list, k) == list;
    } else {
      ListUpdate(list, cache, k, e');
    }
    QueueStep(queue, cache, k, e, st.enqueue);
    assert ElementValid(e');
  }

  /** The element `keepFacet` leaves: one more keep count, and a brand-new
    * element gets usage count 0. */
  function KeptOnce(e: Element): (r: Element)
    ensures r.status == e.status && r.servant == e.servant
    ensures r.keepCount == e.keepCount + 1 && r.usageCount == Held(e)
  {
    e.(usageCount := Held(e), keepCount := e.keepCount + 1)
  }

  /** The element `releaseFacet` leaves: one keep count less. */
  function ReleasedOnce(e: Element): (r: Element)
    requires e.keepCount > 0
    ensures r.status == e.status && r.servant == e.servant && r.usageCount == e.usageCount
    ensures r.keepCount == e.keepCount - 1
  {
    e.(keepCount := e.keepCount - 1)
  }

  /** `keepFacet`: the element leaves the list with one more keep count. */
  lemma KeepKeepsValid(list: seq<Key>, cache: map<Key, Element>, queue: seq<Key>, k: Key)
    requires Consistent(list, cache, queue) && k in cache
    requires Live(cache[k].status)
    ensures Consistent(Without(list, k), cache[k := KeptOnce(cache[k])], queue)
  {
    var e := cache[k];
    var e' := e.(usageCount := Held(e), keepCount := e.keepCount + 1);
    ListTakeOut(list, cache, k, e');
    QueueStep(queue, cache, k, e', false);
    assert ElementValid(e');
  }

  /** `releaseFacet`: one keep count less; the last one puts the element
    * back on the front of the list. */
  lemma ReleaseKeepsValid(list: seq<Key>, cache: map<Key, Element>, queue: seq<Key>, k: Key)
    requires Consistent(list, cache, queue) && k in cache
    requires cache[k].keepCount > 0
    ensures Consistent(if cache[k].keepCount == 1 then [k] + list else list, cache[k := ReleasedOnce(cache[k])], queue)
  {
    var e := cache[k];
    var e' := e.(keepCount := e.keepCount - 1);
    if e.keepCount == 1 {
      ListMoveFront(list, cache, k, e');
      assert Without(list, k) == list;
    } else {
      ListUpdate(list, cache, k, e');
    }
    QueueStep(queue, cache, k, e', false);
    assert ElementValid(e');
  }
}
