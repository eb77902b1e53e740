/** The pool as it was evidently meant to behave, next to the code as
    written (`ObjectsPool`), with the discrepancies exhibited:

    - the acquire scan reads a copy's lazily created register, which for a
      serialised kind is always a fresh empty one;
    - the acquire fast path finds an idle instance and then drops it;
    - `InitializePools` reads row `j` where it means row `i`;
    - preallocated instances are completed as if a caller had taken them;
    - the start-up load loop loads kind 0's template once per kind. */
module PoolFixes {
  import opened Wrappers
  import opened PoolObjects
  import opened ObjectsRegister
  import opened PoolData
  import opened ObjectsPool
  import opened PoolInvariant

  // ----- acquire -----

  /** The position, in kind `k`'s register, of the instance the fast path serves. */
  function FirstIdle(s: Pool, k: nat): (j: nat)
    requires k < |s.objectPools| && Tracked(s) && HasIdle(s, k)
    ensures j < |s.objectPools[k].register.Items()|
    ensures !s.objects[s.objectPools[k].register.Items()[j]].activated
    ensures forall j' | 0 <= j' < j :: s.objects[s.objectPools[k].register.Items()[j']].activated
  {
    FirstInactive(s.objectPools[k].register.Items(), s.objects).value
  }

  /** Acquire as written never serves an idle instance: the pool accepts,
      yet the first idle instance stays inactive and unbound and no
      callback runs. If the kind's register was created the scan finds the
      instance and drops it; if not, the scan sees an empty register and a
      new instantiation is queued besides. */
  lemma FastPathLeavesObjectIdle(s: Pool, prefab: AssetGuid, hasCallback: bool)
    requires Inv(s) && Configured(s.objectPools, prefab) && HasIdleFor(s, prefab)
    ensures Tracked(s)
    ensures var k := TryFindPoolObjectDataByAssetReference(s.objectPools, prefab).value;
      var id := s.objectPools[k].register.Items()[FirstIdle(s, k)];
      var r := InitializeObject(s, prefab, hasCallback);
      && r.accepted
      && !r.pool.objects[id].activated && !r.pool.objects[id].handlerBound
      && r.pool.delivered == s.delivered
      && (s.objectPools[k].registerCreated ==> r.pool.pending == s.pending)
      && (!s.objectPools[k].registerCreated ==>
            r.pool.pending == s.pending + [Pending(k, prefab, hasCallback, Requested)])
  {
    InvTracked(s);
    var k := TryFindPoolObjectDataByAssetReference(s.objectPools, prefab).value;
    var id := s.objectPools[k].register.Items()[FirstIdle(s, k)];
    assert id in s.objectPools[k].register.Items();
    assert KindOk(s, k);
    assert ObjectOk(s, id);
  }

  /** Acquire as intended: the scan reads the kind's stored register, and
      the first idle instance it finds is taken from the pool, its release
      handler is bound and the callback gets it; a miss or an unknown
      template behaves as written. */
  function InitializeObjectIntended(s: Pool, prefab: AssetGuid, hasCallback: bool): (r: Acquire)
    requires Tracked(s)
    ensures r.accepted <==> Configured(s.objectPools, prefab)
    ensures !r.accepted ==> r.pool == s
    ensures r.pool.objectPools == s.objectPools && r.pool.destroyLog == s.destroyLog && r.pool.rule == s.rule
    ensures r.accepted ==>
      var k := TryFindPoolObjectDataByAssetReference(s.objectPools, prefab).value;
      && (HasIdle(s, k) ==>
            var id := s.objectPools[k].register.Items()[FirstIdle(s, k)];
            && r.pool.pending == s.pending
            && r.pool.objects == s.objects[id := PoolObject(true, k, true)]
            && r.pool.delivered == (if hasCallback then s.delivered + [id] else s.delivered))
      && (!HasIdle(s, k) ==> r.pool == InitializeObject(s, prefab, hasCallback).pool)
    ensures Inv(s) ==> Inv(r.pool)
  {
    match TryFindPoolObjectDataByAssetReference(s.objectPools, prefab)
    case None => Acquire(false, s)
    case Some(k) =>
      var lookup := TryGetAvailableObject(s.objectPools[k].register, s.objects);
      if lookup.found.None? then
        var r := InitializeObject(s, prefab, hasCallback);
        assert Inv(s) ==> Inv(r.pool) by {
          if Inv(s) {
            InitializeObjectPreservesInv(s, prefab, hasCallback);
          }
        }
        r
      else
        var id := s.objectPools[k].register.Items()[lookup.found.value];
        var o := BindHandler(GetFromPool(s.objects[id], k));
        var t := s.(objects := s.objects[id := o],
                    delivered := if hasCallback then s.delivered + [id] else s.delivered);
        IntendedHitKeepsInv(s, k, lookup.found.value, t.delivered, t);
        Acquire(true, t)
  }

  /** Serving the idle instance at position `j` of kind `k`, whatever the
      delivery log becomes, keeps the invariant. */
  lemma IntendedHitKeepsInv(s: Pool, k: nat, j: nat, delivered: seq<nat>, t: Pool)
    requires Tracked(s) && k < |s.objectPools| && j < |s.objectPools[k].register.Items()|
    requires var id := s.objectPools[k].register.Items()[j];
      && !s.objects[id].activated
      && t == s.(objects := s.objects[id := BindHandler(GetFromPool(s.objects[id], k))],
                 delivered := delivered)
    ensures Inv(s) ==> Inv(t)
  {
    if Inv(s) {
      var id := s.objectPools[k].register.Items()[j];
      assert id in s.objectPools[k].register.Items();
      assert KindOk(s, k);
      forall k' | 0 <= k' < |s.objectPools| ensures KindOk(t, k') {
        assert KindOk(s, k');
      }
      forall other | other in t.objects ensures ObjectOk(t, other) {
        if other != id {
          assert ObjectOk(s, other);
        }
      }
    }
  }

  /** The reuse round trip, for the intended fast path: the instance an
      acquire serves, once released without eviction, is the one the next
      acquire of that kind serves again, with no instantiation started. */
  lemma AcquireReleaseAcquireReuses(s: Pool, prefab: AssetGuid, cb1: bool, cb2: bool)
    requires Inv(s) && Configured(s.objectPools, prefab) && HasIdleFor(s, prefab)
    requires !Evicts(s.objectPools[TryFindPoolObjectDataByAssetReference(s.objectPools, prefab).value], s.rule)
    ensures Tracked(s)
    ensures var k := TryFindPoolObjectDataByAssetReference(s.objectPools, prefab).value;
      var id := s.objectPools[k].register.Items()[FirstIdle(s, k)];
      var s1 := InitializeObjectIntended(s, prefab, cb1).pool;
      && id in s1.objects && Release(s1, id).Success?
      && var s2 := Release(s1, id).value;
      && Tracked(s2) && HasIdle(s2, k)
      && s2.objectPools[k].register.Items()[FirstIdle(s2, k)] == id
      && InitializeObjectIntended(s2, prefab, cb2).pool.pending == s.pending
      && InitializeObjectIntended(s2, prefab, cb2).pool.objects[id].activated
  {
    InvTracked(s);
    var k := TryFindPoolObjectDataByAssetReference(s.objectPools, prefab).value;
    var j := FirstIdle(s, k);
    var items := s.objectPools[k].register.Items();
    var id := items[j];
    var s1 := InitializeObjectIntended(s, prefab, cb1).pool;
    assert Inv(s1);
    assert s1.objects[id].handlerBound && s1.objects[id].poolIndex == k;
    ReleaseEvictsIff(s1, id);
    ReleasePreservesInv(s1, id);
    var s2 := Release(s1, id).value;
    InvTracked(s2);
    assert s2.objectPools == s.objectPools;
    assert !s2.objects[id].activated;
    forall j' | 0 <= j' < j ensures s2.objects[items[j']].activated {
      assert items[j'] != id by {
        assert KindOk(s, k);
      }
    }
    assert HasIdle(s2, k) by {
      assert !s2.objects[items[j]].activated;
    }
    var j2 := FirstIdle(s2, k);
    assert j2 == j;
  }

  // ----- completion -----

  /** Completion as intended: a caller's request is completed as written;
      a preallocated instance is registered but left idle and unbound. */
  function CompleteInstantiationIntended(s: Pool, p: nat, id: nat): (r: Result<Pool>)
    requires p < |s.pending| && id !in s.objects
    ensures r.Failure? <==> !(0 <= s.pending[p].poolIndex < |s.objectPools|)
    ensures s.pending[p].origin == Requested ==> r == CompleteInstantiation(s, p, id)
    ensures s.pending[p].origin == Preallocated && r.Success? ==>
      var k := s.pending[p].poolIndex;
      && 0 <= k < |s.objectPools| && |r.value.objectPools| == |s.objectPools|
      && r.value.objects == s.objects[id := PoolObject(false, k, false)]
      && r.value.objectPools[k].register.Items() == s.objectPools[k].register.Items() + [id]
      && r.value.objectPools[k].instancesCount == s.objectPools[k].instancesCount + 1
      && r.value.delivered == s.delivered
    ensures Inv(s) ==> r.Success? && Inv(r.value)
  {
    var q := s.pending[p];
    if q.origin == Requested then
      if Inv(s) then CompletePreservesInv(s, p, id); CompleteInstantiation(s, p, id)
      else CompleteInstantiation(s, p, id)
    else
      match CompleteInstantiation(s, p, id)
      case Failure(f) => Failure(f)
      case Success(t) =>
        var t' := t.(objects := s.objects[id := PoolObject(false, q.poolIndex, false)], delivered := s.delivered);
        PreallocatedKeepsInv(s, p, id, t, t');
        Success(t')
  }

  lemma PreallocatedKeepsInv(s: Pool, p: nat, id: nat, t: Pool, t': Pool)
    requires p < |s.pending| && id !in s.objects
    requires CompleteInstantiation(s, p, id) == Success(t)
    requires t' == t.(objects := s.objects[id := PoolObject(false, s.pending[p].poolIndex, false)], delivered := s.delivered)
    ensures Inv(s) ==> Inv(t')
  {
    if Inv(s) {
      CompletePreservesInv(s, p, id);
      var k := s.pending[p].poolIndex;
      forall k' | 0 <= k' < |t'.objectPools| ensures KindOk(t', k') {
        assert KindOk(t, k');
      }
      forall other | other in t'.objects ensures ObjectOk(t', other) {
        if other != id {
          assert ObjectOk(t, other);
        }
      }
      assert PendingOk(t);
    }
  }

  /** As written, a completed preallocation is active and bound, as if a
      caller held it, so the next acquire cannot reuse it. */
  lemma PreallocatedCompletionIsActive(s: Pool, p: nat, id: nat)
    requires p < |s.pending| && id !in s.objects
    requires s.pending[p].origin == Preallocated && CompleteInstantiation(s, p, id).Success?
    ensures CompleteInstantiation(s, p, id).value.objects[id].activated
    ensures CompleteInstantiation(s, p, id).value.objects[id].handlerBound
    ensures CompleteInstantiationIntended(s, p, id).value.objects[id] == PoolObject(false, s.pending[p].poolIndex, false)
  {
  }

  // ----- preallocation -----

  /** `n` copies of `x`. */
  function Copies(x: Pending, n: nat): (qs: seq<Pending>)
    ensures |qs| == n && forall q | q in qs :: q == x
  {
    if n == 0 then [] else [x] + Copies(x, n - 1)
  }

  /** How many requests in `qs` are for kind `k`. */
  function CountFor(qs: seq<Pending>, k: int): nat {
    if qs == [] then 0 else (if qs[0].poolIndex == k then 1 else 0) + CountFor(qs[1..], k)
  }

  lemma {:induction false} CountForAppend(a: seq<Pending>, b: seq<Pending>, k: int)
    ensures CountFor(a + b, k) == CountFor(a, k) + CountFor(b, k)
  {
    if a != [] {
      assert (a + b)[0] == a[0];
      assert (a + b)[1..] == a[1..] + b;
      CountForAppend(a[1..], b, k);
    } else {
      assert a + b == b;
    }
  }

  lemma {:induction false} CountForCopies(x: Pending, n: nat, k: int)
    ensures CountFor(Copies(x, n), k) == if x.poolIndex == k then n else 0
  {
    if n > 0 {
      assert Copies(x, n)[1..] == Copies(x, n - 1);
      CountForCopies(x, n - 1, k);
    }
  }

  /** The number of instances preallocated for a kind: its capacity when it
      instantiates on awake, none otherwise. */
  function Quota(d: PoolObjectData): nat {
    if d.instantiateObjectOnAwake && d.maxInstancesAmount > 0 then d.maxInstancesAmount else 0
  }

  function PreallocationRequests(pools: seq<PoolObjectData>, i: nat): (qs: seq<Pending>)
    requires i <= |pools|
    ensures forall q | q in qs ::
      && i <= q.poolIndex < |pools|
      && pools[q.poolIndex].instantiateObjectOnAwake
      && q == Pending(q.poolIndex, pools[q.poolIndex].prefab, false, Preallocated)
    decreases |pools| - i
  {
    if i == |pools| then []
    else Copies(Pending(i, pools[i].prefab, false, Preallocated), Quota(pools[i])) + PreallocationRequests(pools, i + 1)
  }

  lemma {:induction false} PreallocationRequestsCount(pools: seq<PoolObjectData>, i: nat, k: int)
    requires i <= |pools|
    ensures CountFor(PreallocationRequests(pools, i), k) == if i <= k < |pools| then Quota(pools[k]) else 0
    decreases |pools| - i
  {
    if i < |pools| {
      var x := Pending(i, pools[i].prefab, false, Preallocated);
      CountForAppend(Copies(x, Quota(pools[i])), PreallocationRequests(pools, i + 1), k);
      CountForCopies(x, Quota(pools[i]), k);
      PreallocationRequestsCount(pools, i + 1, k);
    }
  }

  /** `InitializePools` as intended: for every kind that instantiates on
      awake, as many requests for its own template as its capacity. */
  function InitializePoolsIntended(s: Pool): (r: Pool)
    ensures r.objectPools == s.objectPools && r.objects == s.objects && r.rule == s.rule
    ensures r.destroyLog == s.destroyLog && r.delivered == s.delivered
    ensures |s.pending| <= |r.pending| && r.pending[..|s.pending|] == s.pending
    ensures forall k | 0 <= k < |s.objectPools| ::
      CountFor(r.pending[|s.pending|..], k) == Quota(s.objectPools[k])
    ensures forall q | q in r.pending[|s.pending|..] ::
      && 0 <= q.poolIndex < |s.objectPools|
      && q == Pending(q.poolIndex, s.objectPools[q.poolIndex].prefab, false, Preallocated)
  {
    var added := PreallocationRequests(s.objectPools, 0);
    var r := s.(pending := s.pending + added);
    assert r.pending[|s.pending|..] == added;
    assert forall k | 0 <= k < |s.objectPools| :: CountFor(added, k) == Quota(s.objectPools[k]) by {
      forall k | 0 <= k < |s.objectPools| ensures CountFor(added, k) == Quota(s.objectPools[k]) {
        PreallocationRequestsCount(s.objectPools, 0, k);
      }
    }
    r
  }

  /** What the intended preallocation queues: per kind exactly its quota,
      each for the kind's own template, none with a callback. */
  lemma InitializePoolsIntendedQueues(s: Pool, k: int)
    ensures var added := InitializePoolsIntended(s).pending[|s.pending|..];
      && CountFor(added, k) == (if 0 <= k < |s.objectPools| then Quota(s.objectPools[k]) else 0)
      && forall q | q in added :: 0 <= q.poolIndex < |s.objectPools|
           && q.prefab == s.objectPools[q.poolIndex].prefab && !q.hasCallback
    ensures Inv(s) ==> Inv(InitializePoolsIntended(s))
  {
    var t := InitializePoolsIntended(s);
    assert t.pending[|s.pending|..] == PreallocationRequests(s.objectPools, 0);
    PreallocationRequestsCount(s.objectPools, 0, k);
    if Inv(s) {
      forall k' | 0 <= k' < |s.objectPools| ensures KindOk(t, k') {
        assert KindOk(s, k');
      }
      forall id | id in s.objects ensures ObjectOk(t, id) {
        assert ObjectOk(s, id);
      }
      forall n | 0 <= n < |t.pending| ensures 0 <= t.pending[n].poolIndex < |t.objectPools| {
        if n >= |s.pending| {
          assert t.pending[n] in PreallocationRequests(s.objectPools, 0);
        }
      }
    }
  }

  /** As written, the preallocation of kind 1 is driven by kind 0's row:
      kind 1 (capacity 1) gets one instance of kind 0's template, while
      intended it gets one of its own. */
  lemma InitializePoolsReadsWrongRow()
    ensures var s := Create(CountAbove, [Serialized("a", 3, false, false, 0.0, 0), Serialized("b", 1, true, false, 0.0, 0)]);
      && InitializePools(s) == Success(s.(pending := [Pending(1, "a", false, Preallocated)]))
      && InitializePoolsIntended(s).pending == [Pending(1, "b", false, Preallocated)]
  {
    var pools := [Serialized("a", 3, false, false, 0.0, 0), Serialized("b", 1, true, false, 0.0, 0)];
    assert PreallocateRow(pools, 1, 1) == Success([]);
    var x := Pending(1, "a", false, Preallocated);
    assert pools[0].prefab == "a" && 0 < pools[0].maxInstancesAmount;
    assert [x] + [] == [x];
    assert PreallocateRow(pools, 1, 0) == Success([x]);
    assert Copies(Pending(1, "b", false, Preallocated), 1) == [Pending(1, "b", false, Preallocated)];
  }

  /** As written, a single kind preallocating one or more instances makes
      the loop test read past the end of the array. */
  lemma InitializePoolsOverruns(capacity: int)
    requires capacity >= 1
    ensures InitializePools(Create(CountAbove, [Serialized("a", capacity, true, false, 0.0, 0)])) == Failure(IndexOutOfRange)
  {
    var pools := [Serialized("a", capacity, true, false, 0.0, 0)];
    assert PreallocateRow(pools, 0, 1) == Failure(IndexOutOfRange);
  }

  // ----- start-up loads -----

  /** The start-up loads as intended: each kind's own template. */
  function StartLoadsIntended(pools: seq<PoolObjectData>): (loads: seq<AssetGuid>)
    ensures |loads| == |pools|
    ensures forall n | 0 <= n < |pools| :: loads[n] == pools[n].prefab
  {
    seq(|pools|, n requires 0 <= n < |pools| => pools[n].prefab)
  }

  /** As written, a kind's start-up load is the intended one exactly when
      its template is kind 0's. */
  lemma StartLoadsAgreeIff(pools: seq<PoolObjectData>)
    ensures forall n | 0 <= n < |pools| ::
      StartLoads(pools)[n] == StartLoadsIntended(pools)[n] <==> pools[n].prefab == pools[0].prefab
  {
  }

  /** As written, a second kind's template is never loaded. */
  lemma StartLoadsMissesOtherKinds()
    ensures var pools := [Serialized("a", 1, false, false, 0.0, 0), Serialized("b", 1, false, false, 0.0, 0)];
      && "b" !in StartLoads(pools)
      && "b" in StartLoadsIntended(pools)
  {
    var pools := [Serialized("a", 1, false, false, 0.0, 0), Serialized("b", 1, false, false, 0.0, 0)];
    assert StartLoads(pools)[0] == "a" && StartLoads(pools)[1] == "a";
    assert StartLoadsIntended(pools)[1] == "b";
  }
}
