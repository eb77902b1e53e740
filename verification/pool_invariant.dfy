/** The pool's invariant (`ObjectsPool.Inv`) holds of a freshly configured
    pool and is kept by every transition; consequences of it for release. */
module PoolInvariant {
  import opened Wrappers
  import opened PoolObjects
  import opened ObjectsRegister
  import opened PoolData
  import opened ObjectsPool

  lemma CreateEstablishesInv(rule: SpaceRule, objectPools: seq<PoolObjectData>)
    requires forall k | 0 <= k < |objectPools| ::
      objectPools[k].instancesCount == 0 && objectPools[k].register.Items() == []
    ensures Inv(Create(rule, objectPools))
  {
    var s := Create(rule, objectPools);
    forall k | 0 <= k < |objectPools| ensures KindOk(s, k) {
      assert objectPools[k].register.Items() == [];
    }
  }

  lemma InvTracked(s: Pool)
    requires Inv(s)
    ensures Tracked(s)
  {
    forall k | 0 <= k < |s.objectPools|
      ensures AllKnown(s.objectPools[k].register.Items(), s.objects)
    {
      assert KindOk(s, k);
      var items := s.objectPools[k].register.Items();
      forall i | 0 <= i < |items| ensures items[i] in s.objects {
        assert items[i] in items;
      }
    }
  }

  lemma InitializeObjectPreservesInv(s: Pool, prefab: AssetGuid, hasCallback: bool)
    requires Inv(s)
    ensures Tracked(s) && Inv(InitializeObject(s, prefab, hasCallback).pool)
  {
    InvTracked(s);
    var r := InitializeObject(s, prefab, hasCallback);
    if r.pool != s {
      var k := TryFindPoolObjectDataByAssetReference(s.objectPools, prefab).value;
      assert r.pool.pending == s.pending + [Pending(k, prefab, hasCallback, Requested)];
      forall k' | 0 <= k' < |s.objectPools| ensures KindOk(r.pool, k') {
        assert KindOk(s, k');
      }
      forall id | id in s.objects ensures ObjectOk(r.pool, id) {
        assert ObjectOk(s, id);
      }
    }
  }

  /** Completing any pending instantiation with a new id succeeds and keeps
      the invariant. */
  lemma CompletePreservesInv(s: Pool, p: nat, id: nat)
    requires Inv(s) && p < |s.pending| && id !in s.objects
    ensures CompleteInstantiation(s, p, id).Success?
    ensures Inv(CompleteInstantiation(s, p, id).value)
  {
    var k := s.pending[p].poolIndex;
    assert 0 <= k < |s.objectPools|;
    var t := CompleteInstantiation(s, p, id).value;
    forall k' | 0 <= k' < |s.objectPools| ensures KindOk(t, k') {
      assert KindOk(s, k');
      if k' == k {
        var items := s.objectPools[k].register.Items();
        assert id !in items;
        var items' := items + [id];
        assert t.objectPools[k].register.Items() == items';
        forall a, b | 0 <= a < b < |items'| ensures items'[a] != items'[b] {
          if b == |items| {
            assert items'[a] == items[a];
            assert items[a] in items;
          }
        }
      }
    }
    forall other | other in t.objects ensures ObjectOk(t, other) {
      if other != id {
        assert ObjectOk(s, other);
        var o := s.objects[other];
        if o.handlerBound && o.poolIndex == k {
          assert other in s.objectPools[k].register.Items() + [id];
        }
      } else {
        assert t.objectPools[k].register.Items()[|s.objectPools[k].register.Items()|] == id;
      }
    }
    forall i | 0 <= i < |t.pending| ensures 0 <= t.pending[i].poolIndex < |t.objectPools| {
      if i < p {
        assert t.pending[i] == s.pending[i];
      } else {
        assert t.pending[i] == s.pending[i + 1];
      }
    }
  }

  /** The pool's handler, run on a bound object under the invariant,
      succeeds, keeps the invariant, and an eviction takes the id out of
      its register entirely. */
  lemma HandleReturnPreservesInv(s: Pool, id: nat)
    requires Inv(s) && id in s.objects && s.objects[id].handlerBound
    ensures HandleReturn(s.(objects := s.objects[id := s.objects[id].(activated := false)]), id).Success?
    ensures var t := HandleReturn(s.(objects := s.objects[id := s.objects[id].(activated := false)]), id).value;
      && Inv(t)
      && (Evicts(s.objectPools[s.objects[id].poolIndex], s.rule) ==> id !in t.objectPools[s.objects[id].poolIndex].register.Items())
  {
    var o := s.objects[id];
    var k := o.poolIndex;
    assert ObjectOk(s, id);
    assert KindOk(s, k);
    var s1 := s.(objects := s.objects[id := o.(activated := false)]);
    var items := s.objectPools[k].register.Items();
    assert id in items;
    assert s.objectPools[k].register.Allocated?;
    var r := HandleReturn(s1, id);
    assert r.Success?;
    var t := r.value;
    assert t.objects == s.objects[id := o.(activated := false, handlerBound := false)];
    if Evicts(s.objectPools[k], s.rule) {
      RemoveFirstOfMember(items, id);
    }
    forall k' | 0 <= k' < |s.objectPools| ensures KindOk(t, k') {
      assert KindOk(s, k');
    }
    forall other | other in t.objects ensures ObjectOk(t, other) {
      if other != id {
        assert ObjectOk(s, other);
      }
    }
  }

  /** Release of any object under the invariant succeeds and keeps it. */
  lemma ReleasePreservesInv(s: Pool, id: nat)
    requires Inv(s) && id in s.objects
    ensures Release(s, id).Success? && Inv(Release(s, id).value)
  {
    assert ObjectOk(s, id);
    if s.objects[id].handlerBound {
      HandleReturnPreservesInv(s, id);
    } else {
      var t := Release(s, id).value;
      assert t == s;
    }
  }

  /** Release under the invariant: the object ends inactive and unbound; an
      object that was bound is evicted exactly when its kind is over
      capacity with eviction on, and then it is no longer registered, its
      kind's count drops by one and one destroy event is logged. In every
      other case registers, counts and the log stay as they were. */
  lemma ReleaseEvictsIff(s: Pool, id: nat)
    requires Inv(s) && id in s.objects
    ensures Release(s, id).Success?
    ensures var t := Release(s, id).value;
      var k := s.objects[id].poolIndex;
      var evicted := s.objects[id].handlerBound && Evicts(s.objectPools[k], s.rule);
      && !t.objects[id].activated && !t.objects[id].handlerBound
      && t.pending == s.pending && t.delivered == s.delivered && t.rule == s.rule
      && (evicted ==>
            && id !in t.objectPools[k].register.Items()
            && t.objectPools[k].instancesCount == s.objectPools[k].instancesCount - 1
            && SameConfig(s.objectPools[k], t.objectPools[k])
            && t.objectPools[k].registerCreated == s.objectPools[k].registerCreated
            && t.destroyLog == s.destroyLog + [DestroyEvent(id, k, s.objectPools[k].overflowInstancesLifeTime)]
            && forall j | 0 <= j < |s.objectPools| && j != k :: t.objectPools[j] == s.objectPools[j])
      && (!evicted ==> t.objectPools == s.objectPools && t.destroyLog == s.destroyLog)
  {
    ReleasePreservesInv(s, id);
    assert ObjectOk(s, id);
    if s.objects[id].handlerBound {
      HandleReturnPreservesInv(s, id);
    }
  }

  /** A second release of the same object never reaches the pool: the state
      after it is the state after the first (no second decrement, no second
      destroy event). */
  lemma ReleaseTwice(s: Pool, id: nat)
    requires id in s.objects && Release(s, id).Success?
    ensures id in Release(s, id).value.objects
    ensures Release(Release(s, id).value, id) == Release(s, id)
  {
    var t := Release(s, id).value;
    assert t.objects[id := t.objects[id].(activated := false)] == t.objects;
  }

  /** Start-up preallocation, when it does not throw, keeps the invariant. */
  lemma InitializePoolsPreservesInv(s: Pool)
    requires Inv(s) && InitializePools(s).Success?
    ensures Inv(InitializePools(s).value)
  {
    var t := InitializePools(s).value;
    forall k | 0 <= k < |s.objectPools| ensures KindOk(t, k) {
      assert KindOk(s, k);
    }
    forall id | id in s.objects ensures ObjectOk(t, id) {
      assert ObjectOk(s, id);
    }
    forall n | 0 <= n < |t.pending| ensures 0 <= t.pending[n].poolIndex < |t.objectPools| {
      if n < |s.pending| {
        assert t.pending[n] == t.pending[..|s.pending|][n];
      }
    }
  }

  /** Misses are not coalesced: two acquires whose scan finds nothing
      start two instantiations. */
  lemma MissesAreNotCoalesced(s: Pool, prefab: AssetGuid, cb1: bool, cb2: bool)
    requires Inv(s) && Configured(s.objectPools, prefab)
    requires !ScanFindsFor(s, prefab)
    ensures Tracked(s)
    ensures var s1 := InitializeObject(s, prefab, cb1).pool;
      var k := TryFindPoolObjectDataByAssetReference(s.objectPools, prefab).value;
      && Tracked(s1)
      && InitializeObject(s1, prefab, cb2).pool.pending
         == s.pending + [Pending(k, prefab, cb1, Requested), Pending(k, prefab, cb2, Requested)]
  {
    InvTracked(s);
    var k := TryFindPoolObjectDataByAssetReference(s.objectPools, prefab).value;
    var s1 := InitializeObject(s, prefab, cb1).pool;
    assert s1.objectPools == s.objectPools && s1.objects == s.objects;
    assert !ScanFinds(s1, k);
  }

  /** The kind configured for `prefab` has an idle instance. */
  predicate HasIdleFor(s: Pool, prefab: AssetGuid)
    requires Inv(s) && Configured(s.objectPools, prefab)
  {
    InvTracked(s);
    HasIdle(s, TryFindPoolObjectDataByAssetReference(s.objectPools, prefab).value)
  }

  /** The acquire scan for `prefab` finds an idle instance. */
  predicate ScanFindsFor(s: Pool, prefab: AssetGuid)
    requires Inv(s) && Configured(s.objectPools, prefab)
  {
    InvTracked(s);
    ScanFinds(s, TryFindPoolObjectDataByAssetReference(s.objectPools, prefab).value)
  }
}
