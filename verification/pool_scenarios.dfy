/** Concrete runs of the pool for one kind: overflow kept, overflow
    evicted, preallocation. */
module PoolScenarios {
  import opened Wrappers
  import opened PoolObjects
  import opened ObjectsRegister
  import opened PoolData
  import opened ObjectsPool
  import opened PoolInvariant
  import opened PoolFixes

  /** An instance held by a caller of kind 0, and one idle in the pool. */
  const Held: PoolObject := PoolObject(true, 0, true)
  const Idle: PoolObject := PoolObject(false, 0, false)

  /** The kind after `ids` were registered in it, in this order. */
  function Registered(d: PoolObjectData, ids: seq<nat>): PoolObjectData {
    d.(instancesCount := |ids|, register := if ids == [] then Unallocated else Allocated(ids))
  }

  /** The overflow-kept scenario's states: three queued requests, then one,
      two and three of them completed. */
  const Capacity2: PoolObjectData := Serialized("t", 2, false, false, 5.0, 0)
  const Asked: Pending := Pending(0, "t", true, Requested)
  const Kept0: Pool := Create(CountAbove, [Capacity2]).(pending := [Asked, Asked, Asked])
  const Kept1: Pool := Pool(CountAbove, [Registered(Capacity2, [0])], map[0 := Held], [Asked, Asked], [], [0])
  const Kept2: Pool := Pool(CountAbove, [Registered(Capacity2, [0, 1])], map[0 := Held, 1 := Held], [Asked], [], [0, 1])
  const Kept3: Pool := Pool(CountAbove, [Registered(Capacity2, [0, 1, 2])], map[0 := Held, 1 := Held, 2 := Held], [], [], [0, 1, 2])

  /** Capacity 2 without eviction, first part: three acquires on the empty
      pool all miss, and each queues its own instantiation. */
  lemma ScenarioOverflowKeptAcquire()
    ensures var s0 := Create(CountAbove, [Capacity2]);
      var a1 := InitializeObject(s0, "t", true);
      var a2 := InitializeObject(a1.pool, "t", true);
      var a3 := InitializeObject(a2.pool, "t", true);
      && a1.accepted && a2.accepted && a3.accepted
      && a3.pool == Kept0
  {
    var s0 := Create(CountAbove, [Capacity2]);
    var q := Asked;
    assert TryFindPoolObjectDataByAssetReference(s0.objectPools, "t") == Some(0);
    assert InitializeObject(s0, "t", true).pool == s0.(pending := [q]);
    assert InitializeObject(s0.(pending := [q]), "t", true).pool == s0.(pending := [q, q]);
  }

  lemma KeptFirst()
    ensures CompleteInstantiation(Kept0, 0, 0) == Success(Kept1)
  {
    var s := Kept0;
    assert RegisterObject(Capacity2, 0) == Registered(Capacity2, [0]);
    assert s.pending[..0] + s.pending[1..] == [Asked, Asked];
    assert s.objects[0 := BindHandler(GetFromPool(Instantiated, 0))] == map[0 := Held];
    assert s.objectPools[0 := Registered(Capacity2, [0])] == [Registered(Capacity2, [0])];
  }

  lemma KeptSecond()
    ensures CompleteInstantiation(Kept1, 0, 1) == Success(Kept2)
  {
    var s := Kept1;
    assert RegisterObject(Registered(Capacity2, [0]), 1) == Registered(Capacity2, [0, 1]);
    assert s.pending[..0] + s.pending[1..] == [Asked];
    assert s.objects[1 := BindHandler(GetFromPool(Instantiated, 0))] == map[0 := Held, 1 := Held];
    assert s.objectPools[0 := Registered(Capacity2, [0, 1])] == [Registered(Capacity2, [0, 1])];
  }

  lemma KeptThird()
    ensures CompleteInstantiation(Kept2, 0, 2) == Success(Kept3)
  {
    var s := Kept2;
    assert RegisterObject(Registered(Capacity2, [0, 1]), 2) == Registered(Capacity2, [0, 1, 2]);
    assert s.pending[..0] + s.pending[1..] == [];
    assert s.objects[2 := BindHandler(GetFromPool(Instantiated, 0))] == map[0 := Held, 1 := Held, 2 := Held];
    assert s.objectPools[0 := Registered(Capacity2, [0, 1, 2])] == [Registered(Capacity2, [0, 1, 2])];
  }

  /** Second part: the three instantiations complete, in queue order, with
      ids 0, 1, 2; each instance is registered active and bound, the count
      reaches 3 above the capacity of 2, and each callback receives its
      instance. */
  lemma ScenarioOverflowKeptComplete()
    ensures CompleteInstantiation(Kept0, 0, 0) == Success(Kept1)
    ensures CompleteInstantiation(Kept1, 0, 1) == Success(Kept2)
    ensures CompleteInstantiation(Kept2, 0, 2) == Success(Kept3)
  {
    KeptFirst();
    KeptSecond();
    KeptThird();
  }

  /** Release of a bound object whose kind keeps it. */
  lemma ReleaseKeeps(s: Pool, id: nat)
    requires id in s.objects && s.objects[id].handlerBound
    requires 0 <= s.objects[id].poolIndex < |s.objectPools|
    requires !Evicts(s.objectPools[s.objects[id].poolIndex], s.rule)
    ensures Release(s, id) == Success(s.(objects := s.objects[id := PoolObject(false, s.objects[id].poolIndex, false)]))
  {
    var o := s.objects[id];
    var k := o.poolIndex;
    var d := s.objectPools[k];
    var s1 := s.(objects := s.objects[id := o.(activated := false)]);
    assert Release(s, id) == HandleReturn(s1, id);
    assert s1.objects[id := UnbindHandler(s1.objects[id])] == s.objects[id := PoolObject(false, o.poolIndex, false)];
  }

  /** Release of an object that is idle and unbound: nothing happens. */
  lemma ReleaseIdle(s: Pool, id: nat)
    requires id in s.objects && !s.objects[id].activated && !s.objects[id].handlerBound
    ensures Release(s, id) == Success(s)
  {
    assert s.objects[id := s.objects[id].(activated := false)] == s.objects;
  }

  /** Third part: all three are released; with eviction off nothing is
      destroyed and the count stays 3, above the capacity. */
  lemma ScenarioOverflowKeptRelease()
    ensures var r1 := Release(Kept3, 0);
      && r1.Success? && Release(r1.value, 1).Success?
      && Release(Release(r1.value, 1).value, 2)
         == Success(Kept3.(objects := map[0 := Idle, 1 := Idle, 2 := Idle]))
  {
    var c3 := Kept3;
    ReleaseKeeps(c3, 0);
    var r1 := c3.(objects := map[0 := Idle, 1 := Held, 2 := Held]);
    assert c3.objects[0 := Idle] == r1.objects;
    ReleaseKeeps(r1, 1);
    var r2 := c3.(objects := map[0 := Idle, 1 := Idle, 2 := Held]);
    assert r1.objects[1 := Idle] == r2.objects;
    ReleaseKeeps(r2, 2);
    assert r2.objects[2 := Idle] == map[0 := Idle, 1 := Idle, 2 := Idle];
  }

  /** The end of that run: three registered instances, all idle. */
  const AllIdle: Pool := Kept3.(objects := map[0 := Idle, 1 := Idle, 2 := Idle])

  /** Fourth part: with three idle instances the next acquire still queues
      an instantiation, because the kind came from the serialised array and
      the scan, reading through the getter on a copy, sees an empty
      register. The intended acquire serves instance 0 instead. */
  lemma ScenarioAllIdleStillInstantiates()
    ensures Tracked(AllIdle) && HasIdle(AllIdle, 0)
    ensures InitializeObject(AllIdle, "t", true) == Acquire(true, AllIdle.(pending := [Asked]))
    ensures InitializeObjectIntended(AllIdle, "t", true)
      == Acquire(true, AllIdle.(objects := AllIdle.objects[0 := Held], delivered := [0, 1, 2, 0]))
  {
    var s := AllIdle;
    assert s.objectPools[0].register.Items() == [0, 1, 2];
    assert TryFindPoolObjectDataByAssetReference(s.objectPools, "t") == Some(0);
    assert !s.objects[s.objectPools[0].register.Items()[0]].activated;
  }

  /** A kind whose array element was saved with a count of 1 (capacity 1,
      eviction on, strict rule): after its first instance completes the
      count is 2 while the register holds one id, and the kind already
      evicts on return. */
  lemma ScenarioStoredCountEvictsEarly()
    ensures var s := Create(CountAbove, [Serialized("t", 1, false, true, 5.0, 1)]).(pending := [Asked]);
      && CompleteInstantiation(s, 0, 0).Success?
      && var t := CompleteInstantiation(s, 0, 0).value;
      && t.objectPools[0].instancesCount == 2
      && t.objectPools[0].register.Items() == [0]
      && Evicts(t.objectPools[0], CountAbove)
  {
    var d := Serialized("t", 1, false, true, 5.0, 1);
    assert RegisterObject(d, 0).register.Items() == [0];
  }

  /** Capacity 1 with eviction and the Core rule: after two instances
      exist, the FIRST release already finds the count (2) above the
      capacity and evicts; the second release finds the count at the
      capacity and keeps its instance. */
  lemma ScenarioOverflowEvicted()
    ensures var d := Serialized("t", 1, false, true, 5.0, 0);
      var c := Pool(CountAbove, [Registered(d, [0, 1])], map[0 := Held, 1 := Held], [], [], []);
      var r1 := Release(c, 0);
      && r1 == Success(Pool(CountAbove, [Registered(d, [1])], map[0 := Idle, 1 := Held], [], [DestroyEvent(0, 0, 5.0)], []))
      && Release(r1.value, 1) == Success(r1.value.(objects := map[0 := Idle, 1 := Idle]))
  {
    var d := Serialized("t", 1, false, true, 5.0, 0);
    var c := Pool(CountAbove, [Registered(d, [0, 1])], map[0 := Held, 1 := Held], [], [], []);
    var s1 := c.(objects := map[0 := PoolObject(false, 0, true), 1 := Held]);
    assert c.objects[0 := PoolObject(false, 0, true)] == s1.objects;
    assert Release(c, 0) == HandleReturn(s1, 0);
    assert RemoveFirst([0, 1], 0) == [1];
    assert UnregisterObject(Registered(d, [0, 1]), 0) == Success(Registered(d, [1]));
    assert s1.objects[0 := Idle] == map[0 := Idle, 1 := Held];
    var r1 := Pool(CountAbove, [Registered(d, [1])], map[0 := Idle, 1 := Held], [], [DestroyEvent(0, 0, 5.0)], []);
    assert Evicts(Registered(d, [0, 1]), CountAbove);
    assert s1.objectPools[0 := Registered(d, [1])] == [Registered(d, [1])];
    assert HandleReturn(s1, 0).Success?;
    assert HandleReturn(s1, 0).value.objects == r1.objects;
    assert HandleReturn(s1, 0).value.objectPools == r1.objectPools;
    assert HandleReturn(s1, 0).value.destroyLog == r1.destroyLog;
    assert HandleReturn(s1, 0).value.pending == r1.pending;
    assert HandleReturn(s1, 0) == Success(r1);
    ReleaseKeeps(r1, 1);
    assert r1.objects[1 := Idle] == map[0 := Idle, 1 := Idle];
  }

  /** The same run under the root variant's rule evicts both instances. */
  lemma ScenarioOverflowEvictedRootRule()
    ensures var d := Serialized("t", 1, false, true, 5.0, 0);
      var c := Pool(CountAtLeast, [Registered(d, [0, 1])], map[0 := Held, 1 := Held], [], [], []);
      var r1 := Release(c, 0);
      && r1.Success? && Release(r1.value, 1)
         == Success(Pool(CountAtLeast, [d.(register := Allocated([]))], map[0 := Idle, 1 := Idle], [],
                         [DestroyEvent(0, 0, 5.0), DestroyEvent(1, 0, 5.0)], []))
  {
    RootRuleFirstRelease();
    RootRuleSecondRelease();
  }

  lemma RootRuleFirstRelease()
    ensures var d := Serialized("t", 1, false, true, 5.0, 0);
      Release(Pool(CountAtLeast, [Registered(d, [0, 1])], map[0 := Held, 1 := Held], [], [], []), 0)
      == Success(Pool(CountAtLeast, [Registered(d, [1])], map[0 := Idle, 1 := Held], [], [DestroyEvent(0, 0, 5.0)], []))
  {
    var d := Serialized("t", 1, false, true, 5.0, 0);
    var c := Pool(CountAtLeast, [Registered(d, [0, 1])], map[0 := Held, 1 := Held], [], [], []);
    var s1 := c.(objects := map[0 := PoolObject(false, 0, true), 1 := Held]);
    assert c.objects[0 := PoolObject(false, 0, true)] == s1.objects;
    assert Release(c, 0) == HandleReturn(s1, 0);
    assert RemoveFirst([0, 1], 0) == [1];
    assert UnregisterObject(Registered(d, [0, 1]), 0) == Success(Registered(d, [1]));
    assert s1.objects[0 := Idle] == map[0 := Idle, 1 := Held];
    var r1 := Pool(CountAtLeast, [Registered(d, [1])], map[0 := Idle, 1 := Held], [], [DestroyEvent(0, 0, 5.0)], []);
    assert Evicts(Registered(d, [0, 1]), CountAtLeast);
    assert s1.objectPools[0 := Registered(d, [1])] == [Registered(d, [1])];
    assert HandleReturn(s1, 0).Success?;
    assert HandleReturn(s1, 0).value.objects == r1.objects;
    assert HandleReturn(s1, 0).value.objectPools == r1.objectPools;
    assert HandleReturn(s1, 0).value.destroyLog == r1.destroyLog;
    assert HandleReturn(s1, 0).value.pending == r1.pending;
  }

  lemma RootRuleSecondRelease()
    ensures var d := Serialized("t", 1, false, true, 5.0, 0);
      Release(Pool(CountAtLeast, [Registered(d, [1])], map[0 := Idle, 1 := Held], [], [DestroyEvent(0, 0, 5.0)], []), 1)
      == Success(Pool(CountAtLeast, [d.(register := Allocated([]))], map[0 := Idle, 1 := Idle], [],
                      [DestroyEvent(0, 0, 5.0), DestroyEvent(1, 0, 5.0)], []))
  {
    var d := Serialized("t", 1, false, true, 5.0, 0);
    var r1 := Pool(CountAtLeast, [Registered(d, [1])], map[0 := Idle, 1 := Held], [], [DestroyEvent(0, 0, 5.0)], []);
    var s2 := r1.(objects := map[0 := Idle, 1 := PoolObject(false, 0, true)]);
    assert r1.objects[1 := PoolObject(false, 0, true)] == s2.objects;
    assert Release(r1, 1) == HandleReturn(s2, 1);
    assert RemoveFirst([1], 1) == [];
    assert UnregisterObject(Registered(d, [1]), 1) == Success(d.(register := Allocated([])));
    assert s2.objects[1 := Idle] == map[0 := Idle, 1 := Idle];
    assert Evicts(Registered(d, [1]), CountAtLeast);
    assert s2.objectPools[0 := d.(register := Allocated([]))] == [d.(register := Allocated([]))];
    assert HandleReturn(s2, 1).Success?;
    assert HandleReturn(s2, 1).value.objects == map[0 := Idle, 1 := Idle];
    assert HandleReturn(s2, 1).value.objectPools == [d.(register := Allocated([]))];
    assert r1.destroyLog + [DestroyEvent(1, 0, 5.0)] == [DestroyEvent(0, 0, 5.0), DestroyEvent(1, 0, 5.0)];
  }

  /** Intended completion of a queued preallocation. */
  lemma CompletePreallocated(s: Pool, id: nat)
    requires |s.pending| > 0 && id !in s.objects && s.pending[0].origin == Preallocated
    requires 0 <= s.pending[0].poolIndex < |s.objectPools|
    ensures var k := s.pending[0].poolIndex;
      CompleteInstantiationIntended(s, 0, id) == Success(s.(
        objectPools := s.objectPools[k := RegisterObject(s.objectPools[k], id)],
        objects := s.objects[id := PoolObject(false, k, false)],
        pending := s.pending[1..]))
  {
    assert s.pending[..0] + s.pending[1..] == s.pending[1..];
  }

  /** Intended preallocation of capacity 3 queues three requests. */
  lemma ScenarioPreallocationQueues()
    ensures var d := Serialized("t", 3, true, false, 0.0, 0);
      var x := Pending(0, "t", false, Preallocated);
      InitializePoolsIntended(Create(CountAbove, [d])).pending == [x, x, x]
  {
    var d := Serialized("t", 3, true, false, 0.0, 0);
    var x := Pending(0, "t", false, Preallocated);
    assert Copies(x, 3) == [x, x, x];
    assert PreallocationRequests([d], 1) == [];
    assert PreallocationRequests([d], 0) == [x, x, x];
  }

  /** The kind of the preallocation scenario: template "t", capacity 3,
      instantiated on awake. */
  const Awake: PoolObjectData := Serialized("t", 3, true, false, 0.0, 0)
  const Queued: Pending := Pending(0, "t", false, Preallocated)

  /** The scenario's states: three queued requests, then one, two and
      three of them completed. */
  const Queued3: Pool := Create(CountAbove, [Awake]).(pending := [Queued, Queued, Queued])
  const Done1: Pool := Pool(CountAbove, [Registered(Awake, [0])], map[0 := Idle], [Queued, Queued], [], [])
  const Done2: Pool := Pool(CountAbove, [Registered(Awake, [0, 1])], map[0 := Idle, 1 := Idle], [Queued], [], [])
  const Done3: Pool := Pool(CountAbove, [Registered(Awake, [0, 1, 2])], map[0 := Idle, 1 := Idle, 2 := Idle], [], [], [])

  /** First completion: instance 0 registered idle, two requests left. */
  lemma PreallocationFirst()
    ensures CompleteInstantiationIntended(Queued3, 0, 0) == Success(Done1)
  {
    var s := Queued3;
    CompletePreallocated(s, 0);
    assert RegisterObject(Awake, 0) == Registered(Awake, [0]);
    assert s.objectPools[0 := Registered(Awake, [0])] == [Registered(Awake, [0])];
    assert s.objects[0 := Idle] == map[0 := Idle];
    assert s.pending[1..] == [Queued, Queued];
  }

  /** Second completion: instance 1 joins instance 0. */
  lemma PreallocationSecond()
    ensures CompleteInstantiationIntended(Done1, 0, 1) == Success(Done2)
  {
    var c1 := Done1;
    CompletePreallocated(c1, 1);
    assert RegisterObject(Registered(Awake, [0]), 1) == Registered(Awake, [0, 1]);
    assert c1.objectPools[0 := Registered(Awake, [0, 1])] == [Registered(Awake, [0, 1])];
    assert c1.objects[1 := Idle] == map[0 := Idle, 1 := Idle];
    assert c1.pending[1..] == [Queued];
  }

  /** Third completion: the last request becomes instance 2. */
  lemma PreallocationThird()
    ensures CompleteInstantiationIntended(Done2, 0, 2) == Success(Done3)
  {
    var c2 := Done2;
    CompletePreallocated(c2, 2);
    assert RegisterObject(Registered(Awake, [0, 1]), 2) == Registered(Awake, [0, 1, 2]);
    assert c2.objectPools[0 := Registered(Awake, [0, 1, 2])] == [Registered(Awake, [0, 1, 2])];
    assert c2.objects[2 := Idle] == map[0 := Idle, 1 := Idle, 2 := Idle];
    assert c2.pending[1..] == [];
  }

  /** The three requests complete in queue order with ids 0, 1, 2; each
      completion registers its instance idle. */
  lemma ScenarioPreallocationCompletes()
    ensures CompleteInstantiationIntended(Queued3, 0, 0) == Success(Done1)
    ensures CompleteInstantiationIntended(Done1, 0, 1) == Success(Done2)
    ensures CompleteInstantiationIntended(Done2, 0, 2) == Success(Done3)
  {
    PreallocationFirst();
    PreallocationSecond();
    PreallocationThird();
  }

  /** After the completions the kind holds three idle, unbound instances
      that no callback received; releasing one of them changes nothing and
      does not reach the pool. */
  lemma ScenarioPreallocatedIdle()
    ensures Done3.objectPools[0].register.Items() == [0, 1, 2] && Done3.delivered == []
    ensures forall id | id in Done3.objects :: !Done3.objects[id].activated && !Done3.objects[id].handlerBound
    ensures 1 in Done3.objects && Release(Done3, 1) == Success(Done3)
  {
    ReleaseIdle(Done3, 1);
  }
}
