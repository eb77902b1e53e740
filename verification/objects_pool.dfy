/** The pool orchestrator (Core/ObjectsPool.cs), as the code is written.

    The pool is an immutable record; every public entry point and every
    asynchronous completion is a transition from one record to the next.
    `InstantiateAsync` is split into two steps: starting it appends a
    `Pending` request, and the loader finishing it is `CompleteInstantiation`,
    which may pick any pending request and is handed the new object's id. */
module ObjectsPool {
  import opened Wrappers
  import opened PoolObjects
  import opened ObjectsRegister
  import opened PoolData

  /** Who started an instantiation: a caller's request or the start-up
      preallocation. The code as written treats both alike. */
  datatype Origin = Requested | Preallocated

  /** A started, not yet completed instantiation: the kind the object will
      be registered in, the template actually instantiated, and whether a
      caller's callback waits for it. */
  datatype Pending = Pending(poolIndex: int, prefab: AssetGuid, hasCallback: bool, origin: Origin)

  /** The hand-off to the delayed destroyer: which object, of which kind,
      after which lifetime. */
  datatype DestroyEvent = DestroyEvent(id: nat, poolIndex: nat, lifetime: real)

  /** `objects` maps each instantiated id to its component; `delivered`
      lists, in order, the objects passed to callers' callbacks. */
  datatype Pool = Pool(
    rule: SpaceRule,
    objectPools: seq<PoolObjectData>,
    objects: map<nat, PoolObject>,
    pending: seq<Pending>,
    destroyLog: seq<DestroyEvent>,
    delivered: seq<nat>)

  /** A pool as configured, before anything was instantiated. */
  function Create(rule: SpaceRule, objectPools: seq<PoolObjectData>): (s: Pool)
    ensures s.objectPools == objectPools && s.objects == map[] && s.pending == []
    ensures s.destroyLog == [] && s.delivered == []
  {
    Pool(rule, objectPools, map[], [], [], [])
  }

  // ----- the pool's invariant -----

  /** Kind `k`: the count matches the register, the register has no
      duplicates, and every registered id is an object of kind `k`. */
  predicate KindOk(s: Pool, k: int)
    requires 0 <= k < |s.objectPools|
  {
    var items := s.objectPools[k].register.Items();
    && Consistent(s.objectPools[k])
    && NoDuplicates(items)
    && forall id | id in items :: id in s.objects && s.objects[id].poolIndex == k
  }

  /** An object is active exactly while the release handler is bound, and a
      bound object is registered in the kind it names. */
  predicate ObjectOk(s: Pool, id: nat)
    requires id in s.objects
  {
    var o := s.objects[id];
    && o.activated == o.handlerBound
    && (o.handlerBound ==> 0 <= o.poolIndex < |s.objectPools| && id in s.objectPools[o.poolIndex].register.Items())
  }

  predicate PendingOk(s: Pool) {
    forall i | 0 <= i < |s.pending| :: 0 <= s.pending[i].poolIndex < |s.objectPools|
  }

  predicate Inv(s: Pool) {
    && (forall k | 0 <= k < |s.objectPools| :: KindOk(s, k))
    && (forall id | id in s.objects :: ObjectOk(s, id))
    && PendingOk(s)
  }

  /** Every registered id names an existing object (what the scan needs). */
  predicate Tracked(s: Pool) {
    forall k | 0 <= k < |s.objectPools| :: AllKnown(s.objectPools[k].register.Items(), s.objects)
  }

  /** Kind `k` has an instance that is not active. */
  predicate HasIdle(s: Pool, k: nat)
    requires k < |s.objectPools| && Tracked(s)
  {
    var items := s.objectPools[k].register.Items();
    exists j | 0 <= j < |items| :: !s.objects[items[j]].activated
  }

  /** The acquire scan of kind `k` finds an idle instance. The scan reads
      the register through the lazy getter on a copy of the kind's data, so
      a kind whose register was never created hands it a fresh empty one. */
  predicate ScanFinds(s: Pool, k: nat)
    requires k < |s.objectPools| && Tracked(s)
  {
    s.objectPools[k].registerCreated && HasIdle(s, k)
  }

  /** Some configured kind has this template. */
  predicate Configured(pools: seq<PoolObjectData>, prefab: AssetGuid) {
    exists k | 0 <= k < |pools| :: pools[k].prefab == prefab
  }

  // ----- lookup -----

  function FindPoolFrom(pools: seq<PoolObjectData>, prefab: AssetGuid, from: nat): (r: Option<nat>)
    requires from <= |pools|
    ensures r.Some? ==> from <= r.value < |pools| && pools[r.value].prefab == prefab
    ensures r.Some? ==> forall j | from <= j < r.value :: pools[j].prefab != prefab
    ensures r.None? <==> forall j | from <= j < |pools| :: pools[j].prefab != prefab
    decreases |pools| - from
  {
    if from == |pools| then None
    else if pools[from].prefab == prefab then Some(from)
    else FindPoolFrom(pools, prefab, from + 1)
  }

  /** Exact-match lookup of a template: the first kind configured with it. */
  function TryFindPoolObjectDataByAssetReference(pools: seq<PoolObjectData>, prefab: AssetGuid): (r: Option<nat>)
    ensures r.Some? ==> r.value < |pools| && pools[r.value].prefab == prefab
    ensures r.Some? ==> forall j | 0 <= j < r.value :: pools[j].prefab != prefab
    ensures r.None? <==> !Configured(pools, prefab)
  {
    FindPoolFrom(pools, prefab, 0)
  }

  // ----- acquire -----

  datatype Acquire = Acquire(accepted: bool, pool: Pool)

  /** `TryGetObject(prefab)` (no callback) and `TryGetObject(prefab, callback)`.
      An unknown template is refused. When the scan finds an idle instance
      the pool accepts and changes nothing: the instance is neither
      activated nor bound nor passed to the callback. Otherwise one
      instantiation is started for the kind, however many are already
      pending. The scan works on a copy of the kind's data: the getter's
      register creation and the scan's lazy allocation are both lost, and
      a kind whose register was never created is always seen empty. */
  function InitializeObject(s: Pool, prefab: AssetGuid, hasCallback: bool): (r: Acquire)
    requires Tracked(s)
    ensures r.accepted <==> Configured(s.objectPools, prefab)
    ensures !r.accepted ==> r.pool == s
    ensures r.pool.objectPools == s.objectPools && r.pool.objects == s.objects
    ensures r.pool.destroyLog == s.destroyLog && r.pool.delivered == s.delivered && r.pool.rule == s.rule
    ensures r.accepted ==>
      var k := TryFindPoolObjectDataByAssetReference(s.objectPools, prefab).value;
      && (ScanFinds(s, k) ==> r.pool == s)
      && (!ScanFinds(s, k) ==> r.pool.pending == s.pending + [Pending(k, prefab, hasCallback, Requested)])
  {
    match TryFindPoolObjectDataByAssetReference(s.objectPools, prefab)
    case None => Acquire(false, s)
    case Some(k) =>
      var copy := s.objectPools[k];
      var lookup := TryGetAvailableObject(GetRegister(copy).register, s.objects);
      if lookup.found.Some? then Acquire(true, s)
      else Acquire(true, s.(pending := s.pending + [Pending(k, prefab, hasCallback, Requested)]))
  }

  // ----- completion of an instantiation -----

  /** `InitializeNewPoolObject` for pending request `p`, the loader having
      produced object `id`: register it in its kind, take it from the pool
      for that kind, bind the release handler, then call the callback. */
  function CompleteInstantiation(s: Pool, p: nat, id: nat): (r: Result<Pool>)
    requires p < |s.pending| && id !in s.objects
    ensures r.Failure? <==> !(0 <= s.pending[p].poolIndex < |s.objectPools|)
    ensures r.Success? ==>
      var k := s.pending[p].poolIndex;
      && r.value.pending == s.pending[..p] + s.pending[p + 1..]
      && |r.value.objectPools| == |s.objectPools|
      && r.value.objectPools[k].instancesCount == s.objectPools[k].instancesCount + 1
      && r.value.objectPools[k].register.Items() == s.objectPools[k].register.Items() + [id]
      && SameConfig(s.objectPools[k], r.value.objectPools[k])
      && r.value.objectPools[k].registerCreated == s.objectPools[k].registerCreated
      && (forall j | 0 <= j < |s.objectPools| && j != k :: r.value.objectPools[j] == s.objectPools[j])
      && r.value.objects == s.objects[id := PoolObject(true, k, true)]
      && r.value.delivered == (if s.pending[p].hasCallback then s.delivered + [id] else s.delivered)
      && r.value.destroyLog == s.destroyLog && r.value.rule == s.rule
  {
    var q := s.pending[p];
    var k := q.poolIndex;
    if !(0 <= k < |s.objectPools|) then Failure(IndexOutOfRange)
    else
      var o := BindHandler(GetFromPool(Instantiated, k));
      Success(s.(
        objectPools := s.objectPools[k := RegisterObject(s.objectPools[k], id)],
        objects := s.objects[id := o],
        pending := s.pending[..p] + s.pending[p + 1..],
        delivered := if q.hasCallback then s.delivered + [id] else s.delivered))
  }

  // ----- release -----

  /** The kind is over its capacity and evicts its overflow. */
  predicate Evicts(d: PoolObjectData, rule: SpaceRule) {
    !CheckSpace(d, rule) && d.destroyOverflowInstances
  }

  /** The pool's handler (`ObjectsPool.ReturnToPool`), run with the object
      already inactive: unbind first, then evict if the kind is over its
      capacity and evicts its overflow. It throws on an invalid kind index,
      and when it must evict from a register that was never allocated. */
  function HandleReturn(s: Pool, id: nat): (r: Result<Pool>)
    requires id in s.objects
    ensures r.Failure? && r.fault == IndexOutOfRange <==> !(0 <= s.objects[id].poolIndex < |s.objectPools|)
    ensures r.Failure? && r.fault == NullReference <==>
      var k := s.objects[id].poolIndex;
      0 <= k < |s.objectPools| && Evicts(s.objectPools[k], s.rule) && s.objectPools[k].register.Unallocated?
    ensures r.Success? ==> r.value.objects == s.objects[id := UnbindHandler(s.objects[id])]
    ensures r.Success? ==> r.value.pending == s.pending && r.value.delivered == s.delivered && r.value.rule == s.rule
    ensures r.Success? ==>
      var k := s.objects[id].poolIndex;
      && 0 <= k < |s.objectPools| && |r.value.objectPools| == |s.objectPools|
      && (forall j | 0 <= j < |s.objectPools| && j != k :: r.value.objectPools[j] == s.objectPools[j])
      && (Evicts(s.objectPools[k], s.rule) ==>
            && r.value.objectPools[k].instancesCount == s.objectPools[k].instancesCount - 1
            && r.value.objectPools[k].register.Items() == RemoveFirst(s.objectPools[k].register.Items(), id)
            && SameConfig(s.objectPools[k], r.value.objectPools[k])
            && r.value.objectPools[k].registerCreated == s.objectPools[k].registerCreated
            && r.value.destroyLog == s.destroyLog + [DestroyEvent(id, k, s.objectPools[k].overflowInstancesLifeTime)])
      && (!Evicts(s.objectPools[k], s.rule) ==>
            r.value.objectPools == s.objectPools && r.value.destroyLog == s.destroyLog)
  {
    var s1 := s.(objects := s.objects[id := UnbindHandler(s.objects[id])]);
    var k := s.objects[id].poolIndex;
    if !(0 <= k < |s.objectPools|) then Failure(IndexOutOfRange)
    else if !Evicts(s.objectPools[k], s.rule) then Success(s1)
    else
      var d := s.objectPools[k];
      match UnregisterObject(d, id)
      case Failure(f) => Failure(f)
      case Success(d') =>
        Success(s1.(objectPools := s.objectPools[k := d'],
                    destroyLog := s.destroyLog + [DestroyEvent(id, k, d.overflowInstancesLifeTime)]))
  }

  /** `PoolObject.ReturnToPool` on object `id`: it becomes inactive, and
      the pool hears about it only while its handler is bound. */
  function Release(s: Pool, id: nat): (r: Result<Pool>)
    requires id in s.objects
    ensures !s.objects[id].handlerBound ==>
      r == Success(s.(objects := s.objects[id := s.objects[id].(activated := false)]))
    ensures r.Success? ==>
      && id in r.value.objects
      && !r.value.objects[id].activated && !r.value.objects[id].handlerBound
      && r.value.objects[id].poolIndex == s.objects[id].poolIndex
      && (forall other | other in s.objects && other != id :: other in r.value.objects && r.value.objects[other] == s.objects[other])
      && r.value.objects.Keys == s.objects.Keys
    ensures r.Success? ==> r.value.pending == s.pending && r.value.delivered == s.delivered && r.value.rule == s.rule
  {
    var returned := PoolObjects.ReturnToPool(s.objects[id]);
    var s1 := s.(objects := s.objects[id := returned.obj]);
    if returned.notifiedHandler then HandleReturn(s1, id) else Success(s1)
  }

  // ----- start-up -----

  /** The inner loop of `InitializePools` for kind `i`, as written: it
      tests and reads row `j` of the array where row `i` was meant, so the
      number of requests depends on other kinds' capacities, the template
      instantiated is kind `j`'s, and a `j` past the last kind throws. */
  function PreallocateRow(pools: seq<PoolObjectData>, i: nat, j: nat): (r: Result<seq<Pending>>)
    requires i < |pools|
    ensures r.Success? ==> forall q | q in r.value ::
      q.poolIndex == i && !q.hasCallback && q.origin == Preallocated
    decreases |pools| - j
  {
    if j >= |pools| then Failure(IndexOutOfRange)
    else if !(j < pools[j].maxInstancesAmount) then Success([])
    else
      match PreallocateRow(pools, i, j + 1)
      case Failure(f) => Failure(f)
      case Success(rest) => Success([Pending(i, pools[j].prefab, false, Preallocated)] + rest)
  }

  /** Exactly what the inner loop does from `j` on: it throws iff its test
      `m < pools[m].maxInstancesAmount` holds for every row `m` from `j` to
      the end, the next test then reading past the array; otherwise it
      stops at the first row whose test fails, having queued, for each row
      `m` before it, one request for kind `i` with row `m`'s template. */
  lemma {:induction false} PreallocateRowExact(pools: seq<PoolObjectData>, i: nat, j: nat)
    requires i < |pools|
    ensures PreallocateRow(pools, i, j).Failure? <==>
      forall m | j <= m < |pools| :: m < pools[m].maxInstancesAmount
    ensures PreallocateRow(pools, i, j).Failure? ==> PreallocateRow(pools, i, j).fault == IndexOutOfRange
    ensures PreallocateRow(pools, i, j).Success? ==>
      var row := PreallocateRow(pools, i, j).value;
      && j + |row| < |pools| && !(j + |row| < pools[j + |row|].maxInstancesAmount)
      && (forall m | j <= m < j + |row| :: m < pools[m].maxInstancesAmount)
      && forall n | 0 <= n < |row| :: row[n] == Pending(i, pools[j + n].prefab, false, Preallocated)
    decreases |pools| - j
  {
    if j < |pools| && j < pools[j].maxInstancesAmount {
      PreallocateRowExact(pools, i, j + 1);
    }
  }

  function PreallocateFrom(s: Pool, i: nat): (r: Result<Pool>)
    requires i <= |s.objectPools|
    ensures r.Success? ==>
      && r.value.objectPools == s.objectPools && r.value.objects == s.objects
      && r.value.destroyLog == s.destroyLog && r.value.delivered == s.delivered && r.value.rule == s.rule
      && |s.pending| <= |r.value.pending| && r.value.pending[..|s.pending|] == s.pending
      && forall n | |s.pending| <= n < |r.value.pending| ::
           var q := r.value.pending[n];
           && i <= q.poolIndex < |s.objectPools|
           && s.objectPools[q.poolIndex].instantiateObjectOnAwake
           && !q.hasCallback && q.origin == Preallocated
    decreases |s.objectPools| - i
  {
    if i == |s.objectPools| then Success(s)
    else if !s.objectPools[i].instantiateObjectOnAwake then PreallocateFrom(s, i + 1)
    else
      match PreallocateRow(s.objectPools, i, 0)
      case Failure(f) => Failure(f)
      case Success(row) =>
        var r := PreallocateFrom(s.(pending := s.pending + row), i + 1);
        if r.Success? then
          assert (s.pending + row)[..|s.pending|] == s.pending;
          assert forall n | |s.pending| <= n < |s.pending| + |row| :: r.value.pending[n] == row[n - |s.pending|];
          r
        else r
  }

  /** `InitializePools`: start the preallocation requests, which are queued
      only for kinds configured to instantiate on awake. */
  function InitializePools(s: Pool): (r: Result<Pool>)
    ensures r.Success? ==>
      && r.value.objectPools == s.objectPools && r.value.objects == s.objects
      && r.value.destroyLog == s.destroyLog && r.value.delivered == s.delivered && r.value.rule == s.rule
      && |s.pending| <= |r.value.pending| && r.value.pending[..|s.pending|] == s.pending
      && forall n | |s.pending| <= n < |r.value.pending| ::
           var q := r.value.pending[n];
           && 0 <= q.poolIndex < |s.objectPools|
           && s.objectPools[q.poolIndex].instantiateObjectOnAwake
           && !q.hasCallback && q.origin == Preallocated
  {
    PreallocateFrom(s, 0)
  }

  /** The asset loads `Start` issues before preallocating, as written: one
      per kind, each of them for kind 0's template. */
  function StartLoads(pools: seq<PoolObjectData>): (loads: seq<AssetGuid>)
    ensures |loads| == |pools|
    ensures forall n | 0 <= n < |loads| :: loads[n] == pools[0].prefab
  {
    seq(|pools|, n requires 0 <= n < |pools| => pools[0].prefab)
  }
}
