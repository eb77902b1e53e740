# Object pool for addressable prefabs — a Dafny model

The system is a Unity object pool keyed by addressable asset references.
An `ObjectsPool` component holds one `PoolObjectData` per poolable kind
(template, capacity, preallocate-on-awake flag, overflow eviction flag and
lifetime, live instance count, register of instances). `TryGetObject`
looks for an idle instance of the requested kind but, as written, never
hands one over (see Findings); otherwise it starts an asynchronous
instantiation, registering the new object and passing it to the caller's
callback when the loader completes. A `PoolObject` returned to the pool
becomes inactive and notifies the pool, which evicts it (unregisters it
and hands it to a delayed destroyer) when the kind is over capacity and
evicts its overflow.

The model is a set of pure functions over immutable records:

- `Wrappers` — `Option`, and `Result` whose `Fault` stands for the two
  exceptions the code can raise (`NullReference`, `IndexOutOfRange`).
- `PoolObjects` — the component's state (`activated`, `poolIndex`, whether
  the pool's release handler is bound) and its `GetFromPool` /
  `ReturnToPool`.
- `ObjectsRegister` — the lazily allocated list of instance ids
  (`Unallocated | Allocated(list)`), the first-idle scan, add, and
  `List.Remove` semantics (first occurrence only).
- `PoolData` — a kind's configuration and bookkeeping, the lazy
  `Register` getter, `RegisterObject` / `UnregisterObject` and the two
  `CheckSpace` variants as a `SpaceRule` parameter (`CountAbove` is `>`,
  `CountAtLeast` is `>=`).
- `ObjectsPool` — the orchestrator, as the code is written: a `Pool` record
  holding the kinds, the map from id to component, the started but not yet
  completed instantiations (`pending`), the log of destroy hand-offs and
  the log of objects delivered to callbacks. Starting an instantiation
  queues a `Pending` entry; `CompleteInstantiation` is the loader finishing
  any one of them with a fresh id.
- `PoolInvariant` — the invariant `Inv` (each kind's count equals its
  register's length, no id twice in a register, every registered id is an
  object of that kind, an object is active exactly while its handler is
  bound, and a bound object is registered) and its preservation by every
  transition.
- `PoolFixes` — the five defects listed under Findings: each with a lemma
  exhibiting it on the as-written model and a corrected definition with
  the intended property proved.
- `PoolScenarios` — end-to-end runs: overflow kept (and a reacquire once
  every instance is idle), overflow evicted under each `CheckSpace`
  variant, and preallocation.

`Core/ObjectsPool.cs` is declared in namespace `ObjectPool`, so its
`PoolObjectData` resolves to the root `PoolObjectData.cs` (the `>=` rule),
not to `Core/PoolObjectData.cs` (namespace `ObjectPool.Core`, the `>`
rule). The pool carries the rule as a parameter and both are proved
about; `PoolData.RootVariantThreshold` states exactly where they differ.

With the strict `>` rule, capacity 1 and eviction on, two instances in
use, the FIRST release already evicts (count 2 > 1) and the second one is
kept (count 1 > 1 is false); `PoolScenarios.ScenarioOverflowEvicted`
proves this run. Under the root `>=` rule both releases evict
(`PoolScenarios.ScenarioOverflowEvictedRootRule`).

The root `PoolObjectData` struct has no constructor, so every kind the
pool holds comes from Unity's serialised array: the configured fields and
`instancesCount`, which the root struct also serialises, come from the
scene, and the private `registerCreated` and `register` keep their
defaults (`PoolData.Serialized`, whose stored count is a parameter). The acquire scan reads the
register through the lazy getter on a copy of the kind
(`Core/ObjectsPool.cs:103` on the copy taken at line 145), so for such a
kind it always sees a fresh empty register, and `ObjectsPool.InitializeObject`
models exactly that: it starts an instantiation whenever the kind's
register was never created, idle instances or not. Registration and
eviction write the stored register directly and are unaffected.

## Model

| member | source | states |
|---|---|---|
| PoolObjects.GetFromPool | PoolObject.cs:29-33 | taking from the pool activates the object and records its kind; the handler binding is untouched |
| PoolObjects.ReturnToPool | PoolObject.cs:19-27 | returning deactivates, keeps kind and binding, notifies the pool iff the handler is bound, and is the identity on an already inactive object |
| PoolObjects.BindHandler | Core/ObjectsPool.cs:161 | subscribing the pool's handler sets the binding and nothing else |
| PoolObjects.UnbindHandler | Core/ObjectsPool.cs:69 | unsubscribing clears the binding, changes nothing else, and is a no-op on an unbound object |
| PoolObjects.ReturnToPoolIdempotent | PoolObject.cs:19-27 | returning twice leaves the object as returning once |
| PoolObjects.GetThenReturn | PoolObject.cs:19-33 | take then return restores an idle object except for the kind it was taken for |
| ObjectsRegister.ValidateRegister | Core/ObjectsRegister.cs:55-70 | after validation the list exists, with the same contents; an allocated register is unchanged |
| ObjectsRegister.ValidateRegisterTwice | Core/ObjectsRegister.cs:55-62 | validation is idempotent and a fresh allocation is empty |
| ObjectsRegister.FirstInactive | Core/ObjectsRegister.cs:20-29 | the result is the lowest index of an inactive object; none exactly when every registered object is active |
| ObjectsRegister.TryGetAvailableObject | Core/ObjectsRegister.cs:16-30 | validates the register without changing its contents, finds the first inactive instance, and finds nothing on an unallocated register |
| ObjectsRegister.ScanForAvailable | Core/ObjectsRegister.cs:20-29 | the loop returns the lowest inactive index, reports absence iff all are active, and agrees with `FirstInactive` |
| ObjectsRegister.AddObjectToRegister | Core/ObjectsRegister.cs:36-41 | adding allocates if needed and appends the id after the unchanged old contents |
| ObjectsRegister.RemoveFirst | Core/ObjectsRegister.cs:49 | `List.Remove`: a non-member leaves the list unchanged and a member shortens it by one |
| ObjectsRegister.RemoveFirstMultiset | Core/ObjectsRegister.cs:49 | exactly one copy of the id leaves the list's multiset, and nothing else changes in it |
| ObjectsRegister.IndexOfIsFirst | Core/ObjectsRegister.cs:49 | the position `List.Remove` deletes at is the first occurrence: no earlier position holds the id |
| ObjectsRegister.RemoveFirstSplits | Core/ObjectsRegister.cs:49 | removal cuts out the element at the first index holding the id |
| ObjectsRegister.RemoveObjectFromRegister | Core/ObjectsRegister.cs:47-50 | removal on a never-allocated register faults with a null reference; otherwise it removes the first occurrence |
| ObjectsRegister.RemoveFirstOfMember | Core/ObjectsRegister.cs:47-50 | in a duplicate-free register the removed id is gone, no duplicates appear, and every other id stays |
| ObjectsRegister.RemoveFirstKeepsNoDuplicates | Core/ObjectsRegister.cs:47-50 | removal keeps a register duplicate-free |
| ObjectsRegister.RemoveFirstIndex | Core/ObjectsRegister.cs:47-50 | each remaining element sits at its old index, or one lower past the removed position |
| ObjectsRegister.MemberOfDuplicateFreeOnce | Core/ObjectsRegister.cs:47-50 | in a duplicate-free register a member occurs exactly once, so one removal deletes it |
| ObjectsRegister.RemoveFirstAfterAppend | Core/ObjectsRegister.cs:36-50 | removing a just-appended new id restores the original list |
| PoolData.New | Core/PoolObjectData.cs:68-83 | the constructor stores the five settings, starts with no instances and an empty register, and is consistent |
| PoolData.Serialized | PoolObjectData.cs:10-46 | a kind as deserialisation leaves it: the five settings and the count as stored, no register allocated and the register not marked created; it is consistent iff the stored count is 0 |
| PoolData.GetRegister | Core/PoolObjectData.cs:54-66 | the getter returns the stored register once created; before that it installs and returns an empty one, keeping settings and count |
| PoolData.GetRegisterOnce | PoolObjectData.cs:54-66 | the lazy creation happens once: a second read changes nothing |
| PoolData.GetterHidesEarlierRegistrations | Core/PoolObjectData.cs:54-102 | on data not built by the constructor, an instance registered before the first getter read is missing from the register the getter hands out while the count includes it |
| PoolData.RegisterObject | Core/PoolObjectData.cs:93-102 | registering adds one to the count, appends the id, and keeps the count consistent with the register |
| PoolData.UnregisterObject | Core/PoolObjectData.cs:107-116 | faults iff the register was never allocated; otherwise the count drops by one and the first occurrence leaves; consistency is kept for a member and lost for a non-member |
| PoolData.CheckSpace | Core/PoolObjectData.cs:122-128 | no space iff the count is above the capacity (Core) or at least the capacity (root) |
| PoolData.RootVariantThreshold | PoolObjectData.cs:82-88 | the root rule is stricter and the two rules disagree exactly when count equals capacity |
| PoolData.RegisterUnregisterRoundTrip | PoolObjectData.cs:68-80 | register then unregister never faults and restores the count, the settings and, for a new id, the register's contents; for a new id and an allocated register it restores the kind exactly, while a never-allocated register comes back allocated and empty |
| PoolData.RegisterUnregisterSameContents | PoolObjectData.cs:68-80 | register then unregister restores the register's multiset even when the id was registered already |
| ObjectsPool.Create | Core/ObjectsPool.cs:13 | a configured pool starts with no objects, no pending instantiations and empty logs |
| ObjectsPool.TryFindPoolObjectDataByAssetReference | Core/ObjectsPool.cs:138-154 | returns the lowest kind whose template matches, and none iff no kind matches |
| ObjectsPool.InitializeObject | Core/ObjectsPool.cs:90-110 | accepted iff the template is configured; an unknown template, or a scan that finds an idle instance, leaves the pool unchanged; the scan finds one only if the kind's register was created, because it reads through the getter on a copy; otherwise exactly one instantiation is queued for the kind |
| ObjectsPool.CompleteInstantiation | Core/ObjectsPool.cs:156-163 | faults iff the kind index is invalid; otherwise the new id is registered in its kind only, becomes active and bound, leaves the pending queue, and reaches the callback iff one was given; the kind's settings and whether its register was created are unchanged |
| ObjectsPool.HandleReturn | Core/ObjectsPool.cs:66-81 | unbinds the handler; faults with an index out of range iff the object's kind index is invalid, and with a null reference iff it must evict from a kind whose register was never allocated; otherwise evicts iff the kind has no space and evicts overflow (count down, first occurrence removed, settings and register creation unchanged, one destroy event with the kind's lifetime), otherwise leaves kinds and log alone; pending queue, deliveries and rule are unchanged |
| ObjectsPool.Release | PoolObject.cs:19-27 | the released object ends inactive and unbound with its kind; other objects are untouched; pending queue, deliveries and rule are unchanged; an unbound object never reaches the pool |
| ObjectsPool.PreallocateRow | Core/ObjectsPool.cs:122-126 | every request the inner loop queues is for kind i, with no callback, as preallocation |
| ObjectsPool.PreallocateRowExact | Core/ObjectsPool.cs:122-126 | the inner loop faults iff its test `m < maxInstancesAmount of row m` holds for every row from `j` to the end; otherwise it stops at the first row whose test fails and queues, for each row `m` before it, one request for kind `i` with row `m`'s template |
| ObjectsPool.InitializePools | Core/ObjectsPool.cs:115-128 | preallocation only appends requests, each for a valid kind that instantiates on awake and without callback; nothing else changes |
| ObjectsPool.StartLoads | Core/ObjectsPool.cs:31-34 | one load per kind, each for kind 0's template |
| PoolInvariant.CreateEstablishesInv | Core/ObjectsPool.cs:13 | a pool whose kinds start empty and consistent satisfies the invariant |
| PoolInvariant.InitializeObjectPreservesInv | Core/ObjectsPool.cs:90-110 | acquiring keeps the invariant |
| PoolInvariant.CompletePreservesInv | Core/ObjectsPool.cs:156-163 | under the invariant a completion never faults and keeps the invariant |
| PoolInvariant.HandleReturnPreservesInv | Core/ObjectsPool.cs:66-81 | the pool's handler on a returned bound object never faults and keeps the invariant |
| PoolInvariant.ReleasePreservesInv | Core/ObjectsPool.cs:66-81 | under the invariant a release never faults and keeps the invariant |
| PoolInvariant.ReleaseEvictsIff | Core/ObjectsPool.cs:73-80 | a release evicts exactly when the object was bound and its kind has no space with eviction on: then the id leaves the register, the count drops by one, the kind's settings and register creation stay, and one destroy event is logged; otherwise kinds and log are unchanged; pending queue, deliveries and rule are always unchanged |
| PoolInvariant.ReleaseTwice | Core/ObjectsPool.cs:66-69 | releasing an already released object changes nothing: no second decrement or destroy event |
| PoolInvariant.InitializePoolsPreservesInv | Core/ObjectsPool.cs:115-128 | preallocation that does not fault keeps the invariant |
| PoolInvariant.MissesAreNotCoalesced | Core/ObjectsPool.cs:103-109 | two acquires whose scan finds no idle instance queue two instantiations |
| PoolFixes.FastPathLeavesObjectIdle | Core/ObjectsPool.cs:103-104 | as written, an acquire of a kind with an idle instance is accepted while that instance stays inactive and unbound and no callback runs; with the register created nothing is queued, without it an instantiation is queued besides |
| PoolFixes.InitializeObjectIntended | Core/ObjectsPool.cs:90-110 | intended acquire: a hit activates and binds the first idle instance, delivers it to the callback and starts nothing; it keeps the invariant |
| PoolFixes.AcquireReleaseAcquireReuses | Core/ObjectsPool.cs:103-104 | with the intended fast path, an instance released without eviction is the one the next acquire serves, with no instantiation |
| PoolFixes.CompleteInstantiationIntended | Core/ObjectsPool.cs:156-163 | intended completion: a caller's request behaves as written; a preallocated instance is registered idle and unbound; under the invariant it never faults and keeps the invariant |
| PoolFixes.PreallocatedCompletionIsActive | Core/ObjectsPool.cs:160 | as written, a preallocated instance completes active and bound, so no acquire can find it idle |
| PoolFixes.InitializePoolsIntended | Core/ObjectsPool.cs:115-128 | intended preallocation keeps kinds, objects and both logs, keeps the old queue as a prefix, and appends for each kind exactly its quota of requests, each for that kind's own template without callback |
| PoolFixes.InitializePoolsIntendedQueues | Core/ObjectsPool.cs:115-128 | intended preallocation queues per kind exactly its quota (its capacity when positive and on awake, otherwise 0), each for its own template, and keeps the invariant |
| PoolFixes.InitializePoolsReadsWrongRow | Core/ObjectsPool.cs:122-125 | as written, kind 1 gets one instance of kind 0's template; intended, one of its own |
| PoolFixes.InitializePoolsOverruns | Core/ObjectsPool.cs:122 | as written, one kind preallocating one or more instances faults with an index out of range |
| PoolFixes.StartLoadsIntended | Core/ObjectsPool.cs:31-34 | intended loads: one per kind, each for that kind's template |
| PoolFixes.StartLoadsAgreeIff | Core/ObjectsPool.cs:31-34 | for every configuration, a kind's load as written equals the intended one iff its template is kind 0's |
| PoolFixes.StartLoadsMissesOtherKinds | Core/ObjectsPool.cs:33 | as written, a second kind's template is never loaded |
| PoolScenarios.ScenarioOverflowKeptAcquire | Core/ObjectsPool.cs:90-110 | three acquires on an empty kind of capacity 2 are all accepted and queue three instantiations |
| PoolScenarios.ScenarioOverflowKeptComplete | Core/ObjectsPool.cs:156-163 | completing them registers three active, bound instances, count 3, and delivers each to its callback |
| PoolScenarios.ScenarioOverflowKeptRelease | Core/ObjectsPool.cs:66-81 | with eviction off, releasing all three instances of the kind over capacity keeps them registered, the count at 3, and logs nothing |
| PoolScenarios.ScenarioAllIdleStillInstantiates | Core/ObjectsPool.cs:103-107 | after that run, with three idle instances registered, the next acquire still queues an instantiation, while the intended acquire serves instance 0 |
| PoolScenarios.ScenarioStoredCountEvictsEarly | PoolObjectData.cs:39 | a kind saved with count 1 (capacity 1, eviction on, strict rule) counts 2 after its first completion while holding one id, and already evicts |
| PoolScenarios.ScenarioOverflowEvicted | Core/PoolObjectData.cs:122-128 | capacity 1, eviction on, strict rule: the first of two releases evicts and the second keeps |
| PoolScenarios.ScenarioOverflowEvictedRootRule | PoolObjectData.cs:82-88 | the same run under the root rule evicts both instances |
| PoolScenarios.ScenarioPreallocationQueues | Core/ObjectsPool.cs:115-128 | one kind of capacity 3 on awake: the intended start-up queues three requests for its own template |
| PoolScenarios.ScenarioPreallocationCompletes | Core/ObjectsPool.cs:156-163 | with the intended completion, the three preallocation requests complete in queue order, each registering its instance idle |
| PoolScenarios.ScenarioPreallocatedIdle | PoolObject.cs:19-27 | the three preallocated instances are registered, idle and unbound, none was delivered, and releasing one of them changes nothing |

## Left out

- The delayed destroyer (`PoolObjectsDestroyer.cs`): the wait for the lifetime and `Addressables.ReleaseInstance` are not modelled; eviction ends in a `DestroyEvent` carrying the object, its kind and the lifetime.
- The asynchronous loader: `LoadAssetAsync`, `InstantiateAsync`, the status polling and `GetComponent` are replaced by `CompleteInstantiation`, which takes any pending request in any order and a fresh id. A failed load and a prefab without a `PoolObject` component (a null reference in the code) are not modelled.
- A null template reference passed to `TryGetObject` throws at Core/ObjectsPool.cs:143 when a kind is configured; templates here are GUID strings and are never null.
- Unity plumbing: the `Awake` assertion, `SetActive`, reparenting in `MovePoolObjectToHandler`, the `OnTakeFromPool` / `OnReturnToPool` user events and every `Debug.Log` are left out; they do not affect pool state.
- Value-type copies: `InitializeObject` works on a copy of the kind's data, so the getter's register creation and the scan's lazy allocation are dropped, as the copy drops them. The pool's invariant does not require the register to be created: serialised kinds never have it, and the model keeps them as they are.
- `UpdateRegister` is folded into `PoolData.RegisterObject` and `PoolData.UnregisterObject`, where it writes back the register copy.
- The root variant's `RegisterObject` / `UnregisterObject` mutate the register in place; they have the same effect as the Core ones and share the model.
- The root struct's `register` field (PoolObjectData.cs:46) names the `ObjectsRegister` of namespace `ObjectPool`, which is not part of this model; it is taken to behave as `Core/ObjectsRegister.cs`.
- PoolData.Serialized: every scenario passes a stored count of 0, the value a new array element holds; a saved non-zero count is covered only by `PoolScenarios.ScenarioStoredCountEvictsEarly`, and the invariant, which requires the count to match the register, does not hold for such a kind.
- Integers are unbounded: counts and capacities do not wrap at 32 bits, which would need more than two billion instances.
- The release handler is a C# event; the model keeps one bound/unbound flag, since the code subscribes once per object and unsubscribes on every return.
- PoolData.UnregisterObject: on the fault path the code has already decremented the count before the null reference; the faulted state is not modelled.
- ObjectsPool.HandleReturn: on either fault the code has already moved the object to the handler and unsubscribed it (Core/ObjectsPool.cs:68-69), and `PoolObject.ReturnToPool` has already deactivated it; the model returns only the fault, so `ObjectsPool.Release` keeps none of that. Under the invariant neither fault occurs (`PoolInvariant.HandleReturnPreservesInv`).
- ObjectsPool.PreallocateRow: its own contract states only the shape of each request; the exact row and fault condition are stated by `ObjectsPool.PreallocateRowExact`.
- ObjectsPool.InitializePools: when it faults, the instantiations already started before the fault keep running in the code; the model returns only the fault.
- The two `TryGetObject` overloads are one `InitializeObject` with a `hasCallback` flag; the callback's `true` argument is not modelled.
- `Example/ExampleInstantiator.cs`, a driver for the pool, is not part of this model.

## Findings

| source | as written | input that shows it | evidently intended | confidence | as-written member | corrected member |
|---|---|---|---|---|---|---|
| Core/ObjectsPool.cs:103 | the scan reads the register through the lazy getter on the copy taken at line 145; a kind from the serialised array never had its register created, so the copy's getter installs an empty one and the scan never finds an instance | the kind of capacity 2 after three instances were completed and all released: the next acquire queues a fourth instantiation | scan the kind's stored register | not executed | ObjectsPool.InitializeObject, PoolScenarios.ScenarioAllIdleStillInstantiates | PoolFixes.InitializeObjectIntended, PoolFixes.AcquireReleaseAcquireReuses |
| Core/ObjectsPool.cs:103-104 | an idle instance found by the scan is reported as success but never taken from the pool, bound or passed to the callback; with the root struct, whose registers are never created, the previous row hides this one, which shows once the scan reads the stored register | any configured kind with a created register and an idle registered instance | activate and bind that instance and hand it to the callback | not executed | ObjectsPool.InitializeObject, PoolFixes.FastPathLeavesObjectIdle | PoolFixes.InitializeObjectIntended, PoolFixes.AcquireReleaseAcquireReuses |
| Core/ObjectsPool.cs:122-125 | the inner loop tests and instantiates row `j` instead of row `i` | kinds `[a cap 3 off, b cap 1 on]` queue one `a` for kind 1; a single kind with capacity 1 on awake reads past the array | for kind `i`, capacity-many instances of kind `i`'s template | not executed | ObjectsPool.InitializePools, PoolFixes.InitializePoolsReadsWrongRow, PoolFixes.InitializePoolsOverruns | PoolFixes.InitializePoolsIntended, PoolFixes.InitializePoolsIntendedQueues |
| Core/ObjectsPool.cs:160 | every completed instantiation is taken from the pool, so preallocated instances are born active | any completed preallocation request: the new instance is active and bound though no caller holds it | preallocated instances start idle in the pool | not executed | ObjectsPool.CompleteInstantiation, PoolFixes.PreallocatedCompletionIsActive | PoolFixes.CompleteInstantiationIntended, PoolScenarios.ScenarioPreallocationCompletes |
| Core/ObjectsPool.cs:33 | every start-up load is for kind 0's template | kinds `[a, b]`: `b` is never loaded | load each kind's own template | not executed | ObjectsPool.StartLoads, PoolFixes.StartLoadsMissesOtherKinds | PoolFixes.StartLoadsIntended, PoolFixes.StartLoadsAgreeIff |
