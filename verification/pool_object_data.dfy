/** Configuration and live bookkeeping of one poolable kind
    (Core/PoolObjectData.cs, with the root PoolObjectData.cs variant). */
module PoolData {
  import opened Wrappers
  import opened ObjectsRegister

  /** Templates are compared by their asset GUID string. */
  type AssetGuid = string

  /** The overflow test of `CheckSpace`. The Core variant reports no space
      when the count is strictly above the capacity; the root variant
      already when it reaches it. */
  datatype SpaceRule = CountAbove | CountAtLeast

  /** The lifetime is a float in the source; here it is only carried along
      to the destroy hand-off and never computed with. */
  datatype PoolObjectData = PoolObjectData(
    prefab: AssetGuid,
    maxInstancesAmount: int,
    instantiateObjectOnAwake: bool,
    destroyOverflowInstances: bool,
    overflowInstancesLifeTime: real,
    instancesCount: int,
    registerCreated: bool,
    register: Register)

  /** The counter agrees with the register. */
  predicate Consistent(d: PoolObjectData) {
    d.instancesCount == |d.register.Items()|
  }

  /** The five configured fields agree. */
  predicate SameConfig(d: PoolObjectData, e: PoolObjectData) {
    && d.prefab == e.prefab
    && d.maxInstancesAmount == e.maxInstancesAmount
    && d.instantiateObjectOnAwake == e.instantiateObjectOnAwake
    && d.destroyOverflowInstances == e.destroyOverflowInstances
    && d.overflowInstancesLifeTime == e.overflowInstancesLifeTime
  }

  /** The explicit constructor: no instances and a fresh register. */
  function New(prefab: AssetGuid, maxInstancesAmount: int, instantiateObjectOnAwake: bool,
               destroyOverflowInstances: bool, overflowInstancesLifeTime: real): (d: PoolObjectData)
    ensures d.prefab == prefab && d.maxInstancesAmount == maxInstancesAmount
    ensures d.instantiateObjectOnAwake == instantiateObjectOnAwake
    ensures d.destroyOverflowInstances == destroyOverflowInstances
    ensures d.overflowInstancesLifeTime == overflowInstancesLifeTime
    ensures d.instancesCount == 0 && d.register.Items() == [] && d.registerCreated
    ensures Consistent(d)
  {
    PoolObjectData(prefab, maxInstancesAmount, instantiateObjectOnAwake, destroyOverflowInstances,
                   overflowInstancesLifeTime, 0, true, Unallocated)
  }

  /** An element of the pool's serialised array, as the root variant the
      pool uses has it: the five settings and the live count
      (`instancesCount` is a serialised field there) come from the scene,
      while the private `registerCreated` and `register` keep their default
      values, so the register is neither allocated nor marked created. The
      root variant has no constructor: every kind the pool sees starts so.
      A fresh array element holds count 0. */
  function Serialized(prefab: AssetGuid, maxInstancesAmount: int, instantiateObjectOnAwake: bool,
                      destroyOverflowInstances: bool, overflowInstancesLifeTime: real,
                      storedCount: int): (d: PoolObjectData)
    ensures SameConfig(d, New(prefab, maxInstancesAmount, instantiateObjectOnAwake,
                              destroyOverflowInstances, overflowInstancesLifeTime))
    ensures d.instancesCount == storedCount && d.register.Unallocated? && !d.registerCreated
    ensures Consistent(d) <==> storedCount == 0
  {
    PoolObjectData(prefab, maxInstancesAmount, instantiateObjectOnAwake, destroyOverflowInstances,
                   overflowInstancesLifeTime, storedCount, false, Unallocated)
  }

  /** The `Register` getter also writes: it may replace the register. */
  datatype RegisterRead = RegisterRead(data: PoolObjectData, register: Register)

  /** The lazy getter: until `registerCreated` is set it installs a fresh,
      empty register (whatever the field held) and returns that; afterwards
      it returns the stored register. */
  function GetRegister(d: PoolObjectData): (r: RegisterRead)
    ensures r.data.registerCreated && r.register == r.data.register
    ensures SameConfig(d, r.data) && r.data.instancesCount == d.instancesCount
    ensures d.registerCreated ==> r.data == d && r.register == d.register
    ensures !d.registerCreated ==> r.register.Items() == []
  {
    if d.registerCreated then RegisterRead(d, d.register)
    else
      var created := d.(register := Unallocated, registerCreated := true);
      RegisterRead(created, Unallocated)
  }

  /** The getter creates the register once: a second read changes nothing. */
  lemma GetRegisterOnce(d: PoolObjectData)
    ensures GetRegister(GetRegister(d).data) == GetRegister(d)
  {
  }

  /** The getter's replacement hides instances registered before the first
      read on a struct that did not go through the constructor: the count
      says one, the register it hands out holds none. */
  lemma GetterHidesEarlierRegistrations(d: PoolObjectData, id: nat)
    requires !d.registerCreated && Consistent(d)
    ensures var read := GetRegister(RegisterObject(d, id));
      && id !in read.register.Items()
      && read.data.instancesCount == d.instancesCount + 1
      && !Consistent(read.data)
  {
  }

  function RegisterObject(d: PoolObjectData, id: nat): (r: PoolObjectData)
    ensures r.instancesCount == d.instancesCount + 1
    ensures r.register.Items() == d.register.Items() + [id]
    ensures SameConfig(d, r) && r.registerCreated == d.registerCreated
    ensures Consistent(d) ==> Consistent(r)
  {
    var reg := AddObjectToRegister(d.register, id);
    assert reg.Items() == reg.Items()[..|d.register.Items()|] + [id];
    d.(instancesCount := d.instancesCount + 1, register := reg)
  }

  /** The count is decremented whether or not `id` was registered;
      removal from a never-allocated register throws. */
  function UnregisterObject(d: PoolObjectData, id: nat): (r: Result<PoolObjectData>)
    ensures r.Failure? <==> d.register.Unallocated?
    ensures r.Failure? ==> r.fault == NullReference
    ensures r.Success? ==> r.value.instancesCount == d.instancesCount - 1
    ensures r.Success? ==> r.value.register.Items() == RemoveFirst(d.register.Items(), id)
    ensures r.Success? ==> SameConfig(d, r.value) && r.value.registerCreated == d.registerCreated
    ensures Consistent(d) && id in d.register.Items() ==> r.Success? && Consistent(r.value)
    ensures Consistent(d) && id !in d.register.Items() && r.Success? ==> !Consistent(r.value)
  {
    match RemoveObjectFromRegister(d.register, id)
    case Failure(f) => Failure(f)
    case Success(reg) => Success(d.(instancesCount := d.instancesCount - 1, register := reg))
  }

  /** True when there is space left for the instance count. */
  function CheckSpace(d: PoolObjectData, rule: SpaceRule): (space: bool)
    ensures rule == CountAbove ==> (!space <==> d.instancesCount > d.maxInstancesAmount)
    ensures rule == CountAtLeast ==> (!space <==> d.instancesCount >= d.maxInstancesAmount)
  {
    match rule
    case CountAbove => !(d.instancesCount > d.maxInstancesAmount)
    case CountAtLeast => !(d.instancesCount >= d.maxInstancesAmount)
  }

  /** The root variant is the stricter one, and the two disagree exactly
      when the count equals the capacity. */
  lemma RootVariantThreshold(d: PoolObjectData)
    ensures CheckSpace(d, CountAtLeast) ==> CheckSpace(d, CountAbove)
    ensures CheckSpace(d, CountAtLeast) != CheckSpace(d, CountAbove)
        <==> d.instancesCount == d.maxInstancesAmount
  {
  }

  /** Registering an id and unregistering it again restores the count and
      the settings; for an id that was not registered yet it restores the
      register's contents, and the whole kind when the register was
      already allocated. A never-allocated register comes back allocated
      and empty, so a later removal no longer throws. */
  lemma RegisterUnregisterRoundTrip(d: PoolObjectData, id: nat)
    ensures UnregisterObject(RegisterObject(d, id), id).Success?
    ensures var r := UnregisterObject(RegisterObject(d, id), id).value;
      && r.instancesCount == d.instancesCount
      && (id !in d.register.Items() ==> r.register.Items() == d.register.Items())
      && SameConfig(d, r)
      && (d.register.Unallocated? ==> r.register == Allocated([]))
    ensures d.register.Allocated? && id !in d.register.Items() ==>
      UnregisterObject(RegisterObject(d, id), id) == Success(d)
  {
    if id !in d.register.Items() {
      RemoveFirstAfterAppend(d.register.Items(), id);
    }
  }

  /** The same round trip keeps the register's contents as a multiset even
      when `id` was registered already (the earlier copy is the one removed). */
  lemma RegisterUnregisterSameContents(d: PoolObjectData, id: nat)
    ensures UnregisterObject(RegisterObject(d, id), id).Success?
    ensures multiset(UnregisterObject(RegisterObject(d, id), id).value.register.Items())
         == multiset(d.register.Items())
  {
    var e := RegisterObject(d, id);
    assert e.register.Items() == d.register.Items() + [id];
    RemoveFirstMultiset(e.register.Items(), id);
  }
}
