/** One pooled instance (PoolObject.cs): its active flag, the index of the
    kind that owns it, and the single release handler the pool binds to it. */
module PoolObjects {

  datatype PoolObject = PoolObject(activated: bool, poolIndex: int, handlerBound: bool)

  /** A component as the loader hands it over: every field at its default. */
  const Instantiated: PoolObject := PoolObject(false, 0, false)

  /** What `ReturnToPool` leaves behind: the updated object, and whether the
      bound handler was notified (it receives the updated object itself). */
  datatype Returned = Returned(obj: PoolObject, notifiedHandler: bool)

  /** Take the object out of the pool for kind `k`. The handler binding is
      the pool's business and is left as it was. */
  function GetFromPool(o: PoolObject, k: int): (r: PoolObject)
    ensures r.activated && r.poolIndex == k
    ensures r.handlerBound == o.handlerBound
  {
    o.(activated := true, poolIndex := k)
  }

  /** Hand the object back: it becomes inactive first, then the bound
      handler (if any) is notified with the object. With nothing bound only
      the flag changes. */
  function ReturnToPool(o: PoolObject): (r: Returned)
    ensures !r.obj.activated
    ensures r.obj.poolIndex == o.poolIndex && r.obj.handlerBound == o.handlerBound
    ensures r.notifiedHandler <==> o.handlerBound
    ensures !o.activated ==> r.obj == o
  {
    Returned(o.(activated := false), o.handlerBound)
  }

  /** `OnHandlerReturnInvoke += handler`. */
  function BindHandler(o: PoolObject): (r: PoolObject)
    ensures r.handlerBound
    ensures r.activated == o.activated && r.poolIndex == o.poolIndex
  {
    o.(handlerBound := true)
  }

  /** `OnHandlerReturnInvoke -= handler`; a no-op when nothing is bound. */
  function UnbindHandler(o: PoolObject): (r: PoolObject)
    ensures !r.handlerBound
    ensures r.activated == o.activated && r.poolIndex == o.poolIndex
    ensures !o.handlerBound ==> r == o
  {
    o.(handlerBound := false)
  }

  /** Returning an object twice leaves it in the same state as returning it
      once, and the second return notifies the handler only if the first did. */
  lemma ReturnToPoolIdempotent(o: PoolObject)
    ensures ReturnToPool(ReturnToPool(o).obj).obj == ReturnToPool(o).obj
    ensures ReturnToPool(ReturnToPool(o).obj).notifiedHandler == ReturnToPool(o).notifiedHandler
  {
  }

  /** Taking an idle object and handing it back restores it, except that it
      now remembers the kind it was taken for. */
  lemma GetThenReturn(o: PoolObject, k: int)
    requires !o.activated
    ensures ReturnToPool(GetFromPool(o, k)).obj == o.(poolIndex := k)
  {
  }
}
