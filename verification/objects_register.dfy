/** The per-kind register of instantiated objects (Core/ObjectsRegister.cs):
    an ordered list of instance ids behind a lazily allocated list. */
module ObjectsRegister {
  import opened Wrappers
  import opened PoolObjects

  /** `Unallocated` is the default struct, whose list was never created. */
  datatype Register = Unallocated | Allocated(list: seq<nat>) {
    /** The ids in scan order; an unallocated register holds none. */
    function Items(): seq<nat> {
      if Unallocated? then [] else list
    }
  }

  /** Every registered id names an object that exists. */
  predicate AllKnown(items: seq<nat>, objects: map<nat, PoolObject>) {
    forall i | 0 <= i < |items| :: items[i] in objects
  }

  predicate NoDuplicates(items: seq<nat>) {
    forall i, j | 0 <= i < j < |items| :: items[i] != items[j]
  }

  /** Allocate the list on first use; an allocated register is kept as is. */
  function ValidateRegister(r: Register): (v: Register)
    ensures v.Allocated?
    ensures v.Items() == r.Items()
    ensures r.Allocated? ==> v == r
  {
    if r.Unallocated? then Allocated([]) else r
  }

  lemma ValidateRegisterTwice(r: Register)
    ensures ValidateRegister(ValidateRegister(r)) == ValidateRegister(r)
    ensures r.Unallocated? ==> ValidateRegister(r).Items() == []
  {
  }

  /** Reference definition of the availability scan: the lowest position at
      or after `from` whose object is not active. */
  function FirstInactiveFrom(items: seq<nat>, objects: map<nat, PoolObject>, from: nat): (r: Option<nat>)
    requires AllKnown(items, objects) && from <= |items|
    ensures r.Some? ==> from <= r.value < |items| && !objects[items[r.value]].activated
    ensures r.Some? ==> forall j | from <= j < r.value :: objects[items[j]].activated
    ensures r.None? <==> forall j | from <= j < |items| :: objects[items[j]].activated
    decreases |items| - from
  {
    if from == |items| then None
    else if !objects[items[from]].activated then Some(from)
    else FirstInactiveFrom(items, objects, from + 1)
  }

  function FirstInactive(items: seq<nat>, objects: map<nat, PoolObject>): (r: Option<nat>)
    requires AllKnown(items, objects)
    ensures r.Some? ==> r.value < |items| && !objects[items[r.value]].activated
    ensures r.Some? ==> forall j | 0 <= j < r.value :: objects[items[j]].activated
    ensures r.None? <==> forall j | 0 <= j < |items| :: objects[items[j]].activated
  {
    FirstInactiveFrom(items, objects, 0)
  }

  /** The outcome of `TryGetAvailableObject`: the register after its lazy
      validation, and the position of the object found, if any. */
  datatype Lookup = Lookup(register: Register, found: Option<nat>)

  function TryGetAvailableObject(r: Register, objects: map<nat, PoolObject>): (res: Lookup)
    requires AllKnown(r.Items(), objects)
    ensures res.register.Allocated? && res.register.Items() == r.Items()
    ensures res.found.Some? ==>
      && res.found.value < |r.Items()|
      && !objects[r.Items()[res.found.value]].activated
      && forall j | 0 <= j < res.found.value :: objects[r.Items()[j]].activated
    ensures res.found.None? <==> forall j | 0 <= j < |r.Items()| :: objects[r.Items()[j]].activated
    ensures r.Unallocated? ==> res.found.None?
  {
    Lookup(ValidateRegister(r), FirstInactive(r.Items(), objects))
  }

  /** The scan as the source writes it, a loop over the list; it finds the
      same position as the reference definition. */
  method ScanForAvailable(items: seq<nat>, objects: map<nat, PoolObject>) returns (found: bool, index: nat)
    requires AllKnown(items, objects)
    ensures found ==> index < |items| && !objects[items[index]].activated
    ensures found ==> forall j | 0 <= j < index :: objects[items[j]].activated
    ensures !found <==> forall j | 0 <= j < |items| :: objects[items[j]].activated
    ensures found <==> FirstInactive(items, objects) == Some(index)
  {
    var i := 0;
    while i < |items|
      invariant 0 <= i <= |items|
      invariant forall j | 0 <= j < i :: objects[items[j]].activated
    {
      if !objects[items[i]].activated {
        return true, i;
      }
      i := i + 1;
    }
    return false, 0;
  }

  /** Append at the end; there is no duplicate check. */
  function AddObjectToRegister(r: Register, id: nat): (r': Register)
    ensures r'.Allocated?
    ensures |r'.Items()| == |r.Items()| + 1
    ensures r'.Items()[..|r.Items()|] == r.Items() && r'.Items()[|r.Items()|] == id
  {
    Allocated(ValidateRegister(r).Items() + [id])
  }

  /** Position of the first occurrence of `x`. */
  function IndexOf(s: seq<nat>, x: nat): (i: nat)
    requires x in s
    ensures i < |s| && s[i] == x
  {
    if s[0] == x then 0 else 1 + IndexOf(s[1..], x)
  }

  /** No earlier position holds `x`. */
  lemma {:induction false} IndexOfIsFirst(s: seq<nat>, x: nat, j: nat)
    requires x in s && j < IndexOf(s, x)
    ensures s[j] != x
  {
    if j > 0 {
      assert x in s[1..] by {
        assert s == [s[0]] + s[1..];
      }
      IndexOfIsFirst(s[1..], x, j - 1);
    }
  }

  /** `List.Remove`: delete the first occurrence of `x`, if there is one. */
  function RemoveFirst(s: seq<nat>, x: nat): (t: seq<nat>)
    ensures x !in s ==> t == s
    ensures x in s ==> |t| == |s| - 1
  {
    if s == [] then []
    else if s[0] == x then s[1..]
    else
      assert x in s[1..] <==> x in s by {
        assert s == [s[0]] + s[1..];
      }
      [s[0]] + RemoveFirst(s[1..], x)
  }

  /** Exactly one copy of `x` leaves the list, if it held one. */
  lemma {:induction false} RemoveFirstMultiset(s: seq<nat>, x: nat)
    ensures multiset(RemoveFirst(s, x)) == multiset(s) - multiset{x}
  {
    if s != [] {
      assert s == [s[0]] + s[1..];
      if s[0] != x {
        RemoveFirstMultiset(s[1..], x);
      }
    }
  }

  /** The deleted element is the first occurrence: what remains is the list
      before it followed by the list after it. */
  lemma {:induction false} RemoveFirstSplits(s: seq<nat>, x: nat)
    requires x in s
    ensures RemoveFirst(s, x) == s[..IndexOf(s, x)] + s[IndexOf(s, x) + 1..]
  {
    if s[0] == x {
      assert s[..0] == [];
    } else {
      var tail := s[1..];
      assert x in tail by {
        assert s == [s[0]] + tail;
      }
      var i := IndexOf(tail, x);
      var before, after := tail[..i], tail[i + 1..];
      assert RemoveFirst(tail, x) == before + after by {
        RemoveFirstSplits(tail, x);
      }
      assert IndexOf(s, x) == i + 1;
      assert s[..i + 1] == [s[0]] + before;
      assert s[i + 2..] == after;
      assert RemoveFirst(s, x) == [s[0]] + (before + after);
      assert [s[0]] + (before + after) == ([s[0]] + before) + after;
    }
  }

  /** Removing from a list that was never allocated throws. */
  function RemoveObjectFromRegister(r: Register, id: nat): (res: Result<Register>)
    ensures res.Failure? <==> r.Unallocated?
    ensures res.Failure? ==> res.fault == NullReference
    ensures res.Success? ==> res.value.Allocated? && res.value.Items() == RemoveFirst(r.Items(), id)
  {
    if r.Unallocated? then Failure(NullReference) else Success(Allocated(RemoveFirst(r.list, id)))
  }

  /** Removal of a member of a duplicate-free list takes that id out
      entirely, keeps every other id, and keeps the list duplicate-free. */
  lemma RemoveFirstOfMember(s: seq<nat>, x: nat)
    requires NoDuplicates(s) && x in s
    ensures x !in RemoveFirst(s, x)
    ensures NoDuplicates(RemoveFirst(s, x))
    ensures forall y | y != x :: y in RemoveFirst(s, x) <==> y in s
  {
    var t := RemoveFirst(s, x);
    RemoveFirstKeepsNoDuplicates(s, x);
    MemberOfDuplicateFreeOnce(s, x);
    RemoveFirstMultiset(s, x);
    var mt: multiset<nat> := multiset(t);
    assert mt[x] == 0;
    forall y | y != x
      ensures y in t <==> y in s
    {
      assert multiset(t)[y] == multiset(s)[y];
    }
  }

  lemma RemoveFirstKeepsNoDuplicates(s: seq<nat>, x: nat)
    requires NoDuplicates(s) && x in s
    ensures NoDuplicates(RemoveFirst(s, x))
  {
    var t := RemoveFirst(s, x);
    forall a, b | 0 <= a < b < |t|
      ensures t[a] != t[b]
    {
      var a' := RemoveFirstIndex(s, x, a);
      var b' := RemoveFirstIndex(s, x, b);
      assert a' < b';
    }
  }

  /** Where position `a` of the shortened list came from in the original:
      the same position before the removed occurrence, one further after it. */
  lemma RemoveFirstIndex(s: seq<nat>, x: nat, a: nat) returns (a': nat)
    requires x in s && a < |RemoveFirst(s, x)|
    ensures a' < |s| && RemoveFirst(s, x)[a] == s[a']
    ensures a' == if a < IndexOf(s, x) then a else a + 1
  {
    var i := IndexOf(s, x);
    var pre, post := s[..i], s[i + 1..];
    var t := RemoveFirst(s, x);
    assert t == pre + post by {
      RemoveFirstSplits(s, x);
    }
    assert |pre| == i;
    if a < i {
      a' := a;
      assert t[a] == pre[a] == s[a];
    } else {
      a' := a + 1;
      assert t[a] == post[a - i] == s[a + 1];
    }
  }

  lemma {:induction false} MemberOfDuplicateFreeOnce(s: seq<nat>, x: nat)
    requires NoDuplicates(s) && x in s
    ensures multiset(s)[x] == 1
  {
    if s[0] == x {
      assert s == [s[0]] + s[1..];
      assert x !in s[1..] by {
        forall k | 0 <= k < |s[1..]| ensures s[1..][k] != x {
          assert s[1..][k] == s[k + 1];
        }
      }
    } else {
      assert s == [s[0]] + s[1..];
      assert NoDuplicates(s[1..]) by {
        forall a, b | 0 <= a < b < |s[1..]| ensures s[1..][a] != s[1..][b] {
          assert s[1..][a] == s[a + 1] && s[1..][b] == s[b + 1];
        }
      }
      MemberOfDuplicateFreeOnce(s[1..], x);
    }
  }

  /** Appending an id the list does not hold and removing it again gives
      the list back. */
  lemma RemoveFirstAfterAppend(s: seq<nat>, x: nat)
    requires x !in s
    ensures RemoveFirst(s + [x], x) == s
  {
    var u := s + [x];
    assert u[|s|] == x;
    var i := IndexOf(u, x);
    assert forall j | 0 <= j < |s| :: u[j] == s[j];
    assert i == |s|;
    assert u[..i] == s;
    RemoveFirstSplits(u, x);
  }
}
