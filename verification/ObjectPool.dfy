/** Fixed-capacity object pool with an intrusive free list (include/object_pool.hpp). */
module ObjectPools {

  ghost predicate NoDup(s: seq<nat>) {
    forall i, j :: 0 <= i < j < |s| ==> s[i] != s[j]
  }

  ghost function Iota(n: nat): (r: seq<nat>)
    ensures |r| == n && forall i :: 0 <= i < n ==> r[i] == i
  {
    seq(n, i requires 0 <= i < n => i)
  }

  class ObjectPool<T(0)> {
    const storage: array<T>
    const nextFree: array<int>
    var freeHead: int

    /** The chain reached from freeHead by following nextFree. */
    ghost var free: seq<nat>

    ghost predicate Valid()
      reads this, nextFree
    {
      && nextFree.Length == storage.Length
      && storage as object != nextFree as object
      && NoDup(free)
      && (forall i :: 0 <= i < |free| ==> free[i] < nextFree.Length)
      && freeHead == (if free == [] then -1 else free[0])
      && (forall i, j :: 0 <= i < j < |free| && j == i + 1 ==> nextFree[free[i]] == free[j])
      && (free != [] ==> nextFree[free[|free| - 1]] == -1)
    }

    /** Every slot starts out on the chain, in index order. */
    constructor (capacity: nat)
      ensures Valid() && fresh(storage) && fresh(nextFree)
      ensures storage.Length == capacity
      ensures free == Iota(capacity)
    {
      storage := new T[capacity];
      nextFree := new int[capacity];
      freeHead := if capacity > 0 then 0 else -1;
      free := Iota(capacity);
      new;
      var i := 0;
      while i + 1 < capacity
        invariant 0 <= i <= capacity && (capacity > 0 ==> i < capacity)
        modifies nextFree
        invariant forall k :: 0 <= k < i ==> nextFree[k] == k + 1
      {
        nextFree[i] := i + 1;
        i := i + 1;
      }
      if capacity > 0 {
        nextFree[capacity - 1] := -1;
      }
    }

    /** Takes the head of the chain, or -1 when the pool is exhausted. */
    method Acquire(value: T) returns (idx: int)
      requires Valid()
      modifies this, storage
      ensures Valid()
      ensures idx == -1 <==> old(free) == []
      ensures idx == -1 ==> free == old(free) && storage[..] == old(storage[..])
      ensures idx != -1 ==>
                && 0 <= idx < storage.Length
                && old(free) == [idx as nat] + free
                && storage[..] == old(storage[..])[idx := value]
    {
      if freeHead == -1 {
        return -1;
      }
      idx := freeHead;
      freeHead := nextFree[idx];
      storage[idx] := value;
      free := free[1..];
    }

    /** Pushes a slot that is in use back on the chain. */
    method Release(idx: nat)
      requires Valid()
      requires idx < storage.Length && idx !in free
      modifies this, nextFree
      ensures Valid()
      ensures free == [idx] + old(free)
      ensures storage[..] == old(storage[..])
    {
      nextFree[idx] := freeHead;
      freeHead := idx;
      free := [idx] + free;
    }
  }
}
