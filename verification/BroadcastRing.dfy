/**
 The broadcast ring used from one thread (include/broadcast_ring.hpp): the lazily gated
 try_publish accepts exactly when a version that rescans every cursor would.
 */
module BroadcastRings {
  import opened Types
  import opened Cursors

  class BroadcastRing<T(0)> {
    const slots: array<T>
    const cursors: array<nat>
    var write: nat
    var cachedMin: nat
    var consumerCount: nat

    /** Everything published so far. */
    ghost var published: seq<T>

    ghost predicate Valid()
      reads this, slots, cursors
    {
      && slots.Length > 0
      && slots as object != cursors as object
      && consumerCount <= cursors.Length
      && |published| == write
      && cachedMin <= write
      && (forall i :: 0 <= i < consumerCount ==>
            cachedMin <= cursors[i] <= write && write - cursors[i] <= slots.Length)
      && (forall i :: consumerCount <= i < cursors.Length ==> cursors[i] == 0)
      && (forall k :: 0 <= k < write && write - slots.Length <= k ==> slots[k % slots.Length] == published[k])
    }

    /** The eager decision: every registered reader is less than a ring behind. */
    ghost predicate HasRoom()
      reads this, slots, cursors
      requires Valid()
    {
      forall i :: 0 <= i < consumerCount ==> write - cursors[i] < slots.Length
    }

    constructor (capacity: nat, maxConsumers: nat)
      requires capacity > 0
      ensures Valid() && fresh(slots) && fresh(cursors)
      ensures slots.Length == capacity && cursors.Length == maxConsumers
      ensures published == [] && consumerCount == 0 && cachedMin == 0
    {
      slots := new T[capacity];
      cursors := new nat[maxConsumers](_ => 0);
      write, cachedMin, consumerCount, published := 0, 0, 0, [];
    }

    /**
     Hands out the next cursor, which stands at 0. A reader that registers late is safe exactly
     while nothing has been overwritten and the gate has not moved; before the first publish always.
     */
    method RegisterConsumer() returns (id: nat)
      requires Valid() && consumerCount < cursors.Length
      modifies this`consumerCount
      ensures id == old(consumerCount) && consumerCount == id + 1 && cursors[id] == 0
      ensures Valid() <==> write <= slots.Length && cachedMin == 0
    {
      id := consumerCount;
      consumerCount := consumerCount + 1;
    }

    /** The slowest registered cursor, or the write cursor when nobody registered. */
    method ScanMinConsumerCursor() returns (min: nat)
      requires Valid()
      ensures forall i :: 0 <= i < consumerCount ==> min <= cursors[i]
      ensures if consumerCount == 0 then min == write else exists i :: 0 <= i < consumerCount && min == cursors[i]
    {
      if consumerCount == 0 {
        return write;
      }
      min := cursors[0];
      var i := 1;
      while i < consumerCount
        invariant 1 <= i <= consumerCount
        invariant forall j :: 0 <= j < i ==> min <= cursors[j]
        invariant exists j :: 0 <= j < i && min == cursors[j]
      {
        if cursors[i] < min {
          min := cursors[i];
        }
        i := i + 1;
      }
    }

    /** Accepts exactly when the eager check would, and then appends the item; otherwise publishes nothing. */
    method TryPublish(item: T) returns (ok: bool)
      requires Valid()
      modifies this, slots
      ensures Valid()
      ensures consumerCount == old(consumerCount)
      ensures ok <==> old(HasRoom())
      ensures published == if ok then old(published) + [item] else old(published)
    {
      if write - cachedMin >= slots.Length {
        cachedMin := ScanMinConsumerCursor();
        if write - cachedMin >= slots.Length {
          return false;
        }
      }
      Store(item);
      return true;
    }

    /** The store and the cursor move, once every reader is known to be less than a ring behind. */
    method Store(item: T)
      requires Valid() && HasRoom()
      modifies this`write, this`published, slots
      ensures Valid()
      ensures published == old(published) + [item]
    {
      ghost var before, cap := slots[..], slots.Length;
      slots[write % slots.Length] := item;
      published := published + [item];
      write := write + 1;
      forall k | 0 <= k < write && write - cap <= k ensures slots[k % cap] == published[k] {
        if k < write - 1 {
          SlotApart(k, write - 1, cap);
          assert slots[k % cap] == before[k % cap];
        }
      }
    }

    /** Hands a reader the item at its cursor, or nothing when it has caught up. */
    method TryConsume(id: nat) returns (got: Option<T>)
      requires Valid() && id < consumerCount
      modifies cursors
      ensures Valid()
      ensures got.None? <==> old(cursors[id]) == write
      ensures got.Some? ==> got.value == published[old(cursors[id])]
      ensures cursors[id] == old(cursors[id]) + if got.Some? then 1 else 0
      ensures forall i :: 0 <= i < cursors.Length && i != id ==> cursors[i] == old(cursors[i])
    {
      var read := cursors[id];
      if read >= write {
        return None;
      }
      got := Some(slots[read % slots.Length]);
      cursors[id] := read + 1;
    }
  }
}
