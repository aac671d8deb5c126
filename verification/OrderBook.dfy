/**
 The order book as it runs (include/order_book.hpp): level maps of queued pool slots, an
 id index, and an object pool. Every operation is proved against its effect in module Books.
 */
module OrderBooks {
  import opened Types
  import opened Matching
  import opened Books
  import opened ObjectPools
  import opened LevelMaps
  import opened BookIndexes
  import opened BookStores

  class OrderBook {
    const pool: ObjectPool<Order>
    var bids: seq<Level>
    var asks: seq<Level>
    var locate: Index

    /** Levels and pool agree: every slot is queued once at its order's side and price, or is free. */
    ghost predicate Sound()
      reads this, pool, pool.storage, pool.nextFree
    {
      && pool.Valid()
      && Solid(bids) && Solid(asks)
      && Held(Buy, bids, asks, pool.storage[..], pool.free)
    }

    /** What holds as long as every id is fresh when it is added: the book is well formed and the index is the book's. */
    ghost predicate Valid()
      reads this, pool, pool.storage, pool.nextFree
    {
      Sound() && WellFormed(View()) && Indexed(locate, View().bids, View().asks)
    }

    /** The book as a value. */
    ghost function View(): Book
      reads this, pool, pool.storage
      requires LevelsOk(Buy, bids, pool.storage[..]) && LevelsOk(Sell, asks, pool.storage[..])
    {
      Book(Flat(Buy, bids, pool.storage[..]), Flat(Sell, asks, pool.storage[..]))
    }

    constructor (poolCapacity: nat)
      ensures Valid() && fresh(pool) && fresh(pool.storage) && fresh(pool.nextFree)
      ensures pool.storage.Length == poolCapacity
      ensures View() == Book([], [])
    {
      pool := new ObjectPool<Order>(poolCapacity);
      bids, asks, locate := [], [], map[];
      new;
      EmptyHeld(pool.storage[..], pool.free);
    }

    /** One round of the inner loop: the front order of the front level trades. */
    method FillFrontOrder(ghost same: seq<Level>, levels: seq<Level>, taker: Order)
      returns (opp: seq<Level>, left: Qty, trade: Trade)
      requires pool.Valid()
      requires Held(taker.side, same, levels, pool.storage[..], pool.free)
      requires levels != [] && levels[0].queue != []
      requires taker.qty > 0 && Crosses(taker.side, levels[0].price, taker.price)
      modifies this`locate, pool, pool.storage, pool.nextFree
      ensures pool.Valid()
      ensures Held(taker.side, same, opp, pool.storage[..], pool.free)
      ensures Flat(taker.side, same, pool.storage[..]) == old(Flat(taker.side, same, pool.storage[..]))
      ensures Continues(Match(old(Flat(Opposite(taker.side), levels, pool.storage[..])), taker), [trade],
                        Match(Flat(Opposite(taker.side), opp, pool.storage[..]), taker.(qty := left)))
      ensures locate - UsedUp(Flat(Opposite(taker.side), opp, pool.storage[..]), taker.(qty := left))
              == old(locate - UsedUp(Flat(Opposite(taker.side), levels, pool.storage[..]), taker))
      ensures opp != [] && opp[0].price == levels[0].price && opp[1..] == levels[1..]
      ensures opp[0].queue == levels[0].queue[1..] || (opp[0].queue == levels[0].queue && left == 0)
    {
      ghost var store, free, index := pool.storage[..], pool.free, locate;
      FrontInUse(taker.side, same, levels, store, free);
      var slot := levels[0].queue[0];
      var resting := pool.storage[slot];
      var fill := Min(taker.qty, resting.qty);
      trade := if taker.side.Buy?
               then Trade(taker.id, resting.id, levels[0].price, fill, taker.ts)
               else Trade(resting.id, taker.id, levels[0].price, fill, taker.ts);
      left := taker.qty - fill;
      pool.storage[slot] := resting.(qty := resting.qty - fill);
      if resting.qty == fill {
        locate := locate - {resting.id};
        pool.Release(slot);
        opp := [Level(levels[0].price, levels[0].queue[1..])] + levels[1..];
        FullRound(same, levels, taker, store, free, pool.storage[..], trade, opp, pool.free, left);
        MinusTwice(index, {resting.id}, UsedUp(Flat(Opposite(taker.side), opp, pool.storage[..]), taker.(qty := left)));
      } else {
        opp := levels;
        PartialRound(same, levels, taker, store, free, pool.storage[..], trade);
      }
    }

    /** The inner loop: the front level trades until it or the taker is used up. */
    method MatchLevel(ghost same: seq<Level>, levels: seq<Level>, taker: Order)
      returns (opp: seq<Level>, qty: Qty, made: seq<Trade>)
      requires pool.Valid()
      requires Held(taker.side, same, levels, pool.storage[..], pool.free)
      requires levels != [] && Crosses(taker.side, levels[0].price, taker.price)
      modifies this`locate, pool, pool.storage, pool.nextFree
      ensures pool.Valid()
      ensures Held(taker.side, same, opp, pool.storage[..], pool.free)
      ensures Flat(taker.side, same, pool.storage[..]) == old(Flat(taker.side, same, pool.storage[..]))
      ensures Continues(Match(old(Flat(Opposite(taker.side), levels, pool.storage[..])), taker), made,
                        Match(Flat(Opposite(taker.side), opp, pool.storage[..]), taker.(qty := qty)))
      ensures locate - UsedUp(Flat(Opposite(taker.side), opp, pool.storage[..]), taker.(qty := qty))
              == old(locate - UsedUp(Flat(Opposite(taker.side), levels, pool.storage[..]), taker))
      ensures opp != [] && opp[1..] == levels[1..]
      ensures opp[0].queue == [] || qty == 0
    {
      opp, qty, made := levels, taker.qty, [];
      ghost var index := locate - UsedUp(Flat(Opposite(taker.side), levels, pool.storage[..]), taker);
      ghost var goal := Match(Flat(Opposite(taker.side), opp, pool.storage[..]), taker);
      ghost var kept := Flat(taker.side, same, pool.storage[..]);
      while qty > 0 && opp[0].queue != []
        invariant opp != [] && opp[0].price == levels[0].price && opp[1..] == levels[1..]
        invariant pool.Valid()
        invariant Held(taker.side, same, opp, pool.storage[..], pool.free)
        invariant Flat(taker.side, same, pool.storage[..]) == kept
        invariant Continues(goal, made,
                            Match(Flat(Opposite(taker.side), opp, pool.storage[..]), taker.(qty := qty)))
        invariant locate - UsedUp(Flat(Opposite(taker.side), opp, pool.storage[..]), taker.(qty := qty)) == index
        decreases |opp[0].queue|, qty
      {
        ghost var mid := Match(Flat(Opposite(taker.side), opp, pool.storage[..]), taker.(qty := qty));
        var trade;
        opp, qty, trade := FillFrontOrder(same, opp, taker.(qty := qty));
        ContinuesTransitive(goal, made, mid, [trade],
                            Match(Flat(Opposite(taker.side), opp, pool.storage[..]), taker.(qty := qty)));
        made := made + [trade];
      }
    }

    /** One round of the outer loop: the front level trades, and is dropped when its queue has run empty. */
    method MatchFrontLevel(ghost same: seq<Level>, levels: seq<Level>, taker: Order)
      returns (opp: seq<Level>, qty: Qty, made: seq<Trade>)
      requires pool.Valid() && Solid(levels)
      requires Held(taker.side, same, levels, pool.storage[..], pool.free)
      requires levels != [] && Crosses(taker.side, levels[0].price, taker.price)
      modifies this`locate, pool, pool.storage, pool.nextFree
      ensures pool.Valid() && Solid(opp)
      ensures Held(taker.side, same, opp, pool.storage[..], pool.free)
      ensures Flat(taker.side, same, pool.storage[..]) == old(Flat(taker.side, same, pool.storage[..]))
      ensures Continues(Match(old(Flat(Opposite(taker.side), levels, pool.storage[..])), taker), made,
                        Match(Flat(Opposite(taker.side), opp, pool.storage[..]), taker.(qty := qty)))
      ensures locate - UsedUp(Flat(Opposite(taker.side), opp, pool.storage[..]), taker.(qty := qty))
              == old(locate - UsedUp(Flat(Opposite(taker.side), levels, pool.storage[..]), taker))
      ensures |opp| < |levels| || (|opp| == |levels| && qty == 0)
    {
      opp, qty, made := MatchLevel(same, levels, taker);
      StillSolid(levels, opp);
      if opp[0].queue == [] {
        DropEmptyFront(taker.side, same, opp, pool.storage[..], pool.free);
        opp := opp[1..];
      }
    }

    /**
     The nested level and queue loops: the trades, the unfilled quantity and what is left of
     the opposite side are those of the greedy fold over its flat list.
     */
    method MatchAgainst(ghost same: seq<Level>, opposite: seq<Level>, taker: Order, tradesOut: seq<Trade>)
      returns (opp: seq<Level>, qty: Qty, trades: seq<Trade>)
      requires pool.Valid() && Solid(opposite)
      requires Held(taker.side, same, opposite, pool.storage[..], pool.free)
      modifies this`locate, pool, pool.storage, pool.nextFree
      ensures pool.Valid() && Solid(opp)
      ensures Held(taker.side, same, opp, pool.storage[..], pool.free)
      ensures Flat(taker.side, same, pool.storage[..]) == old(Flat(taker.side, same, pool.storage[..]))
      ensures var r := Match(old(Flat(Opposite(taker.side), opposite, pool.storage[..])), taker);
              && trades == tradesOut + r.trades
              && qty == r.left
              && Flat(Opposite(taker.side), opp, pool.storage[..]) == r.rest
      ensures locate == old(locate - UsedUp(Flat(Opposite(taker.side), opposite, pool.storage[..]), taker))
    {
      opp, qty := opposite, taker.qty;
      var made: seq<Trade> := [];
      ghost var side := Opposite(taker.side);
      ghost var goal := Match(Flat(side, opp, pool.storage[..]), taker);
      ghost var kept := Flat(taker.side, same, pool.storage[..]);
      ghost var index := locate - UsedUp(Flat(side, opp, pool.storage[..]), taker);
      while qty > 0 && opp != []
        invariant pool.Valid() && Solid(opp)
        invariant Held(taker.side, same, opp, pool.storage[..], pool.free)
        invariant Flat(taker.side, same, pool.storage[..]) == kept
        invariant Continues(goal, made, Match(Flat(side, opp, pool.storage[..]), taker.(qty := qty)))
        invariant locate - UsedUp(Flat(side, opp, pool.storage[..]), taker.(qty := qty)) == index
        decreases |opp|, qty
      {
        if !Crosses(taker.side, opp[0].price, taker.price) {
          FrontOrder(side, opp, pool.storage[..]);
          break;
        }
        ghost var mid := Match(Flat(side, opp, pool.storage[..]), taker.(qty := qty));
        var more;
        opp, qty, more := MatchFrontLevel(same, opp, taker.(qty := qty));
        ContinuesTransitive(goal, made, mid, more, Match(Flat(side, opp, pool.storage[..]), taker.(qty := qty)));
        made := made + more;
      }
      trades := tradesOut + made;
    }

    /** Queues the remainder behind its price, or silently drops it when the pool is exhausted. */
    method Rest(same: seq<Level>, ghost opp: seq<Level>, order: Order) returns (same': seq<Level>)
      requires pool.Valid() && Solid(same)
      requires Held(order.side, same, opp, pool.storage[..], pool.free)
      modifies this`locate, pool, pool.storage
      ensures pool.Valid() && Solid(same')
      ensures Held(order.side, same', opp, pool.storage[..], pool.free)
      ensures Flat(Opposite(order.side), opp, pool.storage[..])
              == old(Flat(Opposite(order.side), opp, pool.storage[..]))
      ensures Flat(order.side, same', pool.storage[..])
              == if old(pool.free) == [] then old(Flat(order.side, same, pool.storage[..]))
                 else Insert(order.side, old(Flat(order.side, same, pool.storage[..])), order)
      ensures locate == if old(pool.free) == [] then old(locate) else old(locate)[order.id := (order.side, order.price)]
    {
      ghost var store, free := pool.storage[..], pool.free;
      var slot := pool.Acquire(order);
      if slot == -1 {
        return same;
      }
      same' := PushBack(order.side, same, order.price, slot);
      locate := locate[order.id := (order.side, order.price)];
      assert pool.free == free[1..] && pool.storage[..] == store[slot := order];
      RestRound(order.side, same, opp, store, free, order, same', pool.storage[..], pool.free);
    }

    /** Matching against the opposite side, then resting what is left on the order's own side. */
    method MatchAndRest(same: seq<Level>, opp: seq<Level>, taker: Order, tradesOut: seq<Trade>)
      returns (same': seq<Level>, opp': seq<Level>, trades: seq<Trade>)
      requires pool.Valid() && Solid(same) && Solid(opp)
      requires Held(taker.side, same, opp, pool.storage[..], pool.free)
      modifies this`locate, pool, pool.storage, pool.nextFree
      ensures pool.Valid() && Solid(same') && Solid(opp')
      ensures Held(taker.side, same', opp', pool.storage[..], pool.free)
      ensures var r := Add(pool.storage.Length, old(Pair(taker.side, same, opp, pool.storage[..])), taker);
              && trades == tradesOut + r.trades
              && Pair(taker.side, same', opp', pool.storage[..]) == r.book
      ensures locate == AddIndex(pool.storage.Length, old(Pair(taker.side, same, opp, pool.storage[..])), taker, old(locate))
    {
      same' := same;
      var qty;
      opp', qty, trades := MatchAgainst(same, opp, taker, tradesOut);
      if qty > 0 {
        PoolFull(taker.side, same, opp', pool.storage[..], pool.free);
        same' := Rest(same, opp', taker.(qty := qty));
      }
    }

    /** A buy matches the asks and rests on the bids. */
    method PlaceBuy(taker: Order, tradesOut: seq<Trade>) returns (trades: seq<Trade>)
      requires Sound() && taker.side == Buy
      modifies this, pool, pool.storage, pool.nextFree
      ensures Sound()
      ensures var r := Add(pool.storage.Length, old(View()), taker);
              View() == r.book && trades == tradesOut + r.trades
      ensures locate == AddIndex(pool.storage.Length, old(View()), taker, old(locate))
    {
      var same, opp;
      same, opp, trades := MatchAndRest(bids, asks, taker, tradesOut);
      ghost var store := pool.storage[..];
      bids, asks := same, opp;
      assert pool.storage[..] == store;
    }

    /** A sell matches the bids and rests on the asks. */
    method PlaceSell(taker: Order, tradesOut: seq<Trade>) returns (trades: seq<Trade>)
      requires Sound() && taker.side == Sell
      modifies this, pool, pool.storage, pool.nextFree
      ensures Sound()
      ensures var r := Add(pool.storage.Length, old(View()), taker);
              View() == r.book && trades == tradesOut + r.trades
      ensures locate == AddIndex(pool.storage.Length, old(View()), taker, old(locate))
    {
      var same, opp;
      HeldView(Buy, bids, asks, pool.storage[..], pool.free);
      same, opp, trades := MatchAndRest(asks, bids, taker, tradesOut);
      ghost var store := pool.storage[..];
      HeldView(Sell, same, opp, store, pool.free);
      asks, bids := same, opp;
      assert pool.storage[..] == store;
    }

    /**
     Adds a limit order under any id: the book and the appended trades are those of the abstract
     Add, which drops the remainder exactly when every slot of the pool holds a resting order,
     and the index moves with it. A fresh id keeps the book well formed and the index exact.
     */
    method AddLimitOrder(id: OrderId, side: Side, price: Price, qty: Qty, ts: Nanos, tradesOut: seq<Trade>)
      returns (trades: seq<Trade>)
      requires Sound()
      modifies this, pool, pool.storage, pool.nextFree
      ensures Sound()
      ensures var r := Add(pool.storage.Length, old(View()), Order(id, side, price, qty, ts));
              View() == r.book && trades == tradesOut + r.trades
      ensures locate == AddIndex(pool.storage.Length, old(View()), Order(id, side, price, qty, ts), old(locate))
      ensures old(Valid() && id !in View().AllIds()) ==> Valid()
    {
      ghost var before, index, order := View(), locate, Order(id, side, price, qty, ts);
      if Valid() && id !in before.AllIds() {
        AddKeepsWellFormed(pool.storage.Length, before, order);
        AddKeepsIndexed(pool.storage.Length, before, order, index);
      }
      if side.Buy? {
        trades := PlaceBuy(Order(id, side, price, qty, ts), tradesOut);
      } else {
        trades := PlaceSell(Order(id, side, price, qty, ts), tradesOut);
      }
    }

    /** Finds the first order of this id in the queue of its price, releases its slot and drops an emptied level. */
    method RemoveFrom(side: Side, same: seq<Level>, ghost opp: seq<Level>, price: Price, id: OrderId)
      returns (same': seq<Level>, removed: bool)
      requires pool.Valid() && Solid(same)
      requires Held(side, same, opp, pool.storage[..], pool.free)
      modifies pool, pool.nextFree
      ensures pool.Valid() && Solid(same')
      ensures pool.storage[..] == old(pool.storage[..])
      ensures Held(side, same', opp, pool.storage[..], pool.free)
      ensures removed <==> HasAt(old(Flat(side, same, pool.storage[..])), id, price)
      ensures Flat(side, same', pool.storage[..]) == RemoveAt(old(Flat(side, same, pool.storage[..])), id, price)
    {
      ghost var store := pool.storage[..];
      var k := FindLevel(same, price);
      if k == |same| {
        OnlyInLevel(side, same, store, id, price);
        return same, false;
      }
      assert LevelOk(side, same[k], store);
      var queue := same[k].queue;
      for i := 0 to |queue|
        invariant forall j :: 0 <= j < i ==> pool.storage[queue[j]].id != id
        invariant pool.Valid() && pool.free == old(pool.free)
        invariant pool.storage[..] == store
      {
        if pool.storage[queue[i]].id == id {
          RemoveRound(side, same, opp, store, pool.free, k, i);
          pool.Release(queue[i]);
          var queue' := queue[..i] + queue[i + 1..];
          same' := if queue' == [] then same[..k] + same[k + 1..] else same[k := Level(same[k].price, queue')];
          return same', true;
        }
      }
      OnlyInLevel(side, same, store, id, price);
      return same, false;
    }

    /** Takes a bid out of its level. */
    method TakeBid(price: Price, id: OrderId) returns (removed: bool)
      requires Sound()
      modifies this`bids, pool, pool.nextFree
      ensures Sound()
      ensures removed <==> HasAt(old(View()).bids, id, price)
      ensures View() == old(View()).With(Buy, RemoveAt(old(View()).bids, id, price))
    {
      ghost var store := pool.storage[..];
      var levels;
      levels, removed := RemoveFrom(Buy, bids, asks, price, id);
      bids := levels;
      assert pool.storage[..] == store;
    }

    /** Takes an ask out of its level. */
    method TakeAsk(price: Price, id: OrderId) returns (removed: bool)
      requires Sound()
      modifies this`asks, pool, pool.nextFree
      ensures Sound()
      ensures removed <==> HasAt(old(View()).asks, id, price)
      ensures View() == old(View()).With(Sell, RemoveAt(old(View()).asks, id, price))
    {
      ghost var store := pool.storage[..];
      var levels;
      HeldView(Buy, bids, asks, store, pool.free);
      levels, removed := RemoveFrom(Sell, asks, bids, price, id);
      HeldView(Sell, levels, bids, store, pool.free);
      asks := levels;
      assert pool.storage[..] == store;
    }

    /** Drops an id from the index, which does not touch the book. */
    method Forget(id: OrderId)
      requires Sound()
      modifies this`locate
      ensures Sound() && View() == old(View()) && locate == old(locate) - {id}
    {
      ghost var store := pool.storage[..];
      locate := locate - {id};
      assert pool.storage[..] == store;
    }

    /** Follows the index to the order and takes it out of its level. */
    method TakeAt(id: OrderId) returns (removed: bool)
      requires Sound()
      modifies this`bids, this`asks, pool, pool.nextFree
      ensures Sound()
      ensures removed <==> Leads(old(View()), locate, id)
      ensures View() == Followed(old(View()), locate, id)
    {
      if id !in locate {
        return false;
      }
      var (side, price) := locate[id];
      if side.Buy? {
        removed := TakeBid(price, id);
      } else {
        removed := TakeAsk(price, id);
      }
    }

    /**
     Removes the order the index leads to, if it is there. As long as ids were fresh that is the
     order of this id, wherever it rests.
     */
    method Cancel(id: OrderId) returns (removed: bool)
      requires Sound()
      modifies this, pool, pool.nextFree
      ensures Sound()
      ensures removed <==> Leads(old(View()), old(locate), id)
      ensures View() == Followed(old(View()), old(locate), id)
      ensures locate == Dropped(old(View()), old(locate), id)
      ensures old(Valid()) ==>
                && Valid() && (removed <==> id in old(View()).AllIds())
                && View() == Books.Cancel(old(View()), id)
    {
      if Valid() {
        CancelLawful(locate, View(), id);
      }
      removed := TakeAt(id);
      if removed {
        Forget(id);
      }
    }

    /** Best price of a side and the quantity queued at it, in a 32-bit counter, if there is any order. */
    method BestOf(side: Side) returns (best: Option<(Price, Qty)>)
      requires Sound()
      ensures best.None? <==> View().On(side) == []
      ensures best.Some? ==>
                && View().On(side)[0].price == best.value.0
                && (forall i :: 0 <= i < |View().On(side)| ==>
                      if side.Buy? then View().On(side)[i].price <= best.value.0
                      else View().On(side)[i].price >= best.value.0)
                && best.value.1 == QtyAt(View().On(side), best.value.0) % TWO_32
    {
      var levels := if side.Buy? then bids else asks;
      if levels == [] {
        return None;
      }
      ghost var store := pool.storage[..];
      FrontIsBest(side, levels, store);
      FrontQty(side, levels, store);
      var qty := LevelQty(levels[0].queue);
      best := Some((levels[0].price, qty));
    }

    /** The quantity queued at one level, summed in a 32-bit counter. */
    method LevelQty(queue: seq<nat>) returns (qty: Qty)
      requires InRange(queue, pool.storage.Length)
      ensures qty == SumQty(Load(queue, pool.storage[..])) % TWO_32
    {
      ghost var store := pool.storage[..];
      qty := 0;
      for i := 0 to |queue|
        invariant qty == SumQty(Load(queue[..i], store)) % TWO_32
      {
        LoadNext(queue, store, i);
        Wraps(SumQty(Load(queue[..i], store)), store[queue[i]].qty);
        qty := Add32(qty, pool.storage[queue[i]].qty);
      }
      assert queue[..|queue|] == queue;
    }

    /** As long as ids were fresh, the number of indexed ids is the number of resting orders, and of pool slots in use. */
    method RestingOrders() returns (n: nat)
      requires Sound()
      ensures Valid() ==> n == View().Resting() <= pool.storage.Length
      ensures Valid() ==> n == pool.storage.Length - |pool.free|
    {
      n := |locate|;
      if Valid() {
        OwnsMeans(Slots(bids), Slots(asks), pool.free, pool.storage.Length);
        IndexSize(locate, View().bids, View().asks);
      }
    }
  }

  /**
   Who owns the pool: the free chain and the queues of both sides share out the slots, each slot
   in exactly one place, so the orders resting and the slots free add up to the capacity.
   */
  lemma {:induction false} SlotOwnership(book: OrderBook)
    requires book.Sound()
    ensures var used, free := Slots(book.bids) + Slots(book.asks), book.pool.free;
            && NoDup(used) && NoDup(free)
            && (forall k :: 0 <= k < book.pool.storage.Length ==> (k in used <==> k !in free))
            && book.View().Resting() + |free| == book.pool.storage.Length == |used| + |free|
  {
    OwnsMeans(Slots(book.bids), Slots(book.asks), book.pool.free, book.pool.storage.Length);
    NoDupConcat(Slots(book.bids), Slots(book.asks));
  }

  lemma {:induction false} NoDupConcat(s: seq<nat>, t: seq<nat>)
    requires NoDup(s) && NoDup(t) && forall k :: k in s ==> k !in t
    ensures NoDup(s + t)
  {
    forall i, j | 0 <= i < j < |s + t| ensures (s + t)[i] != (s + t)[j] {
      if i < |s| <= j {
        assert s[i] in s && t[j - |s|] in t;
      }
    }
  }
}
