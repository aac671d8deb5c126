/**
 How the order book is stored, on values: who owns which pool slot, what the id index holds,
 and what one round of matching, one insertion and one removal do to the stored form and to
 the flat book it stands for.
 */
module BookStores {
  import opened Types
  import opened Matching
  import opened Books
  import opened ObjectPools
  import opened LevelMaps
  import opened BookIndexes

  /** Every slot below n is queued once, on one side, or is on the free chain once. */
  ghost predicate Owns(a: seq<nat>, b: seq<nat>, free: seq<nat>, n: nat) {
    multiset(a) + multiset(b) + multiset(free) == multiset(Iota(n))
  }

  /** The stored form of both sides; a level may be empty while it is being matched. */
  ghost predicate Held(side: Side, same: seq<Level>, opp: seq<Level>, store: seq<Order>, free: seq<nat>) {
    && LevelsOk(side, same, store)
    && LevelsOk(Opposite(side), opp, store)
    && Owns(Slots(same), Slots(opp), free, |store|)
  }

  lemma {:induction false} HeldView(side: Side, same: seq<Level>, opp: seq<Level>, store: seq<Order>, free: seq<nat>)
    ensures Held(side, same, opp, store, free) <==> Held(Opposite(side), opp, same, store, free)
  {
    assert Opposite(Opposite(side)) == side;
  }

  lemma EmptyHeld(store: seq<Order>, free: seq<nat>)
    requires free == Iota(|store|)
    ensures Held(Buy, [], [], store, free) && Flat(Buy, [], store) == Flat(Sell, [], store) == []
  {
  }

  // ---------- slot ownership ----------

  lemma {:induction false} IotaCount(n: nat, k: nat)
    ensures multiset(Iota(n))[k] == if k < n then 1 else 0
  {
    var s := Iota(n);
    if k < n {
      assert s == s[..k] + [k] + s[k + 1..];
      assert k !in s[..k] && k !in s[k + 1..];
    }
  }

  /** Ownership spelled out: a partition of the slots, without repetition. */
  lemma {:induction false} OwnsMeans(a: seq<nat>, b: seq<nat>, free: seq<nat>, n: nat)
    requires Owns(a, b, free, n)
    ensures NoDup(a) && NoDup(b) && NoDup(free)
    ensures forall k :: k in a ==> k < n && k !in b && k !in free
    ensures forall k :: k in b ==> k < n && k !in free
    ensures forall k :: k in free ==> k < n
    ensures forall k :: 0 <= k < n ==> k in a || k in b || k in free
    ensures |a| + |b| + |free| == n
  {
    forall k: nat
      ensures multiset(a)[k] + multiset(b)[k] + multiset(free)[k] == if k < n then 1 else 0
    {
      IotaCount(n, k);
    }
    forall k | 0 <= k < n ensures k in a || k in b || k in free {
      assert multiset(a)[k] + multiset(b)[k] + multiset(free)[k] == 1;
    }
    assert |multiset(a) + multiset(b) + multiset(free)| == n;
    CountOnce(a);
    CountOnce(b);
    CountOnce(free);
  }

  /** The chain is empty exactly when the queued orders take up the store. */
  lemma {:induction false} PoolFull(side: Side, same: seq<Level>, opp: seq<Level>, store: seq<Order>, free: seq<nat>)
    requires Held(side, same, opp, store, free)
    ensures |Flat(side, same, store)| + |Flat(Opposite(side), opp, store)| + |free| == |store|
  {
    OwnsMeans(Slots(same), Slots(opp), free, |store|);
  }

  lemma {:induction false} CountOnce(s: seq<nat>)
    requires forall k :: k in s ==> multiset(s)[k] <= 1
    ensures NoDup(s)
  {
    forall i, j | 0 <= i < j < |s| ensures s[i] != s[j] {
      assert s == s[..j] + [s[j]] + s[j + 1..];
      assert s[i] == s[..j][i] && s[i] in multiset(s[..j]);
      assert multiset(s)[s[i]] == multiset(s[..j])[s[i]] + multiset([s[j]])[s[i]] + multiset(s[j + 1..])[s[i]];
    }
  }

  lemma {:induction false} OwnsPop(a: seq<nat>, b: seq<nat>, free: seq<nat>, n: nat)
    requires Owns(a, b, free, n) && b != []
    ensures Owns(a, b[1..], [b[0]] + free, n)
  {
    assert b == [b[0]] + b[1..];
  }

  lemma {:induction false} OwnsRemove(a: seq<nat>, b: seq<nat>, free: seq<nat>, n: nat, f: nat)
    requires Owns(b, a, free, n) && f < |b|
    ensures Owns(b[..f] + b[f + 1..], a, [b[f]] + free, n)
  {
    assert b == b[..f] + [b[f]] + b[f + 1..];
  }

  lemma {:induction false} OwnsPush(a: seq<nat>, b: seq<nat>, free: seq<nat>, n: nat, k: nat)
    requires Owns(a, b, free, n) && free != [] && k <= |a|
    ensures Owns(a[..k] + [free[0]] + a[k..], b, free[1..], n)
  {
    assert free == [free[0]] + free[1..];
    assert a == a[..k] + a[k..];
  }

  // ---------- one round of matching, on values ----------

  /** Changing the quantity in one slot changes that one order and nothing else. */
  lemma {:induction false} RequantifyOther(side: Side, ls: seq<Level>, store: seq<Order>, slot: nat, q: Qty)
    requires LevelsOk(side, ls, store) && slot < |store|
    ensures var store' := store[slot := store[slot].(qty := q)];
            && LevelsOk(side, ls, store')
            && (slot !in Slots(ls) ==> Flat(side, ls, store') == Flat(side, ls, store))
  {
    var store' := store[slot := store[slot].(qty := q)];
    forall i | 0 <= i < |ls| ensures LevelOk(side, ls[i], store') {
      assert LevelOk(side, ls[i], store);
    }
    if slot !in Slots(ls) {
      LevelsInRange(side, ls, store);
      forall i | 0 <= i < |Slots(ls)| ensures store'[Slots(ls)[i]] == store[Slots(ls)[i]] {
        assert Slots(ls)[i] in Slots(ls);
      }
    }
  }

  lemma {:induction false} RequantifyFront(side: Side, ls: seq<Level>, store: seq<Order>, q: Qty)
    requires LevelsOk(side, ls, store) && NoDup(Slots(ls)) && Slots(ls) != []
    ensures Slots(ls)[0] < |store|
    ensures var store' := store[Slots(ls)[0] := store[Slots(ls)[0]].(qty := q)];
            var s := Flat(side, ls, store);
            && LevelsOk(side, ls, store')
            && Flat(side, ls, store') == [s[0].(qty := q)] + s[1..]
  {
    LevelsInRange(side, ls, store);
    var slot := Slots(ls)[0];
    RequantifyOther(side, ls, store, slot, q);
    var s, s' := Flat(side, ls, store), Flat(side, ls, store[slot := store[slot].(qty := q)]);
    forall i | 0 < i < |s| ensures s'[i] == s[i] {
      assert Slots(ls)[i] != slot;
    }
  }

  /** The front order of the opposite side takes a new quantity. */
  lemma {:induction false} FillFront(side: Side, same: seq<Level>, opp: seq<Level>, store: seq<Order>,
                                     free: seq<nat>, q: Qty)
    requires Held(side, same, opp, store, free) && Slots(opp) != []
    ensures Slots(opp)[0] < |store| && Slots(opp)[0] !in free
    ensures var store' := store[Slots(opp)[0] := store[Slots(opp)[0]].(qty := q)];
            var s := Flat(Opposite(side), opp, store);
            && Held(side, same, opp, store', free)
            && Flat(Opposite(side), opp, store') == [s[0].(qty := q)] + s[1..]
            && Flat(side, same, store') == Flat(side, same, store)
  {
    OwnsMeans(Slots(same), Slots(opp), free, |store|);
    var slot := Slots(opp)[0];
    assert slot in Slots(opp);
    RequantifyOther(side, same, store, slot, q);
    RequantifyFront(Opposite(side), opp, store, q);
  }

  /** The front order of the opposite side leaves: its slot goes back to the pool. */
  lemma {:induction false} PopFront(side: Side, same: seq<Level>, opp: seq<Level>, store: seq<Order>, free: seq<nat>)
    requires Held(side, same, opp, store, free)
    requires opp != [] && opp[0].queue != []
    ensures var opp' := [Level(opp[0].price, opp[0].queue[1..])] + opp[1..];
            var s := Flat(Opposite(side), opp, store);
            && s != []
            && Held(side, same, opp', store, [opp[0].queue[0]] + free)
            && Flat(Opposite(side), opp', store) == s[1..]
  {
    var opp' := [Level(opp[0].price, opp[0].queue[1..])] + opp[1..];
    assert opp'[1..] == opp[1..];
    assert Slots(opp') == Slots(opp)[1..];
    OwnsPop(Slots(same), Slots(opp), free, |store|);
    forall i | 0 <= i < |opp'| ensures LevelOk(Opposite(side), opp'[i], store) {
      assert LevelOk(Opposite(side), opp[i], store);
    }
  }

  /** `goal` is `done` followed by what `rest` still does. */
  ghost predicate Continues(goal: Fills, done: seq<Trade>, rest: Fills) {
    goal.trades == done + rest.trades && goal.left == rest.left && goal.rest == rest.rest
  }

  lemma {:induction false} ContinuesTransitive(goal: Fills, done: seq<Trade>, mid: Fills, more: seq<Trade>, rest: Fills)
    requires Continues(goal, done, mid) && Continues(mid, more, rest)
    ensures Continues(goal, done + more, rest)
  {
    assert done + (more + rest.trades) == done + more + rest.trades;
  }

  /** One unfolding of the greedy fold. */
  lemma {:induction false} MatchFront(flat: seq<Order>, taker: Order)
    requires flat != [] && taker.qty > 0 && Crosses(taker.side, flat[0].price, taker.price)
    ensures var fill := Min(taker.qty, flat[0].qty);
            var flat' := if fill == flat[0].qty then flat[1..]
                         else [flat[0].(qty := flat[0].qty - fill)] + flat[1..];
            Continues(Match(flat, taker), [TradeOf(taker, flat[0], fill)],
                      Match(flat', taker.(qty := taker.qty - fill)))
  {
  }

  lemma {:induction false} FrontOrder(side: Side, ls: seq<Level>, store: seq<Order>)
    requires LevelsOk(side, ls, store) && ls != [] && ls[0].queue != []
    ensures Slots(ls) != [] && Slots(ls)[0] == ls[0].queue[0] < |store|
    ensures Flat(side, ls, store) != [] && Flat(side, ls, store)[0] == store[ls[0].queue[0]]
    ensures store[ls[0].queue[0]].price == ls[0].price
  {
    FlatHead(side, ls, store);
  }

  /** One round of the inner loop, on values: the front order keeps a remainder. */
  lemma {:induction false} PartialRound(same: seq<Level>, levels: seq<Level>, taker: Order, store: seq<Order>,
                                        free: seq<nat>, store': seq<Order>, trade: Trade)
    requires Held(taker.side, same, levels, store, free)
    requires levels != [] && levels[0].queue != [] && levels[0].queue[0] < |store|
    requires var maker := store[levels[0].queue[0]];
             && 0 < taker.qty < maker.qty
             && Crosses(taker.side, maker.price, taker.price)
             && trade == TradeOf(taker, maker, taker.qty)
             && store' == store[levels[0].queue[0] := maker.(qty := maker.qty - taker.qty)]
    ensures Held(taker.side, same, levels, store', free)
    ensures Flat(taker.side, same, store') == Flat(taker.side, same, store)
    ensures var flat, flat' := Flat(Opposite(taker.side), levels, store), Flat(Opposite(taker.side), levels, store');
            && Continues(Match(flat, taker), [trade], Match(flat', taker.(qty := 0)))
            && UsedUp(flat, taker) == UsedUp(flat', taker.(qty := 0))
  {
    FrontOrder(Opposite(taker.side), levels, store);
    FillFront(taker.side, same, levels, store, free, store[levels[0].queue[0]].qty - taker.qty);
    MatchFront(Flat(Opposite(taker.side), levels, store), taker);
  }

  /** The front order is used up and leaves: levels, slots and flat lists. */
  lemma {:induction false} FrontLeaves(side: Side, same: seq<Level>, levels: seq<Level>, store: seq<Order>,
                                       free: seq<nat>, store': seq<Order>, levels': seq<Level>)
    requires Held(side, same, levels, store, free)
    requires levels != [] && levels[0].queue != [] && levels[0].queue[0] < |store|
    requires store' == store[levels[0].queue[0] := store[levels[0].queue[0]].(qty := 0)]
    requires levels' == [Level(levels[0].price, levels[0].queue[1..])] + levels[1..]
    ensures Held(side, same, levels', store', [levels[0].queue[0]] + free)
    ensures Flat(side, same, store') == Flat(side, same, store)
    ensures var flat := Flat(Opposite(side), levels, store);
            flat != [] && flat[0] == store[levels[0].queue[0]] && Flat(Opposite(side), levels', store') == flat[1..]
  {
    FrontOrder(Opposite(side), levels, store);
    FillFront(side, same, levels, store, free, 0);
    PopFront(side, same, levels, store', free);
  }

  /** The fold, and the ids it uses up, go on behind a front order that is used up. */
  lemma {:induction false} FrontSettled(flat: seq<Order>, flat': seq<Order>, taker: Order, left: Qty, trade: Trade)
    requires flat != [] && flat' == flat[1..] && 0 < taker.qty && flat[0].qty <= taker.qty
    requires left == taker.qty - flat[0].qty && Crosses(taker.side, flat[0].price, taker.price)
    requires trade == TradeOf(taker, flat[0], flat[0].qty)
    ensures Continues(Match(flat, taker), [trade], Match(flat', taker.(qty := left)))
    ensures UsedUp(flat, taker) == {flat[0].id} + UsedUp(flat', taker.(qty := left))
  {
  }

  /** One round of the inner loop, on values: the front order is used up and leaves. */
  lemma {:induction false} FullRound(same: seq<Level>, levels: seq<Level>, taker: Order, store: seq<Order>,
                                     free: seq<nat>, store': seq<Order>, trade: Trade,
                                     levels': seq<Level>, free': seq<nat>, left: Qty)
    requires Held(taker.side, same, levels, store, free)
    requires levels != [] && levels[0].queue != [] && levels[0].queue[0] < |store|
    requires var slot := levels[0].queue[0];
             var maker := store[slot];
             && 0 < taker.qty && maker.qty <= taker.qty && left == taker.qty - maker.qty
             && Crosses(taker.side, maker.price, taker.price)
             && trade == TradeOf(taker, maker, maker.qty)
             && store' == store[slot := maker.(qty := 0)]
             && levels' == [Level(levels[0].price, levels[0].queue[1..])] + levels[1..]
             && free' == [slot] + free
    ensures Held(taker.side, same, levels', store', free')
    ensures Flat(taker.side, same, store') == Flat(taker.side, same, store)
    ensures var flat, flat' := Flat(Opposite(taker.side), levels, store), Flat(Opposite(taker.side), levels', store');
            && Continues(Match(flat, taker), [trade], Match(flat', taker.(qty := left)))
            && UsedUp(flat, taker) == {store[levels[0].queue[0]].id} + UsedUp(flat', taker.(qty := left))
  {
    FrontLeaves(taker.side, same, levels, store, free, store', levels');
    FrontSettled(Flat(Opposite(taker.side), levels, store), Flat(Opposite(taker.side), levels', store'), taker, left, trade);
  }

  lemma {:induction false} FrontInUse(side: Side, same: seq<Level>, opp: seq<Level>, store: seq<Order>, free: seq<nat>)
    requires Held(side, same, opp, store, free)
    requires opp != [] && opp[0].queue != []
    ensures opp[0].queue[0] < |store| && opp[0].queue[0] !in free
    ensures store[opp[0].queue[0]].price == opp[0].price
  {
    FrontOrder(Opposite(side), opp, store);
    OwnsMeans(Slots(same), Slots(opp), free, |store|);
    assert Slots(opp)[0] in Slots(opp);
  }

  /** Nothing on a side is priced better than its front level. */
  lemma {:induction false} FrontIsBest(side: Side, ls: seq<Level>, store: seq<Order>)
    requires LevelsOk(side, ls, store) && ls != [] && ls[0].queue != []
    ensures Flat(side, ls, store) != [] && Flat(side, ls, store)[0].price == ls[0].price
    ensures forall f :: 0 <= f < |Flat(side, ls, store)| ==> !Better(side, Flat(side, ls, store)[f].price, ls[0].price)
  {
    var s := Flat(side, ls, store);
    FrontOrder(side, ls, store);
    forall f | 0 <= f < |s| ensures !Better(side, s[f].price, ls[0].price) {
      var k, i := SlotPosition(ls, f);
      assert LevelOk(side, ls[k], store);
    }
  }

  /** Quantity of the listed orders at one price. */
  function QtyAt(s: seq<Order>, price: Price): nat {
    if s == [] then 0 else (if s[0].price == price then s[0].qty else 0) + QtyAt(s[1..], price)
  }

  lemma {:induction false} QtyAtSplit(s: seq<Order>, n: nat, price: Price)
    requires n <= |s|
    requires forall i :: 0 <= i < n ==> s[i].price == price
    requires forall i :: n <= i < |s| ==> s[i].price != price
    ensures QtyAt(s, price) == SumQty(s[..n])
  {
    if s == [] {
    } else if n > 0 {
      QtyAtSplit(s[1..], n - 1, price);
      assert s[..n][1..] == s[1..][..n - 1];
    } else {
      QtyAtSplit(s[1..], 0, price);
      assert s[1..][..0] == s[..0] == [];
    }
  }

  /** The queue of the front level holds all there is at the best price. */
  lemma {:induction false} FrontQty(side: Side, ls: seq<Level>, store: seq<Order>)
    requires LevelsOk(side, ls, store) && ls != []
    ensures InRange(ls[0].queue, |store|)
    ensures QtyAt(Flat(side, ls, store), ls[0].price) == SumQty(Load(ls[0].queue, store))
  {
    var s, n := Flat(side, ls, store), |ls[0].queue|;
    assert LevelOk(side, ls[0], store);
    FlatHead(side, ls, store);
    forall f | n <= f < |s| ensures s[f].price != ls[0].price {
      assert s[f] == s[n..][f - n] == Flat(side, ls[1..], store)[f - n];
      var k, i := SlotPosition(ls[1..], f - n);
      assert LevelOk(side, ls[1..][k], store);
    }
    QtyAtSplit(s, n, ls[0].price);
    assert s[..n] == Load(ls[0].queue, store);
  }

  lemma {:induction false} SumQtyOne(s: seq<Order>, o: Order)
    ensures SumQty(s + [o]) == SumQty(s) + o.qty
  {
    if s == [] {
      assert [o][1..] == [];
    } else {
      SumQtyOne(s[1..], o);
      assert (s + [o])[1..] == s[1..] + [o];
    }
  }

  lemma {:induction false} LoadNext(slots: seq<nat>, store: seq<Order>, i: nat)
    requires InRange(slots, |store|) && i < |slots|
    ensures SumQty(Load(slots[..i + 1], store)) == SumQty(Load(slots[..i], store)) + store[slots[i]].qty
  {
    SumQtyOne(Load(slots[..i], store), store[slots[i]]);
    assert Load(slots[..i + 1], store) == Load(slots[..i], store) + [store[slots[i]]];
  }

  /** A 32-bit counter holds the sum modulo 2^32. */
  lemma Wraps(sum: nat, q: Qty)
    ensures Add32(sum % TWO_32, q) == (sum + q) % TWO_32
  {
  }

  /** A front level whose queue has run empty is dropped without loss. */
  lemma {:induction false} DropEmptyFront(side: Side, same: seq<Level>, opp: seq<Level>, store: seq<Order>, free: seq<nat>)
    requires Held(side, same, opp, store, free) && opp != [] && opp[0].queue == []
    ensures Held(side, same, opp[1..], store, free)
    ensures Flat(Opposite(side), opp[1..], store) == Flat(Opposite(side), opp, store)
  {
    LevelsTail(Opposite(side), opp, store);
    assert Slots(opp[1..]) == Slots(opp);
  }

  lemma StillSolid(levels: seq<Level>, opp: seq<Level>)
    requires Solid(levels) && levels != [] && opp != [] && opp[1..] == levels[1..]
    ensures Solid(opp[1..]) && (opp[0].queue != [] ==> Solid(opp))
    ensures |opp| == |levels|
  {
    assert forall i :: 0 < i < |opp| ==> opp[i] == opp[1..][i - 1] == levels[1..][i - 1] == levels[i];
  }

  // ---------- resting a new order, on values ----------

  lemma {:induction false} StoreElsewhere(side: Side, ls: seq<Level>, store: seq<Order>, slot: nat, o: Order)
    requires LevelsOk(side, ls, store) && slot < |store| && slot !in Slots(ls)
    ensures LevelsOk(side, ls, store[slot := o])
    ensures Flat(side, ls, store[slot := o]) == Flat(side, ls, store)
  {
    forall i | 0 <= i < |ls| ensures LevelOk(side, ls[i], store[slot := o]) {
      assert LevelOk(side, ls[i], store);
      SlotsAt(ls, i);
    }
    LevelsInRange(side, ls, store);
    forall i | 0 <= i < |Slots(ls)| ensures Slots(ls)[i] != slot {
    }
  }

  /** Taking the head of the free chain for a new order and queueing it. */
  lemma {:induction false} RestRound(side: Side, same: seq<Level>, opp: seq<Level>, store: seq<Order>,
                                     free: seq<nat>, o: Order, same': seq<Level>,
                                     store': seq<Order>, free': seq<nat>)
    requires Held(side, same, opp, store, free) && Solid(same)
    requires free != [] && free[0] < |store| && o.side == side
    requires same' == PushBack(side, same, o.price, free[0]) && store' == store[free[0] := o]
    requires free' == free[1..]
    ensures Solid(same')
    ensures Held(side, same', opp, store', free')
    ensures Flat(side, same', store') == Insert(side, Flat(side, same, store), o)
    ensures Flat(Opposite(side), opp, store') == Flat(Opposite(side), opp, store)
  {
    OwnsMeans(Slots(same), Slots(opp), free, |store|);
    assert free[0] in free;
    StoreElsewhere(side, same, store, free[0], o);
    StoreElsewhere(Opposite(side), opp, store, free[0], o);
    PushBackFlat(side, same, store', free[0]);
    PushBackSlots(side, same, o.price, free[0]);
    OwnsPush(Slots(same), Slots(opp), free, |store|, PushPosition(side, same, o.price));
  }

  // ---------- removing an order, on values ----------

  /** Index of the level of this price, or the number of levels. */
  function FindLevel(ls: seq<Level>, price: Price): (k: nat)
    ensures k <= |ls|
    ensures forall i :: 0 <= i < k ==> ls[i].price != price
    ensures k < |ls| ==> ls[k].price == price
  {
    if ls == [] || ls[0].price == price then 0 else 1 + FindLevel(ls[1..], price)
  }

  /** The level and queue position behind a position of the flat list. */
  lemma {:induction false} SlotPosition(ls: seq<Level>, f: nat) returns (k: nat, i: nat)
    requires f < |Slots(ls)|
    ensures k < |ls| && i < |ls[k].queue| && ls[k].queue[i] == Slots(ls)[f]
  {
    if f < |ls[0].queue| {
      k, i := 0, f;
    } else {
      k, i := SlotPosition(ls[1..], f - |ls[0].queue|);
      k := k + 1;
    }
  }

  /** An order of this price can only be in the level of this price. */
  lemma {:induction false} OnlyInLevel(side: Side, ls: seq<Level>, store: seq<Order>, id: OrderId, price: Price)
    requires LevelsOk(side, ls, store)
    requires var k := FindLevel(ls, price);
             k < |ls| ==> forall i :: 0 <= i < |ls[k].queue| ==>
                            ls[k].queue[i] < |store| && store[ls[k].queue[i]].id != id
    ensures !HasAt(Flat(side, ls, store), id, price)
  {
    var s := Flat(side, ls, store);
    forall f | 0 <= f < |s| && s[f].price == price ensures s[f].id != id {
      var k, i := SlotPosition(ls, f);
      assert LevelOk(side, ls[k], store);
      assert k == FindLevel(ls, price);
    }
  }

  ghost function EraseFrom(ls: seq<Level>, k: nat, i: nat): seq<Level>
    requires k < |ls| && i < |ls[k].queue|
  {
    var q := ls[k].queue[..i] + ls[k].queue[i + 1..];
    if q == [] then ls[..k] + ls[k + 1..] else ls[k := Level(ls[k].price, q)]
  }

  lemma {:induction false} SpliceOut(a: seq<nat>, q: seq<nat>, b: seq<nat>, i: nat)
    requires i < |q|
    ensures var s, f := a + q + b, |a| + i;
            s[f] == q[i] && a + (q[..i] + q[i + 1..]) + b == s[..f] + s[f + 1..]
  {
    var s, f := a + q + b, |a| + i;
    assert s[..f] == a + q[..i];
    assert s[f + 1..] == q[i + 1..] + b;
  }

  lemma {:induction false} ErasedSlots(ls: seq<Level>, k: nat, i: nat)
    requires k < |ls| && i < |ls[k].queue|
    ensures Slots(EraseFrom(ls, k, i))
            == Slots(ls[..k]) + (ls[k].queue[..i] + ls[k].queue[i + 1..]) + Slots(ls[k + 1..])
  {
    var a, b := Slots(ls[..k]), Slots(ls[k + 1..]);
    var ls', q' := EraseFrom(ls, k, i), ls[k].queue[..i] + ls[k].queue[i + 1..];
    if q' == [] {
      SlotsConcat(ls[..k], ls[k + 1..]);
      assert a + q' == a;
    } else {
      SlotsAt(ls', k);
      assert ls'[..k] == ls[..k] && ls'[k + 1..] == ls[k + 1..];
    }
  }

  lemma {:induction false} EraseSlots(ls: seq<Level>, k: nat, i: nat) returns (f: nat)
    requires k < |ls| && i < |ls[k].queue|
    ensures f == |Slots(ls[..k])| + i < |Slots(ls)| && Slots(ls)[f] == ls[k].queue[i]
    ensures Slots(EraseFrom(ls, k, i)) == Slots(ls)[..f] + Slots(ls)[f + 1..]
  {
    SlotsAt(ls, k);
    f := |Slots(ls[..k])| + i;
    SpliceOut(Slots(ls[..k]), ls[k].queue, Slots(ls[k + 1..]), i);
    ErasedSlots(ls, k, i);
  }

  lemma {:induction false} EraseLevelsOk(side: Side, ls: seq<Level>, store: seq<Order>, k: nat, i: nat)
    requires LevelsOk(side, ls, store) && Solid(ls) && k < |ls| && i < |ls[k].queue|
    ensures LevelsOk(side, EraseFrom(ls, k, i), store) && Solid(EraseFrom(ls, k, i))
  {
    var ls' := EraseFrom(ls, k, i);
    assert LevelOk(side, ls[k], store);
    forall j | 0 <= j < |ls'| ensures LevelOk(side, ls'[j], store) {
      assert ls'[j] == ls[j] || (j >= k && j + 1 < |ls| && ls'[j] == ls[j + 1]) || j == k;
    }
  }

  lemma LoadErase(slots: seq<nat>, store: seq<Order>, f: nat)
    requires InRange(slots, |store|) && f < |slots|
    ensures Load(slots[..f] + slots[f + 1..], store) == Load(slots, store)[..f] + Load(slots, store)[f + 1..]
  {
  }

  /** What comes before a queue position in the flat list: orders of other prices, and the front of the queue. */
  lemma {:induction false} AheadInFlat(side: Side, ls: seq<Level>, store: seq<Order>, k: nat, i: nat, g: nat)
    requires LevelsOk(side, ls, store) && k < |ls| && i < |ls[k].queue| && g < |Slots(ls[..k])| + i
    ensures g < |Slots(ls)| && Slots(ls)[g] < |store|
    ensures || store[Slots(ls)[g]].price != ls[k].price
            || exists j :: 0 <= j < i && Slots(ls)[g] == ls[k].queue[j]
  {
    var a := Slots(ls[..k]);
    SlotsAt(ls, k);
    LevelsInRange(side, ls, store);
    if g < |a| {
      var k', j := SlotPosition(ls[..k], g);
      assert LevelOk(side, ls[k'], store);
    } else {
      assert Slots(ls)[g] == ls[k].queue[g - |a|];
    }
  }

  /** The first order of its id in a queue is the first of that id and price in the flat list. */
  lemma {:induction false} FirstInFlat(side: Side, ls: seq<Level>, store: seq<Order>, k: nat, i: nat)
    requires LevelsOk(side, ls, store) && k < |ls| && i < |ls[k].queue|
    requires forall j :: 0 <= j < |ls[k].queue| ==> ls[k].queue[j] < |store|
    requires forall j :: 0 <= j < i ==> store[ls[k].queue[j]].id != store[ls[k].queue[i]].id
    ensures IndexAt(Flat(side, ls, store), store[ls[k].queue[i]].id, ls[k].price) == |Slots(ls[..k])| + i
  {
    var s, id, f := Flat(side, ls, store), store[ls[k].queue[i]].id, |Slots(ls[..k])| + i;
    var _ := EraseSlots(ls, k, i);
    assert LevelOk(side, ls[k], store);
    assert s[f] == store[ls[k].queue[i]];
    forall g | 0 <= g < f ensures s[g].id != id || s[g].price != ls[k].price {
      AheadInFlat(side, ls, store, k, i, g);
    }
    IndexAtIs(s, id, ls[k].price, f);
  }

  lemma {:induction false} EraseFlat(side: Side, ls: seq<Level>, store: seq<Order>, k: nat, i: nat, f: nat)
    requires LevelsOk(side, ls, store) && f < |Slots(ls)| && k < |ls| && i < |ls[k].queue|
    requires LevelsOk(side, EraseFrom(ls, k, i), store)
    requires Slots(EraseFrom(ls, k, i)) == Slots(ls)[..f] + Slots(ls)[f + 1..]
    ensures Flat(side, EraseFrom(ls, k, i), store) == Flat(side, ls, store)[..f] + Flat(side, ls, store)[f + 1..]
  {
    LevelsInRange(side, ls, store);
    LoadErase(Slots(ls), store, f);
  }

  lemma {:induction false} UsedSlot(a: seq<nat>, b: seq<nat>, free: seq<nat>, n: nat, f: nat)
    requires Owns(a, b, free, n) && f < |a|
    ensures a[f] !in free
  {
    OwnsMeans(a, b, free, n);
    assert a[f] in a;
  }

  /** The slot of one queue position goes back on the chain. */
  lemma {:induction false} ErasedHeld(side: Side, same: seq<Level>, opp: seq<Level>, store: seq<Order>,
                                      free: seq<nat>, k: nat, i: nat)
    requires Held(side, same, opp, store, free) && Solid(same)
    requires k < |same| && i < |same[k].queue|
    ensures same[k].queue[i] !in free
    ensures Solid(EraseFrom(same, k, i)) && Held(side, EraseFrom(same, k, i), opp, store, [same[k].queue[i]] + free)
  {
    var f := EraseSlots(same, k, i);
    EraseLevelsOk(side, same, store, k, i);
    UsedSlot(Slots(same), Slots(opp), free, |store|, f);
    OwnsRemove(Slots(opp), Slots(same), free, |store|, f);
  }

  lemma {:induction false} ErasedFlat(side: Side, ls: seq<Level>, store: seq<Order>, k: nat, i: nat)
    requires LevelsOk(side, ls, store) && k < |ls| && i < |ls[k].queue| && LevelsOk(side, EraseFrom(ls, k, i), store)
    requires forall j :: 0 <= j < |ls[k].queue| ==> ls[k].queue[j] < |store|
    requires forall j :: 0 <= j < i ==> store[ls[k].queue[j]].id != store[ls[k].queue[i]].id
    ensures var s, id := Flat(side, ls, store), store[ls[k].queue[i]].id;
            && HasAt(s, id, ls[k].price)
            && Flat(side, EraseFrom(ls, k, i), store) == RemoveAt(s, id, ls[k].price)
  {
    var f := EraseSlots(ls, k, i);
    EraseFlat(side, ls, store, k, i, f);
    FirstInFlat(side, ls, store, k, i);
  }

  /** Taking the first order of its id out of its queue, dropping the level if it was the last. */
  lemma {:induction false} RemoveRound(side: Side, same: seq<Level>, opp: seq<Level>, store: seq<Order>,
                                       free: seq<nat>, k: nat, i: nat)
    requires Held(side, same, opp, store, free) && Solid(same)
    requires k < |same| && i < |same[k].queue|
    requires forall j :: 0 <= j < |same[k].queue| ==> same[k].queue[j] < |store|
    requires forall j :: 0 <= j < i ==> store[same[k].queue[j]].id != store[same[k].queue[i]].id
    ensures same[k].queue[i] !in free
    ensures var slot := same[k].queue[i];
            var id := store[slot].id;
            var same' := EraseFrom(same, k, i);
            && HasAt(Flat(side, same, store), id, same[k].price)
            && Solid(same')
            && Held(side, same', opp, store, [slot] + free)
            && Flat(side, same', store) == RemoveAt(Flat(side, same, store), id, same[k].price)
  {
    ErasedHeld(side, same, opp, store, free, k, i);
    ErasedFlat(side, same, store, k, i);
  }

  ghost function Pair(side: Side, same: seq<Level>, opp: seq<Level>, store: seq<Order>): Book
    requires LevelsOk(side, same, store) && LevelsOk(Opposite(side), opp, store)
  {
    Book([], []).With(side, Flat(side, same, store)).With(Opposite(side), Flat(Opposite(side), opp, store))
  }
}
