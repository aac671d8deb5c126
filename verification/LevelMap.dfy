/**
 One side of the order book as it is stored: price levels in map order, each with a FIFO
 queue of pool slots. `Flat` reads it as the flat list of orders used by module Books.
 */
module LevelMaps {
  import opened Types
  import opened Matching
  import opened Books

  datatype Level = Level(price: Price, queue: seq<nat>)

  /** All slots of a side, best level first, each level front to back. */
  function Slots(ls: seq<Level>): seq<nat> {
    if ls == [] then [] else ls[0].queue + Slots(ls[1..])
  }

  ghost predicate InRange(slots: seq<nat>, n: nat) {
    forall i :: 0 <= i < |slots| ==> slots[i] < n
  }

  ghost function Load(slots: seq<nat>, store: seq<Order>): (s: seq<Order>)
    requires InRange(slots, |store|)
    ensures |s| == |slots| && forall i :: 0 <= i < |s| ==> s[i] == store[slots[i]]
  {
    seq(|slots|, i requires 0 <= i < |slots| => store[slots[i]])
  }

  ghost predicate LevelOk(side: Side, l: Level, store: seq<Order>) {
    forall i :: 0 <= i < |l.queue| ==>
      l.queue[i] < |store| && store[l.queue[i]].price == l.price && store[l.queue[i]].side == side
  }

  /** Levels are strictly ordered and hold only orders of their own side and price. */
  ghost predicate LevelsOk(side: Side, ls: seq<Level>, store: seq<Order>) {
    && (forall i :: 0 <= i < |ls| ==> LevelOk(side, ls[i], store))
    && (forall i, j :: 0 <= i < j < |ls| ==> Better(side, ls[i].price, ls[j].price))
  }

  /** No level is empty. */
  ghost predicate Solid(ls: seq<Level>) {
    forall i :: 0 <= i < |ls| ==> ls[i].queue != []
  }

  lemma {:induction false} LevelsInRange(side: Side, ls: seq<Level>, store: seq<Order>)
    requires LevelsOk(side, ls, store)
    ensures InRange(Slots(ls), |store|)
  {
    if ls == [] {
    } else {
      assert LevelOk(side, ls[0], store);
      LevelsInRange(side, ls[1..], store);
    }
  }

  ghost function Flat(side: Side, ls: seq<Level>, store: seq<Order>): seq<Order>
    requires LevelsOk(side, ls, store)
  {
    LevelsInRange(side, ls, store);
    Load(Slots(ls), store)
  }

  lemma {:induction false} SlotsConcat(a: seq<Level>, b: seq<Level>)
    ensures Slots(a + b) == Slots(a) + Slots(b)
  {
    if a == [] {
      assert a + b == b;
    } else {
      SlotsConcat(a[1..], b);
      assert (a + b)[0] == a[0] && (a + b)[1..] == a[1..] + b;
      Associate(a[0].queue, Slots(a[1..]), Slots(b));
    }
  }

  lemma {:induction false} SlotsAt(ls: seq<Level>, k: nat)
    requires k < |ls|
    ensures Slots(ls) == Slots(ls[..k]) + ls[k].queue + Slots(ls[k + 1..])
  {
    SlotsConcat(ls[..k], ls[k..]);
    assert ls == ls[..k] + ls[k..];
    assert ls[k..][0] == ls[k] && ls[k..][1..] == ls[k + 1..];
    Associate(Slots(ls[..k]), ls[k].queue, Slots(ls[k + 1..]));
  }

  // ---------- inserting at the back of a level ----------

  /** Appends a slot to the level of its price, making the level if there is none. */
  function PushBack(side: Side, ls: seq<Level>, price: Price, slot: nat): seq<Level> {
    if ls == [] || Better(side, price, ls[0].price) then
      [Level(price, [slot])] + ls
    else if ls[0].price == price then
      [Level(price, ls[0].queue + [slot])] + ls[1..]
    else
      [ls[0]] + PushBack(side, ls[1..], price, slot)
  }

  lemma {:induction false} RankSkip(side: Side, s: seq<Order>, n: nat, price: Price)
    requires n <= |s|
    requires forall i :: 0 <= i < n ==> !Better(side, price, s[i].price)
    ensures Rank(side, s, price) == n + Rank(side, s[n..], price)
  {
    if n > 0 {
      RankSkip(side, s[1..], n - 1, price);
      assert s[1..][n - 1..] == s[n..];
    } else {
      assert s[0..] == s;
    }
  }

  lemma {:induction false} FlatHead(side: Side, ls: seq<Level>, store: seq<Order>)
    requires ls != [] && LevelsOk(side, ls, store)
    ensures LevelsOk(side, ls[1..], store)
    ensures |ls[0].queue| <= |Flat(side, ls, store)|
    ensures Flat(side, ls, store)[|ls[0].queue|..] == Flat(side, ls[1..], store)
    ensures forall i :: 0 <= i < |ls[0].queue| ==> Flat(side, ls, store)[i].price == ls[0].price
  {
    assert LevelOk(side, ls[0], store);
  }

  lemma {:induction false} PushBackPrices(side: Side, ls: seq<Level>, price: Price, slot: nat)
    ensures forall i :: 0 <= i < |PushBack(side, ls, price, slot)| ==>
              var p := PushBack(side, ls, price, slot)[i].price;
              p == price || exists j :: 0 <= j < |ls| && p == ls[j].price
  {
    var ls' := PushBack(side, ls, price, slot);
    if ls == [] || Better(side, price, ls[0].price) {
      assert forall i :: 0 < i < |ls'| ==> ls'[i] == ls[i - 1];
    } else if ls[0].price == price {
      assert forall i :: 0 < i < |ls'| ==> ls'[i] == ls[i];
    } else {
      PushBackPrices(side, ls[1..], price, slot);
      var t := PushBack(side, ls[1..], price, slot);
      forall i | 0 < i < |ls'|
        ensures ls'[i].price == price || exists j :: 0 <= j < |ls| && ls'[i].price == ls[j].price
      {
        assert ls'[i] == t[i - 1];
        if t[i - 1].price != price {
          var j :| 0 <= j < |ls[1..]| && t[i - 1].price == ls[1..][j].price;
          assert ls'[i].price == ls[j + 1].price;
        }
      }
    }
  }

  lemma LevelsCons(side: Side, l: Level, ls: seq<Level>, store: seq<Order>)
    requires LevelsOk(side, ls, store) && LevelOk(side, l, store)
    requires forall i :: 0 <= i < |ls| ==> Better(side, l.price, ls[i].price)
    ensures LevelsOk(side, [l] + ls, store)
  {
  }

  lemma LevelsTail(side: Side, ls: seq<Level>, store: seq<Order>)
    requires LevelsOk(side, ls, store) && ls != []
    ensures LevelOk(side, ls[0], store) && LevelsOk(side, ls[1..], store)
    ensures forall i :: 0 <= i < |ls[1..]| ==> Better(side, ls[0].price, ls[1..][i].price)
  {
  }

  lemma {:induction false} PushBackOk(side: Side, ls: seq<Level>, store: seq<Order>, slot: nat)
    requires LevelsOk(side, ls, store)
    requires slot < |store| && store[slot].side == side
    ensures LevelsOk(side, PushBack(side, ls, store[slot].price, slot), store)
  {
    var price := store[slot].price;
    if ls == [] {
    } else {
      LevelsTail(side, ls, store);
    }
    if ls == [] || Better(side, price, ls[0].price) {
      LevelsCons(side, Level(price, [slot]), ls, store);
    } else if ls[0].price == price {
      LevelsCons(side, Level(price, ls[0].queue + [slot]), ls[1..], store);
    } else {
      PushBackOk(side, ls[1..], store, slot);
      PushBackPrices(side, ls[1..], price, slot);
      LevelsCons(side, ls[0], PushBack(side, ls[1..], price, slot), store);
    }
  }

  lemma {:induction false} PushBackSolid(side: Side, ls: seq<Level>, price: Price, slot: nat)
    requires Solid(ls)
    ensures Solid(PushBack(side, ls, price, slot))
  {
    if ls == [] || Better(side, price, ls[0].price) || ls[0].price == price {
    } else {
      PushBackSolid(side, ls[1..], price, slot);
    }
  }

  lemma {:induction false} Splice(q: seq<nat>, s: seq<nat>, k: nat, x: nat)
    requires k <= |s|
    ensures q + (s[..k] + [x] + s[k..]) == (q + s)[..|q| + k] + [x] + (q + s)[|q| + k..]
  {
    assert (q + s)[..|q| + k] == q + s[..k];
    assert (q + s)[|q| + k..] == s[k..];
  }

  lemma {:induction false} SpliceEnd(q: seq<nat>, s: seq<nat>, x: nat)
    ensures q + [x] + s == (q + s)[..|q|] + [x] + (q + s)[|q|..]
  {
    assert (q + s)[..|q|] == q && (q + s)[|q|..] == s;
  }

  lemma SpliceFront(s: seq<nat>, x: nat)
    ensures [x] + s == s[..0] + [x] + s[0..]
  {
  }

  /** The rank of a price that is no better than the front level's. */
  lemma {:induction false} RankBehindFront(side: Side, ls: seq<Level>, store: seq<Order>, price: Price)
    requires LevelsOk(side, ls, store) && Solid(ls) && ls != [] && !Better(side, price, ls[0].price)
    ensures LevelsOk(side, ls[1..], store)
    ensures Rank(side, Flat(side, ls, store), price)
            == |ls[0].queue| + Rank(side, Flat(side, ls[1..], store), price)
    ensures ls[0].price == price ==> Rank(side, Flat(side, ls[1..], store), price) == 0
  {
    FlatHead(side, ls, store);
    RankSkip(side, Flat(side, ls, store), |ls[0].queue|, price);
    if ls[1..] != [] {
      FlatHead(side, ls[1..], store);
      assert Flat(side, ls[1..], store)[0].price == ls[1].price;
    }
  }

  lemma {:induction false} RankFront(side: Side, ls: seq<Level>, store: seq<Order>, price: Price)
    requires LevelsOk(side, ls, store) && Solid(ls)
    requires ls == [] || Better(side, price, ls[0].price)
    ensures Rank(side, Flat(side, ls, store), price) == 0
  {
    if ls != [] {
      FlatHead(side, ls, store);
      assert Flat(side, ls, store)[0].price == ls[0].price;
    }
  }

  /** Where PushBack puts the slot in the flat list: at the end of its level. */
  function PushPosition(side: Side, ls: seq<Level>, price: Price): nat {
    if ls == [] || Better(side, price, ls[0].price) then 0
    else if ls[0].price == price then |ls[0].queue|
    else |ls[0].queue| + PushPosition(side, ls[1..], price)
  }

  lemma {:induction false} SlotsCons(l: Level, ls: seq<Level>)
    ensures Slots([l] + ls) == l.queue + Slots(ls)
  {
    assert ([l] + ls)[1..] == ls;
  }

  lemma {:induction false} PushBackSlots(side: Side, ls: seq<Level>, price: Price, slot: nat)
    ensures var k := PushPosition(side, ls, price);
            && k <= |Slots(ls)|
            && Slots(PushBack(side, ls, price, slot)) == Slots(ls)[..k] + [slot] + Slots(ls)[k..]
  {
    if ls == [] || Better(side, price, ls[0].price) {
      SlotsCons(Level(price, [slot]), ls);
      SpliceFront(Slots(ls), slot);
    } else if ls[0].price == price {
      SlotsCons(Level(price, ls[0].queue + [slot]), ls[1..]);
      SpliceEnd(ls[0].queue, Slots(ls[1..]), slot);
    } else {
      PushBackSlots(side, ls[1..], price, slot);
      SlotsCons(ls[0], PushBack(side, ls[1..], price, slot));
      Splice(ls[0].queue, Slots(ls[1..]), PushPosition(side, ls[1..], price), slot);
    }
  }

  /** The end of the level is the rank of the price in the flat list. */
  lemma {:induction false} PushPositionIsRank(side: Side, ls: seq<Level>, store: seq<Order>, price: Price)
    requires LevelsOk(side, ls, store) && Solid(ls)
    ensures PushPosition(side, ls, price) == Rank(side, Flat(side, ls, store), price)
  {
    if ls == [] || Better(side, price, ls[0].price) {
      RankFront(side, ls, store, price);
    } else {
      RankBehindFront(side, ls, store, price);
      if ls[0].price != price {
        PushPositionIsRank(side, ls[1..], store, price);
      }
    }
  }

  lemma LoadInsert(slots: seq<nat>, store: seq<Order>, k: nat, slot: nat)
    requires InRange(slots, |store|) && k <= |slots| && slot < |store|
    ensures InRange(slots[..k] + [slot] + slots[k..], |store|)
    ensures Load(slots[..k] + [slot] + slots[k..], store)
            == Load(slots, store)[..k] + [store[slot]] + Load(slots, store)[k..]
  {
  }

  /** Pushing on a level is inserting in price-time order. */
  lemma {:induction false} PushBackFlat(side: Side, ls: seq<Level>, store: seq<Order>, slot: nat)
    requires LevelsOk(side, ls, store) && Solid(ls)
    requires slot < |store| && store[slot].side == side
    ensures var ls' := PushBack(side, ls, store[slot].price, slot);
            LevelsOk(side, ls', store) && Solid(ls')
            && Flat(side, ls', store) == Insert(side, Flat(side, ls, store), store[slot])
  {
    PushBackOk(side, ls, store, slot);
    PushBackSolid(side, ls, store[slot].price, slot);
    PushBackSlots(side, ls, store[slot].price, slot);
    PushPositionIsRank(side, ls, store, store[slot].price);
    LevelsInRange(side, ls, store);
    LoadInsert(Slots(ls), store, PushPosition(side, ls, store[slot].price), slot);
  }
}
