/**
 The limit order book as a value: each side a flat list in price-then-arrival order.
 `Add` and `Cancel` are the abstract effect of the order book's two operations, and the
 laws below hold over every sequence of them.
 */
module Books {
  import opened Types
  import opened Matching

  datatype Book = Book(bids: seq<Order>, asks: seq<Order>) {
    function On(side: Side): seq<Order> {
      if side.Buy? then bids else asks
    }

    function With(side: Side, s: seq<Order>): Book {
      if side.Buy? then Book(s, asks) else Book(bids, s)
    }

    function Resting(): nat {
      |bids| + |asks|
    }

    function AllIds(): set<OrderId> {
      Ids(bids) + Ids(asks)
    }
  }

  function Ids(s: seq<Order>): set<OrderId> {
    set o | o in s :: o.id
  }

  /** Where a new order of this price goes: behind everything priced at least as well. */
  function Rank(side: Side, s: seq<Order>, price: Price): (k: nat)
    ensures k <= |s|
    ensures forall i :: 0 <= i < k ==> !Better(side, price, s[i].price)
    ensures k < |s| ==> Better(side, price, s[k].price)
  {
    if s == [] || Better(side, price, s[0].price) then 0 else 1 + Rank(side, s[1..], price)
  }

  function Insert(side: Side, s: seq<Order>, o: Order): seq<Order> {
    var k := Rank(side, s, o.price);
    s[..k] + [o] + s[k..]
  }

  /** Position of the first order with this id, or the length of the list. */
  function IndexOf(s: seq<Order>, id: OrderId): (k: nat)
    ensures k <= |s|
    ensures forall i :: 0 <= i < k ==> s[i].id != id
    ensures k < |s| ==> s[k].id == id
  {
    if s == [] || s[0].id == id then 0 else 1 + IndexOf(s[1..], id)
  }

  function Remove(s: seq<Order>, id: OrderId): seq<Order> {
    var k := IndexOf(s, id);
    if k < |s| then s[..k] + s[k + 1..] else s
  }

  /** New book, trades, unfilled quantity, and whether that remainder was dropped. */
  datatype Added = Added(book: Book, trades: seq<Trade>, left: Qty, dropped: bool)

  /** Match first; rest what is left unless all `cap` order slots are taken. */
  function Add(cap: nat, b: Book, taker: Order): Added {
    var opp := Opposite(taker.side);
    var r := Match(b.On(opp), taker);
    var b1 := b.With(opp, r.rest);
    if r.left == 0 then
      Added(b1, r.trades, 0, false)
    else if b1.Resting() >= cap then
      Added(b1, r.trades, r.left, true)
    else
      var same := Insert(taker.side, b1.On(taker.side), taker.(qty := r.left));
      Added(b1.With(taker.side, same), r.trades, r.left, false)
  }

  function Find(b: Book, id: OrderId): Option<Order> {
    var i, j := IndexOf(b.bids, id), IndexOf(b.asks, id);
    if i < |b.bids| then Some(b.bids[i]) else if j < |b.asks| then Some(b.asks[j]) else None
  }

  function Cancel(b: Book, id: OrderId): Book {
    match Find(b, id)
    case None => b
    case Some(o) => if id in Ids(b.bids) then b.(bids := Remove(b.bids, id)) else b.(asks := Remove(b.asks, id))
  }

  // ---------- well-formed books ----------

  ghost predicate UniqueIds(s: seq<Order>) {
    forall i, j :: 0 <= i < j < |s| ==> s[i].id != s[j].id
  }

  ghost predicate SideOk(side: Side, s: seq<Order>) {
    && Sorted(side, s)
    && UniqueIds(s)
    && forall i :: 0 <= i < |s| ==> s[i].side == side && s[i].qty > 0
  }

  /** No order of `same` could trade with one of `opp`: every bid is below every ask. */
  ghost predicate Uncrossed(side: Side, same: seq<Order>, opp: seq<Order>) {
    forall i, j :: 0 <= i < |same| && 0 <= j < |opp| ==>
      if side.Buy? then same[i].price < opp[j].price else opp[j].price < same[i].price
  }

  ghost predicate Apart(s: seq<Order>, t: seq<Order>) {
    forall i, j :: 0 <= i < |s| && 0 <= j < |t| ==> s[i].id != t[j].id
  }

  /** Well-formedness seen from one side; both views are the same condition. */
  ghost predicate PairOk(side: Side, same: seq<Order>, opp: seq<Order>) {
    SideOk(side, same) && SideOk(Opposite(side), opp) && Apart(same, opp) && Uncrossed(side, same, opp)
  }

  ghost predicate WellFormed(b: Book) {
    PairOk(Buy, b.bids, b.asks)
  }

  lemma WellFormedView(b: Book, side: Side)
    ensures WellFormed(b) <==> PairOk(side, b.On(side), b.On(Opposite(side)))
  {
  }

  lemma {:induction false} IdsIndex(s: seq<Order>, id: OrderId)
    ensures id in Ids(s) <==> exists i :: 0 <= i < |s| && s[i].id == id
    ensures id in Ids(s) <==> IndexOf(s, id) < |s|
  {
    if id in Ids(s) {
      var o :| o in s && o.id == id;
    }
  }

  /** What a match leaves of the opposite side is its tail, with quantities that only shrank. */
  ghost predicate TailOf(rest: seq<Order>, opp: seq<Order>) {
    && |rest| <= |opp|
    && forall i, j :: 0 <= i < |rest| && j == |opp| - |rest| + i ==>
         rest[i] == opp[j].(qty := rest[i].qty) && 0 < rest[i].qty <= opp[j].qty
  }

  lemma {:induction false} TailOfRest(rest: seq<Order>, opp: seq<Order>)
    requires opp != [] && TailOf(rest, opp[1..])
    ensures TailOf(rest, opp)
  {
    forall i, j | 0 <= i < |rest| && j == |opp| - |rest| + i
      ensures rest[i] == opp[j].(qty := rest[i].qty) && 0 < rest[i].qty <= opp[j].qty
    {
      assert opp[j] == opp[1..][j - 1];
    }
  }

  lemma {:induction false} MatchKeepsTail(opp: seq<Order>, taker: Order)
    requires forall i :: 0 <= i < |opp| ==> opp[i].qty > 0
    ensures TailOf(Match(opp, taker).rest, opp)
    decreases |opp|
  {
    if taker.qty == 0 || opp == [] || !Crosses(taker.side, opp[0].price, taker.price) {
    } else {
      var fill := Min(taker.qty, opp[0].qty);
      if fill == opp[0].qty {
        MatchKeepsTail(opp[1..], taker.(qty := taker.qty - fill));
        TailOfRest(Match(opp, taker).rest, opp);
      }
    }
  }

  lemma {:induction false} TailKeepsSide(side: Side, rest: seq<Order>, opp: seq<Order>)
    requires TailOf(rest, opp) && SideOk(side, opp)
    ensures SideOk(side, rest)
    ensures Ids(rest) <= Ids(opp)
  {
    var tail := opp[|opp| - |rest|..];
    assert forall i :: 0 <= i < |rest| ==> rest[i] == tail[i].(qty := rest[i].qty);
    forall i | 0 <= i < |rest| ensures rest[i].id in Ids(opp) {
      assert tail[i] in opp;
    }
  }

  lemma {:induction false} MatchKeepsPair(same: seq<Order>, opp: seq<Order>, taker: Order)
    requires PairOk(taker.side, same, opp)
    ensures PairOk(taker.side, same, Match(opp, taker).rest)
    ensures Ids(Match(opp, taker).rest) <= Ids(opp)
  {
    MatchKeepsTail(opp, taker);
    var rest := Match(opp, taker).rest;
    TailKeepsSide(Opposite(taker.side), rest, opp);
    var tail := opp[|opp| - |rest|..];
    assert forall i :: 0 <= i < |rest| ==> rest[i] == tail[i].(qty := rest[i].qty);
    assert Apart(same, tail) && Uncrossed(taker.side, same, tail);
  }

  lemma {:induction false} InsertKeepsSorted(side: Side, s: seq<Order>, o: Order)
    requires Sorted(side, s)
    ensures Sorted(side, Insert(side, s, o))
  {
    var k := Rank(side, s, o.price);
    forall i | k <= i < |s| ensures Better(side, o.price, s[i].price) {
      assert i == k || !Better(side, s[i].price, s[k].price);
    }
  }

  lemma {:induction false} InsertKeepsPair(same: seq<Order>, opp: seq<Order>, o: Order)
    requires PairOk(o.side, same, opp)
    requires o.qty > 0 && o.id !in Ids(same) && o.id !in Ids(opp)
    requires forall p :: p in opp ==> if o.side.Buy? then o.price < p.price else p.price < o.price
    ensures PairOk(o.side, Insert(o.side, same, o), opp)
  {
    InsertKeepsSorted(o.side, same, o);
    var s := Insert(o.side, same, o);
    forall i | 0 <= i < |same| ensures same[i].id != o.id {
      assert same[i] in same;
    }
    assert UniqueIds(s);
    forall i | 0 <= i < |s| ensures s[i] == o || s[i] in same {
    }
    forall j | 0 <= j < |opp| ensures opp[j].id != o.id && if o.side.Buy? then o.price < opp[j].price else opp[j].price < o.price {
      assert opp[j] in opp;
    }
  }

  lemma {:induction false} IdsOfRemove(s: seq<Order>, id: OrderId)
    requires UniqueIds(s)
    ensures Ids(Remove(s, id)) == Ids(s) - {id}
  {
    var k, t := IndexOf(s, id), Remove(s, id);
    if k < |s| {
      assert forall i :: 0 <= i < |t| ==> t[i] == if i < k then s[i] else s[i + 1];
      forall x | x in Ids(s) - {id} ensures x in Ids(t) {
        var i :| 0 <= i < |s| && s[i].id == x;
        assert t[if i < k then i else i - 1].id == x;
      }
    }
  }

  lemma {:induction false} RemoveKeepsPair(side: Side, same: seq<Order>, opp: seq<Order>, id: OrderId)
    requires PairOk(side, same, opp)
    ensures PairOk(side, Remove(same, id), opp)
  {
    var k, s := IndexOf(same, id), Remove(same, id);
    assert forall i :: 0 <= i < |s| ==> s[i] == if i < k then same[i] else same[i + 1];
  }

  lemma {:induction false} IdsOfInsert(side: Side, s: seq<Order>, o: Order)
    ensures Ids(Insert(side, s, o)) == Ids(s) + {o.id}
  {
    var k, t := Rank(side, s, o.price), Insert(side, s, o);
    forall x | x in Ids(s) ensures x in Ids(t) {
      var i :| 0 <= i < |s| && s[i].id == x;
      assert t[if i < k then i else i + 1].id == x;
    }
    assert t[k] == o;
  }

  /** The two sides after an add. */
  lemma AddSides(cap: nat, b: Book, taker: Order)
    ensures var r, a := Match(b.On(Opposite(taker.side)), taker), Add(cap, b, taker);
            && a.trades == r.trades && a.left == r.left
            && a.book.On(Opposite(taker.side)) == r.rest
            && a.book.On(taker.side)
               == if a.left == 0 || a.dropped then b.On(taker.side)
                  else Insert(taker.side, b.On(taker.side), taker.(qty := r.left))
  {
  }

  lemma {:induction false} AddKeepsIds(cap: nat, b: Book, taker: Order)
    requires WellFormed(b)
    ensures Add(cap, b, taker).book.AllIds() <= b.AllIds() + {taker.id}
  {
    var side, opp := taker.side, Opposite(taker.side);
    AddSides(cap, b, taker);
    WellFormedView(b, side);
    MatchKeepsPair(b.On(side), b.On(opp), taker);
    IdsOfInsert(side, b.On(side), taker.(qty := Match(b.On(opp), taker).left));
  }

  lemma {:induction false} AddKeepsPair(cap: nat, b: Book, taker: Order)
    requires PairOk(taker.side, b.On(taker.side), b.On(Opposite(taker.side)))
    requires taker.id !in Ids(b.On(taker.side)) && taker.id !in Ids(b.On(Opposite(taker.side)))
    ensures var b' := Add(cap, b, taker).book;
            PairOk(taker.side, b'.On(taker.side), b'.On(Opposite(taker.side)))
  {
    var same, opp := b.On(taker.side), b.On(Opposite(taker.side));
    var r := Match(opp, taker);
    AddSides(cap, b, taker);
    MatchKeepsPair(same, opp, taker);
    if r.left > 0 {
      MatchMaximal(opp, taker);
      InsertKeepsPair(same, r.rest, taker.(qty := r.left));
    }
  }

  /** Adding an order with a fresh id keeps the book well formed, in particular uncrossed. */
  lemma {:induction false} AddKeepsWellFormed(cap: nat, b: Book, taker: Order)
    requires WellFormed(b) && taker.id !in b.AllIds()
    ensures WellFormed(Add(cap, b, taker).book)
    ensures Add(cap, b, taker).book.AllIds() <= b.AllIds() + {taker.id}
  {
    WellFormedView(b, taker.side);
    AddKeepsPair(cap, b, taker);
    WellFormedView(Add(cap, b, taker).book, taker.side);
    AddKeepsIds(cap, b, taker);
  }

  /** A remainder is dropped only when every slot holds a resting order. */
  lemma {:induction false} AddKeepsCapacity(cap: nat, b: Book, taker: Order)
    requires WellFormed(b) && b.Resting() <= cap
    ensures Add(cap, b, taker).book.Resting() <= cap
    ensures Add(cap, b, taker).dropped ==> Add(cap, b, taker).book.Resting() == cap
  {
    MatchKeepsTail(b.On(Opposite(taker.side)), taker);
  }

  /**
   The order will need a slot that is not there: it is larger than what it may trade with, and
   its own side and the orders that will stay opposite fill the pool.
   */
  predicate Overflows(cap: nat, b: Book, taker: Order) {
    var opp := b.On(Opposite(taker.side));
    CrossingQty(opp, taker) < taker.qty && |b.On(taker.side)| + |Staying(opp, taker)| >= cap
  }

  /** When a remainder will be dropped, and how much will be left, told from the book before the add. */
  lemma {:induction false} DropExact(cap: nat, b: Book, taker: Order)
    requires WellFormed(b)
    ensures Add(cap, b, taker).dropped <==> Overflows(cap, b, taker)
    ensures var crossing := CrossingQty(b.On(Opposite(taker.side)), taker);
            Add(cap, b, taker).left == if crossing < taker.qty then taker.qty - crossing else 0
  {
    WellFormedView(b, taker.side);
    MatchLeaves(b.On(Opposite(taker.side)), taker);
  }

  /**
   When an id need not be fresh: an add keeps the book well formed exactly unless something of
   the order comes to rest beside an order of the same id, on its own side or among the
   opposite orders it cannot trade with. The condition is on the book before the add.
   */
  lemma {:induction false} AddWellFormedIff(cap: nat, b: Book, taker: Order)
    requires WellFormed(b)
    ensures var same, opp := b.On(taker.side), b.On(Opposite(taker.side));
            WellFormed(Add(cap, b, taker).book) <==>
              || CrossingQty(opp, taker) >= taker.qty
              || Overflows(cap, b, taker)
              || taker.id !in Ids(same) + Ids(Staying(opp, taker))
  {
    var side := taker.side;
    var same, opp, r := b.On(side), b.On(Opposite(side)), Add(cap, b, taker);
    WellFormedView(b, side);
    WellFormedView(r.book, side);
    AddSides(cap, b, taker);
    DropExact(cap, b, taker);
    MatchLeaves(opp, taker);
    MatchKeepsPair(same, opp, taker);
    if r.left > 0 && !r.dropped {
      RestWellFormedIff(same, opp, taker);
    }
  }

  lemma {:induction false} RestWellFormedIff(same: seq<Order>, opp: seq<Order>, taker: Order)
    requires PairOk(taker.side, same, opp) && Match(opp, taker).left > 0
    ensures var r := Match(opp, taker);
            PairOk(taker.side, Insert(taker.side, same, taker.(qty := r.left)), r.rest)
            <==> taker.id !in Ids(same) + Ids(r.rest)
  {
    var r := Match(opp, taker);
    var o := taker.(qty := r.left);
    MatchKeepsPair(same, opp, taker);
    if taker.id in Ids(same) || taker.id in Ids(r.rest) {
      DuplicateBreaks(same, r.rest, o);
    } else {
      MatchMaximal(opp, taker);
      InsertKeepsPair(same, r.rest, o);
    }
  }

  lemma {:induction false} DuplicateBreaks(same: seq<Order>, rest: seq<Order>, o: Order)
    requires o.id in Ids(same) || o.id in Ids(rest)
    ensures !PairOk(o.side, Insert(o.side, same, o), rest)
  {
    var k, s := Rank(o.side, same, o.price), Insert(o.side, same, o);
    assert s[k] == o;
    if o.id in Ids(same) {
      var i :| 0 <= i < |same| && same[i].id == o.id;
      var j := if i < k then i else i + 1;
      assert s[j] == same[i] && j != k;
      assert !UniqueIds(s);
    } else {
      var i :| 0 <= i < |rest| && rest[i].id == o.id;
      assert !Apart(s, rest);
    }
  }

  lemma {:induction false} CancelKeepsWellFormed(b: Book, id: OrderId)
    requires WellFormed(b)
    ensures WellFormed(Cancel(b, id))
    ensures Cancel(b, id).AllIds() == b.AllIds() - {id}
  {
    IdsIndex(b.bids, id);
    IdsIndex(b.asks, id);
    IdsOfRemove(b.bids, id);
    IdsOfRemove(b.asks, id);
    RemoveKeepsPair(Buy, b.bids, b.asks, id);
    WellFormedView(b, Sell);
    RemoveKeepsPair(Sell, b.asks, b.bids, id);
    WellFormedView(b.(asks := Remove(b.asks, id)), Sell);
  }

  lemma {:induction false} CancelMissing(b: Book, id: OrderId)
    requires id !in b.AllIds()
    ensures Cancel(b, id) == b
  {
    IdsIndex(b.bids, id);
    IdsIndex(b.asks, id);
  }

  lemma {:induction false} ApartIds(s: seq<Order>, t: seq<Order>)
    requires Apart(s, t)
    ensures Ids(s) !! Ids(t)
  {
    forall x | x in Ids(s) ensures x !in Ids(t) {
      var i :| 0 <= i < |s| && s[i].id == x;
    }
  }

  /** An id known on one side at most: cancelling removes it from both. */
  lemma {:induction false} CancelIsRemove(b: Book, id: OrderId)
    requires id !in Ids(b.bids) || id !in Ids(b.asks)
    ensures Cancel(b, id) == Book(Remove(b.bids, id), Remove(b.asks, id))
  {
    IdsIndex(b.bids, id);
    IdsIndex(b.asks, id);
  }

  /** A cancel takes out one order and leaves every other order at its place in the queue. */
  lemma {:induction false} CancelIsolated(b: Book, id: OrderId) returns (side: Side, k: nat)
    requires WellFormed(b) && id in b.AllIds()
    ensures k < |b.On(side)| && b.On(side)[k].id == id && Find(b, id) == Some(b.On(side)[k])
    ensures Cancel(b, id) == b.With(side, b.On(side)[..k] + b.On(side)[k + 1..])
  {
    IdsIndex(b.bids, id);
    IdsIndex(b.asks, id);
    side := if id in Ids(b.bids) then Buy else Sell;
    k := IndexOf(b.On(side), id);
  }

  // ---------- arrival order within a price ----------

  /** Equal prices queue in id order; ids are handed out in arrival order by the sequencer. */
  ghost predicate Fifo(s: seq<Order>) {
    forall i, j :: 0 <= i < j < |s| && s[i].price == s[j].price ==> s[i].id < s[j].id
  }

  ghost predicate BookFifo(b: Book) {
    Fifo(b.bids) && Fifo(b.asks)
  }

  lemma {:induction false} InsertKeepsFifo(side: Side, s: seq<Order>, o: Order)
    requires Sorted(side, s) && Fifo(s)
    requires forall i :: 0 <= i < |s| ==> s[i].id < o.id
    ensures Fifo(Insert(side, s, o))
  {
    var k := Rank(side, s, o.price);
    forall i | k <= i < |s| ensures Better(side, o.price, s[i].price) {
      assert i == k || !Better(side, s[i].price, s[k].price);
    }
  }

  lemma {:induction false} TailKeepsFifo(rest: seq<Order>, opp: seq<Order>)
    requires TailOf(rest, opp) && Fifo(opp)
    ensures Fifo(rest)
  {
    var d := |opp| - |rest|;
    forall i, j | 0 <= i < j < |rest| && rest[i].price == rest[j].price ensures rest[i].id < rest[j].id {
      assert opp[d + i].price == opp[d + j].price;
    }
  }

  lemma {:induction false} AddKeepsFifo(cap: nat, b: Book, taker: Order)
    requires WellFormed(b) && BookFifo(b)
    requires forall id :: id in b.AllIds() ==> id < taker.id
    ensures BookFifo(Add(cap, b, taker).book)
  {
    var side, opp := taker.side, Opposite(taker.side);
    var same, r := b.On(side), Match(b.On(opp), taker);
    AddSides(cap, b, taker);
    WellFormedView(b, side);
    MatchKeepsTail(b.On(opp), taker);
    TailKeepsFifo(r.rest, b.On(opp));
    forall i | 0 <= i < |same| ensures same[i].id < taker.id {
      assert same[i] in same && same[i].id in b.AllIds();
    }
    InsertKeepsFifo(side, same, taker.(qty := r.left));
  }

  lemma CancelKeepsFifo(b: Book, id: OrderId)
    requires BookFifo(b)
    ensures BookFifo(Cancel(b, id))
  {
  }
}
