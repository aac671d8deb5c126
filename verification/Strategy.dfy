/**
 The market maker on top of the book (include/strategy.hpp). With a half spread of at least
 one tick its quotes never trade on entry, and it never has more than one bid and one ask.
 */
module Strategies {
  import opened Types
  import opened Matching
  import opened Books

  datatype Maker = Maker(halfSpread: Price, quoteSize: Qty, threshold: Price,
                         quoting: bool, lastMid: Price, bidId: OrderId, askId: OrderId)

  /** Book, maker and id cursor after a tick, and the trades the tick made. */
  datatype Tick = Tick(book: Book, maker: Maker, nextId: OrderId, trades: seq<Trade>)

  /** Halving that truncates toward zero. */
  function Half(x: int): int {
    if x >= 0 then x / 2 else -((-x) / 2)
  }

  function Abs(x: int): int {
    if x < 0 then -x else x
  }

  function Mid(b: Book): Price
    requires b.bids != [] && b.asks != []
  {
    Half(b.bids[0].price + b.asks[0].price)
  }

  predicate Quotes(b: Book, m: Maker) {
    && b.bids != [] && b.asks != []
    && (m.quoting ==> Abs(Mid(b) - m.lastMid) >= m.threshold)
  }

  /** The book without the maker's current quotes. */
  function Pulled(b: Book, m: Maker): Book {
    if m.quoting then Cancel(Cancel(b, m.bidId), m.askId) else b
  }

  function BidQuote(m: Maker, mid: Price, id: OrderId, ts: Nanos): Order {
    Order(id, Buy, mid - m.halfSpread, m.quoteSize, ts)
  }

  function AskQuote(m: Maker, mid: Price, id: OrderId, ts: Nanos): Order {
    Order(id, Sell, mid + m.halfSpread, m.quoteSize, ts)
  }

  function OnTick(cap: nat, b: Book, m: Maker, nextId: OrderId, ts: Nanos): Tick {
    if !Quotes(b, m) then Tick(b, m, nextId, [])
    else
      Requote(cap, Pulled(b, m), m, Mid(b), nextId, ts)
  }

  function Requote(cap: nat, b: Book, m: Maker, mid: Price, nextId: OrderId, ts: Nanos): Tick {
    var bid := Add(cap, b, BidQuote(m, mid, nextId, ts));
    var ask := Add(cap, bid.book, AskQuote(m, mid, nextId + 1, ts));
    Tick(ask.book, m.(quoting := true, lastMid := mid, bidId := nextId, askId := nextId + 1),
         nextId + 2, bid.trades + ask.trades)
  }

  /** Requoting is entering the two quotes, one after the other. */
  lemma RequoteIs(cap: nat, b: Book, m: Maker, mid: Price, nextId: OrderId, ts: Nanos, bid: Order, ask: Order)
    requires bid == BidQuote(m, mid, nextId, ts) && ask == AskQuote(m, mid, nextId + 1, ts)
    ensures var t := Requote(cap, b, m, mid, nextId, ts);
            var first := Add(cap, b, bid);
            var second := Add(cap, first.book, ask);
            t.book == second.book && t.trades == first.trades + second.trades
  {
  }

  /** All ids in the book were handed out before this one. */
  ghost predicate Before(b: Book, nextId: OrderId) {
    forall id :: id in b.AllIds() ==> id < nextId
  }

  ghost predicate AllBelow(s: seq<Order>, p: Price) {
    forall i :: 0 <= i < |s| ==> s[i].price < p
  }

  ghost predicate AllAbove(s: seq<Order>, p: Price) {
    forall i :: 0 <= i < |s| ==> s[i].price > p
  }

  lemma HalfBetween(bid: Price, ask: Price)
    requires bid < ask
    ensures bid <= Half(bid + ask) <= ask
  {
  }

  /** An order that nothing on the other side can meet makes no trade and changes nothing there. */
  lemma {:induction false} PassiveAdd(cap: nat, b: Book, o: Order)
    requires var opp := b.On(Opposite(o.side)); opp == [] || !Crosses(o.side, opp[0].price, o.price)
    ensures var r := Add(cap, b, o);
            && r.trades == []
            && (r.book == b || r.book == b.With(o.side, Insert(o.side, b.On(o.side), o)))
  {
    var opp := Opposite(o.side);
    assert b.With(opp, b.On(opp)) == b;
    assert o.(qty := o.qty) == o;
  }

  lemma CancelKeepsBounds(b: Book, id: OrderId, p: Price, q: Price)
    requires AllBelow(b.bids, p) && AllAbove(b.asks, q)
    ensures AllBelow(Cancel(b, id).bids, p) && AllAbove(Cancel(b, id).asks, q)
  {
  }

  lemma {:induction false} PulledOk(b: Book, m: Maker)
    requires WellFormed(b)
    ensures WellFormed(Pulled(b, m))
    ensures Pulled(b, m).AllIds() == if m.quoting then b.AllIds() - {m.bidId} - {m.askId} else b.AllIds()
  {
    if m.quoting {
      CancelKeepsWellFormed(b, m.bidId);
      CancelKeepsWellFormed(Cancel(b, m.bidId), m.askId);
    }
  }

  /** Around the midpoint there is room for both quotes. */
  lemma {:induction false} RoomForQuotes(b: Book, m: Maker)
    requires WellFormed(b) && Quotes(b, m) && m.halfSpread >= 1
    ensures var mid := Mid(b);
            AllBelow(Pulled(b, m).bids, mid + m.halfSpread) && AllAbove(Pulled(b, m).asks, mid - m.halfSpread)
  {
    HalfBetween(b.bids[0].price, b.asks[0].price);
    var mid := Mid(b);
    var p, q := mid + m.halfSpread, mid - m.halfSpread;
    assert AllBelow(b.bids, p) && AllAbove(b.asks, q);
    if m.quoting {
      CancelKeepsBounds(b, m.bidId, p, q);
      CancelKeepsBounds(Cancel(b, m.bidId), m.askId, p, q);
    }
  }

  /** A passive bid: no trade, the asks as they were, and the bids still below the ask to come. */
  lemma {:induction false} BidShape(cap: nat, b: Book, bid: Order, top: Price)
    requires bid.side == Buy && bid.price < top && AllBelow(b.bids, top) && AllAbove(b.asks, bid.price)
    ensures var r := Add(cap, b, bid);
            && r.trades == [] && r.book.asks == b.asks && AllBelow(r.book.bids, top)
            && (r.book.bids == b.bids || r.book.bids == Insert(Buy, b.bids, bid))
  {
    PassiveAdd(cap, b, bid);
    InsertBelow(Buy, b.bids, bid, top);
  }

  lemma {:induction false} AskShape(cap: nat, b: Book, ask: Order)
    requires ask.side == Sell && AllBelow(b.bids, ask.price)
    ensures var r := Add(cap, b, ask);
            && r.trades == [] && r.book.bids == b.bids
            && (r.book.asks == b.asks || r.book.asks == Insert(Sell, b.asks, ask))
  {
    PassiveAdd(cap, b, ask);
  }

  lemma {:induction false} PairShape(cap: nat, b: Book, bid: Order, ask: Order)
    requires bid.side == Buy && ask.side == Sell && bid.price < ask.price
    requires AllBelow(b.bids, ask.price) && AllAbove(b.asks, bid.price)
    ensures var first := Add(cap, b, bid);
            var second := Add(cap, first.book, ask);
            && first.trades + second.trades == []
            && (second.book.bids == b.bids || second.book.bids == Insert(Buy, b.bids, bid))
            && (second.book.asks == b.asks || second.book.asks == Insert(Sell, b.asks, ask))
  {
    BidShape(cap, b, bid, ask.price);
    AskShape(cap, Add(cap, b, bid).book, ask);
  }

  /** Two passive quotes: no trade, and at most one order more on each side. */
  lemma {:induction false} RequoteShape(cap: nat, b: Book, m: Maker, mid: Price, nextId: OrderId, ts: Nanos)
    requires m.halfSpread >= 1
    requires AllBelow(b.bids, mid + m.halfSpread) && AllAbove(b.asks, mid - m.halfSpread)
    ensures var t := Requote(cap, b, m, mid, nextId, ts);
            && t.trades == []
            && (t.book.bids == b.bids || t.book.bids == Insert(Buy, b.bids, BidQuote(m, mid, nextId, ts)))
            && (t.book.asks == b.asks || t.book.asks == Insert(Sell, b.asks, AskQuote(m, mid, nextId + 1, ts)))
  {
    var bid, ask := BidQuote(m, mid, nextId, ts), AskQuote(m, mid, nextId + 1, ts);
    RequoteIs(cap, b, m, mid, nextId, ts, bid, ask);
    PairShape(cap, b, bid, ask);
  }

  lemma {:induction false} RemoveUndoesInsert(side: Side, s: seq<Order>, o: Order)
    requires o.id !in Ids(s)
    ensures Remove(Insert(side, s, o), o.id) == s
    ensures Remove(s, o.id) == s
  {
    var k, t := Rank(side, s, o.price), Insert(side, s, o);
    forall i | 0 <= i < |s| ensures s[i].id != o.id {
      assert s[i] in s;
    }
    assert t[k] == o && IndexOf(t, o.id) == k;
  }

  lemma {:induction false} InsertedIds(side: Side, s: seq<Order>, o: Order, id: OrderId)
    requires id !in Ids(s) && id != o.id
    ensures id !in Ids(Insert(side, s, o))
    ensures Remove(Insert(side, s, o), id) == Insert(side, s, o)
  {
    IdsIndex(s, id);
    IdsIndex(Insert(side, s, o), id);
  }

  /** Pulling two quotes that were inserted, or dropped, gives back the book they were entered into. */
  lemma {:induction false} PullUndoes(b: Book, b': Book, bid: Order, ask: Order)
    requires bid.id !in b.AllIds() && ask.id !in b.AllIds() && bid.id != ask.id
    requires b'.bids == b.bids || b'.bids == Insert(Buy, b.bids, bid)
    requires b'.asks == b.asks || b'.asks == Insert(Sell, b.asks, ask)
    ensures Cancel(Cancel(b', bid.id), ask.id) == b
  {
    RemoveUndoesInsert(Buy, b.bids, bid);
    RemoveUndoesInsert(Sell, b.asks, ask);
    InsertedIds(Sell, b.asks, ask, bid.id);
    IdsIndex(b.asks, bid.id);
    IdsIndex(b.bids, ask.id);
    CancelIsRemove(b', bid.id);
    CancelIsRemove(Book(b.bids, b'.asks), ask.id);
  }

  /** A tick moves nobody else: pulling the quotes it entered gives back the book it entered them into. */
  lemma {:induction false} TickUndone(cap: nat, b: Book, m: Maker, nextId: OrderId, ts: Nanos)
    requires WellFormed(b) && Before(b, nextId) && m.halfSpread >= 1
    ensures var t := OnTick(cap, b, m, nextId, ts);
            Pulled(t.book, t.maker) == Pulled(b, m)
  {
    if Quotes(b, m) {
      var mid := Mid(b);
      PulledOk(b, m);
      RoomForQuotes(b, m);
      RequoteShape(cap, Pulled(b, m), m, mid, nextId, ts);
      PullUndoes(Pulled(b, m), OnTick(cap, b, m, nextId, ts).book,
                 BidQuote(m, mid, nextId, ts), AskQuote(m, mid, nextId + 1, ts));
    }
  }

  lemma {:induction false} RequoteKeepsWellFormed(cap: nat, b: Book, m: Maker, mid: Price, nextId: OrderId, ts: Nanos)
    requires WellFormed(b) && Before(b, nextId)
    ensures var t := Requote(cap, b, m, mid, nextId, ts);
            WellFormed(t.book) && Before(t.book, t.nextId)
  {
    var bid, ask := BidQuote(m, mid, nextId, ts), AskQuote(m, mid, nextId + 1, ts);
    RequoteIs(cap, b, m, mid, nextId, ts, bid, ask);
    PairKeepsWellFormed(cap, b, bid, ask);
  }

  lemma {:induction false} PairKeepsWellFormed(cap: nat, b: Book, bid: Order, ask: Order)
    requires WellFormed(b) && Before(b, bid.id) && ask.id == bid.id + 1
    ensures var b' := Add(cap, Add(cap, b, bid).book, ask).book;
            WellFormed(b') && Before(b', ask.id + 1)
  {
    AddKeepsWellFormed(cap, b, bid);
    AddKeepsWellFormed(cap, Add(cap, b, bid).book, ask);
  }

  lemma InsertBelow(side: Side, s: seq<Order>, o: Order, p: Price)
    requires AllBelow(s, p) && o.price < p
    ensures AllBelow(Insert(side, s, o), p)
  {
  }

  /** The market maker is passive: a tick on any well-formed book makes no trade, whatever the mid rounds to. */
  lemma {:induction false} TickIsPassive(cap: nat, b: Book, m: Maker, nextId: OrderId, ts: Nanos)
    requires WellFormed(b) && m.halfSpread >= 1
    ensures OnTick(cap, b, m, nextId, ts).trades == []
  {
    if Quotes(b, m) {
      RoomForQuotes(b, m);
      RequoteShape(cap, Pulled(b, m), m, Mid(b), nextId, ts);
    }
  }

  lemma {:induction false} TickKeepsWellFormed(cap: nat, b: Book, m: Maker, nextId: OrderId, ts: Nanos)
    requires WellFormed(b) && Before(b, nextId)
    ensures var t := OnTick(cap, b, m, nextId, ts);
            WellFormed(t.book) && Before(t.book, t.nextId)
  {
    if Quotes(b, m) {
      PulledOk(b, m);
      RequoteKeepsWellFormed(cap, Pulled(b, m), m, Mid(b), nextId, ts);
    }
  }

  /**
   One tick of half spread is also needed: with none, or a negative one, there is a well-formed
   book (the tightest, around any price) on which the tick trades.
   */
  lemma {:induction false} WithoutSpreadTrades(cap: nat, halfSpread: Price, p: nat, q: Qty, size: Qty)
    requires cap >= 4 && halfSpread <= 0 && q > 0 && size > 0
    ensures var b := Book([Order(1, Buy, p, q, 0)], [Order(2, Sell, p + 1, q, 0)]);
            var m := Maker(halfSpread, size, 1, false, 0, 0, 0);
            WellFormed(b) && OnTick(cap, b, m, 3, 0).trades != []
  {
    var b := Book([Order(1, Buy, p, q, 0)], [Order(2, Sell, p + 1, q, 0)]);
    var m := Maker(halfSpread, size, 1, false, 0, 0, 0);
    assert Mid(b) == Half(p + (p + 1)) == p;
    var bid := BidQuote(m, p, 3, 0);
    if halfSpread == 0 {
      PassiveAdd(cap, b, bid);
      var b1 := Add(cap, b, bid).book;
      assert b1.bids != [] && b1.bids[0].price == p by {
        if b1 != b {
          assert b1.bids == Insert(Buy, b.bids, bid);
        }
      }
      assert Match(b1.bids, AskQuote(m, p, 4, 0)).trades != [];
    } else {
      assert Match(b.asks, bid).trades != [];
    }
  }

  // ---------- what a tick does, told from the prices ----------

  /** h is x halved, towards zero. */
  predicate Halves(x: int, h: int) {
    if x >= 0 then 2 * h <= x <= 2 * h + 1 else 2 * h - 1 <= x <= 2 * h
  }

  /** The mid is less than the threshold away from the one quoted around. */
  predicate Stays(m: Maker, mid: Price) {
    m.quoting && -m.threshold < mid - m.lastMid < m.threshold
  }

  /** The mid to requote around, given the sum of the two best prices, or none to stay. */
  ghost predicate Decided(sum: int, m: Maker, mid: Option<Price>) {
    forall h :: Halves(sum, h) ==> mid == if Stays(m, h) then None else Some(h)
  }

  lemma {:induction false} DecidedByHalf(sum: int, m: Maker)
    ensures Decided(sum, m, if m.quoting && Abs(Half(sum) - m.lastMid) < m.threshold then None else Some(Half(sum)))
  {
    forall h | Halves(sum, h) ensures h == Half(sum) {
      HalfUnique(sum, h);
    }
  }

  /** p is the best price on a side: some order has it, and none has a better one. */
  ghost predicate BestPrice(side: Side, s: seq<Order>, p: Price) {
    && (exists i :: 0 <= i < |s| && s[i].price == p)
    && (forall i :: 0 <= i < |s| ==> if side.Buy? then s[i].price <= p else s[i].price >= p)
  }

  lemma FrontIsBestPrice(side: Side, s: seq<Order>, p: Price)
    requires Sorted(side, s) && BestPrice(side, s, p)
    ensures s != [] && s[0].price == p
  {
  }

  lemma {:induction false} HalfUnique(x: int, h: int)
    ensures Halves(x, h) <==> h == Half(x)
  {
  }

  /** Mid and decision in terms of the best prices. */
  lemma {:induction false} Decision(b: Book, m: Maker, p: Price, q: Price, mid: Price)
    requires WellFormed(b) && BestPrice(Buy, b.bids, p) && BestPrice(Sell, b.asks, q) && Halves(p + q, mid)
    ensures b.bids != [] && b.asks != [] && Mid(b) == mid
    ensures Quotes(b, m) <==> !Stays(m, mid)
  {
    FrontIsBestPrice(Buy, b.bids, p);
    FrontIsBestPrice(Sell, b.asks, q);
    HalfUnique(p + q, mid);
  }

  /**
   What a tick decides. Without a bid or an ask it does nothing. With best bid p, best ask q and
   mid their halved sum, it does nothing exactly if it is quoting and the mid is less than the
   threshold away from the last one; otherwise it takes two ids, remembers them and that mid, and
   enters a bid and then an ask into the book without its old quotes, whatever they trade.
   */
  lemma {:induction false} TickDecision(cap: nat, b: Book, m: Maker, nextId: OrderId, ts: Nanos,
                                        p: Price, q: Price, mid: Price)
    requires WellFormed(b)
    ensures b.bids == [] || b.asks == [] ==> OnTick(cap, b, m, nextId, ts) == Tick(b, m, nextId, [])
    ensures BestPrice(Buy, b.bids, p) && BestPrice(Sell, b.asks, q) && Halves(p + q, mid) ==>
              var t := OnTick(cap, b, m, nextId, ts);
              if Stays(m, mid) then t == Tick(b, m, nextId, [])
              else
                && t.nextId == nextId + 2
                && t.maker == m.(quoting := true, lastMid := mid, bidId := nextId, askId := nextId + 1)
                && (var bid := Order(nextId, Buy, mid - m.halfSpread, m.quoteSize, ts);
                    var ask := Order(nextId + 1, Sell, mid + m.halfSpread, m.quoteSize, ts);
                    var first := Add(cap, Pulled(b, m), bid);
                    var second := Add(cap, first.book, ask);
                    t.book == second.book && t.trades == first.trades + second.trades)
  {
    if BestPrice(Buy, b.bids, p) && BestPrice(Sell, b.asks, q) && Halves(p + q, mid) {
      Decision(b, m, p, q, mid);
      var bid := Order(nextId, Buy, mid - m.halfSpread, m.quoteSize, ts);
      var ask := Order(nextId + 1, Sell, mid + m.halfSpread, m.quoteSize, ts);
      RequoteIs(cap, Pulled(b, m), m, mid, nextId, ts, bid, ask);
    }
  }

  /** An order that crosses nothing rests, whole, exactly if there is a slot for it. */
  lemma {:induction false} PassiveRests(cap: nat, b: Book, o: Order)
    requires o.qty > 0
    requires var opp := b.On(Opposite(o.side)); opp == [] || !Crosses(o.side, opp[0].price, o.price)
    ensures Add(cap, b, o).book == if b.Resting() < cap then b.With(o.side, Insert(o.side, b.On(o.side), o)) else b
  {
    var opp := Opposite(o.side);
    assert b.With(opp, b.On(opp)) == b;
    assert o.(qty := o.qty) == o;
  }

  lemma {:induction false} RequoteRests(cap: nat, b: Book, m: Maker, mid: Price, nextId: OrderId, ts: Nanos,
                                        bid: Order, ask: Order)
    requires bid == Order(nextId, Buy, mid - m.halfSpread, m.quoteSize, ts)
    requires ask == Order(nextId + 1, Sell, mid + m.halfSpread, m.quoteSize, ts)
    requires m.halfSpread >= 1 && m.quoteSize > 0
    requires AllBelow(b.bids, ask.price) && AllAbove(b.asks, bid.price)
    ensures Requote(cap, b, m, mid, nextId, ts).book == Quoted(cap, b, bid, ask)
  {
    RequoteIs(cap, b, m, mid, nextId, ts, bid, ask);
    PairRests(cap, b, bid, ask);
  }

  /** The book with the quotes there are slots for, the bid first. */
  function Quoted(cap: nat, b: Book, bid: Order, ask: Order): Book {
    Book(if b.Resting() < cap then Insert(Buy, b.bids, bid) else b.bids,
         if b.Resting() + 1 < cap then Insert(Sell, b.asks, ask) else b.asks)
  }

  /** A bid and an ask that cross nothing, not even each other. */
  lemma {:induction false} PairRests(cap: nat, b: Book, bid: Order, ask: Order)
    requires bid.side == Buy && ask.side == Sell && bid.qty > 0 && ask.qty > 0 && bid.price < ask.price
    requires AllBelow(b.bids, ask.price) && AllAbove(b.asks, bid.price)
    ensures Add(cap, Add(cap, b, bid).book, ask).book == Quoted(cap, b, bid, ask)
  {
    PassiveRests(cap, b, bid);
    InsertBelow(Buy, b.bids, bid, ask.price);
    PassiveRests(cap, Add(cap, b, bid).book, ask);
  }

  /**
   And when it does quote: one bid and one ask of the quote size, a half spread below and above the
   mid, under the next two ids, are entered into the book without the maker's old quotes, as far as
   the pool has slots, the bid first.
   */
  lemma {:induction false} TickQuotes(cap: nat, b: Book, m: Maker, nextId: OrderId, ts: Nanos,
                                      p: Price, q: Price, mid: Price)
    requires WellFormed(b) && BestPrice(Buy, b.bids, p) && BestPrice(Sell, b.asks, q) && Halves(p + q, mid)
    requires !Stays(m, mid)
    requires m.halfSpread >= 1 && m.quoteSize > 0
    ensures var bid := Order(nextId, Buy, mid - m.halfSpread, m.quoteSize, ts);
            var ask := Order(nextId + 1, Sell, mid + m.halfSpread, m.quoteSize, ts);
            OnTick(cap, b, m, nextId, ts).book == Quoted(cap, Pulled(b, m), bid, ask)
  {
    var bid := Order(nextId, Buy, mid - m.halfSpread, m.quoteSize, ts);
    var ask := Order(nextId + 1, Sell, mid + m.halfSpread, m.quoteSize, ts);
    Decision(b, m, p, q, mid);
    RoomForQuotes(b, m);
    RequoteRests(cap, Pulled(b, m), m, mid, nextId, ts, bid, ask);
  }

  // ---------- runs of a maker among other traders ----------

  datatype Action = Ticks(ts: Nanos) | Foreign(order: Order) | ForeignCancel(id: OrderId)

  datatype Market = Market(book: Book, maker: Maker, nextId: OrderId)

  function Act(cap: nat, s: Market, a: Action): Market {
    match a
    case Ticks(ts) => var t := OnTick(cap, s.book, s.maker, s.nextId, ts); Market(t.book, t.maker, t.nextId)
    case Foreign(o) => s.(book := Add(cap, s.book, o).book)
    case ForeignCancel(id) => s.(book := Cancel(s.book, id))
  }

  function Trading(cap: nat, start: Market, actions: seq<Action>): Market {
    if actions == [] then start else Act(cap, Trading(cap, start, actions[..|actions| - 1]), actions[|actions| - 1])
  }

  /** Other traders' ids are below the maker's first id, and fresh when submitted. */
  ghost predicate LegalActions(cap: nat, start: Market, actions: seq<Action>) {
    actions == [] ||
    (var init, a := actions[..|actions| - 1], actions[|actions| - 1];
     && LegalActions(cap, start, init)
     && (a.Foreign? ==> a.order.id < start.nextId && a.order.id !in Trading(cap, start, init).book.AllIds()))
  }

  /** Of the ids from `base` up, each side holds at most the maker's current quote for that side. */
  ghost predicate OneQuote(s: seq<Order>, base: OrderId, own: OrderId) {
    forall i :: 0 <= i < |s| && s[i].id >= base ==> s[i].id == own
  }

  ghost predicate MarketOk(s: Market, base: OrderId) {
    && WellFormed(s.book) && Before(s.book, s.nextId) && base <= s.nextId
    && OneQuote(s.book.bids, base, s.maker.bidId) && OneQuote(s.book.asks, base, s.maker.askId)
    && (s.maker.quoting || (forall id :: id in s.book.AllIds() ==> id < base))
  }

  lemma {:induction false} TailOneQuote(rest: seq<Order>, opp: seq<Order>, base: OrderId, own: OrderId)
    requires TailOf(rest, opp) && OneQuote(opp, base, own)
    ensures OneQuote(rest, base, own)
  {
    var tail := opp[|opp| - |rest|..];
    assert forall i :: 0 <= i < |rest| ==> rest[i] == tail[i].(qty := rest[i].qty);
  }

  lemma InsertOneQuote(side: Side, s: seq<Order>, o: Order, base: OrderId, own: OrderId)
    requires OneQuote(s, base, own) && (o.id < base || o.id == own)
    ensures OneQuote(Insert(side, s, o), base, own)
  {
  }

  /** An add, whatever it trades, leaves at most the owner's quote on each side. */
  lemma {:induction false} AddOneQuote(cap: nat, b: Book, o: Order, base: OrderId, bidId: OrderId, askId: OrderId)
    requires WellFormed(b) && (o.id < base || o.id == if o.side.Buy? then bidId else askId)
    requires OneQuote(b.bids, base, bidId) && OneQuote(b.asks, base, askId)
    ensures var b' := Add(cap, b, o).book;
            OneQuote(b'.bids, base, bidId) && OneQuote(b'.asks, base, askId)
  {
    var opp := b.On(Opposite(o.side));
    var own := if o.side.Buy? then bidId else askId;
    var other := if o.side.Buy? then askId else bidId;
    AddSides(cap, b, o);
    MatchKeepsTail(opp, o);
    TailOneQuote(Match(opp, o).rest, opp, base, other);
    InsertOneQuote(o.side, b.On(o.side), o.(qty := Match(opp, o).left), base, own);
  }

  lemma {:induction false} ForeignKeepsOk(cap: nat, s: Market, base: OrderId, o: Order)
    requires MarketOk(s, base) && o.id < base && o.id !in s.book.AllIds()
    ensures MarketOk(Act(cap, s, Foreign(o)), base)
  {
    AddKeepsWellFormed(cap, s.book, o);
    AddOneQuote(cap, s.book, o, base, s.maker.bidId, s.maker.askId);
  }

  lemma {:induction false} CancelKeepsOk(cap: nat, s: Market, base: OrderId, id: OrderId)
    requires MarketOk(s, base)
    ensures MarketOk(Act(cap, s, ForeignCancel(id)), base)
  {
    CancelKeepsWellFormed(s.book, id);
    ApartIds(s.book.bids, s.book.asks);
    CancelIsRemove(s.book, id);
    RemoveOneQuote(s.book.bids, id, base, s.maker.bidId);
    RemoveOneQuote(s.book.asks, id, base, s.maker.askId);
  }

  lemma RemoveOneQuote(s: seq<Order>, id: OrderId, base: OrderId, own: OrderId)
    requires OneQuote(s, base, own)
    ensures OneQuote(Remove(s, id), base, own)
  {
  }

  /** Pulling both quotes leaves none of the maker's orders in the book. */
  lemma {:induction false} PulledNoneOwn(s: Market, base: OrderId)
    requires MarketOk(s, base)
    ensures forall id :: id in Pulled(s.book, s.maker).AllIds() ==> id < base
  {
    PulledOk(s.book, s.maker);
    var b := s.book;
    forall id | id in b.AllIds() && id >= base ensures id == s.maker.bidId || id == s.maker.askId {
      IdsIndex(b.bids, id);
      IdsIndex(b.asks, id);
    }
  }

  lemma {:induction false} NoneOwn(s: seq<Order>, base: OrderId, own: OrderId)
    requires forall id :: id in Ids(s) ==> id < base
    ensures OneQuote(s, base, own)
  {
    forall i | 0 <= i < |s| ensures s[i].id in Ids(s) {
      assert s[i] in s;
    }
  }

  lemma {:induction false} RequoteOneQuote(cap: nat, b: Book, m: Maker, mid: Price, nextId: OrderId, ts: Nanos,
                                           base: OrderId)
    requires WellFormed(b) && Before(b, nextId)
    requires forall id :: id in b.AllIds() ==> id < base
    ensures var t := Requote(cap, b, m, mid, nextId, ts);
            OneQuote(t.book.bids, base, nextId) && OneQuote(t.book.asks, base, nextId + 1)
  {
    var bid, ask := BidQuote(m, mid, nextId, ts), AskQuote(m, mid, nextId + 1, ts);
    RequoteIs(cap, b, m, mid, nextId, ts, bid, ask);
    PairOneQuote(cap, b, bid, ask, base);
  }

  lemma {:induction false} PairOneQuote(cap: nat, b: Book, bid: Order, ask: Order, base: OrderId)
    requires WellFormed(b) && Before(b, bid.id) && bid.side == Buy && ask.side == Sell
    requires forall id :: id in b.AllIds() ==> id < base
    ensures var b' := Add(cap, Add(cap, b, bid).book, ask).book;
            OneQuote(b'.bids, base, bid.id) && OneQuote(b'.asks, base, ask.id)
  {
    forall id | id in Ids(b.bids) || id in Ids(b.asks) ensures id < base {
      assert id in b.AllIds();
    }
    NoneOwn(b.bids, base, bid.id);
    NoneOwn(b.asks, base, ask.id);
    AddOneQuote(cap, b, bid, base, bid.id, ask.id);
    AddKeepsWellFormed(cap, b, bid);
    AddOneQuote(cap, Add(cap, b, bid).book, ask, base, bid.id, ask.id);
  }

  lemma {:induction false} TickKeepsOk(cap: nat, s: Market, base: OrderId, ts: Nanos)
    requires MarketOk(s, base)
    ensures MarketOk(Act(cap, s, Ticks(ts)), base)
  {
    TickKeepsWellFormed(cap, s.book, s.maker, s.nextId, ts);
    if Quotes(s.book, s.maker) {
      PulledNoneOwn(s, base);
      PulledOk(s.book, s.maker);
      RequoteOneQuote(cap, Pulled(s.book, s.maker), s.maker, Mid(s.book), s.nextId, ts, base);
    }
  }

  lemma {:induction false} TradingKeepsOk(cap: nat, start: Market, actions: seq<Action>)
    requires MarketOk(start, start.nextId) && LegalActions(cap, start, actions)
    ensures MarketOk(Trading(cap, start, actions), start.nextId)
    ensures Trading(cap, start, actions).maker.halfSpread == start.maker.halfSpread
  {
    if actions == [] {
    } else {
      var init, a := actions[..|actions| - 1], actions[|actions| - 1];
      TradingKeepsOk(cap, start, init);
      var s, base := Trading(cap, start, init), start.nextId;
      match a
      case Ticks(ts) => TickKeepsOk(cap, s, base, ts);
      case Foreign(o) => ForeignKeepsOk(cap, s, base, o);
      case ForeignCancel(id) => CancelKeepsOk(cap, s, base, id);
    }
  }

  /** Over every run among other traders' orders and cancels, at most one maker order rests on each side. */
  lemma {:induction false} AtMostOneQuoteASide(cap: nat, start: Market, actions: seq<Action>, side: Side, i: nat, j: nat)
    requires MarketOk(start, start.nextId) && LegalActions(cap, start, actions)
    requires var s := Trading(cap, start, actions).book.On(side);
             i < |s| && j < |s| && s[i].id >= start.nextId && s[j].id >= start.nextId
    ensures i == j
  {
    TradingKeepsOk(cap, start, actions);
    assert SideOk(side, Trading(cap, start, actions).book.On(side));
  }

  /** And with a half spread of at least one, at every point of such a run the next tick makes no trade. */
  lemma {:induction false} NeverAggressive(cap: nat, start: Market, actions: seq<Action>, ts: Nanos)
    requires MarketOk(start, start.nextId) && LegalActions(cap, start, actions)
    requires start.maker.halfSpread >= 1
    ensures var s := Trading(cap, start, actions);
            OnTick(cap, s.book, s.maker, s.nextId, ts).trades == []
  {
    TradingKeepsOk(cap, start, actions);
    var s := Trading(cap, start, actions);
    TickIsPassive(cap, s.book, s.maker, s.nextId, ts);
  }
}
