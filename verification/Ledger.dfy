/**
 Runs of book operations with their books kept: what was submitted, traded, cancelled and
 dropped. Quantity is conserved over every run, for every set of orders at once.
 */
module Ledgers {
  import opened Types
  import opened Matching
  import opened Books

  datatype Op = Submit(order: Order) | Withdraw(id: OrderId)

  /** What happened to one side's orders, other than trading and resting. */
  datatype Account = Account(submitted: seq<Order>, cancelled: seq<Order>, dropped: seq<Order>)

  datatype Ledger = Ledger(book: Book, trades: seq<Trade>, buys: Account, sells: Account) {
    function On(side: Side): Account {
      if side.Buy? then buys else sells
    }

    function With(side: Side, a: Account): Ledger {
      if side.Buy? then this.(buys := a) else this.(sells := a)
    }
  }

  const EMPTY: Ledger := Ledger(Book([], []), [], Account([], [], []), Account([], [], []))

  function Step(cap: nat, l: Ledger, op: Op): Ledger {
    match op
    case Submit(o) =>
      var r := Add(cap, l.book, o);
      var a := l.On(o.side);
      var a' := Account(a.submitted + [o], a.cancelled,
                        if r.dropped then a.dropped + [o.(qty := r.left)] else a.dropped);
      l.(book := r.book, trades := l.trades + r.trades).With(o.side, a')
    case Withdraw(id) =>
      match Find(l.book, id)
      case None => l
      case Some(o) =>
        var a := l.On(o.side);
        l.(book := Cancel(l.book, id)).With(o.side, a.(cancelled := a.cancelled + [o]))
  }

  function Run(cap: nat, ops: seq<Op>): Ledger {
    if ops == [] then EMPTY else Step(cap, Run(cap, ops[..|ops| - 1]), ops[|ops| - 1])
  }

  /** Each submitted id is not resting at that moment; withdrawals may name any id. */
  predicate Legal(cap: nat, ops: seq<Op>) {
    ops == [] ||
    (var init, op := ops[..|ops| - 1], ops[|ops| - 1];
     Legal(cap, init) && (op.Submit? ==> op.order.id !in Run(cap, init).book.AllIds()))
  }

  /** Quantity of the listed orders whose id is of interest. */
  function Tally(s: seq<Order>, p: OrderId -> bool): nat {
    if s == [] then 0 else (if p(s[0].id) then s[0].qty else 0) + Tally(s[1..], p)
  }

  function Party(t: Trade, side: Side): OrderId {
    if side.Buy? then t.buyId else t.sellId
  }

  /** Quantity traded by orders of interest on one side. */
  function Executed(ts: seq<Trade>, side: Side, p: OrderId -> bool): nat {
    if ts == [] then 0 else (if p(Party(ts[0], side)) then ts[0].qty else 0) + Executed(ts[1..], side, p)
  }

  lemma {:induction false} TallyConcat(s: seq<Order>, t: seq<Order>, p: OrderId -> bool)
    ensures Tally(s + t, p) == Tally(s, p) + Tally(t, p)
  {
    if s == [] {
      assert s + t == t;
    } else {
      TallyConcat(s[1..], t, p);
      assert (s + t)[1..] == s[1..] + t;
    }
  }

  lemma {:induction false} ExecutedConcat(s: seq<Trade>, t: seq<Trade>, side: Side, p: OrderId -> bool)
    ensures Executed(s + t, side, p) == Executed(s, side, p) + Executed(t, side, p)
  {
    if s == [] {
      assert s + t == t;
    } else {
      ExecutedConcat(s[1..], t, side, p);
      assert (s + t)[1..] == s[1..] + t;
    }
  }

  lemma {:induction false} TallySplit(s: seq<Order>, k: nat, p: OrderId -> bool)
    requires k < |s|
    ensures Tally(s, p) == Tally(s[..k], p) + Tally([s[k]], p) + Tally(s[k + 1..], p)
  {
    TallyConcat(s[..k], [s[k]], p);
    TallyConcat(s[..k] + [s[k]], s[k + 1..], p);
    assert s == s[..k] + [s[k]] + s[k + 1..];
  }

  lemma {:induction false} TallyInsert(side: Side, s: seq<Order>, o: Order, p: OrderId -> bool)
    ensures Tally(Insert(side, s, o), p) == Tally(s, p) + Tally([o], p)
  {
    var k := Rank(side, s, o.price);
    var t := Insert(side, s, o);
    TallySplit(t, k, p);
    assert t[..k] == s[..k] && t[k + 1..] == s[k..];
    TallyConcat(s[..k], s[k..], p);
    assert s == s[..k] + s[k..];
  }

  lemma {:induction false} TallyRemove(s: seq<Order>, k: nat, p: OrderId -> bool)
    requires k < |s|
    ensures Tally(s[..k] + s[k + 1..], p) + Tally([s[k]], p) == Tally(s, p)
  {
    TallySplit(s, k, p);
    TallyConcat(s[..k], s[k + 1..], p);
  }

  lemma {:induction false} TakerTally(opp: seq<Order>, taker: Order, p: OrderId -> bool)
    ensures var r := Match(opp, taker);
            Executed(r.trades, taker.side, p) + (if p(taker.id) then r.left else 0)
            == if p(taker.id) then taker.qty else 0
    decreases |opp|
  {
    if taker.qty == 0 || opp == [] || !Crosses(taker.side, opp[0].price, taker.price) {
    } else {
      var fill := Min(taker.qty, opp[0].qty);
      if fill == opp[0].qty {
        TakerTally(opp[1..], taker.(qty := taker.qty - fill), p);
      }
    }
  }

  lemma {:induction false} MakerTally(opp: seq<Order>, taker: Order, p: OrderId -> bool)
    ensures var r := Match(opp, taker);
            Executed(r.trades, Opposite(taker.side), p) + Tally(r.rest, p) == Tally(opp, p)
    decreases |opp|
  {
    if taker.qty == 0 || opp == [] || !Crosses(taker.side, opp[0].price, taker.price) {
    } else {
      var fill := Min(taker.qty, opp[0].qty);
      if fill == opp[0].qty {
        MakerTally(opp[1..], taker.(qty := taker.qty - fill), p);
      } else {
        assert Match(opp, taker).rest[1..] == opp[1..];
      }
    }
  }

  /** The balance sheet of one side, for the orders of interest. */
  ghost predicate Balanced(l: Ledger, side: Side, p: OrderId -> bool) {
    var a := l.On(side);
    Tally(a.submitted, p)
    == Executed(l.trades, side, p) + Tally(l.book.On(side), p) + Tally(a.cancelled, p) + Tally(a.dropped, p)
  }

  /** The side that submits: its remainder rests, or is dropped, or is nothing. */
  lemma {:induction false} TakerBalances(cap: nat, l: Ledger, o: Order, p: OrderId -> bool)
    requires Balanced(l, o.side, p)
    ensures Balanced(Step(cap, l, Submit(o)), o.side, p)
  {
    var m := Match(l.book.On(Opposite(o.side)), o);
    var o' := o.(qty := m.left);
    var a, l' := l.On(o.side), Step(cap, l, Submit(o));
    TakerTally(l.book.On(Opposite(o.side)), o, p);
    AddSides(cap, l.book, o);
    ExecutedConcat(l.trades, m.trades, o.side, p);
    TallyConcat(a.submitted, [o], p);
    if m.left == 0 {
    } else if Add(cap, l.book, o).dropped {
      TallyConcat(a.dropped, [o'], p);
    } else {
      TallyInsert(o.side, l.book.On(o.side), o', p);
    }
  }

  /** The side traded against: what its orders lost is what they traded. */
  lemma {:induction false} MakerBalances(cap: nat, l: Ledger, o: Order, p: OrderId -> bool)
    requires Balanced(l, Opposite(o.side), p)
    ensures Balanced(Step(cap, l, Submit(o)), Opposite(o.side), p)
  {
    var opp := Opposite(o.side);
    var m := Match(l.book.On(opp), o);
    MakerTally(l.book.On(opp), o, p);
    AddSides(cap, l.book, o);
    ExecutedConcat(l.trades, m.trades, opp, p);
  }

  lemma {:induction false} WithdrawBalances(cap: nat, l: Ledger, id: OrderId, side: Side, p: OrderId -> bool)
    requires WellFormed(l.book) && Balanced(l, side, p)
    ensures Balanced(Step(cap, l, Withdraw(id)), side, p)
  {
    match Find(l.book, id)
    case None =>
    case Some(o) =>
      IdsIndex(l.book.bids, id);
      IdsIndex(l.book.asks, id);
      var found, k := CancelIsolated(l.book, id);
      assert found == o.side;
      if side == o.side {
        TallyRemove(l.book.On(side), k, p);
        TallyConcat(l.On(side).cancelled, [o], p);
      }
  }

  /** Every legal run leaves a well-formed book of at most `cap` orders. */
  lemma {:induction false} RunWellFormed(cap: nat, ops: seq<Op>)
    requires Legal(cap, ops)
    ensures WellFormed(Run(cap, ops).book)
    ensures Run(cap, ops).book.Resting() <= cap
  {
    if ops == [] {
    } else {
      var init, op := ops[..|ops| - 1], ops[|ops| - 1];
      RunWellFormed(cap, init);
      var b := Run(cap, init).book;
      match op
      case Submit(o) =>
        AddKeepsWellFormed(cap, b, o);
        AddKeepsCapacity(cap, b, o);
      case Withdraw(id) =>
        CancelKeepsWellFormed(b, id);
    }
  }

  /**
   Conservation over every legal run, for every choice of orders: what a side submitted is
   exactly what it traded, still rests, was cancelled or was dropped.
   */
  lemma {:induction false} Conservation(cap: nat, ops: seq<Op>, side: Side, p: OrderId -> bool)
    requires Legal(cap, ops)
    ensures Balanced(Run(cap, ops), side, p)
  {
    if ops == [] {
    } else {
      var init, op := ops[..|ops| - 1], ops[|ops| - 1];
      Conservation(cap, init, side, p);
      match op
      case Submit(o) =>
        if side == o.side {
          TakerBalances(cap, Run(cap, init), o, p);
        } else {
          MakerBalances(cap, Run(cap, init), o, p);
        }
      case Withdraw(id) =>
        RunWellFormed(cap, init);
        WithdrawBalances(cap, Run(cap, init), id, side, p);
    }
  }

  lemma {:induction false} ExecutedAll(ts: seq<Trade>, side: Side)
    ensures Executed(ts, side, (_: OrderId) => true) == SumTrades(ts)
  {
    if ts == [] {
    } else {
      ExecutedAll(ts[1..], side);
    }
  }

  /** Over all orders, both sides traded the same total: the sum of the trades made. */
  lemma {:induction false} SideTotals(cap: nat, ops: seq<Op>, side: Side)
    requires Legal(cap, ops)
    ensures var l, all := Run(cap, ops), (_: OrderId) => true;
            Tally(l.On(side).submitted, all)
            == SumTrades(l.trades) + Tally(l.book.On(side), all)
               + Tally(l.On(side).cancelled, all) + Tally(l.On(side).dropped, all)
  {
    Conservation(cap, ops, side, (_: OrderId) => true);
    ExecutedAll(Run(cap, ops).trades, side);
  }
}
