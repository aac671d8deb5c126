/**
 The acknowledgement stream of one order: it opens with the order's own ack, accounts for
 every fill, always goes to the client that submitted the order, and ends for good.
 */
module AckLaws {
  import opened Types
  import opened Matching
  import opened Books
  import opened Engines
  import opened ShadowLaws
  import opened EngineLaws

  /** The acks about one exchange id, in order of emission. */
  function AcksOf(acks: seq<Ack>, id: OrderId): seq<Ack> {
    if acks == [] then []
    else
      var rest := AcksOf(acks[..|acks| - 1], id);
      if acks[|acks| - 1].exchangeId == id then rest + [acks[|acks| - 1]] else rest
  }

  function FillSum(acks: seq<Ack>): nat {
    if acks == [] then 0 else FillSum(acks[..|acks| - 1]) + acks[|acks| - 1].fillQty
  }

  predicate Final(status: ExecStatus) {
    status.Filled? || status.Canceled? || status.Rejected?
  }

  /** Acks that report the order's standing in the market, not the end of a cancel. */
  predicate Reports(status: ExecStatus) {
    status.Accepted? || status.PartialFill? || status.Filled?
  }

  /** The status says what the quantities say, and only a fill has a price. */
  predicate StatusOk(a: Ack) {
    match a.status
    case Accepted => a.fillQty == 0 && a.fillPrice == 0
    case PartialFill => a.fillQty > 0 && a.leaves > 0
    case Filled => a.fillQty > 0 && a.leaves == 0
    case _ => a.fillQty == 0 && a.fillPrice == 0 && a.leaves == 0
  }

  predicate Open(f: seq<Ack>) {
    f != [] && !Final(f[|f| - 1].status) && f[|f| - 1].leaves > 0
  }

  predicate IsAbout(a: Ack, ev: Event) {
    a.session == ev.session && a.clientId == ev.clientId && a.exchangeId == ev.seqNum
  }

  /** Every report adds up: filled so far and still open make the submitted quantity. */
  ghost predicate AddsUp(f: seq<Ack>, qty: Qty) {
    forall i :: 0 <= i < |f| && Reports(f[i].status) ==> FillSum(f[..i + 1]) + f[i].leaves == qty
  }

  /** Only the first ack may accept the order, and only the last one may end it. */
  ghost predicate InOrder(f: seq<Ack>) {
    && (forall i :: 0 < i < |f| ==> !f[i].status.Accepted?)
    && (forall i :: 0 <= i < |f| - 1 ==> !Final(f[i].status) && f[i].leaves > 0)
  }

  /** The life of one order as its client sees it. */
  ghost predicate Lifecycle(f: seq<Ack>, ev: Event) {
    && f != []
    && Reports(f[0].status)
    && (forall i :: 0 <= i < |f| ==> IsAbout(f[i], ev) && StatusOk(f[i]))
    && InOrder(f)
    && AddsUp(f, ev.qty)
  }

  /** An id has acks exactly once submitted; the order is in the map exactly while its life is open. */
  ghost predicate Life(f: seq<Ack>, id: OrderId, orders: map<OrderId, Event>, resting: map<OrderId, Info>) {
    if id !in orders then f == []
    else
      && Lifecycle(f, orders[id])
      && (id in resting <==> Open(f))
      && (id in resting ==> f[|f| - 1].leaves == resting[id].remaining)
  }

  lemma {:induction false} AcksOfConcat(s: seq<Ack>, t: seq<Ack>, id: OrderId)
    ensures AcksOf(s + t, id) == AcksOf(s, id) + AcksOf(t, id)
    decreases |t|
  {
    if t == [] {
      assert s + t == s;
    } else {
      assert (s + t)[..|s + t| - 1] == s + t[..|t| - 1];
      AcksOfConcat(s, t[..|t| - 1], id);
    }
  }

  lemma {:induction false} AcksOfOne(a: Ack, id: OrderId)
    ensures AcksOf([a], id) == if a.exchangeId == id then [a] else []
  {
    assert [a][..0] == [];
  }

  lemma {:induction false} StillAddsUp(f: seq<Ack>, a: Ack, qty: Qty)
    requires AddsUp(f, qty) && f != [] && Reports(f[|f| - 1].status)
    requires Reports(a.status) ==> a.fillQty + a.leaves == f[|f| - 1].leaves
    ensures AddsUp(f + [a], qty)
  {
    var g := f + [a];
    assert g[..|g| - 1] == f && g[..|g|] == g && f[..|f|] == f;
    forall i | 0 <= i < |g| && Reports(g[i].status) ensures FillSum(g[..i + 1]) + g[i].leaves == qty {
      if i < |f| {
        assert g[..i + 1] == f[..i + 1];
      }
    }
  }

  lemma StillInOrder(f: seq<Ack>, a: Ack)
    requires InOrder(f) && Open(f) && !a.status.Accepted?
    ensures InOrder(f + [a])
  {
  }

  /** Appending one more ack to an open life. */
  lemma {:induction false} LifeGrows(f: seq<Ack>, a: Ack, ev: Event)
    requires Lifecycle(f, ev) && Open(f)
    requires IsAbout(a, ev) && StatusOk(a) && !a.status.Accepted?
    requires Reports(a.status) ==> a.fillQty + a.leaves == f[|f| - 1].leaves
    ensures Lifecycle(f + [a], ev)
  {
    StillInOrder(f, a);
    StillAddsUp(f, a, ev.qty);
  }

  lemma FillOwned(sh: Shadow, exchangeId: OrderId, t: Trade, orders: map<OrderId, Event>)
    requires Owned(sh.resting, orders)
    requires var c := Counterparty(exchangeId, t); c in sh.resting && 0 < t.qty <= sh.resting[c].remaining
    ensures Owned(Fill(sh, exchangeId, t).shadow.resting, orders)
  {
  }

  /** One fill, seen by the order it fills. */
  lemma {:induction false} FilledLife(f: seq<Ack>, id: OrderId, t: Trade, info: Info, ev: Event, a: Ack)
    requires Lifecycle(f, ev) && Open(f) && f[|f| - 1].leaves == info.remaining
    requires ev.seqNum == id && info.Key() == KeyOf(ev) && 0 < t.qty <= info.remaining
    requires a == Ack(info.session, info.clientId, id,
                      if info.remaining == t.qty then Filled else PartialFill,
                      ToUint32(t.price), t.qty, info.remaining - t.qty)
    ensures Lifecycle(f + [a], ev)
    ensures Open(f + [a]) <==> t.qty < info.remaining
  {
    LifeGrows(f, a, ev);
  }

  lemma {:induction false} FillLifeSelf(sh: Shadow, exchangeId: OrderId, t: Trade, f: seq<Ack>,
                                        orders: map<OrderId, Event>, id: OrderId)
    requires Owned(sh.resting, orders) && id == Counterparty(exchangeId, t)
    requires id in sh.resting && 0 < t.qty <= sh.resting[id].remaining && orders[id].seqNum == id
    requires Life(f, id, orders, sh.resting)
    ensures var s := Fill(sh, exchangeId, t);
            |s.acks| == 1 && s.acks[0].exchangeId == id && Life(f + s.acks, id, orders, s.shadow.resting)
  {
    var s := Fill(sh, exchangeId, t);
    FilledLife(f, id, t, sh.resting[id], orders[id], s.acks[0]);
    assert s.acks == [s.acks[0]];
  }

  lemma FillLifeOther(sh: Shadow, exchangeId: OrderId, t: Trade, f: seq<Ack>,
                                         orders: map<OrderId, Event>, id: OrderId)
    requires id != Counterparty(exchangeId, t) && Counterparty(exchangeId, t) in sh.resting
    requires Life(f, id, orders, sh.resting)
    ensures var s := Fill(sh, exchangeId, t);
            |s.acks| == 1 && s.acks[0].exchangeId != id && Life(f, id, orders, s.shadow.resting)
  {
  }

  /** One fill of a resting order. */
  lemma {:induction false} FillLife(sh: Shadow, exchangeId: OrderId, t: Trade, acks: seq<Ack>,
                                    orders: map<OrderId, Event>, id: OrderId)
    requires Owned(sh.resting, orders)
    requires id in orders ==> orders[id].seqNum == id
    requires var c := Counterparty(exchangeId, t); c in sh.resting && 0 < t.qty <= sh.resting[c].remaining
    requires Life(AcksOf(acks, id), id, orders, sh.resting)
    ensures var s := Fill(sh, exchangeId, t);
            Life(AcksOf(acks + s.acks, id), id, orders, s.shadow.resting)
  {
    var s, f := Fill(sh, exchangeId, t), AcksOf(acks, id);
    if Counterparty(exchangeId, t) == id {
      FillLifeSelf(sh, exchangeId, t, f, orders, id);
    } else {
      FillLifeOther(sh, exchangeId, t, f, orders, id);
      assert f + [] == f;
    }
    assert s.acks == [s.acks[0]];
    AcksOfConcat(acks, s.acks, id);
    AcksOfOne(s.acks[0], id);
  }

  lemma {:induction false} FillAllLife(sh: Shadow, exchangeId: OrderId, trades: seq<Trade>, acks: seq<Ack>,
                                       orders: map<OrderId, Event>, id: OrderId)
    requires Owned(sh.resting, orders)
    requires forall x :: x in orders ==> orders[x].seqNum == x
    requires Applicable(sh, exchangeId, trades)
    requires Life(AcksOf(acks, id), id, orders, sh.resting)
    ensures var s := FillAll(sh, exchangeId, trades);
            Life(AcksOf(acks + s.acks, id), id, orders, s.shadow.resting)
    decreases |trades|
  {
    var s := FillAll(sh, exchangeId, trades);
    if trades == [] {
      assert acks + s.acks == acks;
    } else {
      var first := Fill(sh, exchangeId, trades[0]);
      FillOwned(sh, exchangeId, trades[0], orders);
      FillLife(sh, exchangeId, trades[0], acks, orders, id);
      FillAllLife(first.shadow, exchangeId, trades[1..], acks + first.acks, orders, id);
      Associate(acks, first.acks, FillAll(first.shadow, exchangeId, trades[1..]).acks);
    }
  }

  /** Trades with orders that have something left fill something. */
  lemma {:induction false} TradesFill(opp: seq<Order>, taker: Order)
    requires forall i :: 0 <= i < |opp| ==> opp[i].qty > 0
    ensures Match(opp, taker).trades == [] <==> SumTrades(Match(opp, taker).trades) == 0
  {
    if Match(opp, taker).trades != [] {
      KthTrade(opp, taker, 0);
    }
  }

  /** A first ack that adds up is a life of its own. */
  lemma {:induction false} FirstLife(own: Ack, ev: Event)
    requires IsAbout(own, ev) && StatusOk(own) && Reports(own.status) && own.fillQty + own.leaves == ev.qty
    ensures Lifecycle([own], ev)
    ensures Open([own]) <==> own.leaves > 0
  {
    assert [own][..1] == [own] && [own][..0] == [];
    assert FillSum([own]) == own.fillQty;
  }

  lemma {:induction false} OwnLife(cap: nat, b: Book, ev: Event)
    requires WellFormed(b)
    ensures var own := OwnAck(ev, Add(cap, b, TakerOf(ev)).trades);
            && Lifecycle([own], ev)
            && (Open([own]) <==> own.leaves > 0)
  {
    OwnAckExact(cap, b, ev);
    AddSides(cap, b, TakerOf(ev));
    TradesFill(b.On(Opposite(ev.side)), TakerOf(ev));
    FirstLife(OwnAck(ev, Add(cap, b, TakerOf(ev)).trades), ev);
  }

  /** The acks about an id after a new order: what the fills added, then the own ack if it is its own. */
  lemma {:induction false} NewOrderAcks(cap: nat, e: Engine, ev: Event, acks: seq<Ack>, id: OrderId)
    requires ev.kind == NewOrder
    ensures var r := Add(cap, e.book, TakerOf(ev));
            var filled := AcksOf(acks + FillAll(e.shadow, ev.seqNum, r.trades).acks, id);
            AcksOf(acks + Apply(cap, e, ev).acks, id)
            == if id == ev.seqNum then filled + [OwnAck(ev, r.trades)] else filled
  {
    var r := Add(cap, e.book, TakerOf(ev));
    var s, own := FillAll(e.shadow, ev.seqNum, r.trades), OwnAck(ev, r.trades);
    Associate(acks, s.acks, [own]);
    AcksOfConcat(acks + s.acks, [own], id);
    AcksOfOne(own, id);
  }

  /** The fills of a new order, seen by any order. */
  lemma {:induction false} FillsLife(cap: nat, h: History, ev: Event, acks: seq<Ack>, id: OrderId)
    requires Inv(cap, h) && ev.kind == NewOrder && ev.seqNum > h.last
    requires Life(AcksOf(acks, id), id, h.orders, h.engine.shadow.resting)
    ensures var s := FillAll(h.engine.shadow, ev.seqNum, Add(cap, h.engine.book, TakerOf(ev)).trades);
            && Life(AcksOf(acks + s.acks, id), id, h.orders, s.shadow.resting)
            && ev.seqNum !in s.shadow.resting && ev.seqNum !in h.orders
  {
    var r := Add(cap, h.engine.book, TakerOf(ev));
    NewOrderApplicable(cap, h, ev);
    FillAllShrinks(h.engine.shadow, ev.seqNum, r.trades);
    FillAllLife(h.engine.shadow, ev.seqNum, r.trades, acks, h.orders, id);
  }

  lemma {:induction false} NewOrderLife(cap: nat, h: History, ev: Event, acks: seq<Ack>, id: OrderId)
    requires Inv(cap, h) && ev.kind == NewOrder && ev.seqNum > h.last
    requires Life(AcksOf(acks, id), id, h.orders, h.engine.shadow.resting)
    ensures var h' := Advance(cap, h, ev);
            Life(AcksOf(acks + Apply(cap, h.engine, ev).acks, id), id, h'.orders, h'.engine.shadow.resting)
  {
    var r := Add(cap, h.engine.book, TakerOf(ev));
    var s, own := FillAll(h.engine.shadow, ev.seqNum, r.trades), OwnAck(ev, r.trades);
    NewOrderAcks(cap, h.engine, ev, acks, id);
    FillsLife(cap, h, ev, acks, id);
    if id == ev.seqNum {
      OwnLife(cap, h.engine.book, ev);
      EnterOwn(ev, own, s.shadow, h.orders);
      assert [] + [own] == [own];
    } else {
      EnterOther(AcksOf(acks + s.acks, id), id, ev, own.leaves, s.shadow, h.orders);
    }
  }

  lemma EnterOwn(ev: Event, own: Ack, sh: Shadow, orders: map<OrderId, Event>)
    requires Lifecycle([own], ev) && (Open([own]) <==> own.leaves > 0) && ev.seqNum !in sh.resting
    ensures Life([own], ev.seqNum, orders[ev.seqNum := ev], Enter(sh, ev, own.leaves).resting)
  {
  }

  lemma EnterOther(f: seq<Ack>, id: OrderId, ev: Event, leaves: Qty, sh: Shadow,
                                      orders: map<OrderId, Event>)
    requires Life(f, id, orders, sh.resting) && id != ev.seqNum
    ensures Life(f, id, orders[ev.seqNum := ev], Enter(sh, ev, leaves).resting)
  {
  }

  /** The end of an open life by a cancel. */
  lemma {:induction false} CancelledLife(f: seq<Ack>, a: Ack, id: OrderId, orders: map<OrderId, Event>,
                                         resting: map<OrderId, Info>)
    requires Life(f, id, orders, resting) && id in resting && id in orders
    requires orders[id].seqNum == id && OrderKey(a.session, a.clientId) == KeyOf(orders[id])
    requires a.exchangeId == id && (a.status == Canceled || a.status == Rejected) && StatusOk(a)
    ensures Life(f + [a], id, orders, resting - {id})
  {
    LifeGrows(f, a, orders[id]);
  }

  /** A cancel's one ack, and what it takes out of the map: the order it names, if any. */
  lemma CancelTarget(e: Engine, orders: map<OrderId, Event>, ev: Event)
    requires ByClientOk(e.shadow) && Owned(e.shadow.resting, orders)
    ensures var out := ApplyCancelOrder(e, ev);
            && |out.acks| == 1
            && (var a := out.acks[0];
                && (a.status == Canceled || a.status == Rejected) && StatusOk(a)
                && out.engine.shadow.resting
                   == (if KeyOf(ev) in e.shadow.byClient then e.shadow.resting - {a.exchangeId} else e.shadow.resting)
                && (KeyOf(ev) !in e.shadow.byClient ==> a.exchangeId == 0)
                && (KeyOf(ev) in e.shadow.byClient ==>
                      && a.exchangeId in e.shadow.resting
                      && OrderKey(a.session, a.clientId) == KeyOf(orders[a.exchangeId])))
  {
  }

  lemma {:induction false} CancelLife(e: Engine, orders: map<OrderId, Event>, ev: Event, acks: seq<Ack>, id: OrderId)
    requires ByClientOk(e.shadow) && Owned(e.shadow.resting, orders) && id != 0
    requires id in orders ==> orders[id].seqNum == id
    requires Life(AcksOf(acks, id), id, orders, e.shadow.resting)
    ensures var out := ApplyCancelOrder(e, ev);
            Life(AcksOf(acks + out.acks, id), id, orders, out.engine.shadow.resting)
  {
    var out, f := ApplyCancelOrder(e, ev), AcksOf(acks, id);
    var a := out.acks[0];
    CancelTarget(e, orders, ev);
    assert out.acks == [a];
    AcksOfConcat(acks, [a], id);
    AcksOfOne(a, id);
    if a.exchangeId == id {
      CancelledLife(f, a, id, orders, e.shadow.resting);
    } else {
      assert f + [] == f;
      assert id in out.engine.shadow.resting <==> id in e.shadow.resting;
    }
  }

  /**
   Over every stream, the acks about an order form one life: owner-addressed, opened by the
   order's own ack, with fills and leaves always adding up to the submitted quantity, nothing
   after a final ack, and still open exactly while the engine holds the order.
   */
  lemma {:induction false} AckLifecycle(cap: nat, events: seq<Event>, id: OrderId)
    requires Increasing(events) && id != 0
    ensures Life(AcksOf(Run(cap, events).acks, id), id, Replay(cap, events).orders,
                 Run(cap, events).engine.shadow.resting)
  {
    ReplayIsRun(cap, events);
    if events == [] {
    } else {
      var init, ev := events[..|events| - 1], events[|events| - 1];
      AckLifecycle(cap, init, id);
      RunKeepsInv(cap, init);
      ReplayIsRun(cap, init);
      var h, acks := Replay(cap, init), Run(cap, init).acks;
      match ev.kind
      case NewOrder => NewOrderLife(cap, h, ev, acks, id);
      case CancelOrder => CancelLife(h.engine, h.orders, ev, acks, id);
      case _ => assert acks + [] == acks;
    }
  }

  /** The first ack an order ever gets is its own, emitted when it is applied. */
  lemma {:induction false} OwnAckFirst(cap: nat, events: seq<Event>, ev: Event)
    requires Increasing(events + [ev]) && ev.kind == NewOrder
    ensures AcksOf(Run(cap, events + [ev]).acks, ev.seqNum)
            == [OwnAck(ev, Add(cap, Run(cap, events).engine.book, TakerOf(ev)).trades)]
  {
    var all := events + [ev];
    assert all[..|all| - 1] == events;
    assert forall i :: 0 <= i < |events| ==> events[i] == all[i];
    assert all[|events|] == ev;
    RunKeepsInv(cap, events);
    ReplayIsRun(cap, events);
    AckLifecycle(cap, events, ev.seqNum);
    var h, acks := Replay(cap, events), Run(cap, events).acks;
    FillsLife(cap, h, ev, acks, ev.seqNum);
    NewOrderAcks(cap, h.engine, ev, acks, ev.seqNum);
  }

  // ---------- fill prices ----------

  /** The acks of the fills are the trades, one for one. */
  lemma {:induction false} FillAllAcks(sh: Shadow, exchangeId: OrderId, trades: seq<Trade>, j: nat)
    requires Applicable(sh, exchangeId, trades)
    ensures |FillAll(sh, exchangeId, trades).acks| == |trades|
    ensures j < |trades| ==>
              var a, t := FillAll(sh, exchangeId, trades).acks[j], trades[j];
              && a.exchangeId == Counterparty(exchangeId, t)
              && a.fillQty == t.qty && a.fillPrice == ToUint32(t.price)
    decreases |trades|
  {
    if trades == [] {
    } else {
      var first := Fill(sh, exchangeId, trades[0]).shadow;
      FillAllAcks(first, exchangeId, trades[1..], if j > 0 then j - 1 else 0);
    }
  }

  /** A fill is reported at a price the order accepted. */
  ghost predicate FairPrice(a: Ack, orders: map<OrderId, Event>) {
    a.fillQty > 0 ==>
      && a.exchangeId in orders
      && (var ev := orders[a.exchangeId];
          if ev.side.Buy? then a.fillPrice <= ev.price else a.fillPrice >= ev.price)
  }

  /** The j-th trade is made at the limit of an order submitted earlier, which the taker accepted. */
  lemma {:induction false} TradePrice(opp: seq<Order>, taker: Order, orders: map<OrderId, Event>, j: nat)
    requires Faithful(opp, orders) && SideOk(Opposite(taker.side), opp) && taker.id !in orders
    requires j < |Match(opp, taker).trades|
    ensures var t := Match(opp, taker).trades[j];
            var id := Counterparty(taker.id, t);
            && id in orders && id != taker.id && orders[id].side == Opposite(taker.side)
            && orders[id].price == t.price && Crosses(taker.side, t.price, taker.price)
  {
    KthTrade(opp, taker, j);
  }

  /** The j-th counterparty is filled at its own limit, which the taker accepted. */
  lemma {:induction false} CounterpartyPrice(opp: seq<Order>, taker: Order, sh: Shadow, orders: map<OrderId, Event>, j: nat)
    requires Applicable(sh, taker.id, Match(opp, taker).trades) && Faithful(opp, orders)
    requires SideOk(Opposite(taker.side), opp) && taker.id !in orders
    requires j < |Match(opp, taker).trades|
    ensures var t := Match(opp, taker).trades[j];
            var acks := FillAll(sh, taker.id, Match(opp, taker).trades).acks;
            && j < |acks| && acks[j].exchangeId in orders && acks[j].exchangeId != taker.id
            && acks[j].fillPrice == orders[acks[j].exchangeId].price == t.price
            && FairPrice(acks[j], orders)
            && Crosses(taker.side, t.price, taker.price)
  {
    FillAllAcks(sh, taker.id, Match(opp, taker).trades, j);
    TradePrice(opp, taker, orders, j);
  }

  /** The order's own ack carries the price of its last trade, which it accepted. */
  lemma OwnPrice(ev: Event, trades: seq<Trade>, orders: map<OrderId, Event>)
    requires trades == [] || (var t := trades[|trades| - 1]; 0 <= t.price < TWO_32 && Crosses(ev.side, t.price, ev.price))
    ensures FairPrice(OwnAck(ev, trades), orders[ev.seqNum := ev])
  {
  }

  lemma LaterFairPrice(a: Ack, orders: map<OrderId, Event>, ev: Event)
    requires FairPrice(a, orders) && ev.seqNum !in orders
    ensures FairPrice(a, orders[ev.seqNum := ev])
  {
  }

  lemma {:induction false} EmittedPrices(opp: seq<Order>, ev: Event, sh: Shadow, orders: map<OrderId, Event>, i: nat)
    requires Applicable(sh, ev.seqNum, Match(opp, TakerOf(ev)).trades) && Faithful(opp, orders)
    requires SideOk(Opposite(ev.side), opp) && ev.seqNum !in orders
    requires i <= |Match(opp, TakerOf(ev)).trades|
    ensures var trades := Match(opp, TakerOf(ev)).trades;
            var acks := FillAll(sh, ev.seqNum, trades).acks + [OwnAck(ev, trades)];
            |acks| == |trades| + 1 && FairPrice(acks[i], orders[ev.seqNum := ev])
  {
    var trades := Match(opp, TakerOf(ev)).trades;
    FillAllAcks(sh, ev.seqNum, trades, 0);
    if i < |trades| {
      CounterpartyPrice(opp, TakerOf(ev), sh, orders, i);
      LaterFairPrice(FillAll(sh, ev.seqNum, trades).acks[i], orders, ev);
    } else {
      if trades != [] {
        CounterpartyPrice(opp, TakerOf(ev), sh, orders, |trades| - 1);
      }
      OwnPrice(ev, trades, orders);
    }
  }

  lemma {:induction false} NewOrderPrices(cap: nat, h: History, ev: Event, i: nat)
    requires Inv(cap, h) && ev.kind == NewOrder && ev.seqNum > h.last
    requires i < |Apply(cap, h.engine, ev).acks|
    ensures FairPrice(Apply(cap, h.engine, ev).acks[i], Advance(cap, h, ev).orders)
  {
    var b, taker := h.engine.book, TakerOf(ev);
    var opp := b.On(Opposite(ev.side));
    AddSides(cap, b, taker);
    NewOrderApplicable(cap, h, ev);
    FillAllAcks(h.engine.shadow, ev.seqNum, Match(opp, taker).trades, 0);
    assert SideOk(Opposite(ev.side), opp) && Faithful(opp, h.orders);
    EmittedPrices(opp, ev, h.engine.shadow, h.orders, i);
  }

  ghost predicate AllFair(acks: seq<Ack>, orders: map<OrderId, Event>) {
    forall i :: 0 <= i < |acks| ==> FairPrice(acks[i], orders)
  }

  lemma AdvanceKeepsFair(cap: nat, h: History, ev: Event, acks: seq<Ack>)
    requires Dated(h.orders, h.last) && ev.seqNum > h.last && AllFair(acks, h.orders)
    ensures AllFair(acks, Advance(cap, h, ev).orders)
  {
  }

  /** Only a new order reports fills. */
  lemma {:induction false} StepPrices(cap: nat, h: History, ev: Event)
    requires Inv(cap, h) && ev.seqNum > h.last
    ensures AllFair(Apply(cap, h.engine, ev).acks, Advance(cap, h, ev).orders)
  {
    if ev.kind == NewOrder {
      forall i | 0 <= i < |Apply(cap, h.engine, ev).acks|
        ensures FairPrice(Apply(cap, h.engine, ev).acks[i], Advance(cap, h, ev).orders)
      {
        NewOrderPrices(cap, h, ev, i);
      }
    }
  }

  lemma FairAppended(s: seq<Ack>, t: seq<Ack>, orders: map<OrderId, Event>)
    requires AllFair(s, orders) && AllFair(t, orders)
    ensures AllFair(s + t, orders)
  {
  }

  /** Over every stream, no fill is reported at a price worse than the limit of the order it is for. */
  lemma {:induction false} NoFillWorseThanLimit(cap: nat, events: seq<Event>)
    requires Increasing(events)
    ensures AllFair(Run(cap, events).acks, Replay(cap, events).orders)
  {
    if events == [] {
    } else {
      var init, ev := events[..|events| - 1], events[|events| - 1];
      var h := Replay(cap, init);
      RunKeepsInv(cap, init);
      ReplayIsRun(cap, init);
      NoFillWorseThanLimit(cap, init);
      AdvanceKeepsFair(cap, h, ev, Run(cap, init).acks);
      StepPrices(cap, h, ev);
      FairAppended(Run(cap, init).acks, Apply(cap, h.engine, ev).acks, Advance(cap, h, ev).orders);
    }
  }

  /** A fill of this order, at its own limit. */
  predicate LimitFill(a: Ack, orders: map<OrderId, Event>, id: OrderId) {
    a.fillQty > 0 ==> id in orders && a.fillPrice == orders[id].price
  }

  /** Past its own ack, an order is filled at its own limit. */
  ghost predicate AtLimit(f: seq<Ack>, orders: map<OrderId, Event>, id: OrderId) {
    forall i :: 1 <= i < |f| ==> LimitFill(f[i], orders, id)
  }

  ghost predicate LimitFills(acks: seq<Ack>, orders: map<OrderId, Event>) {
    forall j :: 0 <= j < |acks| ==> LimitFill(acks[j], orders, acks[j].exchangeId)
  }

  lemma {:induction false} AcksOfAtLimit(acks: seq<Ack>, orders: map<OrderId, Event>, id: OrderId, i: nat)
    requires LimitFills(acks, orders) && i < |AcksOf(acks, id)|
    ensures LimitFill(AcksOf(acks, id)[i], orders, id)
  {
    var n := |acks| - 1;
    if i < |AcksOf(acks[..n], id)| {
      AcksOfAtLimit(acks[..n], orders, id, i);
    }
  }

  lemma {:induction false} AtLimitGrows(acks: seq<Ack>, more: seq<Ack>, orders: map<OrderId, Event>, id: OrderId)
    requires AtLimit(AcksOf(acks, id), orders, id) && LimitFills(more, orders)
    ensures AtLimit(AcksOf(acks + more, id), orders, id)
  {
    AcksOfConcat(acks, more, id);
    forall i | 0 <= i < |AcksOf(more, id)| ensures LimitFill(AcksOf(more, id)[i], orders, id) {
      AcksOfAtLimit(more, orders, id, i);
    }
  }

  lemma AtLimitLater(f: seq<Ack>, orders: map<OrderId, Event>, id: OrderId, ev: Event)
    requires AtLimit(f, orders, id) && ev.seqNum !in orders
    ensures AtLimit(f, orders[ev.seqNum := ev], id)
  {
  }

  /** A new order fills those it meets at their limits. */
  lemma {:induction false} FillsAtLimit(cap: nat, h: History, ev: Event)
    requires Inv(cap, h) && ev.kind == NewOrder && ev.seqNum > h.last
    ensures LimitFills(FillAll(h.engine.shadow, ev.seqNum, Add(cap, h.engine.book, TakerOf(ev)).trades).acks, h.orders)
  {
    var opp, sh, taker := h.engine.book.On(Opposite(ev.side)), h.engine.shadow, TakerOf(ev);
    var trades := Match(opp, taker).trades;
    AddSides(cap, h.engine.book, taker);
    NewOrderApplicable(cap, h, ev);
    FillAllAcks(sh, ev.seqNum, trades, 0);
    forall j | 0 <= j < |trades|
      ensures LimitFill(FillAll(sh, ev.seqNum, trades).acks[j], h.orders, FillAll(sh, ev.seqNum, trades).acks[j].exchangeId)
    {
      assert SideOk(Opposite(ev.side), opp) && Faithful(opp, h.orders) && ev.seqNum !in h.orders;
      CounterpartyPrice(opp, taker, sh, h.orders, j);
    }
  }

  lemma {:induction false} NewOrderAtLimit(cap: nat, h: History, ev: Event, acks: seq<Ack>, id: OrderId)
    requires Inv(cap, h) && ev.kind == NewOrder && ev.seqNum > h.last && AtLimit(AcksOf(acks, id), h.orders, id)
    requires Life(AcksOf(acks, id), id, h.orders, h.engine.shadow.resting)
    ensures AtLimit(AcksOf(acks + Apply(cap, h.engine, ev).acks, id), Advance(cap, h, ev).orders, id)
  {
    var fills := FillAll(h.engine.shadow, ev.seqNum, Add(cap, h.engine.book, TakerOf(ev)).trades);
    NewOrderAcks(cap, h.engine, ev, acks, id);
    if id == ev.seqNum {
      FillsLife(cap, h, ev, acks, id);
      assert AcksOf(acks + fills.acks, id) == [];
    } else {
      FillsAtLimit(cap, h, ev);
      AtLimitGrows(acks, fills.acks, h.orders, id);
      assert ev.seqNum !in h.orders;
      AtLimitLater(AcksOf(acks + fills.acks, id), h.orders, id, ev);
    }
  }

  /** Over every stream, every fill an order gets while it rests is reported at exactly its own limit. */
  lemma {:induction false} RestingFillsAtLimit(cap: nat, events: seq<Event>, id: OrderId)
    requires Increasing(events) && id != 0
    ensures AtLimit(AcksOf(Run(cap, events).acks, id), Replay(cap, events).orders, id)
  {
    if events == [] {
    } else {
      var init, ev := events[..|events| - 1], events[|events| - 1];
      RestingFillsAtLimit(cap, init, id);
      RunKeepsInv(cap, init);
      ReplayIsRun(cap, init);
      AckLifecycle(cap, init, id);
      var h, acks := Replay(cap, init), Run(cap, init).acks;
      match ev.kind
      case NewOrder => NewOrderAtLimit(cap, h, ev, acks, id);
      case CancelOrder =>
        CancelTarget(h.engine, h.orders, ev);
        AtLimitGrows(acks, Apply(cap, h.engine, ev).acks, h.orders, id);
      case _ => assert acks + [] == acks;
    }
  }

  /**
   Applying any next event of a stream, every counterparty of every trade is found in the map
   with at least the traded quantity left, so the guard against a missing entry is never taken
   and no 32-bit subtraction wraps; the order's own fill count and leaves are exact.
   */
  lemma {:induction false} FillsNeverMissOrWrap(cap: nat, events: seq<Event>, ev: Event)
    requires Increasing(events + [ev]) && ev.kind == NewOrder
    ensures var e := Run(cap, events).engine;
            var r := Add(cap, e.book, TakerOf(ev));
            && Applicable(e.shadow, ev.seqNum, r.trades)
            && OwnAck(ev, r.trades).fillQty == SumTrades(r.trades) == ev.qty - r.left
            && OwnAck(ev, r.trades).leaves == r.left
  {
    var all := events + [ev];
    assert all[|events|] == ev;
    assert forall i :: 0 <= i < |events| ==> events[i] == all[i];
    RunKeepsInv(cap, events);
    ReplayIsRun(cap, events);
    NewOrderApplicable(cap, Replay(cap, events), ev);
    OwnAckExact(cap, Run(cap, events).engine.book, ev);
  }

  /** Trades come at ever worse prices for the taker. */
  lemma {:induction false} LastTradeIsWorst(opp: seq<Order>, taker: Order, j: nat, k: nat)
    requires Sorted(Opposite(taker.side), opp) && j <= k < |Match(opp, taker).trades|
    ensures Crosses(taker.side, Match(opp, taker).trades[j].price, Match(opp, taker).trades[k].price)
  {
    KthTrade(opp, taker, j);
    KthTrade(opp, taker, k);
  }

  lemma OwnAckPrice(ev: Event, trades: seq<Trade>)
    requires trades != [] && 0 <= trades[|trades| - 1].price < TWO_32
    ensures OwnAck(ev, trades).fillPrice == trades[|trades| - 1].price
  {
  }

  /** The price an order's own ack reports is the worst it traded at in that step. */
  lemma {:induction false} OwnPriceIsWorst(opp: seq<Order>, ev: Event, orders: map<OrderId, Event>, j: nat)
    requires Faithful(opp, orders) && SideOk(Opposite(ev.side), opp) && ev.seqNum !in orders
    requires j < |Match(opp, TakerOf(ev)).trades|
    ensures var trades := Match(opp, TakerOf(ev)).trades;
            && (if ev.side.Buy? then trades[j].price <= OwnAck(ev, trades).fillPrice
                else trades[j].price >= OwnAck(ev, trades).fillPrice)
            && OwnAck(ev, trades).fillPrice == trades[|trades| - 1].price
  {
    var taker, trades := TakerOf(ev), Match(opp, TakerOf(ev)).trades;
    LastTradeIsWorst(opp, taker, j, |trades| - 1);
    TradePrice(opp, taker, orders, |trades| - 1);
    OwnAckPrice(ev, trades);
  }

  // ---------- the acks of one step, told from the book before it ----------

  /** The ack of a resting order that trades q of its quantity, with what is left of it. */
  predicate MakerAck(a: Ack, o: Order, info: Info, q: Qty) {
    && a.exchangeId == o.id && a.session == info.session && a.clientId == info.clientId
    && a.fillQty == q && a.fillPrice == ToUint32(o.price) && q <= o.qty && a.leaves == o.qty - q
    && a.status == if q == o.qty then Filled else PartialFill
  }

  /** The first trade of a match, as its maker is told. */
  lemma {:induction false} FirstMakerAck(opp: seq<Order>, taker: Order, sh: Shadow)
    requires Tracks(opp, sh.resting) && taker.id !in sh.resting && Match(opp, taker).trades != []
    ensures var s := Fill(sh, taker.id, Match(opp, taker).trades[0]);
            |s.acks| == 1 && opp[0].id in sh.resting
            && MakerAck(s.acks[0], opp[0], sh.resting[opp[0].id], Min(opp[0].qty, taker.qty))
  {
    assert opp[0].id in sh.resting;
  }

  /** The k-th fill ack of a match is for the k-th resting order, for what those ahead of it left. */
  lemma {:induction false} KthMakerAck(opp: seq<Order>, taker: Order, sh: Shadow, k: nat)
    requires UniqueIds(opp) && Positive(opp) && Tracks(opp, sh.resting) && taker.id !in sh.resting
    requires k < |Match(opp, taker).trades|
    ensures var acks := FillAll(sh, taker.id, Match(opp, taker).trades).acks;
            && k < |opp| && k < |acks| && SumQty(opp[..k]) < taker.qty && opp[k].id in sh.resting
            && MakerAck(acks[k], opp[k], sh.resting[opp[k].id], Min(opp[k].qty, taker.qty - SumQty(opp[..k])))
    decreases |opp|
  {
    var trades := Match(opp, taker).trades;
    KthTrade(opp, taker, k);
    FirstMakerAck(opp, taker, sh);
    MatchIsApplicable(opp, taker, sh);
    FillAllAcks(sh, taker.id, trades, k);
    if k == 0 {
    } else {
      var taker', sh' := taker.(qty := taker.qty - opp[0].qty), Fill(sh, taker.id, trades[0]).shadow;
      assert trades[1..] == Match(opp[1..], taker').trades;
      FirstGone(opp, taker, sh);
      KthMakerAck(opp[1..], taker', sh', k - 1);
      assert opp[..k][1..] == opp[1..][..k - 1];
    }
  }

  /** When there is a second trade, the first maker is gone and the others' entries are as they were. */
  lemma {:induction false} FirstGone(opp: seq<Order>, taker: Order, sh: Shadow)
    requires UniqueIds(opp) && Positive(opp) && Tracks(opp, sh.resting) && taker.id !in sh.resting
    requires |Match(opp, taker).trades| > 1
    ensures var sh' := Fill(sh, taker.id, Match(opp, taker).trades[0]).shadow;
            && taker.qty > opp[0].qty && Tracks(opp[1..], sh'.resting) && taker.id !in sh'.resting
            && forall i :: 1 <= i < |opp| ==>
                 opp[i].id in sh.resting && opp[i].id in sh'.resting && sh'.resting[opp[i].id] == sh.resting[opp[i].id]
  {
    assert opp[0].id in sh.resting;
  }

  /**
   The k-th ack before the last is for the k-th resting order, at its price and for what those ahead
   left to trade; the last is the order's own, with all it traded and all that is left.
   */
  ghost predicate Answered(acks: seq<Ack>, opp: seq<Order>, resting: map<OrderId, Info>, ev: Event, k: nat) {
    && acks != []
    && (k + 1 < |acks| ==>
          && k < |opp| && SumQty(opp[..k]) < ev.qty && opp[k].id in resting
          && MakerAck(acks[k], opp[k], resting[opp[k].id], Min(opp[k].qty, ev.qty - SumQty(opp[..k]))))
    && OwnAnswer(acks[|acks| - 1], ev, CrossingQty(opp, TakerOf(ev)))
  }

  predicate OwnAnswer(own: Ack, ev: Event, crossing: nat) {
    && IsAbout(own, ev)
    && own.fillQty == (if crossing < ev.qty then crossing else ev.qty)
    && own.leaves == ev.qty - own.fillQty
  }

  lemma {:induction false} OwnIsAnswer(opp: seq<Order>, ev: Event)
    requires Sorted(Opposite(ev.side), opp)
    ensures OwnAnswer(OwnAck(ev, Match(opp, TakerOf(ev)).trades), ev, CrossingQty(opp, TakerOf(ev)))
  {
    MatchConserves(opp, TakerOf(ev));
    MatchLeaves(opp, TakerOf(ev));
    FilledIsSum(0, Match(opp, TakerOf(ev)).trades);
  }

  lemma {:induction false} MatchAnswered(opp: seq<Order>, ev: Event, sh: Shadow, k: nat)
    requires SideOk(Opposite(ev.side), opp) && Tracks(opp, sh.resting) && ev.seqNum !in sh.resting
    ensures var trades := Match(opp, TakerOf(ev)).trades;
            Answered(FillAll(sh, ev.seqNum, trades).acks + [OwnAck(ev, trades)], opp, sh.resting, ev, k)
  {
    var trades := Match(opp, TakerOf(ev)).trades;
    OwnIsAnswer(opp, ev);
    MatchIsApplicable(opp, TakerOf(ev), sh);
    FillAllAcks(sh, ev.seqNum, trades, 0);
    if k < |trades| {
      KthMakerAck(opp, TakerOf(ev), sh, k);
    }
  }

  lemma {:induction false} StepAnswered(cap: nat, h: History, ev: Event, k: nat)
    requires Inv(cap, h) && ev.kind == NewOrder && ev.seqNum > h.last
    ensures var e := h.engine;
            Answered(Apply(cap, e, ev).acks, e.book.On(Opposite(ev.side)), e.shadow.resting, ev, k)
  {
    var opp := h.engine.book.On(Opposite(ev.side));
    AddSides(cap, h.engine.book, TakerOf(ev));
    NewOrderApplicable(cap, h, ev);
    assert SideOk(Opposite(ev.side), opp) && Tracks(opp, h.engine.shadow.resting);
    MatchAnswered(opp, ev, h.engine.shadow, k);
  }

  /**
   Everything a new order is answered with after any stream, told from the book before it: one ack
   for each resting order it meets, in the order they rest, and then its own, last.
   */
  lemma {:induction false} AcksOfNewOrder(cap: nat, events: seq<Event>, ev: Event, k: nat)
    requires Increasing(events + [ev]) && ev.kind == NewOrder
    ensures var e := Run(cap, events).engine;
            Answered(Apply(cap, e, ev).acks, e.book.On(Opposite(ev.side)), e.shadow.resting, ev, k)
  {
    var all := events + [ev];
    assert all[|events|] == ev;
    assert forall i :: 0 <= i < |events| ==> events[i] == all[i];
    RunKeepsInv(cap, events);
    ReplayIsRun(cap, events);
    StepAnswered(cap, Replay(cap, events), ev, k);
  }

  // ---------- both sides of the market ----------

  /** Quantity reported filled to the orders of one side. */
  function FilledOn(acks: seq<Ack>, orders: map<OrderId, Event>, side: Side): nat {
    if acks == [] then 0
    else
      var a := acks[|acks| - 1];
      FilledOn(acks[..|acks| - 1], orders, side)
      + if a.exchangeId in orders && orders[a.exchangeId].side == side then a.fillQty else 0
  }

  lemma {:induction false} FilledOnConcat(s: seq<Ack>, t: seq<Ack>, orders: map<OrderId, Event>, side: Side)
    ensures FilledOn(s + t, orders, side) == FilledOn(s, orders, side) + FilledOn(t, orders, side)
    decreases |t|
  {
    if t == [] {
      assert s + t == s;
    } else {
      assert (s + t)[..|s + t| - 1] == s + t[..|t| - 1];
      FilledOnConcat(s, t[..|t| - 1], orders, side);
    }
  }

  /** Acks about known orders count the same when another order becomes known. */
  lemma {:induction false} FilledOnLater(acks: seq<Ack>, orders: map<OrderId, Event>, ev: Event, side: Side)
    requires ev.seqNum !in orders
    requires AllFair(acks, orders)
    ensures FilledOn(acks, orders[ev.seqNum := ev], side) == FilledOn(acks, orders, side)
  {
    if acks == [] {
    } else {
      FilledOnLater(acks[..|acks| - 1], orders, ev, side);
    }
  }

  lemma {:induction false} SumOfTrades(trades: seq<Trade>)
    requires trades != []
    ensures SumTrades(trades) == SumTrades(trades[..|trades| - 1]) + trades[|trades| - 1].qty
  {
    if |trades| == 1 {
    } else {
      SumOfTrades(trades[1..]);
      assert trades[1..][..|trades| - 2] == trades[..|trades| - 1][1..];
    }
  }

  /** Acks that fill orders of one side, trade by trade, fill that side by the sum of the trades. */
  lemma {:induction false} FilledByTrades(acks: seq<Ack>, trades: seq<Trade>, orders: map<OrderId, Event>, side: Side)
    requires |acks| == |trades|
    requires forall i :: 0 <= i < |acks| ==>
               acks[i].exchangeId in orders && orders[acks[i].exchangeId].side == side && acks[i].fillQty == trades[i].qty
    ensures FilledOn(acks, orders, side) == SumTrades(trades)
    ensures FilledOn(acks, orders, Opposite(side)) == 0
  {
    if acks == [] {
    } else {
      var n := |acks| - 1;
      FilledByTrades(acks[..n], trades[..n], orders, side);
      SumOfTrades(trades);
    }
  }

  /** The ack of one trade is about an order of the other side and reports the trade's quantity. */
  lemma {:induction false} MakerFill(opp: seq<Order>, ev: Event, sh: Shadow, orders: map<OrderId, Event>, i: nat)
    requires Applicable(sh, ev.seqNum, Match(opp, TakerOf(ev)).trades) && Faithful(opp, orders)
    requires SideOk(Opposite(ev.side), opp) && i < |Match(opp, TakerOf(ev)).trades|
    ensures var trades := Match(opp, TakerOf(ev)).trades;
            var acks := FillAll(sh, ev.seqNum, trades).acks;
            && |acks| == |trades| && acks[i].fillQty == trades[i].qty
            && acks[i].exchangeId in orders && orders[acks[i].exchangeId].side == Opposite(ev.side)
  {
    FillAllAcks(sh, ev.seqNum, Match(opp, TakerOf(ev)).trades, i);
    KthTrade(opp, TakerOf(ev), i);
  }

  lemma {:induction false} MakerFills(opp: seq<Order>, ev: Event, sh: Shadow, orders: map<OrderId, Event>)
    requires Applicable(sh, ev.seqNum, Match(opp, TakerOf(ev)).trades) && Faithful(opp, orders)
    requires SideOk(Opposite(ev.side), opp)
    ensures var trades := Match(opp, TakerOf(ev)).trades;
            var acks := FillAll(sh, ev.seqNum, trades).acks;
            && FilledOn(acks, orders, Opposite(ev.side)) == SumTrades(trades)
            && FilledOn(acks, orders, ev.side) == 0
  {
    var trades := Match(opp, TakerOf(ev)).trades;
    var acks := FillAll(sh, ev.seqNum, trades).acks;
    if trades != [] {
      forall i | 0 <= i < |trades|
        ensures |acks| == |trades| && acks[i].fillQty == trades[i].qty
        ensures acks[i].exchangeId in orders && orders[acks[i].exchangeId].side == Opposite(ev.side)
      {
        MakerFill(opp, ev, sh, orders, i);
      }
      MakerFill(opp, ev, sh, orders, 0);
      FilledByTrades(acks, trades, orders, Opposite(ev.side));
    }
  }

  /**
   Over every stream, the quantity reported filled to buyers is exactly the quantity reported
   filled to sellers.
   */
  lemma {:induction false} FillsBalance(cap: nat, events: seq<Event>)
    requires Increasing(events)
    ensures var acks, orders := Run(cap, events).acks, Replay(cap, events).orders;
            FilledOn(acks, orders, Buy) == FilledOn(acks, orders, Sell)
  {
    if events == [] {
    } else {
      var init, ev := events[..|events| - 1], events[|events| - 1];
      FillsBalance(cap, init);
      RunKeepsInv(cap, init);
      ReplayIsRun(cap, init);
      NoFillWorseThanLimit(cap, init);
      StepBalanced(cap, Replay(cap, init), ev, Run(cap, init).acks, Buy);
      StepBalanced(cap, Replay(cap, init), ev, Run(cap, init).acks, Sell);
    }
  }

  /** One ack about a known order counts on that order's side only. */
  lemma {:induction false} FilledByOne(a: Ack, orders: map<OrderId, Event>, side: Side)
    requires a.exchangeId in orders
    ensures FilledOn([a], orders, side) == if orders[a.exchangeId].side == side then a.fillQty else 0
  {
    assert [a][..0] == [];
  }

  /** The fills of the counterparties and the own ack together fill either side alike. */
  lemma {:induction false} BothSidesFilled(acks: seq<Ack>, own: Ack, orders: map<OrderId, Event>, total: nat, side: Side)
    requires own.exchangeId in orders && own.fillQty == total
    requires FilledOn(acks, orders, orders[own.exchangeId].side) == 0
    requires FilledOn(acks, orders, Opposite(orders[own.exchangeId].side)) == total
    ensures FilledOn(acks + [own], orders, side) == total
  {
    FilledOnConcat(acks, [own], orders, side);
    FilledByOne(own, orders, side);
  }

  /** A new order's acks fill either side by the sum of its trades. */
  lemma {:induction false} NewOrderBalanced(cap: nat, h: History, ev: Event, side: Side)
    requires Inv(cap, h) && ev.seqNum > h.last && ev.kind == NewOrder
    ensures FilledOn(Apply(cap, h.engine, ev).acks, h.orders[ev.seqNum := ev], side)
            == SumTrades(Add(cap, h.engine.book, TakerOf(ev)).trades)
  {
    var opp, sh, later := h.engine.book.On(Opposite(ev.side)), h.engine.shadow, h.orders[ev.seqNum := ev];
    var trades := Match(opp, TakerOf(ev)).trades;
    assert SideOk(Opposite(ev.side), opp) && Faithful(opp, h.orders) && ev.seqNum !in h.orders;
    LaterFaithful(opp, h.orders, ev);
    NewOrderApplicable(cap, h, ev);
    AddSides(cap, h.engine.book, TakerOf(ev));
    MakerFills(opp, ev, sh, later);
    OwnAckExact(cap, h.engine.book, ev);
    BothSidesFilled(FillAll(sh, ev.seqNum, trades).acks, OwnAck(ev, trades), later, SumTrades(trades), side);
  }

  /** How much a step adds to either side. */
  lemma {:induction false} StepBalanced(cap: nat, h: History, ev: Event, acks: seq<Ack>, side: Side)
    requires Inv(cap, h) && ev.seqNum > h.last
    requires AllFair(acks, h.orders)
    ensures FilledOn(acks + Apply(cap, h.engine, ev).acks, Advance(cap, h, ev).orders, side)
            == FilledOn(acks, h.orders, side)
               + if ev.kind == NewOrder then SumTrades(Add(cap, h.engine.book, TakerOf(ev)).trades) else 0
  {
    FilledOnConcat(acks, Apply(cap, h.engine, ev).acks, Advance(cap, h, ev).orders, side);
    if ev.kind == NewOrder {
      assert ev.seqNum !in h.orders;
      FilledOnLater(acks, h.orders, ev, side);
      NewOrderBalanced(cap, h, ev, side);
    } else if ev.kind == CancelOrder {
      CancelTarget(h.engine, h.orders, ev);
    }
  }
}
