/**
 What the invariant gives the engine's users: who owns what, when the maps and the book
 coincide, and exactly when a cancel finds its order.
 */
module CancelLaws {
  import opened Types
  import opened Matching
  import opened Books
  import opened Engines
  import opened ShadowLaws
  import opened EngineLaws

  /** Event i of the stream submitted this order. */
  predicate Submits(events: seq<Event>, i: int, id: OrderId) {
    0 <= i < |events| && events[i].kind == NewOrder && events[i].seqNum == id
  }

  lemma RecordsKept(cap: nat, h: History, ev: Event)
    ensures Advance(cap, h, ev).orders == if ev.kind == NewOrder then h.orders[ev.seqNum := ev] else h.orders
  {
  }

  /** The history records exactly the orders the stream submitted. */
  lemma {:induction false} SubmissionRecorded(cap: nat, events: seq<Event>, i: nat)
    requires Increasing(events) && i < |events| && events[i].kind == NewOrder
    ensures events[i].seqNum in Replay(cap, events).orders
    ensures Replay(cap, events).orders[events[i].seqNum] == events[i]
  {
    var n := |events| - 1;
    var init, ev := events[..n], events[n];
    if i == n {
    } else {
      assert init[i] == events[i] && events[i].seqNum != ev.seqNum;
      SubmissionRecorded(cap, init, i);
    }
    RecordsKept(cap, Replay(cap, init), ev);
  }

  lemma {:induction false} RecordedIsSubmission(cap: nat, events: seq<Event>, id: OrderId) returns (i: nat)
    requires Increasing(events) && id in Replay(cap, events).orders
    ensures Submits(events, i, id) && Replay(cap, events).orders[id] == events[i]
  {
    var n := |events| - 1;
    if events[n].kind == NewOrder && events[n].seqNum == id {
      i := n;
    } else {
      i := RecordedIsSubmission(cap, events[..n], id);
    }
  }

  /**
   After any stream, each order in the book is known to the engine under the client that
   submitted it, with exactly its remaining quantity, at the price and side submitted.
   */
  lemma {:induction false} BookMatchesMaps(cap: nat, events: seq<Event>, side: Side, i: nat)
    requires Increasing(events)
    requires i < |Run(cap, events).engine.book.On(side)|
    ensures var e := Run(cap, events).engine;
            var o := e.book.On(side)[i];
            && o.id in e.shadow.resting
            && e.shadow.resting[o.id].remaining == o.qty > 0
            && exists k :: Submits(events, k, o.id)
                           && e.shadow.resting[o.id].Key() == KeyOf(events[k])
                           && o.side == side == events[k].side && o.price == events[k].price
                           && o.ts == events[k].sequenceTs && o.qty <= events[k].qty
  {
    RunKeepsInv(cap, events);
    ReplayIsRun(cap, events);
    var h := Replay(cap, events);
    var o := h.engine.book.On(side)[i];
    assert Tracks(h.engine.book.On(side), h.engine.shadow.resting);
    assert Faithful(h.engine.book.On(side), h.orders);
    assert SideOk(side, h.engine.book.On(side));
    var k := RecordedIsSubmission(cap, events, o.id);
    assert Submits(events, k, o.id);
  }

  /** No new order of the stream overflowed the pool when it arrived. */
  ghost predicate NeverExhausted(cap: nat, events: seq<Event>) {
    events == [] ||
    (var init, ev := events[..|events| - 1], events[|events| - 1];
     && NeverExhausted(cap, init)
     && (ev.kind == NewOrder ==> !Overflows(cap, Run(cap, init).engine.book, TakerOf(ev))))
  }

  lemma {:induction false} NoPhantoms(cap: nat, events: seq<Event>)
    requires Increasing(events) && NeverExhausted(cap, events)
    ensures Replay(cap, events).phantoms == {}
  {
    if events == [] {
    } else {
      var init := events[..|events| - 1];
      NoPhantoms(cap, init);
      ReplayIsRun(cap, init);
      RunKeepsInv(cap, init);
      DropExact(cap, Run(cap, init).engine.book, TakerOf(events[|events| - 1]));
    }
  }

  /** The engine's map holds the book's orders, and only those unless the pool was exhausted. */
  lemma {:induction false} MapsCoincide(cap: nat, events: seq<Event>)
    requires Increasing(events)
    ensures Run(cap, events).engine.book.AllIds() <= Run(cap, events).engine.shadow.resting.Keys
    ensures Run(cap, events).engine.book.AllIds() == Run(cap, events).engine.shadow.resting.Keys
            <==> Replay(cap, events).phantoms == {}
    ensures NeverExhausted(cap, events) ==>
              Run(cap, events).engine.book.AllIds() == Run(cap, events).engine.shadow.resting.Keys
  {
    RunKeepsInv(cap, events);
    ReplayIsRun(cap, events);
    if NeverExhausted(cap, events) {
      NoPhantoms(cap, events);
    }
  }

  // ---------- client keys ----------

  /** Every entry can be reached through its client's key. */
  ghost predicate Reachable(sh: Shadow) {
    forall id :: id in sh.resting ==>
      sh.resting[id].Key() in sh.byClient && sh.byClient[sh.resting[id].Key()] == id
  }

  lemma FillKeepsReachable(sh: Shadow, exchangeId: OrderId, t: Trade)
    requires Reachable(sh)
    ensures Reachable(Fill(sh, exchangeId, t).shadow)
  {
  }

  lemma {:induction false} FillAllKeepsReachable(sh: Shadow, exchangeId: OrderId, trades: seq<Trade>)
    requires Reachable(sh)
    ensures Reachable(FillAll(sh, exchangeId, trades).shadow)
    decreases |trades|
  {
    if trades == [] {
    } else {
      FillKeepsReachable(sh, exchangeId, trades[0]);
      FillAllKeepsReachable(Fill(sh, exchangeId, trades[0]).shadow, exchangeId, trades[1..]);
    }
  }

  lemma {:induction false} EnterReachable(sh: Shadow, ev: Event, leaves: Qty)
    requires Reachable(sh) && ByClientOk(sh) && ev.seqNum !in sh.resting
    ensures Reachable(Enter(sh, ev, leaves)) <==> leaves == 0 || KeyOf(ev) !in sh.byClient
  {
    if leaves > 0 && KeyOf(ev) in sh.byClient {
      var prior := sh.byClient[KeyOf(ev)];
      var sh' := Enter(sh, ev, leaves);
      assert prior in sh'.resting && sh'.resting[prior].Key() == KeyOf(ev);
      assert sh'.byClient[KeyOf(ev)] == ev.seqNum;
    }
  }

  lemma {:induction false} AcrossConcat(s: seq<Order>, t: seq<Order>)
    requires UniqueIds(s + t)
    ensures Ids(s) !! Ids(t) && Ids(s + t) == Ids(s) + Ids(t)
  {
    forall x | x in Ids(s) ensures x !in Ids(t) {
      var i :| 0 <= i < |s| && s[i].id == x;
      forall j | 0 <= j < |t| ensures t[j].id != x {
        assert (s + t)[i] == s[i] && (s + t)[|s| + j] == t[j];
      }
    }
  }

  /** The ids left in the map when an order trades everything it may. */
  lemma {:induction false} IdsTradedAway(same: seq<Order>, opp: seq<Order>, taker: Order, sh: Shadow, phantoms: set<OrderId>)
    requires PairOk(taker.side, same, opp) && Tracks(opp, sh.resting) && taker.id !in sh.resting
    requires sh.resting.Keys == Ids(same) + Ids(opp) + phantoms && Ids(opp) !! Ids(same) + phantoms
    requires CrossingQty(opp, taker) < taker.qty
    ensures FillAll(sh, taker.id, Match(opp, taker).trades).shadow.resting.Keys
            == sh.resting.Keys - Ids(Crossing(opp, taker))
  {
    FilledKeys(same, opp, taker, sh, phantoms);
    MatchLeaves(opp, taker);
    CrossingFirst(opp, taker);
    AcrossConcat(Crossing(opp, taker), Staying(opp, taker));
  }

  lemma {:induction false} TradedAway(cap: nat, h: History, ev: Event)
    requires Inv(cap, h) && ev.kind == NewOrder && ev.seqNum > h.last
    requires CrossingQty(h.engine.book.On(Opposite(ev.side)), TakerOf(ev)) < ev.qty
    ensures var e, taker := h.engine, TakerOf(ev);
            FillAll(e.shadow, ev.seqNum, Add(cap, e.book, taker).trades).shadow.resting.Keys
            == e.shadow.resting.Keys - Ids(Crossing(e.book.On(Opposite(ev.side)), taker))
  {
    var b, taker, sh := h.engine.book, TakerOf(ev), h.engine.shadow;
    var same, opp := b.On(ev.side), b.On(Opposite(ev.side));
    NewOrderApplicable(cap, h, ev);
    WellFormedView(b, ev.side);
    ApartIds(same, opp);
    assert b.AllIds() == Ids(same) + Ids(opp);
    IdsTradedAway(same, opp, taker, sh, h.phantoms);
    AddSides(cap, b, taker);
  }

  /** With every entry reachable, a key survives the fills exactly if its order does. */
  lemma {:induction false} KeySurvives(sh: Shadow, after: Shadow, gone: set<OrderId>, key: OrderKey)
    requires Reachable(sh) && ByClientOk(sh) && Reachable(after) && ByClientOk(after)
    requires Drawn(sh.resting, after.resting) && after.resting.Keys == sh.resting.Keys - gone
    ensures key in after.byClient <==> key in sh.byClient && sh.byClient[key] !in gone
  {
    if key in after.byClient {
      var id := after.byClient[key];
      assert id in after.resting.Keys && sh.resting[id].Key() == key;
    }
    if key in sh.byClient && sh.byClient[key] !in gone {
      var id := sh.byClient[key];
      assert id in after.resting.Keys && after.resting[id].Key() == key;
    }
  }

  lemma {:induction false} FillsKeepReachable(cap: nat, h: History, ev: Event)
    requires Inv(cap, h) && Reachable(h.engine.shadow) && ev.seqNum > h.last && ev.kind == NewOrder
    ensures var after := FillAll(h.engine.shadow, ev.seqNum, Add(cap, h.engine.book, TakerOf(ev)).trades).shadow;
            && Reachable(after) && ByClientOk(after) && Drawn(h.engine.shadow.resting, after.resting)
            && ev.seqNum !in after.resting
  {
    var r := Add(cap, h.engine.book, TakerOf(ev));
    NewOrderApplicable(cap, h, ev);
    FillAllShrinks(h.engine.shadow, ev.seqNum, r.trades);
    FillAllDraws(h.engine.shadow, ev.seqNum, r.trades);
    FillAllKeepsReachable(h.engine.shadow, ev.seqNum, r.trades);
    FillAllKeepsByClient(h.engine.shadow, ev.seqNum, r.trades);
  }

  /**
   From a state where every order is reachable, a new order keeps it so exactly if it does not
   reuse a live key, which is told from the state before it arrives.
   */
  lemma {:induction false} ReuseIsTheOnlyLoss(cap: nat, h: History, ev: Event)
    requires Inv(cap, h) && Reachable(h.engine.shadow) && ev.seqNum > h.last
    ensures Reachable(Advance(cap, h, ev).engine.shadow)
            <==> !(ev.kind == NewOrder && ReusesKey(h.engine, ev))
  {
    match ev.kind
    case NewOrder =>
      var e, opp, taker := h.engine, h.engine.book.On(Opposite(ev.side)), TakerOf(ev);
      var r := Add(cap, e.book, taker);
      var after := FillAll(e.shadow, ev.seqNum, r.trades).shadow;
      OwnAckExact(cap, e.book, ev);
      DropExact(cap, e.book, taker);
      FillsKeepReachable(cap, h, ev);
      EnterReachable(after, ev, r.left);
      if CrossingQty(opp, taker) < ev.qty {
        TradedAway(cap, h, ev);
        KeySurvives(e.shadow, after, Ids(Crossing(opp, taker)), KeyOf(ev));
      }
    case CancelOrder =>
    case _ =>
  }

  lemma {:induction false} ReachableRun(cap: nat, events: seq<Event>)
    requires Increasing(events) && !Replay(cap, events).reused
    ensures Reachable(Replay(cap, events).engine.shadow)
  {
    if events == [] {
    } else {
      var init := events[..|events| - 1];
      RunKeepsInv(cap, init);
      ReachableRun(cap, init);
      ReuseIsTheOnlyLoss(cap, Replay(cap, init), events[|events| - 1]);
    }
  }

  /** An order resting in the book that this client submitted. */
  ghost predicate RestsFor(e: Engine, key: OrderKey, id: OrderId) {
    id in e.book.AllIds() && id in e.shadow.resting && e.shadow.resting[id].Key() == key
  }

  /**
   A cancel of this key is Canceled exactly when an order of the key rests, and takes out that
   one, its only one; otherwise it is Rejected. Its one ack goes to the client that asked.
   */
  ghost predicate CancelWorks(cap: nat, e: Engine, ev: Event)
    requires ev.kind == CancelOrder
  {
    var out := Apply(cap, e, ev);
    && |out.acks| == 1
    && out.acks[0] == Ack(ev.session, ev.clientId, out.acks[0].exchangeId, out.acks[0].status, 0, 0, 0)
    && (out.acks[0].status == Canceled || out.acks[0].status == Rejected)
    && (out.acks[0].status == Canceled <==> exists id :: RestsFor(e, KeyOf(ev), id))
    && (forall id :: RestsFor(e, KeyOf(ev), id) ==>
          out.acks[0].exchangeId == id && out.engine.book == Cancel(e.book, id))
    && (out.acks[0].status != Canceled ==> out.engine.book == e.book)
  }

  /** The key leads to every order that rests for it. */
  ghost predicate KeyReaches(e: Engine, key: OrderKey) {
    forall id :: RestsFor(e, key, id) ==> key in e.shadow.byClient && e.shadow.byClient[key] == id
  }

  /**
   A cancel works exactly if its key leads to every order that rests for it. All that is asked
   of the engine is that keys lead to entries of their own, which holds in every run.
   */
  lemma {:induction false} CancelExact(cap: nat, e: Engine, ev: Event)
    requires ByClientOk(e.shadow) && ev.kind == CancelOrder
    ensures CancelWorks(cap, e, ev) <==> KeyReaches(e, KeyOf(ev))
  {
    var key := KeyOf(ev);
    if key in e.shadow.byClient {
      var id := e.shadow.byClient[key];
      if id in e.book.AllIds() {
        assert RestsFor(e, key, id);
      } else {
        CancelMissing(e.book, id);
      }
    }
  }

  /** After any stream that never reused a live key, every cancel works. */
  lemma {:induction false} CancelsWorkWithoutReuse(cap: nat, events: seq<Event>, ev: Event)
    requires Increasing(events) && !Replay(cap, events).reused && ev.kind == CancelOrder
    ensures CancelWorks(cap, Run(cap, events).engine, ev)
  {
    RunKeepsInv(cap, events);
    ReachableRun(cap, events);
    ReplayIsRun(cap, events);
    CancelExact(cap, Run(cap, events).engine, ev);
  }

  /** Without reuse and without exhaustion, client keys and book orders are in bijection. */
  lemma {:induction false} KeysBijective(cap: nat, events: seq<Event>)
    requires Increasing(events) && !Replay(cap, events).reused && NeverExhausted(cap, events)
    ensures var e := Run(cap, events).engine;
            && (forall k :: k in e.shadow.byClient ==> RestsFor(e, k, e.shadow.byClient[k]))
            && (forall id :: id in e.book.AllIds() ==>
                  exists k :: k in e.shadow.byClient && e.shadow.byClient[k] == id && RestsFor(e, k, id))
            && (forall k, l :: k in e.shadow.byClient && l in e.shadow.byClient && k != l ==>
                  e.shadow.byClient[k] != e.shadow.byClient[l])
  {
    RunKeepsInv(cap, events);
    ReachableRun(cap, events);
    ReplayIsRun(cap, events);
    MapsCoincide(cap, events);
    var e := Run(cap, events).engine;
    forall k | k in e.shadow.byClient ensures RestsFor(e, k, e.shadow.byClient[k]) {
      assert e.shadow.byClient[k] in e.shadow.resting.Keys;
    }
    forall id | id in e.book.AllIds()
      ensures exists k :: k in e.shadow.byClient && e.shadow.byClient[k] == id && RestsFor(e, k, id)
    {
      assert id in e.shadow.resting.Keys;
      var k := e.shadow.resting[id].Key();
      assert e.shadow.byClient[k] == id && RestsFor(e, k, id);
    }
  }

  // ---------- what reusing a key costs ----------

  function Bid(key: OrderKey, seqNum: nat, price: Qty, qty: Qty): Event {
    Event(seqNum, 0, NewOrder, 0, key.session, key.clientId, Buy, price, qty)
  }

  function Withdrawal(key: OrderKey, seqNum: nat): Event {
    Event(seqNum, 0, CancelOrder, 0, key.session, key.clientId, Buy, 0, 0)
  }

  /** A buy that meets no asks, with room in the pool. */
  lemma FirstBid(cap: nat, e: Engine, ev: Event)
    requires ev.kind == NewOrder && ev.side == Buy && ev.qty > 0
    requires e.book.asks == [] && |e.book.bids| < cap
    ensures Apply(cap, e, ev).engine
            == Engine(Book(Insert(Buy, e.book.bids, TakerOf(ev)), []), Enter(e.shadow, ev, ev.qty))
  {
  }

  /** The engine after a client bids twice under one key, the second bid no better than the first. */
  lemma {:induction false} TwoBids(cap: nat, key: OrderKey, p: Qty, p': Qty, q: Qty, q': Qty)
    requires cap >= 2 && p >= p' && q > 0 && q' > 0
    ensures Run(cap, [Bid(key, 1, p, q), Bid(key, 2, p', q')]).engine
            == Engine(Book([Order(1, Buy, p, q, 0), Order(2, Buy, p', q', 0)], []),
                      Shadow(map[key := 2], map[1 := Info(key.session, key.clientId, q),
                                                2 := Info(key.session, key.clientId, q')]))
  {
    var a, b := Bid(key, 1, p, q), Bid(key, 2, p', q');
    var e1 := Engine(Book([TakerOf(a)], []), Shadow(map[key := 1], map[1 := Info(key.session, key.clientId, q)]));
    assert [a, b][..1] == [a] && [a][..0] == [];
    FirstBid(cap, EMPTY, a);
    assert Run(cap, [a]).engine == e1;
    FirstBid(cap, e1, b);
    assert Rank(Buy, [TakerOf(a)], p') == 1;
  }

  /**
   A client that reuses a live key can cancel only the newer order: the first withdrawal takes
   that one, and the second is rejected although the older order still rests.
   */
  lemma {:induction false} ReuseStrandsAnOrder(cap: nat, key: OrderKey, p: Qty, p': Qty, q: Qty, q': Qty)
    requires cap >= 2 && p >= p' && q > 0 && q' > 0
    ensures var e := Run(cap, [Bid(key, 1, p, q), Bid(key, 2, p', q')]).engine;
            var first := Apply(cap, e, Withdrawal(key, 3));
            var second := Apply(cap, first.engine, Withdrawal(key, 4));
            && first.acks[0].status == Canceled
            && second.acks[0].status == Rejected
            && second.engine.book.bids == [Order(1, Buy, p, q, 0)]
  {
    TwoBids(cap, key, p, p', q, q');
    var bids := [Order(1, Buy, p, q, 0), Order(2, Buy, p', q', 0)];
    assert IndexOf(bids, 2) == 1 && bids[1].id == 2;
    assert bids[1] in bids;
    assert Remove(bids, 2) == [bids[0]];
  }

  function Offer(key: OrderKey, seqNum: nat, price: Qty, qty: Qty): Event {
    Bid(key, seqNum, price, qty).(side := Sell)
  }

  /** An offer that takes out the first bid, no more and no less. */
  lemma {:induction false} TakesFirstBid(cap: nat, e: Engine, ev: Event)
    requires ev.kind == NewOrder && ev.side == Sell && ev.qty > 0
    requires e.book.bids != [] && e.book.bids[0].qty == ev.qty && e.book.bids[0].price >= ev.price
    ensures var trade := TradeOf(TakerOf(ev), e.book.bids[0], ev.qty);
            Apply(cap, e, ev).engine == Engine(Book(e.book.bids[1..], e.book.asks), Fill(e.shadow, ev.seqNum, trade).shadow)
  {
    var taker, trade := TakerOf(ev), TradeOf(TakerOf(ev), e.book.bids[0], ev.qty);
    assert Match(e.book.bids[1..], taker.(qty := 0)) == Fills([], 0, e.book.bids[1..]);
    assert Match(e.book.bids, taker) == Fills([trade], 0, e.book.bids[1..]);
    assert Add(cap, e.book, taker) == Added(Book(e.book.bids[1..], e.book.asks), [trade], 0, false);
    assert [trade][1..] == [];
    assert FillAll(e.shadow, ev.seqNum, [trade]).shadow == Fill(e.shadow, ev.seqNum, trade).shadow;
    OwnAckExact(cap, e.book, ev);
  }

  /**
   The other loss through reuse: when the older order fills, its key goes, and with it the way
   to the newer one. The newer order's cancel is rejected, with id 0, while it rests.
   */
  lemma {:induction false} FillStrandsTheNewer(cap: nat, key: OrderKey, other: OrderKey, p: Qty, p': Qty, q: Qty, q': Qty,
                                               ask: Qty)
    requires cap >= 2 && p >= p' && q > 0 && q' > 0 && ask <= p
    ensures var e := Run(cap, [Bid(key, 1, p, q), Bid(key, 2, p', q')]).engine;
            var filled := Apply(cap, e, Offer(other, 3, ask, q)).engine;
            var out := Apply(cap, filled, Withdrawal(key, 4));
            && filled.book == out.engine.book == Book([Order(2, Buy, p', q', 0)], [])
            && out.acks == [Ack(key.session, key.clientId, 0, Rejected, 0, 0, 0)]
  {
    TwoBids(cap, key, p, p', q, q');
    var e := Run(cap, [Bid(key, 1, p, q), Bid(key, 2, p', q')]).engine;
    TakesFirstBid(cap, e, Offer(other, 3, ask, q));
    assert e.book.bids[1..] == [Order(2, Buy, p', q', 0)];
  }

  // ---------- orders the pool has no slot for ----------

  lemma {:induction false} FreshIsNew(cap: nat, h: History, id: OrderId)
    requires Inv(cap, h) && id > h.last
    ensures id !in h.phantoms && id !in h.engine.book.AllIds()
  {
    if id in h.phantoms || id in h.engine.book.AllIds() {
      assert id in h.engine.shadow.resting.Keys;
      IdsPast(cap, h, id);
    }
  }

  /**
   An order the pool has no slot for is acknowledged as open and kept in the map, but is not in
   the book; this happens exactly if it overflows the pool when it arrives.
   */
  lemma {:induction false} DropIsAckedAsResting(cap: nat, h: History, ev: Event)
    requires Inv(cap, h) && ev.kind == NewOrder && ev.seqNum > h.last
    ensures var e, out := h.engine, Apply(cap, h.engine, ev);
            var left := ev.qty - CrossingQty(e.book.On(Opposite(ev.side)), TakerOf(ev));
            var own := out.acks[|out.acks| - 1];
            && (ev.seqNum in out.engine.shadow.resting && ev.seqNum !in out.engine.book.AllIds()
                <==> Overflows(cap, e.book, TakerOf(ev)))
            && (Overflows(cap, e.book, TakerOf(ev)) ==>
                  && own.exchangeId == ev.seqNum && own.leaves == left > 0
                  && own.status == (if left == ev.qty then Accepted else PartialFill)
                  && out.engine.shadow.resting[ev.seqNum] == Info(ev.session, ev.clientId, left))
  {
    var b, taker := h.engine.book, TakerOf(ev);
    var r := Add(cap, b, taker);
    OwnAckExact(cap, b, ev);
    DropExact(cap, b, taker);
    NewOrderApplicable(cap, h, ev);
    FillAllShrinks(h.engine.shadow, ev.seqNum, r.trades);
    AdvanceKeepsInv(cap, h, ev);
    if r.dropped {
      assert ev.seqNum in Advance(cap, h, ev).phantoms;
    } else {
      FreshIsNew(cap, h, ev.seqNum);
    }
  }

  /** A full pool and an order that crosses nothing: accepted in full, mapped, and the book is as before. */
  lemma {:induction false} FullPoolAccepts(cap: nat, e: Engine, ev: Event)
    requires ev.kind == NewOrder && ev.qty > 0 && e.book.Resting() >= cap
    requires Crossing(e.book.On(Opposite(ev.side)), TakerOf(ev)) == []
    ensures var out := Apply(cap, e, ev);
            && out.acks == [Ack(ev.session, ev.clientId, ev.seqNum, Accepted, 0, 0, ev.qty)]
            && out.engine == Engine(e.book, Enter(e.shadow, ev, ev.qty))
  {
    FirstDoesNotCross(e.book.On(Opposite(ev.side)), TakerOf(ev));
  }

  lemma FirstDoesNotCross(opp: seq<Order>, taker: Order)
    requires Crossing(opp, taker) == []
    ensures Match(opp, taker) == Fills([], taker.qty, opp)
  {
  }

  ghost predicate AllBids(events: seq<Event>) {
    forall i :: 0 <= i < |events| ==> events[i].kind == NewOrder && events[i].side == Buy && events[i].qty > 0
  }

  /** There are such streams of every length: bids of n clients, numbered from 1. */
  function Bids(n: nat, price: Qty, qty: Qty): (events: seq<Event>)
    requires qty > 0
    ensures |events| == n && Increasing(events) && AllBids(events)
  {
    seq(n, i requires 0 <= i < n => Bid(OrderKey(0, i + 1), i + 1, price, qty))
  }

  lemma {:induction false} BidRests(cap: nat, e: Engine, ev: Event)
    requires ev.kind == NewOrder && ev.side == Buy && ev.qty > 0
    requires e.book.asks == [] && |e.book.bids| < cap
    ensures var b := Apply(cap, e, ev).engine.book;
            |b.bids| == |e.book.bids| + 1 && b.asks == []
  {
    FirstBid(cap, e, ev);
  }

  /** Every pool fills up: bids, no more than it has slots, all rest. */
  lemma {:induction false} BidsRest(cap: nat, events: seq<Event>)
    requires AllBids(events) && |events| <= cap
    ensures var b := Run(cap, events).engine.book; |b.bids| == |events| && b.asks == []
  {
    if events == [] {
    } else {
      var n := |events| - 1;
      BidsRest(cap, events[..n]);
      BidRests(cap, Run(cap, events[..n]).engine, events[n]);
    }
  }

  /**
   For a pool of any size, every stream of one bid more than it has slots ends so: the last bid
   is accepted in full and mapped, and the book does not have it.
   */
  lemma {:induction false} OneBidTooMany(cap: nat, events: seq<Event>)
    requires Increasing(events) && AllBids(events) && |events| == cap + 1
    ensures var before, after, ev := Run(cap, events[..cap]), Run(cap, events), events[cap];
            && after.acks == before.acks + [Ack(ev.session, ev.clientId, ev.seqNum, Accepted, 0, 0, ev.qty)]
            && after.engine.book == before.engine.book && ev.seqNum !in after.engine.book.AllIds()
            && ev.seqNum in after.engine.shadow.resting
  {
    BidsRest(cap, events[..cap]);
    NextIsFresh(cap, events, cap);
    FullPoolAccepts(cap, Run(cap, events[..cap]).engine, events[cap]);
  }
}
