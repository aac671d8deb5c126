/**
 What every run of the matching engine keeps, for event streams with fresh increasing
 sequence numbers: the book is well formed and the maps agree with it.
 */
module EngineLaws {
  import opened Types
  import opened Matching
  import opened Books
  import opened Engines
  import opened ShadowLaws

  /** Sequence numbers start at 1 or later and only go up. */
  ghost predicate Increasing(events: seq<Event>) {
    && (forall i :: 0 <= i < |events| ==> events[i].seqNum >= 1)
    && (forall i, j :: 0 <= i < j < |events| ==> events[i].seqNum < events[j].seqNum)
  }

  /**
   A run with its history: the new-order event behind each exchange id, the last sequence
   number, the orders the pool was too full to hold and that were not cancelled since, and
   whether a client key was ever given to a second order while still live.
   */
  datatype History = History(engine: Engine, orders: map<OrderId, Event>, last: nat,
                             phantoms: set<OrderId>, reused: bool)

  const START: History := History(EMPTY, map[], 0, {}, false)

  /**
   The order is larger than what it may trade with, and its client key leads to a live order
   that is not among those it will trade away.
   */
  predicate ReusesKey(e: Engine, ev: Event) {
    var opp, key := e.book.On(Opposite(ev.side)), KeyOf(ev);
    && CrossingQty(opp, TakerOf(ev)) < ev.qty
    && key in e.shadow.byClient && e.shadow.byClient[key] !in Ids(Crossing(opp, TakerOf(ev)))
  }

  function Advance(cap: nat, h: History, ev: Event): History {
    var e := Apply(cap, h.engine, ev).engine;
    match ev.kind
    case NewOrder =>
      History(e, h.orders[ev.seqNum := ev], ev.seqNum,
              if Add(cap, h.engine.book, TakerOf(ev)).dropped then h.phantoms + {ev.seqNum} else h.phantoms,
              h.reused || ReusesKey(h.engine, ev))
    case CancelOrder =>
      var key := KeyOf(ev);
      var gone := if key in h.engine.shadow.byClient then {h.engine.shadow.byClient[key]} else {};
      History(e, h.orders, ev.seqNum, h.phantoms - gone, h.reused)
    case _ => h.(engine := e, last := ev.seqNum)
  }

  function Replay(cap: nat, events: seq<Event>): History {
    if events == [] then START else Advance(cap, Replay(cap, events[..|events| - 1]), events[|events| - 1])
  }

  lemma {:induction false} RunOne(cap: nat, events: seq<Event>, ev: Event)
    ensures var out := Apply(cap, Run(cap, events).engine, ev);
            Run(cap, events + [ev]) == Outcome(out.engine, Run(cap, events).acks + out.acks)
  {
    assert (events + [ev])[..|events|] == events;
  }

  lemma {:induction false} ReplayIsRun(cap: nat, events: seq<Event>)
    ensures Replay(cap, events).engine == Run(cap, events).engine
  {
    if events == [] {
    } else {
      ReplayIsRun(cap, events[..|events| - 1]);
    }
  }

  // ---------- the invariant ----------

  ghost predicate BookOk(cap: nat, b: Book) {
    WellFormed(b) && BookFifo(b) && b.Resting() <= cap
  }

  /** Each resting order has the side, price and time it was submitted with. */
  ghost predicate Faithful(s: seq<Order>, orders: map<OrderId, Event>) {
    forall i :: 0 <= i < |s| ==>
      && s[i].id in orders && s[i].side == orders[s[i].id].side
      && s[i].price == orders[s[i].id].price && s[i].ts == orders[s[i].id].sequenceTs
  }

  /** Each map entry belongs to the client that submitted the order, and is owed something. */
  ghost predicate Owned(resting: map<OrderId, Info>, orders: map<OrderId, Event>) {
    forall id :: id in resting ==>
      && id in orders
      && resting[id].Key() == KeyOf(orders[id])
      && 0 < resting[id].remaining <= orders[id].qty
  }

  ghost predicate Dated(orders: map<OrderId, Event>, last: nat) {
    forall id :: id in orders ==> 1 <= id <= last && orders[id].seqNum == id && orders[id].kind == NewOrder
  }

  /** The maps hold the book's orders and the phantoms, and nothing else. */
  ghost predicate Exact(e: Engine, phantoms: set<OrderId>) {
    e.shadow.resting.Keys == e.book.AllIds() + phantoms && e.book.AllIds() !! phantoms
  }

  ghost predicate Inv(cap: nat, h: History) {
    var e := h.engine;
    && BookOk(cap, e.book)
    && Tracks(e.book.bids, e.shadow.resting) && Tracks(e.book.asks, e.shadow.resting)
    && ByClientOk(e.shadow)
    && Owned(e.shadow.resting, h.orders)
    && Dated(h.orders, h.last)
    && Faithful(e.book.bids, h.orders) && Faithful(e.book.asks, h.orders)
    && Exact(e, h.phantoms)
  }

  // ---------- a new order ----------

  lemma {:induction false} IdsPast(cap: nat, h: History, id: OrderId)
    requires Inv(cap, h) && (id in h.engine.book.AllIds() || id in h.engine.shadow.resting)
    ensures id <= h.last
  {
    assert id in h.engine.shadow.resting.Keys;
  }

  lemma {:induction false} NewOrderBook(cap: nat, h: History, ev: Event)
    requires Inv(cap, h) && ev.kind == NewOrder && ev.seqNum > h.last
    ensures BookOk(cap, Advance(cap, h, ev).engine.book)
  {
    var b, taker := h.engine.book, TakerOf(ev);
    forall id | id in b.AllIds() ensures id < taker.id {
      IdsPast(cap, h, id);
    }
    AddKeepsWellFormed(cap, b, taker);
    AddKeepsFifo(cap, b, taker);
    AddKeepsCapacity(cap, b, taker);
  }

  /** The trades of a new order all resolve in the maps. */
  lemma {:induction false} NewOrderApplicable(cap: nat, h: History, ev: Event)
    requires Inv(cap, h) && ev.kind == NewOrder && ev.seqNum > h.last
    ensures var r := Add(cap, h.engine.book, TakerOf(ev));
            && Applicable(h.engine.shadow, ev.seqNum, r.trades)
            && ev.seqNum !in h.engine.shadow.resting
            && Tracks(r.book.On(Opposite(ev.side)), FillAll(h.engine.shadow, ev.seqNum, r.trades).shadow.resting)
  {
    var b, taker := h.engine.book, TakerOf(ev);
    WellFormedView(b, ev.side);
    AddSides(cap, b, taker);
    if ev.seqNum in h.engine.shadow.resting {
      IdsPast(cap, h, ev.seqNum);
    }
    MatchIsApplicable(b.On(Opposite(ev.side)), taker, h.engine.shadow);
  }

  lemma {:induction false} FramedSide(cap: nat, h: History, ev: Event, i: nat)
    requires Inv(cap, h) && ev.kind == NewOrder && ev.seqNum > h.last
    requires i < |h.engine.book.On(ev.side)|
    ensures var o := h.engine.book.On(ev.side)[i];
            var after := FillAll(h.engine.shadow, ev.seqNum, Add(cap, h.engine.book, TakerOf(ev)).trades).shadow.resting;
            o.id != ev.seqNum && o.id in after && after[o.id].remaining == o.qty
  {
    var b, taker := h.engine.book, TakerOf(ev);
    var o := b.On(ev.side)[i];
    WellFormedView(b, ev.side);
    AddSides(cap, b, taker);
    NewOrderApplicable(cap, h, ev);
    assert o.id in h.engine.shadow.resting;
    assert o.id !in Ids(b.On(Opposite(ev.side)));
    MatchFrame(b.On(Opposite(ev.side)), taker, h.engine.shadow, o.id);
  }

  lemma {:induction false} NewOrderTracks(cap: nat, h: History, ev: Event)
    requires Inv(cap, h) && ev.kind == NewOrder && ev.seqNum > h.last
    ensures var e := Advance(cap, h, ev).engine;
            Tracks(e.book.bids, e.shadow.resting) && Tracks(e.book.asks, e.shadow.resting)
  {
    var b, taker := h.engine.book, TakerOf(ev);
    var r := Add(cap, b, taker);
    var after := FillAll(h.engine.shadow, ev.seqNum, r.trades).shadow.resting;
    var e := Advance(cap, h, ev).engine;
    AddSides(cap, b, taker);
    OwnAckExact(cap, b, ev);
    NewOrderApplicable(cap, h, ev);
    forall i | 0 <= i < |b.On(ev.side)|
      ensures b.On(ev.side)[i].id != ev.seqNum
      ensures b.On(ev.side)[i].id in after && after[b.On(ev.side)[i].id].remaining == b.On(ev.side)[i].qty
    {
      FramedSide(cap, h, ev, i);
    }
    FillAllShrinks(h.engine.shadow, ev.seqNum, r.trades);
    assert Tracks(e.book.On(Opposite(ev.side)), e.shadow.resting);
    TracksInserted(b.On(ev.side), taker.(qty := r.left), after, e.shadow.resting);
    assert Tracks(e.book.On(ev.side), e.shadow.resting);
  }

  lemma {:induction false} TracksInserted(s: seq<Order>, o: Order, resting: map<OrderId, Info>, resting': map<OrderId, Info>)
    requires Tracks(s, resting)
    requires forall i :: 0 <= i < |s| ==> s[i].id != o.id
    requires forall id :: id in resting && id != o.id ==> id in resting' && resting'[id] == resting[id]
    ensures Tracks(s, resting')
    ensures o.id in resting' && resting'[o.id].remaining == o.qty ==> Tracks(Insert(o.side, s, o), resting')
  {
    var s', k := Insert(o.side, s, o), Rank(o.side, s, o.price);
    assert forall i :: 0 <= i < |s'| ==> s'[i] == if i < k then s[i] else if i == k then o else s[i - 1];
  }

  lemma DrawnOwned(before: map<OrderId, Info>, after: map<OrderId, Info>, orders: map<OrderId, Event>)
    requires Drawn(before, after) && Owned(before, orders)
    ensures Owned(after, orders)
  {
  }

  /** Entering the remainder of a new order, whose id no entry has. */
  lemma EnterKeeps(sh: Shadow, ev: Event, leaves: Qty, orders: map<OrderId, Event>)
    requires ByClientOk(sh) && Owned(sh.resting, orders) && ev.seqNum !in orders && leaves <= ev.qty
    ensures ByClientOk(Enter(sh, ev, leaves)) && Owned(Enter(sh, ev, leaves).resting, orders[ev.seqNum := ev])
  {
  }

  lemma {:induction false} NewOrderShadow(cap: nat, h: History, ev: Event)
    requires Inv(cap, h) && ev.kind == NewOrder && ev.seqNum > h.last
    ensures var h' := Advance(cap, h, ev);
            && ByClientOk(h'.engine.shadow)
            && Owned(h'.engine.shadow.resting, h'.orders)
            && Dated(h'.orders, h'.last)
  {
    var r := Add(cap, h.engine.book, TakerOf(ev));
    var after := FillAll(h.engine.shadow, ev.seqNum, r.trades).shadow;
    OwnAckExact(cap, h.engine.book, ev);
    NewOrderApplicable(cap, h, ev);
    FillAllKeepsByClient(h.engine.shadow, ev.seqNum, r.trades);
    FillAllDraws(h.engine.shadow, ev.seqNum, r.trades);
    DrawnOwned(h.engine.shadow.resting, after.resting, h.orders);
    assert ev.seqNum !in h.orders;
    EnterKeeps(after, ev, r.left, h.orders);
  }

  lemma {:induction false} TailFaithful(rest: seq<Order>, opp: seq<Order>, orders: map<OrderId, Event>)
    requires TailOf(rest, opp) && Faithful(opp, orders)
    ensures Faithful(rest, orders)
  {
    var tail := opp[|opp| - |rest|..];
    assert forall i :: 0 <= i < |rest| ==> rest[i] == tail[i].(qty := rest[i].qty);
  }

  lemma InsertFaithful(s: seq<Order>, o: Order, orders: map<OrderId, Event>)
    requires Faithful(s, orders)
    requires o.id in orders && o.side == orders[o.id].side
    requires o.price == orders[o.id].price && o.ts == orders[o.id].sequenceTs
    ensures Faithful(Insert(o.side, s, o), orders)
  {
  }

  lemma LaterFaithful(s: seq<Order>, orders: map<OrderId, Event>, ev: Event)
    requires Faithful(s, orders) && ev.seqNum !in orders
    ensures Faithful(s, orders[ev.seqNum := ev])
  {
  }

  lemma {:induction false} NewOrderFaithful(cap: nat, h: History, ev: Event)
    requires Inv(cap, h) && ev.kind == NewOrder && ev.seqNum > h.last
    ensures var h' := Advance(cap, h, ev);
            Faithful(h'.engine.book.bids, h'.orders) && Faithful(h'.engine.book.asks, h'.orders)
  {
    var b, taker, orders := h.engine.book, TakerOf(ev), h.orders[ev.seqNum := ev];
    var opp := b.On(Opposite(ev.side));
    LaterFaithful(b.bids, h.orders, ev);
    LaterFaithful(b.asks, h.orders, ev);
    AddSides(cap, b, taker);
    MatchKeepsTail(opp, taker);
    TailFaithful(Match(opp, taker).rest, opp, orders);
    InsertFaithful(b.On(ev.side), taker.(qty := Match(opp, taker).left), orders);
  }

  /** After the fills an id is in the map exactly if it is still in the book or is a phantom. */
  lemma {:induction false} FilledKey(same: seq<Order>, opp: seq<Order>, taker: Order, sh: Shadow,
                                     phantoms: set<OrderId>, id: OrderId)
    requires UniqueIds(opp) && Positive(opp) && Tracks(opp, sh.resting) && taker.id !in sh.resting
    requires sh.resting.Keys == Ids(same) + Ids(opp) + phantoms
    requires Ids(opp) !! Ids(same) + phantoms
    requires Ids(Match(opp, taker).rest) <= Ids(opp)
    ensures id in FillAll(sh, taker.id, Match(opp, taker).trades).shadow.resting
            <==> id in Ids(same) + Ids(Match(opp, taker).rest) + phantoms
  {
    if id in Ids(opp) {
      MatchKeys(opp, taker, sh, id);
    } else if id in sh.resting.Keys {
      MatchFrame(opp, taker, sh, id);
    } else {
      FillAllShrinks(sh, taker.id, Match(opp, taker).trades);
    }
  }

  lemma {:induction false} FilledKeys(same: seq<Order>, opp: seq<Order>, taker: Order, sh: Shadow,
                                      phantoms: set<OrderId>)
    requires PairOk(taker.side, same, opp) && Tracks(opp, sh.resting) && taker.id !in sh.resting
    requires sh.resting.Keys == Ids(same) + Ids(opp) + phantoms
    requires Ids(opp) !! Ids(same) + phantoms
    ensures FillAll(sh, taker.id, Match(opp, taker).trades).shadow.resting.Keys
            == Ids(same) + Ids(Match(opp, taker).rest) + phantoms
    ensures Ids(Match(opp, taker).rest) <= Ids(opp)
  {
    MatchKeepsPair(same, opp, taker);
    var after := FillAll(sh, taker.id, Match(opp, taker).trades).shadow.resting;
    forall id ensures id in after.Keys <==> id in Ids(same) + Ids(Match(opp, taker).rest) + phantoms {
      FilledKey(same, opp, taker, sh, phantoms, id);
    }
  }

  lemma {:induction false} NewOrderExact(cap: nat, h: History, ev: Event)
    requires Inv(cap, h) && ev.kind == NewOrder && ev.seqNum > h.last
    ensures Exact(Advance(cap, h, ev).engine, Advance(cap, h, ev).phantoms)
  {
    var b, taker, sh := h.engine.book, TakerOf(ev), h.engine.shadow;
    var same, opp := b.On(ev.side), b.On(Opposite(ev.side));
    NewOrderApplicable(cap, h, ev);
    WellFormedView(b, ev.side);
    ApartIds(same, opp);
    assert b.AllIds() == Ids(same) + Ids(opp);
    FilledKeys(same, opp, taker, sh, h.phantoms);
    assert ev.seqNum !in sh.resting.Keys;
    AddExact(cap, b, ev, sh, h.phantoms);
  }

  lemma {:induction false} AddExact(cap: nat, b: Book, ev: Event, sh: Shadow, phantoms: set<OrderId>)
    requires b.AllIds() !! phantoms && ev.seqNum !in b.AllIds() + phantoms
    requires var same, opp := b.On(ev.side), b.On(Opposite(ev.side));
             var m := Match(opp, TakerOf(ev));
             && Ids(same) !! Ids(opp) && Ids(m.rest) <= Ids(opp)
             && FillAll(sh, ev.seqNum, m.trades).shadow.resting.Keys == Ids(same) + Ids(m.rest) + phantoms
    ensures var dropped := Add(cap, b, TakerOf(ev)).dropped;
            Exact(ApplyNewOrder(cap, Engine(b, sh), ev).engine,
                  if dropped then phantoms + {ev.seqNum} else phantoms)
  {
    var taker := TakerOf(ev);
    var r := Add(cap, b, taker);
    AddSides(cap, b, taker);
    OwnAckExact(cap, b, ev);
    IdsOfInsert(ev.side, b.On(ev.side), taker.(qty := r.left));
    var e := ApplyNewOrder(cap, Engine(b, sh), ev).engine;
    assert e.book.AllIds() == Ids(e.book.On(ev.side)) + Ids(e.book.On(Opposite(ev.side)));
    assert b.AllIds() == Ids(b.On(ev.side)) + Ids(b.On(Opposite(ev.side)));
  }

  lemma {:induction false} NewOrderKeepsInv(cap: nat, h: History, ev: Event)
    requires Inv(cap, h) && ev.kind == NewOrder && ev.seqNum > h.last
    ensures Inv(cap, Advance(cap, h, ev))
  {
    NewOrderBook(cap, h, ev);
    NewOrderTracks(cap, h, ev);
    NewOrderShadow(cap, h, ev);
    NewOrderFaithful(cap, h, ev);
    NewOrderExact(cap, h, ev);
  }

  // ---------- a cancel ----------

  lemma RemoveEach(s: seq<Order>, id: OrderId)
    requires UniqueIds(s)
    ensures |Remove(s, id)| <= |s|
    ensures forall i :: 0 <= i < |Remove(s, id)| ==> Remove(s, id)[i].id != id
    ensures forall i :: 0 <= i < |Remove(s, id)| ==> Remove(s, id)[i] == s[if i < IndexOf(s, id) then i else i + 1]
  {
  }

  lemma {:induction false} RemoveTracks(s: seq<Order>, id: OrderId, resting: map<OrderId, Info>)
    requires UniqueIds(s) && Tracks(s, resting)
    ensures Tracks(Remove(s, id), resting - {id})
  {
    RemoveEach(s, id);
  }

  lemma {:induction false} RemoveFaithful(s: seq<Order>, id: OrderId, orders: map<OrderId, Event>)
    requires UniqueIds(s) && Faithful(s, orders)
    ensures Faithful(Remove(s, id), orders)
  {
    RemoveEach(s, id);
  }

  lemma CancelShadow(sh: Shadow, key: OrderKey)
    requires ByClientOk(sh) && key in sh.byClient
    ensures ByClientOk(Shadow(sh.byClient - {key}, sh.resting - {sh.byClient[key]}))
  {
  }

  lemma {:induction false} CancelKeepsBook(cap: nat, b: Book, id: OrderId)
    requires BookOk(cap, b)
    ensures BookOk(cap, Cancel(b, id))
    ensures Cancel(b, id).AllIds() == b.AllIds() - {id}
  {
    CancelKeepsWellFormed(b, id);
    CancelKeepsFifo(b, id);
  }

  lemma {:induction false} CancelKeepsInv(cap: nat, h: History, ev: Event)
    requires Inv(cap, h) && ev.kind == CancelOrder && ev.seqNum > h.last
    ensures Inv(cap, Advance(cap, h, ev))
  {
    var e, key := h.engine, KeyOf(ev);
    if key in e.shadow.byClient {
      var id := e.shadow.byClient[key];
      CancelKeepsBook(cap, e.book, id);
      ApartIds(e.book.bids, e.book.asks);
      CancelIsRemove(e.book, id);
      RemoveTracks(e.book.bids, id, e.shadow.resting);
      RemoveTracks(e.book.asks, id, e.shadow.resting);
      RemoveFaithful(e.book.bids, id, h.orders);
      RemoveFaithful(e.book.asks, id, h.orders);
      CancelShadow(e.shadow, key);
    }
  }

  // ---------- every run ----------

  lemma {:induction false} AdvanceKeepsInv(cap: nat, h: History, ev: Event)
    requires Inv(cap, h) && ev.seqNum > h.last
    ensures Inv(cap, Advance(cap, h, ev))
  {
    match ev.kind
    case NewOrder => NewOrderKeepsInv(cap, h, ev);
    case CancelOrder => CancelKeepsInv(cap, h, ev);
    case _ =>
  }

  /** The invariant holds after every stream of events with fresh increasing sequence numbers. */
  lemma {:induction false} RunKeepsInv(cap: nat, events: seq<Event>)
    requires Increasing(events)
    ensures Inv(cap, Replay(cap, events))
    ensures Replay(cap, events).last == if events == [] then 0 else events[|events| - 1].seqNum
  {
    if events == [] {
    } else {
      RunKeepsInv(cap, events[..|events| - 1]);
      AdvanceKeepsInv(cap, Replay(cap, events[..|events| - 1]), events[|events| - 1]);
    }
  }

  /** Increasing numbers are fresh: the next event's is not in the book. */
  lemma {:induction false} NextIsFresh(cap: nat, events: seq<Event>, i: nat)
    requires Increasing(events) && i < |events|
    ensures events[i].seqNum !in Run(cap, events[..i]).engine.book.AllIds()
  {
    RunKeepsInv(cap, events[..i]);
    ReplayIsRun(cap, events[..i]);
    if events[i].seqNum in Run(cap, events[..i]).engine.book.AllIds() {
      IdsPast(cap, Replay(cap, events[..i]), events[i].seqNum);
    }
  }
}
