/**
 The matching engine as a value: a book and the two maps that shadow it, moved by one
 sequenced event at a time (include/matching_engine_consumer.hpp, `apply`).
 */
module Engines {
  import opened Types
  import opened Books

  datatype EventType = NewOrder | CancelOrder | MarketDataOrder | Admin

  /** Fields of the sequenced event that the pipeline reads or stamps; price and quantity are 32-bit. */
  datatype Event = Event(seqNum: nat, sequenceTs: Nanos, kind: EventType, producer: nat,
                         session: nat, clientId: nat, side: Side, price: Qty, qty: Qty)

  datatype ExecStatus = Accepted | Rejected | Filled | PartialFill | Canceled

  datatype Ack = Ack(session: nat, clientId: nat, exchangeId: OrderId, status: ExecStatus,
                     fillPrice: Qty, fillQty: Qty, leaves: Qty)

  datatype OrderKey = OrderKey(session: nat, clientId: nat)

  datatype Info = Info(session: nat, clientId: nat, remaining: Qty) {
    function Key(): OrderKey {
      OrderKey(session, clientId)
    }
  }

  /** The maps kept beside the book: client key to exchange id, and exchange id to owner and quantity. */
  datatype Shadow = Shadow(byClient: map<OrderKey, OrderId>, resting: map<OrderId, Info>)

  datatype Engine = Engine(book: Book, shadow: Shadow)

  /** An engine after a step, and the acks the step emitted in order. */
  datatype Outcome = Outcome(engine: Engine, acks: seq<Ack>)

  datatype ShadowStep = ShadowStep(shadow: Shadow, acks: seq<Ack>)

  const EMPTY: Engine := Engine(Book([], []), Shadow(map[], map[]))

  function KeyOf(ev: Event): OrderKey {
    OrderKey(ev.session, ev.clientId)
  }

  function Counterparty(exchangeId: OrderId, t: Trade): OrderId {
    if t.buyId == exchangeId then t.sellId else t.buyId
  }

  /** One trade's effect on the maps; an unknown counterparty is skipped. */
  function Fill(sh: Shadow, exchangeId: OrderId, t: Trade): ShadowStep {
    var id := Counterparty(exchangeId, t);
    if id !in sh.resting then ShadowStep(sh, [])
    else
      var info := sh.resting[id];
      var remaining := Sub32(info.remaining, t.qty);
      var ack := Ack(info.session, info.clientId, id, if remaining == 0 then Filled else PartialFill,
                     ToUint32(t.price), t.qty, remaining);
      if remaining == 0 then
        ShadowStep(Shadow(sh.byClient - {info.Key()}, sh.resting - {id}), [ack])
      else
        ShadowStep(sh.(resting := sh.resting[id := info.(remaining := remaining)]), [ack])
  }

  function FillAll(sh: Shadow, exchangeId: OrderId, trades: seq<Trade>): ShadowStep
    decreases |trades|
  {
    if trades == [] then ShadowStep(sh, [])
    else
      var first := Fill(sh, exchangeId, trades[0]);
      var rest := FillAll(first.shadow, exchangeId, trades[1..]);
      ShadowStep(rest.shadow, first.acks + rest.acks)
  }

  /** The traded quantity as accumulated in a 32-bit counter, starting from `from`. */
  function Filled32(from: Qty, trades: seq<Trade>): Qty
    decreases |trades|
  {
    if trades == [] then from else Filled32(Add32(from, trades[0].qty), trades[1..])
  }

  function TakerOf(ev: Event): Order {
    Order(ev.seqNum, ev.side, ev.price, ev.qty, ev.sequenceTs)
  }

  function OwnAck(ev: Event, trades: seq<Trade>): Ack {
    var filled := Filled32(0, trades);
    var leaves := Sub32(ev.qty, filled);
    Ack(ev.session, ev.clientId, ev.seqNum,
        if filled == 0 then Accepted else if leaves == 0 then Filled else PartialFill,
        if trades == [] then 0 else ToUint32(trades[|trades| - 1].price), filled, leaves)
  }

  function Enter(sh: Shadow, ev: Event, leaves: Qty): Shadow {
    if leaves == 0 then sh
    else Shadow(sh.byClient[KeyOf(ev) := ev.seqNum],
                sh.resting[ev.seqNum := Info(ev.session, ev.clientId, leaves)])
  }

  function ApplyNewOrder(cap: nat, e: Engine, ev: Event): Outcome {
    var r := Add(cap, e.book, TakerOf(ev));
    var s := FillAll(e.shadow, ev.seqNum, r.trades);
    var own := OwnAck(ev, r.trades);
    Outcome(Engine(r.book, Enter(s.shadow, ev, own.leaves)), s.acks + [own])
  }

  function ApplyCancelOrder(e: Engine, ev: Event): Outcome {
    var key := KeyOf(ev);
    if key !in e.shadow.byClient then
      Outcome(e, [Ack(ev.session, ev.clientId, 0, Rejected, 0, 0, 0)])
    else
      var id := e.shadow.byClient[key];
      var status := if id in e.book.AllIds() then Canceled else Rejected;
      Outcome(Engine(Cancel(e.book, id), Shadow(e.shadow.byClient - {key}, e.shadow.resting - {id})),
              [Ack(ev.session, ev.clientId, id, status, 0, 0, 0)])
  }

  function Apply(cap: nat, e: Engine, ev: Event): Outcome {
    match ev.kind
    case NewOrder => ApplyNewOrder(cap, e, ev)
    case CancelOrder => ApplyCancelOrder(e, ev)
    case _ => Outcome(e, [])
  }

  /** All events of a stream applied in order to an empty engine, and every ack emitted. */
  function Run(cap: nat, events: seq<Event>): Outcome {
    if events == [] then Outcome(EMPTY, [])
    else
      var before := Run(cap, events[..|events| - 1]);
      var last := Apply(cap, before.engine, events[|events| - 1]);
      Outcome(last.engine, before.acks + last.acks)
  }
}
