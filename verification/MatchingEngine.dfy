/**
 The matching engine consumer as it runs (include/matching_engine_consumer.hpp): it owns the
 order book and the two maps, and emits acks. Proved against module Engines.
 */
module MatchingEngines {
  import opened Types
  import opened Books
  import opened BookIndexes
  import opened OrderBooks
  import opened Engines

  class MatchingEngineConsumer {
    const book: OrderBook
    var byClient: map<OrderKey, OrderId>
    var resting: map<OrderId, Info>

    /** Every ack handed to push_ack, in order. */
    var acks: seq<Ack>

    ghost predicate Valid()
      reads this, book, book.pool, book.pool.storage, book.pool.nextFree
    {
      book.Valid()
    }

    ghost function View(): Engine
      reads this, book, book.pool, book.pool.storage, book.pool.nextFree
      requires book.Sound()
    {
      Engine(book.View(), Shadow(byClient, resting))
    }

    constructor (poolCapacity: nat)
      ensures Valid() && fresh(book) && fresh(book.pool) && fresh(book.pool.storage) && fresh(book.pool.nextFree)
      ensures book.pool.storage.Length == poolCapacity
      ensures View() == EMPTY && acks == []
    {
      book := new OrderBook(poolCapacity);
      byClient, resting, acks := map[], map[], [];
    }

    method PushAck(ack: Ack)
      modifies this`acks
      ensures acks == old(acks) + [ack]
    {
      acks := acks + [ack];
    }

    /** The loop over the trades of one call: the maps and acks of FillAll, and the 32-bit fill count. */
    method FillCounterparties(exchangeId: OrderId, trades: seq<Trade>) returns (filled: Qty)
      modifies this`byClient, this`resting, this`acks
      ensures var s := FillAll(old(Shadow(byClient, resting)), exchangeId, trades);
              Shadow(byClient, resting) == s.shadow && acks == old(acks) + s.acks
      ensures filled == Filled32(0, trades)
    {
      filled := 0;
      ghost var goal := FillAll(Shadow(byClient, resting), exchangeId, trades);
      ghost var before := acks;
      ghost var done: seq<Ack> := [];
      var i := 0;
      while i < |trades|
        invariant 0 <= i <= |trades|
        invariant acks == before + done
        invariant var rest := FillAll(Shadow(byClient, resting), exchangeId, trades[i..]);
                  goal.shadow == rest.shadow && goal.acks == done + rest.acks
        invariant Filled32(0, trades) == Filled32(filled, trades[i..])
      {
        var t := trades[i];
        ghost var sh, later := Shadow(byClient, resting), trades[i..];
        assert later[0] == t && later[1..] == trades[i + 1..];
        ghost var first := Fill(sh, exchangeId, t);
        filled := Add32(filled, t.qty);
        var counterparty := if t.buyId == exchangeId then t.sellId else t.buyId;
        if counterparty in resting {
          var info := resting[counterparty];
          var remaining := Sub32(info.remaining, t.qty);
          resting := resting[counterparty := info.(remaining := remaining)];
          PushAck(Ack(info.session, info.clientId, counterparty, if remaining == 0 then Filled else PartialFill,
                      ToUint32(t.price), t.qty, remaining));
          if remaining == 0 {
            byClient := byClient - {info.Key()};
            resting := resting - {counterparty};
            assert resting == sh.resting - {counterparty};
          }
        }
        assert Shadow(byClient, resting) == first.shadow;
        SplitAcks(before, done, first.acks, FillAll(first.shadow, exchangeId, trades[i + 1..]).acks);
        done := done + first.acks;
        i := i + 1;
      }
      assert trades[i..] == [];
    }

    /** What follows the book call: counterparty fills, the new entry if any, and the order's own ack. */
    method Report(ev: Event, trades: seq<Trade>)
      modifies this`byClient, this`resting, this`acks
      ensures var s, own := FillAll(old(Shadow(byClient, resting)), ev.seqNum, trades), OwnAck(ev, trades);
              && Shadow(byClient, resting) == Enter(s.shadow, ev, own.leaves)
              && acks == old(acks) + (s.acks + [own])
    {
      ghost var sh, emitted := Shadow(byClient, resting), acks;
      var filled := FillCounterparties(ev.seqNum, trades);
      var leaves := Sub32(ev.qty, filled);
      if leaves > 0 {
        byClient := byClient[KeyOf(ev) := ev.seqNum];
        resting := resting[ev.seqNum := Info(ev.session, ev.clientId, leaves)];
      }
      var status := if filled == 0 then Accepted else if leaves == 0 then Filled else PartialFill;
      var lastPx := if trades == [] then 0 else ToUint32(trades[|trades| - 1].price);
      PushAck(Ack(ev.session, ev.clientId, ev.seqNum, status, lastPx, filled, leaves));
      Associate(emitted, FillAll(sh, ev.seqNum, trades).acks, [OwnAck(ev, trades)]);
    }

    /** Adds the order to the book, which leaves the maps alone. */
    method Place(ev: Event) returns (trades: seq<Trade>)
      requires book.Sound()
      modifies book, book.pool, book.pool.storage, book.pool.nextFree
      ensures book.Sound()
      ensures old(Valid() && ev.seqNum !in View().book.AllIds()) ==> Valid()
      ensures var r := Add(book.pool.storage.Length, old(book.View()), TakerOf(ev));
              book.View() == r.book && trades == r.trades
    {
      trades := book.AddLimitOrder(ev.seqNum, ev.side, ev.price, ev.qty, ev.sequenceTs, []);
    }

    /** A new order under the event's sequence number; a fresh one keeps the book well formed. */
    method ApplyNewOrder(ev: Event)
      requires book.Sound()
      modifies this, book, book.pool, book.pool.storage, book.pool.nextFree
      ensures book.Sound()
      ensures old(Valid() && ev.seqNum !in View().book.AllIds()) ==> Valid()
      ensures var out := Engines.ApplyNewOrder(book.pool.storage.Length, old(View()), ev);
              View() == out.engine && acks == old(acks) + out.acks
    {
      var trades := Place(ev);
      Report(ev, trades);
    }

    /** Cancels in the book, which leaves the maps alone. */
    method Withdraw(id: OrderId) returns (removed: bool)
      requires book.Sound()
      modifies book, book.pool, book.pool.nextFree
      ensures book.Sound() && (old(Valid()) ==> Valid())
      ensures removed <==> Leads(old(book.View()), old(book.locate), id)
      ensures book.View() == Followed(old(book.View()), old(book.locate), id)
    {
      removed := book.Cancel(id);
    }

    /**
     A cancel by client key: what the book's index leads to goes, and the maps with it. On a
     well-formed book that is the abstract step.
     */
    method ApplyCancelOrder(ev: Event)
      requires book.Sound()
      modifies this, book, book.pool, book.pool.nextFree
      ensures book.Sound() && (old(Valid()) ==> Valid())
      ensures var out := CancelBy(old(View()), old(book.locate), ev);
              View() == out.engine && acks == old(acks) + out.acks
      ensures old(Valid()) ==>
                var out := Engines.ApplyCancelOrder(old(View()), ev);
                View() == out.engine && acks == old(acks) + out.acks
    {
      if Valid() {
        CancelByLawful(View(), book.locate, ev);
      }
      var key := KeyOf(ev);
      if key !in byClient {
        PushAck(Ack(ev.session, ev.clientId, 0, Rejected, 0, 0, 0));
        return;
      }
      var id := byClient[key];
      var removed := Withdraw(id);
      byClient := byClient - {key};
      resting := resting - {id};
      PushAck(Ack(ev.session, ev.clientId, id, if removed then Canceled else Rejected, 0, 0, 0));
    }

    /**
     One sequenced event. The engine moves and acks as ApplyBy says, which on a well-formed book is
     the abstract Apply; a fresh sequence number keeps the book well formed.
     */
    method Apply(ev: Event)
      requires book.Sound()
      modifies this, book, book.pool, book.pool.storage, book.pool.nextFree
      ensures book.Sound()
      ensures old(Valid() && (ev.kind == NewOrder ==> ev.seqNum !in View().book.AllIds())) ==> Valid()
      ensures var out := ApplyBy(book.pool.storage.Length, old(View()), old(book.locate), ev);
              View() == out.engine && acks == old(acks) + out.acks
      ensures old(Valid()) ==>
                var out := Engines.Apply(book.pool.storage.Length, old(View()), ev);
                View() == out.engine && acks == old(acks) + out.acks
    {
      match ev.kind
      case NewOrder => ApplyNewOrder(ev);
      case CancelOrder => ApplyCancelOrder(ev);
      case _ =>
    }
  }

  /** A cancel as the code does it for any ids: through the client's key and then through the book's index. */
  ghost function CancelBy(e: Engine, locate: Index, ev: Event): Outcome {
    var key := KeyOf(ev);
    if key !in e.shadow.byClient then
      Outcome(e, [Ack(ev.session, ev.clientId, 0, Rejected, 0, 0, 0)])
    else
      var id := e.shadow.byClient[key];
      var status := if Leads(e.book, locate, id) then Canceled else Rejected;
      Outcome(Engine(Followed(e.book, locate, id), Shadow(e.shadow.byClient - {key}, e.shadow.resting - {id})),
              [Ack(ev.session, ev.clientId, id, status, 0, 0, 0)])
  }

  ghost function ApplyBy(cap: nat, e: Engine, locate: Index, ev: Event): Outcome {
    match ev.kind
    case NewOrder => Engines.ApplyNewOrder(cap, e, ev)
    case CancelOrder => CancelBy(e, locate, ev)
    case _ => Outcome(e, [])
  }

  lemma {:induction false} CancelByLawful(e: Engine, locate: Index, ev: Event)
    requires Indexed(locate, e.book.bids, e.book.asks) && WellFormed(e.book)
    ensures CancelBy(e, locate, ev) == Engines.ApplyCancelOrder(e, ev)
  {
    if KeyOf(ev) in e.shadow.byClient {
      CancelLawful(locate, e.book, e.shadow.byClient[KeyOf(ev)]);
    }
  }

  lemma SplitAcks(before: seq<Ack>, done: seq<Ack>, first: seq<Ack>, rest: seq<Ack>)
    ensures before + done + first == before + (done + first)
    ensures done + (first + rest) == done + first + rest
  {
  }
}
