/**
 The replay program as a whole (src/main.cpp): the feed thread, the ring, and the engine thread
 that adds each order it pops to the book and then lets the market maker tick.
 */
module Replays {
  import opened Types
  import opened Books
  import opened Strategies
  import Spsc
  import Harness

  /** The threads at their atomic steps, and the market the engine thread works on. */
  datatype Replay = Replay(threads: Harness.State<Order>, market: Market)

  /** What the engine thread does with one order. */
  function Serve(cap: nat, m: Market, o: Order): Market {
    Act(cap, Act(cap, m, Foreign(o)), Ticks(o.ts))
  }

  /** The order the engine thread takes out of a finished pop at this step, if any. */
  function Taken(s: Harness.State<Order>, step: Harness.Step): Option<Order> {
    if step.EngineTake? && s.engine.Popping? && s.queue.consumer.CReturn? then s.queue.consumer.got else None
  }

  function Next(cap: nat, feed: seq<Order>, s: Replay, step: Harness.Step): (s': Replay)
    requires Spsc.Shaped(s.threads.queue)
    ensures Spsc.Shaped(s'.threads.queue)
  {
    Replay(Harness.Next(feed, s.threads, step),
           match Taken(s.threads, step) case Some(o) => Serve(cap, s.market, o) case None => s.market)
  }

  function Exec(cap: nat, feed: seq<Order>, s: Replay, steps: seq<Harness.Step>): (s': Replay)
    requires Spsc.Shaped(s.threads.queue)
    ensures Spsc.Shaped(s'.threads.queue)
  {
    if steps == [] then s else Next(cap, feed, Exec(cap, feed, s, steps[..|steps| - 1]), steps[|steps| - 1])
  }

  /** The run of the market that serves the orders one after the other. */
  function Actions(orders: seq<Order>): seq<Action> {
    if orders == [] then []
    else
      var n := |orders| - 1;
      Actions(orders[..n]) + [Foreign(orders[n])] + [Ticks(orders[n].ts)]
  }

  lemma {:induction false} TradingOne(cap: nat, start: Market, actions: seq<Action>, a: Action)
    ensures Trading(cap, start, actions + [a]) == Act(cap, Trading(cap, start, actions), a)
  {
    assert (actions + [a])[..|actions|] == actions;
  }

  lemma {:induction false} TradingServes(cap: nat, start: Market, orders: seq<Order>, o: Order)
    ensures Trading(cap, start, Actions(orders + [o])) == Serve(cap, Trading(cap, start, Actions(orders)), o)
  {
    assert (orders + [o])[..|orders|] == orders;
    TradingOne(cap, start, Actions(orders), Foreign(o));
    TradingOne(cap, start, Actions(orders) + [Foreign(o)], Ticks(o.ts));
  }

  // ---------- every schedule ----------

  lemma {:induction false} TakenIsHandled(feed: seq<Order>, s: Harness.State<Order>, step: Harness.Step)
    requires Spsc.Shaped(s.queue)
    ensures Harness.Next(feed, s, step).handled
            == s.handled + match Taken(s, step) case Some(o) => [o] case None => []
  {
    assert s.handled + [] == s.handled;
  }

  /** At every point the market is the one-threaded run over the orders handled so far. */
  lemma {:induction false} MarketFollows(cap: nat, feed: seq<Order>, s: Replay, steps: seq<Harness.Step>)
    requires Spsc.Shaped(s.threads.queue) && s.threads.handled == []
    ensures var s' := Exec(cap, feed, s, steps);
            && s'.threads == Harness.Exec(feed, s.threads, steps)
            && s'.market == Trading(cap, s.market, Actions(s'.threads.handled))
  {
    if steps == [] {
    } else {
      var n := |steps| - 1;
      var before := Exec(cap, feed, s, steps[..n]);
      MarketFollows(cap, feed, s, steps[..n]);
      TakenIsHandled(feed, before.threads, steps[n]);
      match Taken(before.threads, steps[n])
      case Some(o) => TradingServes(cap, s.market, before.threads.handled, o);
      case None => assert before.threads.handled + [] == before.threads.handled;
    }
  }

  // ---------- a feed with its own ids ----------

  /** Orders of the feed have ids of their own, below the maker's first. */
  ghost predicate OwnIds(feed: seq<Order>, base: OrderId) {
    UniqueIds(feed) && forall i :: 0 <= i < |feed| ==> feed[i].id < base
  }

  /** Ids in the market's book come from the feed so far or from the maker. */
  ghost predicate Known(ids: set<OrderId>, orders: seq<Order>, base: OrderId) {
    forall id :: id in ids ==> id in Ids(orders) || id >= base
  }

  lemma {:induction false} RequoteIds(cap: nat, b: Book, m: Maker, mid: Price, nextId: OrderId, ts: Nanos)
    requires WellFormed(b) && Before(b, nextId)
    ensures Requote(cap, b, m, mid, nextId, ts).book.AllIds() <= b.AllIds() + {nextId} + {nextId + 1}
  {
    var bid := BidQuote(m, mid, nextId, ts);
    AddKeepsWellFormed(cap, b, bid);
    AddKeepsIds(cap, Add(cap, b, bid).book, AskQuote(m, mid, nextId + 1, ts));
  }

  lemma {:induction false} TickIds(cap: nat, b: Book, m: Maker, nextId: OrderId, ts: Nanos)
    requires WellFormed(b) && Before(b, nextId)
    ensures OnTick(cap, b, m, nextId, ts).book.AllIds() <= b.AllIds() + {nextId} + {nextId + 1}
  {
    if Quotes(b, m) {
      PulledOk(b, m);
      RequoteIds(cap, Pulled(b, m), m, Mid(b), nextId, ts);
    }
  }

  lemma TickKnown(ids: set<OrderId>, ids': set<OrderId>, nextId: OrderId, orders: seq<Order>, base: OrderId)
    requires Known(ids, orders, base) && ids' <= ids + {nextId} + {nextId + 1} && base <= nextId
    ensures Known(ids', orders, base)
  {
  }

  lemma {:induction false} AddKnown(ids: set<OrderId>, ids': set<OrderId>, o: Order, orders: seq<Order>, base: OrderId)
    requires Known(ids, orders, base) && ids' <= ids + {o.id}
    ensures Known(ids', orders + [o], base)
  {
    assert (orders + [o])[|orders|] == o;
    forall id | id in Ids(orders) ensures id in Ids(orders + [o]) {
      var p :| p in orders && p.id == id;
      assert p in orders + [o];
    }
  }

  lemma ServeBook(cap: nat, m: Market, o: Order)
    ensures Serve(cap, m, o).book == OnTick(cap, Add(cap, m.book, o).book, m.maker, m.nextId, o.ts).book
  {
  }

  lemma NextIdFresh(ids: set<OrderId>, feed: seq<Order>, n: nat, base: OrderId)
    requires n < |feed| && OwnIds(feed, base) && Known(ids, feed[..n], base)
    ensures feed[n].id !in ids
  {
  }

  /** Such a feed is a legal run for the market maker among other traders. */
  lemma {:induction false} FeedIsLegal(cap: nat, start: Market, feed: seq<Order>)
    requires MarketOk(start, start.nextId) && start.book == Book([], []) && OwnIds(feed, start.nextId)
    ensures LegalActions(cap, start, Actions(feed))
    ensures Known(Trading(cap, start, Actions(feed)).book.AllIds(), feed, start.nextId)
  {
    if feed == [] {
    } else {
      var n := |feed| - 1;
      FeedIsLegal(cap, start, feed[..n]);
      NextIdFresh(Trading(cap, start, Actions(feed[..n])).book.AllIds(), feed, n, start.nextId);
      LegalMore(cap, start, Actions(feed[..n]), feed[n]);
      assert feed == feed[..n] + [feed[n]];
      ServeKnown(cap, start, feed[..n], feed[n]);
    }
  }

  lemma {:induction false} ServeKnown(cap: nat, start: Market, orders: seq<Order>, o: Order)
    requires MarketOk(start, start.nextId) && LegalActions(cap, start, Actions(orders)) && o.id < start.nextId
    requires var ids := Trading(cap, start, Actions(orders)).book.AllIds();
             Known(ids, orders, start.nextId) && o.id !in ids
    ensures Known(Trading(cap, start, Actions(orders + [o])).book.AllIds(), orders + [o], start.nextId)
  {
    var m, base := Trading(cap, start, Actions(orders)), start.nextId;
    TradingKeepsOk(cap, start, Actions(orders));
    TradingServes(cap, start, orders, o);
    ServeBook(cap, m, o);
    TickedKnown(cap, m.book, m.maker, m.nextId, o, orders, base);
  }

  lemma {:induction false} TickedKnown(cap: nat, b: Book, m: Maker, nextId: OrderId, o: Order, orders: seq<Order>,
                                       base: OrderId)
    requires WellFormed(b) && Before(b, nextId) && o.id < base <= nextId && o.id !in b.AllIds()
    requires Known(b.AllIds(), orders, base)
    ensures Known(OnTick(cap, Add(cap, b, o).book, m, nextId, o.ts).book.AllIds(), orders + [o], base)
  {
    var b' := Add(cap, b, o).book;
    AddKeepsWellFormed(cap, b, o);
    AddKnown(b.AllIds(), b'.AllIds(), o, orders, base);
    TickIds(cap, b', m, nextId, o.ts);
    TickKnown(b'.AllIds(), OnTick(cap, b', m, nextId, o.ts).book.AllIds(), nextId, orders + [o], base);
  }

  lemma {:induction false} LegalMore(cap: nat, start: Market, actions: seq<Action>, o: Order)
    requires LegalActions(cap, start, actions)
    requires o.id < start.nextId && o.id !in Trading(cap, start, actions).book.AllIds()
    ensures LegalActions(cap, start, actions + [Foreign(o)] + [Ticks(o.ts)])
  {
    var more := actions + [Foreign(o)];
    assert more[..|actions|] == actions;
    assert (more + [Ticks(o.ts)])[..|more|] == more;
  }

  lemma OwnPrefix(feed: seq<Order>, n: nat, base: OrderId)
    requires OwnIds(feed, base) && n <= |feed|
    ensures OwnIds(feed[..n], base)
  {
  }

  /**
   Under every schedule of feed and engine thread, for a feed with its own ids: the market is the
   one-threaded run over a prefix of the feed, over all of it once the engine thread has left its
   loop; its book is well formed, and the maker has at most one order on each side.
   */
  lemma {:induction false} ReplayIsSequential(cap: nat, ringCapacity: nat, blank: Order, feed: seq<Order>, start: Market,
                                              steps: seq<Harness.Step>, side: Side, i: nat, j: nat)
    requires ringCapacity > 0
    requires MarketOk(start, start.nextId) && start.book == Book([], []) && OwnIds(feed, start.nextId)
    ensures var s := Exec(cap, feed, Replay(Harness.Start(ringCapacity, blank), start), steps);
            var handled, orders := s.threads.handled, s.market.book.On(side);
            && handled <= feed && (s.threads.engine.Exited? ==> handled == feed)
            && s.market == Trading(cap, start, Actions(handled))
            && WellFormed(s.market.book)
            && (i < |orders| && j < |orders| && orders[i].id >= start.nextId && orders[j].id >= start.nextId ==> i == j)
  {
    var s0 := Replay(Harness.Start(ringCapacity, blank), start);
    var s := Exec(cap, feed, s0, steps);
    MarketFollows(cap, feed, s0, steps);
    Harness.EngineHandlesWholeFeed(ringCapacity, blank, feed, steps);
    var handled := s.threads.handled;
    OwnPrefix(feed, |handled|, start.nextId);
    assert feed[..|handled|] == handled;
    FeedIsLegal(cap, start, handled);
    TradingKeepsOk(cap, start, Actions(handled));
    var orders := s.market.book.On(side);
    if i < |orders| && j < |orders| && orders[i].id >= start.nextId && orders[j].id >= start.nextId {
      AtMostOneQuoteASide(cap, start, Actions(handled), side, i, j);
    }
  }
}
