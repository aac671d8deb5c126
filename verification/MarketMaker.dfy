/** The market maker as it runs, quoting into a running order book (include/strategy.hpp). */
module MarketMakers {
  import opened Types
  import opened Books
  import opened BookIndexes
  import opened OrderBooks
  import opened Strategies

  class MarketMaker {
    const halfSpread: Price
    const quoteSize: Qty
    const threshold: Price
    var quoting: bool
    var lastMid: Price
    var bidId: OrderId
    var askId: OrderId

    ghost function View(): Maker
      reads this
    {
      Maker(halfSpread, quoteSize, threshold, quoting, lastMid, bidId, askId)
    }

    constructor (halfSpread: Price, quoteSize: Qty, threshold: Price)
      ensures View() == Maker(halfSpread, quoteSize, threshold, false, 0, 0, 0)
    {
      this.halfSpread, this.quoteSize, this.threshold := halfSpread, quoteSize, threshold;
      quoting, lastMid, bidId, askId := false, 0, 0, 0;
    }

    /** Takes the current quotes out of the book, by its index and whether or not they still rest. */
    method PullQuotes(book: OrderBook)
      requires book.Sound()
      modifies book, book.pool, book.pool.nextFree
      ensures book.Sound() && book.View() == PulledBy(old(book.View()), old(book.locate), View())
      ensures old(book.Valid()) ==> book.Valid() && book.View() == Pulled(old(book.View()), View())
    {
      if quoting {
        Pull(book, bidId);
        Pull(book, askId);
      }
    }

    method Pull(book: OrderBook, id: OrderId)
      requires book.Sound()
      modifies book, book.pool, book.pool.nextFree
      ensures book.Sound() && book.View() == Followed(old(book.View()), old(book.locate), id)
      ensures book.locate == Dropped(old(book.View()), old(book.locate), id)
      ensures old(book.Valid()) ==> book.Valid() && book.View() == Cancel(old(book.View()), id)
    {
      var _ := book.Cancel(id);
    }

    /** Enters one order under the next id of the cursor. */
    method Enter(book: OrderBook, o: Order, tradesOut: seq<Trade>) returns (trades: seq<Trade>)
      requires book.Sound()
      modifies book, book.pool, book.pool.storage, book.pool.nextFree
      ensures book.Sound()
      ensures old(book.Valid() && Before(book.View(), o.id)) ==> book.Valid() && Before(book.View(), o.id + 1)
      ensures var r := Add(book.pool.storage.Length, old(book.View()), o);
              book.View() == r.book && trades == tradesOut + r.trades
    {
      if book.Valid() && Before(book.View(), o.id) {
        CursorMoves(book.pool.storage.Length, book.View(), o);
      }
      trades := book.AddLimitOrder(o.id, o.side, o.price, o.qty, o.ts, tradesOut);
    }

    /** Enters the two quotes under the next pair of ids; a fresh pair keeps the book well formed. */
    method EnterQuotes(ghost m: Maker, book: OrderBook, mid: Price, nextId: OrderId, ts: Nanos, tradesOut: seq<Trade>)
      returns (trades: seq<Trade>)
      requires m.halfSpread == halfSpread && m.quoteSize == quoteSize
      requires book.Sound()
      modifies book, book.pool, book.pool.storage, book.pool.nextFree
      ensures book.Sound()
      ensures old(book.Valid() && Before(book.View(), nextId)) ==> book.Valid()
      ensures var t := Requote(book.pool.storage.Length, old(book.View()), m, mid, nextId, ts);
              book.View() == t.book && trades == tradesOut + t.trades
    {
      ghost var b, cap := book.View(), book.pool.storage.Length;
      var bid := Order(nextId, Buy, mid - halfSpread, quoteSize, ts);
      var ask := Order(nextId + 1, Sell, mid + halfSpread, quoteSize, ts);
      trades := Enter(book, bid, tradesOut);
      trades := Enter(book, ask, trades);
      RequoteSteps(cap, b, m, mid, nextId, ts, bid, ask, tradesOut);
    }

    /** The mid between two prices, unless it is too close to the one quoted around. */
    method Consider(bid: Price, ask: Price) returns (mid: Option<Price>)
      ensures mid == if quoting && Abs(Half(bid + ask) - lastMid) < threshold then None else Some(Half(bid + ask))
      ensures Decided(bid + ask, View(), mid)
    {
      DecidedByHalf(bid + ask, View());
      var m := Half(bid + ask);
      var delta := m - lastMid;
      if delta < 0 {
        delta := -delta;
      }
      if quoting && delta < threshold {
        return None;
      }
      return Some(m);
    }

    /** The mid to requote around, if both sides are quoted and it moved far enough. */
    method Decide(book: OrderBook) returns (mid: Option<Price>)
      requires book.Sound()
      ensures mid.Some? <==> Quotes(book.View(), View())
      ensures mid.Some? ==> mid.value == Mid(book.View())
      ensures book.View().bids == [] || book.View().asks == [] ==> mid.None?
      ensures book.View().bids != [] && book.View().asks != [] ==>
                Decided(book.View().bids[0].price + book.View().asks[0].price, View(), mid)
    {
      var bid := book.BestOf(Buy);
      var ask := book.BestOf(Sell);
      if bid.None? || ask.None? {
        return None;
      }
      mid := Consider(bid.value.0, ask.value.0);
    }

    /**
     One tick: requote around the mid when it moved far enough. Book, maker, id cursor and
     appended trades are as TickBy says, which on a well-formed book is the abstract OnTick.
     */
    method OnTick(book: OrderBook, nextId: OrderId, ts: Nanos, tradesOut: seq<Trade>)
      returns (nextId': OrderId, trades: seq<Trade>)
      requires book.Sound()
      modifies this, book, book.pool, book.pool.storage, book.pool.nextFree
      ensures book.Sound()
      ensures old(book.Valid() && Before(book.View(), nextId)) ==> book.Valid()
      ensures var t := TickBy(book.pool.storage.Length, old(book.View()), old(book.locate), old(View()), nextId, ts);
              && book.View() == t.book && View() == t.maker && nextId' == t.nextId
              && trades == tradesOut + t.trades
      ensures old(book.Valid()) ==>
                var t := Strategies.OnTick(book.pool.storage.Length, old(book.View()), old(View()), nextId, ts);
                && book.View() == t.book && View() == t.maker && nextId' == t.nextId
                && trades == tradesOut + t.trades
    {
      if book.Valid() {
        TickByLawful(book.pool.storage.Length, book.View(), book.locate, View(), nextId, ts);
      }
      nextId', trades := nextId, tradesOut;
      var decision := Decide(book);
      if decision.Some? {
        trades := MoveQuotes(book, decision.value, nextId, ts, tradesOut);
        nextId' := nextId + 2;
      }
    }

    /** Pulls the quotes and enters new ones around the mid. */
    method MoveQuotes(book: OrderBook, mid: Price, nextId: OrderId, ts: Nanos, tradesOut: seq<Trade>)
      returns (trades: seq<Trade>)
      requires book.Sound()
      modifies this, book, book.pool, book.pool.storage, book.pool.nextFree
      ensures book.Sound()
      ensures old(book.Valid() && Before(book.View(), nextId)) ==> book.Valid()
      ensures var pulled := PulledBy(old(book.View()), old(book.locate), old(View()));
              var t := Requote(book.pool.storage.Length, pulled, old(View()), mid, nextId, ts);
              book.View() == t.book && trades == tradesOut + t.trades && View() == t.maker
    {
      ghost var m := View();
      if book.Valid() {
        PulledOk(book.View(), m);
      }
      PullQuotes(book);
      trades := Requoted(m, book, mid, nextId, ts, tradesOut);
    }

    method Requoted(ghost m: Maker, book: OrderBook, mid: Price, nextId: OrderId, ts: Nanos, tradesOut: seq<Trade>)
      returns (trades: seq<Trade>)
      requires View() == m && book.Sound()
      modifies this, book, book.pool, book.pool.storage, book.pool.nextFree
      ensures book.Sound()
      ensures old(book.Valid() && Before(book.View(), nextId)) ==> book.Valid()
      ensures var t := Requote(book.pool.storage.Length, old(book.View()), m, mid, nextId, ts);
              book.View() == t.book && trades == tradesOut + t.trades && View() == t.maker
    {
      trades := EnterQuotes(m, book, mid, nextId, ts, tradesOut);
      Remember(book, mid, nextId);
    }

    /** Records the new quotes, which does not touch the book. */
    method Remember(ghost book: OrderBook, mid: Price, nextId: OrderId)
      requires book.Sound()
      modifies this
      ensures View() == old(View()).(quoting := true, lastMid := mid, bidId := nextId, askId := nextId + 1)
      ensures book.Sound() && book.View() == old(book.View()) && book.Valid() == old(book.Valid())
    {
      ghost var store := book.pool.storage[..];
      bidId, askId, lastMid, quoting := nextId, nextId + 1, mid, true;
      assert book.pool.storage[..] == store;
    }
  }

  /** The book without what its index has under the maker's two ids. */
  ghost function PulledBy(b: Book, locate: Index, m: Maker): Book {
    if m.quoting then Followed(Followed(b, locate, m.bidId), Dropped(b, locate, m.bidId), m.askId) else b
  }

  ghost function TickBy(cap: nat, b: Book, locate: Index, m: Maker, nextId: OrderId, ts: Nanos): Tick {
    if !Quotes(b, m) then Tick(b, m, nextId, []) else Requote(cap, PulledBy(b, locate, m), m, Mid(b), nextId, ts)
  }

  lemma {:induction false} PulledByLawful(b: Book, locate: Index, m: Maker)
    requires Indexed(locate, b.bids, b.asks) && WellFormed(b)
    ensures PulledBy(b, locate, m) == Pulled(b, m)
  {
    if m.quoting {
      CancelLawful(locate, b, m.bidId);
      CancelLawful(Dropped(b, locate, m.bidId), Cancel(b, m.bidId), m.askId);
    }
  }

  lemma {:induction false} TickByLawful(cap: nat, b: Book, locate: Index, m: Maker, nextId: OrderId, ts: Nanos)
    requires Indexed(locate, b.bids, b.asks) && WellFormed(b)
    ensures TickBy(cap, b, locate, m, nextId, ts) == Strategies.OnTick(cap, b, m, nextId, ts)
  {
    PulledByLawful(b, locate, m);
  }

  lemma {:induction false} RequoteSteps(cap: nat, b: Book, m: Maker, mid: Price, nextId: OrderId, ts: Nanos,
                                        bid: Order, ask: Order, tradesOut: seq<Trade>)
    requires bid == BidQuote(m, mid, nextId, ts) && ask == AskQuote(m, mid, nextId + 1, ts)
    ensures var first := Add(cap, b, bid);
            var second := Add(cap, first.book, ask);
            var t := Requote(cap, b, m, mid, nextId, ts);
            second.book == t.book && tradesOut + first.trades + second.trades == tradesOut + t.trades
  {
    Associate(tradesOut, Add(cap, b, bid).trades, Add(cap, Add(cap, b, bid).book, ask).trades);
  }

  lemma {:induction false} CursorMoves(cap: nat, b: Book, o: Order)
    requires WellFormed(b) && Before(b, o.id)
    ensures o.id !in b.AllIds() && Before(Add(cap, b, o).book, o.id + 1)
  {
    AddKeepsIds(cap, b, o);
  }
}
