/**
 Price-time matching as a greedy fold over one flat list of resting orders, best price
 first and, within a price, earliest arrival first. This is the reference the nested
 level/queue loops of the order book are proved against; the laws below say what the
 fold itself achieves.
 */
module Matching {
  import opened Types

  /** A resting price that an incoming order of this side and limit may trade at. */
  predicate Crosses(side: Side, bookPx: Price, limit: Price) {
    if side.Buy? then bookPx <= limit else bookPx >= limit
  }

  /** p comes strictly before q in the level map of this side. */
  predicate Better(side: Side, p: Price, q: Price) {
    if side.Buy? then p > q else p < q
  }

  function TradeOf(taker: Order, maker: Order, fill: Qty): Trade {
    if taker.side.Buy?
    then Trade(taker.id, maker.id, maker.price, fill, taker.ts)
    else Trade(maker.id, taker.id, maker.price, fill, taker.ts)
  }

  /** Trades made, quantity of the taker left over, and what remains of the opposite side. */
  datatype Fills = Fills(trades: seq<Trade>, left: Qty, rest: seq<Order>)

  function Match(opp: seq<Order>, taker: Order): Fills {
    if taker.qty == 0 || opp == [] || !Crosses(taker.side, opp[0].price, taker.price) then
      Fills([], taker.qty, opp)
    else
      var fill := Min(taker.qty, opp[0].qty);
      var trade := TradeOf(taker, opp[0], fill);
      if fill == opp[0].qty then
        var r := Match(opp[1..], taker.(qty := taker.qty - fill));
        Fills([trade] + r.trades, r.left, r.rest)
      else
        Fills([trade], 0, [opp[0].(qty := opp[0].qty - fill)] + opp[1..])
  }

  function SumQty(s: seq<Order>): nat {
    if s == [] then 0 else s[0].qty + SumQty(s[1..])
  }

  function SumTrades(ts: seq<Trade>): nat {
    if ts == [] then 0 else ts[0].qty + SumTrades(ts[1..])
  }

  /** No order is strictly better priced than one ahead of it. */
  ghost predicate Sorted(side: Side, s: seq<Order>) {
    forall i, j :: 0 <= i < j < |s| ==> !Better(side, s[j].price, s[i].price)
  }

  /** The orders the taker may trade with, wherever they are in the list, and those it may not. */
  function Crossing(opp: seq<Order>, taker: Order): seq<Order> {
    if opp == [] then []
    else (if Crosses(taker.side, opp[0].price, taker.price) then [opp[0]] else []) + Crossing(opp[1..], taker)
  }

  function Staying(opp: seq<Order>, taker: Order): seq<Order> {
    if opp == [] then []
    else (if Crosses(taker.side, opp[0].price, taker.price) then [] else [opp[0]]) + Staying(opp[1..], taker)
  }

  /** Quantity resting at prices the taker may trade at, anywhere in the list. */
  function CrossingQty(opp: seq<Order>, taker: Order): nat {
    if opp == [] then 0
    else (if Crosses(taker.side, opp[0].price, taker.price) then opp[0].qty else 0)
         + CrossingQty(opp[1..], taker)
  }

  /** Quantity moves from both parties into trades and nowhere else. */
  lemma {:induction false} MatchConserves(opp: seq<Order>, taker: Order)
    ensures SumTrades(Match(opp, taker).trades) + Match(opp, taker).left == taker.qty
    ensures SumQty(opp) == SumQty(Match(opp, taker).rest) + SumTrades(Match(opp, taker).trades)
    decreases |opp|
  {
    if taker.qty == 0 || opp == [] || !Crosses(taker.side, opp[0].price, taker.price) {
    } else {
      var fill := Min(taker.qty, opp[0].qty);
      if fill == opp[0].qty {
        MatchConserves(opp[1..], taker.(qty := taker.qty - fill));
      } else {
        assert Match(opp, taker).rest[1..] == opp[1..];
      }
    }
  }

  lemma {:induction false} NoCrossingBehind(opp: seq<Order>, taker: Order)
    requires Sorted(Opposite(taker.side), opp)
    requires opp != [] ==> !Crosses(taker.side, opp[0].price, taker.price)
    ensures CrossingQty(opp, taker) == 0
    ensures forall o :: o in opp ==> !Crosses(taker.side, o.price, taker.price)
    decreases |opp|
  {
    if opp == [] {
    } else {
      forall i | 0 <= i < |opp| ensures !Crosses(taker.side, opp[i].price, taker.price) {
      }
      NoCrossingBehind(opp[1..], taker);
    }
  }

  lemma {:induction false} NoneCrossing(opp: seq<Order>, taker: Order)
    requires forall o :: o in opp ==> !Crosses(taker.side, o.price, taker.price)
    ensures Crossing(opp, taker) == [] && Staying(opp, taker) == opp
  {
    if opp == [] {
    } else {
      assert opp[0] in opp;
      NoneCrossing(opp[1..], taker);
    }
  }

  /** On a sorted side the orders a taker may trade with come first. */
  lemma {:induction false} CrossingFirst(opp: seq<Order>, taker: Order)
    requires Sorted(Opposite(taker.side), opp)
    ensures opp == Crossing(opp, taker) + Staying(opp, taker)
  {
    if opp == [] {
    } else if Crosses(taker.side, opp[0].price, taker.price) {
      CrossingFirst(opp[1..], taker);
    } else {
      NoCrossingBehind(opp, taker);
      NoneCrossing(opp, taker);
    }
  }

  lemma {:induction false} StayingIgnoresQty(opp: seq<Order>, taker: Order, q: Qty)
    ensures Staying(opp, taker.(qty := q)) == Staying(opp, taker)
  {
    if opp == [] {
    } else {
      StayingIgnoresQty(opp[1..], taker, q);
    }
  }

  /**
   What will be left, told from the book before the match: the taker keeps what the crossing
   quantity does not cover, and then exactly the orders that do not cross stay behind.
   */
  lemma {:induction false} MatchLeaves(opp: seq<Order>, taker: Order)
    requires Sorted(Opposite(taker.side), opp)
    ensures Match(opp, taker).left
            == if CrossingQty(opp, taker) < taker.qty then taker.qty - CrossingQty(opp, taker) else 0
    ensures CrossingQty(opp, taker) < taker.qty ==> Match(opp, taker).rest == Staying(opp, taker)
    decreases |opp|
  {
    if taker.qty == 0 || opp == [] {
    } else if !Crosses(taker.side, opp[0].price, taker.price) {
      NoCrossingBehind(opp, taker);
      NoneCrossing(opp, taker);
    } else {
      var fill := Min(taker.qty, opp[0].qty);
      if fill == opp[0].qty {
        var taker' := taker.(qty := taker.qty - fill);
        MatchLeaves(opp[1..], taker');
        CrossingIgnoresQty(opp[1..], taker, taker'.qty);
        StayingIgnoresQty(opp[1..], taker, taker'.qty);
      }
    }
  }

  /** A remainder means that nothing left is inside the limit. */
  lemma {:induction false} MatchStops(opp: seq<Order>, taker: Order)
    requires Sorted(Opposite(taker.side), opp) && Match(opp, taker).left > 0
    ensures forall o :: o in Match(opp, taker).rest ==>
              if taker.side.Buy? then taker.price < o.price else o.price < taker.price
    decreases |opp|
  {
    if opp == [] {
    } else if !Crosses(taker.side, opp[0].price, taker.price) {
      NoCrossingBehind(opp, taker);
    } else {
      MatchStops(opp[1..], taker.(qty := taker.qty - Min(taker.qty, opp[0].qty)));
    }
  }

  /** The fold executes as much as price limits allow: all of the taker, or all that crosses. */
  lemma {:induction false} MatchMaximal(opp: seq<Order>, taker: Order)
    requires Sorted(Opposite(taker.side), opp)
    ensures SumTrades(Match(opp, taker).trades)
            == if taker.qty < CrossingQty(opp, taker) then taker.qty else CrossingQty(opp, taker)
    ensures Match(opp, taker).left > 0 ==>
              forall o :: o in Match(opp, taker).rest ==>
                if taker.side.Buy? then taker.price < o.price else o.price < taker.price
    decreases |opp|
  {
    if Match(opp, taker).left > 0 {
      MatchStops(opp, taker);
    }
    if taker.qty == 0 || opp == [] {
    } else if !Crosses(taker.side, opp[0].price, taker.price) {
      NoCrossingBehind(opp, taker);
    } else {
      var fill := Min(taker.qty, opp[0].qty);
      if fill == opp[0].qty {
        var taker' := taker.(qty := taker.qty - fill);
        MatchMaximal(opp[1..], taker');
        CrossingIgnoresQty(opp[1..], taker, taker'.qty);
      }
    }
  }

  lemma {:induction false} CrossingIgnoresQty(opp: seq<Order>, taker: Order, q: Qty)
    ensures CrossingQty(opp, taker.(qty := q)) == CrossingQty(opp, taker)
  {
    if opp == [] {
    } else {
      CrossingIgnoresQty(opp[1..], taker, q);
    }
  }

  /**
   The k-th trade in closed form: it is against the k-th resting order, inside the taker's
   limit, at the resting order's price and the taker's time, for whatever the orders ahead of
   it left to trade.
   */
  lemma {:induction false} KthTrade(opp: seq<Order>, taker: Order, k: nat)
    requires k < |Match(opp, taker).trades|
    ensures k < |opp|
    ensures if taker.side.Buy? then opp[k].price <= taker.price else opp[k].price >= taker.price
    ensures SumQty(opp[..k]) < taker.qty
    ensures var t := Match(opp, taker).trades[k];
            && t.buyId == (if taker.side.Buy? then taker.id else opp[k].id)
            && t.sellId == (if taker.side.Buy? then opp[k].id else taker.id)
            && t.price == opp[k].price && t.ts == taker.ts
            && t.qty == Min(opp[k].qty, taker.qty - SumQty(opp[..k]))
    decreases |opp|
  {
    var fill := Min(taker.qty, opp[0].qty);
    if k == 0 {
    } else {
      KthTrade(opp[1..], taker.(qty := taker.qty - fill), k - 1);
      assert opp[..k][1..] == opp[1..][..k - 1];
    }
  }

  /**
   What n trades leave behind: makers ahead of the last are gone, the last either is gone too
   or keeps its remainder at the front, and everyone behind is untouched.
   */
  lemma {:induction false} MatchRemainder(opp: seq<Order>, taker: Order)
    ensures var r := Match(opp, taker);
            var n := |r.trades|;
            && n <= |opp|
            && (|| (r.rest == opp[n..] && SumQty(opp[..n]) + r.left == taker.qty)
                || (&& n > 0 && r.rest != [] && r.left == 0
                    && 0 < r.rest[0].qty < opp[n - 1].qty
                    && r.rest == [opp[n - 1].(qty := r.rest[0].qty)] + opp[n..]
                    && SumQty(opp[..n]) == taker.qty + r.rest[0].qty))
    decreases |opp|
  {
    var r := Match(opp, taker);
    if taker.qty == 0 || opp == [] || !Crosses(taker.side, opp[0].price, taker.price) {
      assert opp[0..] == opp;
    } else {
      var fill := Min(taker.qty, opp[0].qty);
      var n := |r.trades|;
      if fill == opp[0].qty {
        MatchRemainder(opp[1..], taker.(qty := taker.qty - fill));
        assert opp[..n][1..] == opp[1..][..n - 1];
        assert opp[1..][n - 1..] == opp[n..];
      } else {
        assert opp[..1][1..] == [];
      }
    }
  }
}
