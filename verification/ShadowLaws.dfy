/**
 How the engine's maps follow the book through one matching call: every counterparty is
 known, no 32-bit subtraction wraps, and what is left in the maps is what is left in the book.
 */
module ShadowLaws {
  import opened Types
  import opened Matching
  import opened Books
  import opened Engines

  /** Every listed order has an entry with exactly its remaining quantity. */
  ghost predicate Tracks(s: seq<Order>, resting: map<OrderId, Info>) {
    forall i :: 0 <= i < |s| ==> s[i].id in resting && resting[s[i].id].remaining == s[i].qty
  }

  /** Every client key points at an entry owned by that same key. */
  ghost predicate ByClientOk(sh: Shadow) {
    forall k :: k in sh.byClient ==> sh.byClient[k] in sh.resting && sh.resting[sh.byClient[k]].Key() == k
  }

  ghost predicate Positive(s: seq<Order>) {
    forall i :: 0 <= i < |s| ==> s[i].qty > 0
  }

  /** Each trade finds its counterparty, with at least the traded quantity remaining. */
  ghost predicate Applicable(sh: Shadow, exchangeId: OrderId, trades: seq<Trade>)
    decreases |trades|
  {
    trades == [] ||
    (var id := Counterparty(exchangeId, trades[0]);
     && id in sh.resting
     && id != exchangeId
     && 0 < trades[0].qty <= sh.resting[id].remaining
     && Applicable(Fill(sh, exchangeId, trades[0]).shadow, exchangeId, trades[1..]))
  }

  /** The unreachable branch is unreachable and the subtraction never wraps; the maps end level with the book. */
  lemma {:induction false} MatchIsApplicable(opp: seq<Order>, taker: Order, sh: Shadow)
    requires UniqueIds(opp) && Positive(opp) && Tracks(opp, sh.resting) && taker.id !in sh.resting
    ensures Applicable(sh, taker.id, Match(opp, taker).trades)
    ensures Tracks(Match(opp, taker).rest, FillAll(sh, taker.id, Match(opp, taker).trades).shadow.resting)
    decreases |opp|
  {
    if taker.qty == 0 || opp == [] || !Crosses(taker.side, opp[0].price, taker.price) {
    } else {
      var fill := Min(taker.qty, opp[0].qty);
      var r := Match(opp, taker);
      var sh1 := Fill(sh, taker.id, r.trades[0]).shadow;
      if fill == opp[0].qty {
        var taker' := taker.(qty := taker.qty - fill);
        assert Tracks(opp[1..], sh1.resting);
        MatchIsApplicable(opp[1..], taker', sh1);
        assert r.trades[1..] == Match(opp[1..], taker').trades;
      } else {
        assert r.trades[1..] == [];
      }
    }
  }

  lemma {:induction false} FillAllShrinks(sh: Shadow, exchangeId: OrderId, trades: seq<Trade>)
    ensures FillAll(sh, exchangeId, trades).shadow.resting.Keys <= sh.resting.Keys
    decreases |trades|
  {
    if trades == [] {
    } else {
      FillAllShrinks(Fill(sh, exchangeId, trades[0]).shadow, exchangeId, trades[1..]);
    }
  }

  /** An order that is not on the opposite side is not touched. */
  lemma {:induction false} MatchFrame(opp: seq<Order>, taker: Order, sh: Shadow, id: OrderId)
    requires id !in Ids(opp)
    ensures var after := FillAll(sh, taker.id, Match(opp, taker).trades).shadow.resting;
            id != taker.id ==>
            (id in after <==> id in sh.resting) && (id in after ==> after[id] == sh.resting[id])
    decreases |opp|
  {
    if taker.qty == 0 || opp == [] || !Crosses(taker.side, opp[0].price, taker.price) {
    } else {
      assert opp[0] in opp;
      var fill := Min(taker.qty, opp[0].qty);
      var r := Match(opp, taker);
      if fill == opp[0].qty {
        var taker' := taker.(qty := taker.qty - fill);
        MatchFrame(opp[1..], taker', Fill(sh, taker.id, r.trades[0]).shadow, id);
        assert r.trades[1..] == Match(opp[1..], taker').trades;
      } else {
        assert r.trades[1..] == [];
      }
    }
  }

  /** An order of the opposite side stays in the map exactly when it stays in the book. */
  lemma {:induction false} MatchKeys(opp: seq<Order>, taker: Order, sh: Shadow, id: OrderId)
    requires UniqueIds(opp) && Positive(opp) && Tracks(opp, sh.resting) && taker.id !in sh.resting
    requires id in Ids(opp)
    ensures id in FillAll(sh, taker.id, Match(opp, taker).trades).shadow.resting
            <==> id in Ids(Match(opp, taker).rest)
    decreases |opp|
  {
    if taker.qty == 0 || opp == [] || !Crosses(taker.side, opp[0].price, taker.price) {
    } else {
      var fill := Min(taker.qty, opp[0].qty);
      var r := Match(opp, taker);
      var sh1 := Fill(sh, taker.id, r.trades[0]).shadow;
      if fill == opp[0].qty {
        var taker' := taker.(qty := taker.qty - fill);
        assert r.trades[1..] == Match(opp[1..], taker').trades;
        if id == opp[0].id {
          FillAllShrinks(sh1, taker.id, r.trades[1..]);
          HeadGone(opp, taker');
        } else {
          assert Tracks(opp[1..], sh1.resting);
          assert id in Ids(opp[1..]) by {
            var i :| 0 <= i < |opp| && opp[i].id == id;
            assert opp[1..][i - 1] == opp[i];
          }
          MatchKeys(opp[1..], taker', sh1, id);
        }
      } else {
        assert r.trades[1..] == [];
        IdsReduced(opp, r.rest);
      }
    }
  }

  lemma {:induction false} HeadGone(opp: seq<Order>, taker: Order)
    requires opp != [] && UniqueIds(opp) && Positive(opp)
    ensures opp[0].id !in Ids(Match(opp[1..], taker).rest)
  {
    MatchKeepsTail(opp[1..], taker);
    var rest, tail := Match(opp[1..], taker).rest, opp[1..];
    forall i | 0 <= i < |rest| ensures rest[i].id != opp[0].id {
      var j := |tail| - |rest| + i;
      assert rest[i] == tail[j].(qty := rest[i].qty) && tail[j] == opp[j + 1];
    }
  }

  lemma {:induction false} IdsReduced(opp: seq<Order>, rest: seq<Order>)
    requires |opp| == |rest| && forall i :: 0 <= i < |opp| ==> rest[i].id == opp[i].id
    ensures Ids(rest) == Ids(opp)
  {
    forall x | x in Ids(opp) ensures x in Ids(rest) {
      var i :| 0 <= i < |opp| && opp[i].id == x;
      assert rest[i] in rest;
    }
    forall x | x in Ids(rest) ensures x in Ids(opp) {
      var i :| 0 <= i < |rest| && rest[i].id == x;
      assert opp[i] in opp;
    }
  }

  lemma FillKeepsByClient(sh: Shadow, exchangeId: OrderId, t: Trade)
    requires ByClientOk(sh)
    ensures ByClientOk(Fill(sh, exchangeId, t).shadow)
  {
  }

  lemma {:induction false} FillAllKeepsByClient(sh: Shadow, exchangeId: OrderId, trades: seq<Trade>)
    requires ByClientOk(sh)
    ensures ByClientOk(FillAll(sh, exchangeId, trades).shadow)
    decreases |trades|
  {
    if trades == [] {
    } else {
      FillKeepsByClient(sh, exchangeId, trades[0]);
      FillAllKeepsByClient(Fill(sh, exchangeId, trades[0]).shadow, exchangeId, trades[1..]);
    }
  }

  /** Filling changes quantities only: downwards, never to 0 for an entry that stays, and not the owner. */
  ghost predicate Drawn(before: map<OrderId, Info>, after: map<OrderId, Info>) {
    forall id :: id in after ==>
      && id in before
      && after[id] == before[id].(remaining := after[id].remaining)
      && after[id].remaining <= before[id].remaining
      && (before[id].remaining > 0 ==> after[id].remaining > 0)
  }

  lemma {:induction false} FillAllDraws(sh: Shadow, exchangeId: OrderId, trades: seq<Trade>)
    requires Applicable(sh, exchangeId, trades)
    ensures Drawn(sh.resting, FillAll(sh, exchangeId, trades).shadow.resting)
    decreases |trades|
  {
    if trades == [] {
    } else {
      var sh1 := Fill(sh, exchangeId, trades[0]).shadow;
      assert Drawn(sh.resting, sh1.resting);
      FillAllDraws(sh1, exchangeId, trades[1..]);
    }
  }

  /** The 32-bit fill counter does not wrap: it is the sum, at most the order's quantity. */
  lemma {:induction false} FilledIsSum(from: Qty, trades: seq<Trade>)
    requires from + SumTrades(trades) < TWO_32
    ensures Filled32(from, trades) == from + SumTrades(trades)
    decreases |trades|
  {
    if trades == [] {
    } else {
      FilledIsSum(from + trades[0].qty, trades[1..]);
    }
  }

  /** The incoming order's own ack reports exactly what was traded and what was left. */
  lemma {:induction false} OwnAckExact(cap: nat, b: Book, ev: Event)
    ensures var r := Add(cap, b, TakerOf(ev));
            var own := OwnAck(ev, r.trades);
            && own.leaves == r.left
            && own.fillQty == SumTrades(r.trades) == ev.qty - r.left
  {
    MatchConserves(b.On(Opposite(ev.side)), TakerOf(ev));
    AddSides(cap, b, TakerOf(ev));
    FilledIsSum(0, Add(cap, b, TakerOf(ev)).trades);
  }
}
