/**
 The id index beside the book, on values: what it holds, how an add and a cancel move it, and
 that it stays exactly the book's as long as ids are fresh.
 */
module BookIndexes {
  import opened Types
  import opened Matching
  import opened Books

  type Index = map<OrderId, (Side, Price)>

  ghost function Places(s: seq<Order>): set<(OrderId, (Side, Price))> {
    set o | o in s :: (o.id, (o.side, o.price))
  }

  ghost function Entries(m: Index): set<(OrderId, (Side, Price))> {
    set id | id in m :: (id, m[id])
  }

  /** The index holds exactly the listed orders, each at its side and price. */
  ghost predicate Indexed(locate: Index, s: seq<Order>, t: seq<Order>) {
    Entries(locate) == Places(s) + Places(t)
  }

  ghost predicate Keyed(s: seq<Order>, t: seq<Order>) {
    UniqueIds(s) && UniqueIds(t) && Apart(s, t)
  }

  // ---------- the index through an add ----------

  /** Ids of the orders a match uses up. */
  ghost function UsedUp(opp: seq<Order>, taker: Order): set<OrderId>
    decreases |opp|
  {
    if taker.qty == 0 || opp == [] || !Crosses(taker.side, opp[0].price, taker.price) then {}
    else
      var fill := Min(taker.qty, opp[0].qty);
      if fill == opp[0].qty then {opp[0].id} + UsedUp(opp[1..], taker.(qty := taker.qty - fill)) else {}
  }

  /** Those are the orders ahead of what the match leaves. */
  lemma {:induction false} UsedUpAhead(opp: seq<Order>, taker: Order)
    ensures |Match(opp, taker).rest| <= |opp|
    ensures UsedUp(opp, taker) == Ids(opp[..|opp| - |Match(opp, taker).rest|])
    decreases |opp|
  {
    if taker.qty == 0 || opp == [] || !Crosses(taker.side, opp[0].price, taker.price) {
    } else {
      var fill := Min(taker.qty, opp[0].qty);
      if fill == opp[0].qty {
        var n := |opp| - |Match(opp, taker).rest|;
        UsedUpAhead(opp[1..], taker.(qty := taker.qty - fill));
        assert opp[..n] == [opp[0]] + opp[1..][..n - 1];
        IdsConcat([opp[0]], opp[1..][..n - 1]);
      }
    }
  }

  lemma {:induction false} IdsConcat(s: seq<Order>, t: seq<Order>)
    ensures Ids(s + t) == Ids(s) + Ids(t)
  {
    forall x | x in Ids(s) + Ids(t) ensures x in Ids(s + t) {
      var o :| (o in s || o in t) && o.id == x;
      assert o in s + t;
    }
  }

  lemma MinusTwice(m: Index, a: set<OrderId>, b: set<OrderId>)
    ensures m - a - b == m - (a + b)
  {
  }

  /** The index after an add: the orders used up are out, and the remainder, if it rests, is in. */
  ghost function AddIndex(cap: nat, b: Book, taker: Order, locate: Index): Index {
    var r, left := Add(cap, b, taker), locate - UsedUp(b.On(Opposite(taker.side)), taker);
    if r.left == 0 || r.dropped then left else left[taker.id := (taker.side, taker.price)]
  }

  lemma {:induction false} PlacesConcat(s: seq<Order>, t: seq<Order>)
    ensures Places(s + t) == Places(s) + Places(t)
  {
    forall x | x in Places(s) + Places(t) ensures x in Places(s + t) {
      var o :| (o in s || o in t) && x == (o.id, (o.side, o.price));
      assert o in s + t;
    }
  }

  /** The first n orders of a side leave the book and the index. */
  lemma {:induction false} IndexedDrop(locate: Index, s: seq<Order>, t: seq<Order>, n: nat)
    requires Indexed(locate, s, t) && Keyed(s, t) && n <= |t|
    ensures Indexed(locate - Ids(t[..n]), s, t[n..])
  {
    var gone, locate' := Ids(t[..n]), locate - Ids(t[..n]);
    assert t == t[..n] + t[n..];
    PlacesConcat(t[..n], t[n..]);
    forall x | x in Places(s) + Places(t[n..]) ensures x in Entries(locate') {
      assert x in Entries(locate);
      assert x.0 !in gone by {
        if x in Places(t[n..]) {
          var i :| 0 <= i < |t[n..]| && x == (t[n..][i].id, (t[n..][i].side, t[n..][i].price));
          assert t[n..][i] == t[n + i];
        }
      }
      assert x.0 in locate' && locate'[x.0] == x.1;
    }
    forall x | x in Entries(locate') ensures x in Places(s) + Places(t[n..]) {
      assert x in Entries(locate);
    }
  }

  lemma {:induction false} PlacesOfTail(rest: seq<Order>, opp: seq<Order>)
    requires TailOf(rest, opp)
    ensures Places(rest) == Places(opp[|opp| - |rest|..])
  {
    var tail := opp[|opp| - |rest|..];
    assert forall i :: 0 <= i < |rest| ==> rest[i] == tail[i].(qty := rest[i].qty);
    forall x | x in Places(rest) ensures x in Places(tail) {
      var i :| 0 <= i < |rest| && x == (rest[i].id, (rest[i].side, rest[i].price));
      assert tail[i] in tail;
    }
    forall x | x in Places(tail) ensures x in Places(rest) {
      var i :| 0 <= i < |tail| && x == (tail[i].id, (tail[i].side, tail[i].price));
      assert rest[i] in rest;
    }
  }

  lemma {:induction false} MatchKeepsIndexed(locate: Index, same: seq<Order>, opp: seq<Order>, taker: Order)
    requires Indexed(locate, same, opp) && PairOk(taker.side, same, opp)
    ensures Indexed(locate - UsedUp(opp, taker), same, Match(opp, taker).rest)
  {
    MatchKeepsTail(opp, taker);
    UsedUpAhead(opp, taker);
    PlacesOfTail(Match(opp, taker).rest, opp);
    IndexedDrop(locate, same, opp, |opp| - |Match(opp, taker).rest|);
  }

  lemma {:induction false} EntriesInsert(m: Index, id: OrderId, at: (Side, Price))
    requires id !in m
    ensures Entries(m[id := at]) == Entries(m) + {(id, at)}
  {
    var m' := m[id := at];
    assert forall x :: x in m ==> m'[x] == m[x];
    assert m'[id] == at;
  }

  lemma {:induction false} PlacesInsert(side: Side, s: seq<Order>, o: Order)
    ensures Places(Insert(side, s, o)) == Places(s) + {(o.id, (o.side, o.price))}
  {
    var k, s' := Rank(side, s, o.price), Insert(side, s, o);
    assert s == s[..k] + s[k..];
    assert forall p :: p in s' <==> p == o || p in s;
  }

  lemma {:induction false} IndexedInsert(side: Side, locate: Index, s: seq<Order>, t: seq<Order>, o: Order)
    requires Indexed(locate, s, t) && o.id !in locate
    ensures Indexed(locate[o.id := (o.side, o.price)], Insert(side, s, o), t)
  {
    PlacesInsert(side, s, o);
    EntriesInsert(locate, o.id, (o.side, o.price));
  }

  lemma {:induction false} FreshId(locate: Index, s: seq<Order>, t: seq<Order>, id: OrderId)
    requires Indexed(locate, s, t)
    ensures id in locate <==> id in Ids(s) || id in Ids(t)
  {
    if id in locate {
      assert (id, locate[id]) in Entries(locate);
    }
    forall o | o in s || o in t ensures o.id in locate {
      assert (o.id, (o.side, o.price)) in Entries(locate);
    }
  }

  /** An index that holds exactly the book's orders still does after an add under a fresh id. */
  lemma {:induction false} AddKeepsIndexed(cap: nat, b: Book, taker: Order, locate: Index)
    requires Indexed(locate, b.bids, b.asks) && WellFormed(b) && taker.id !in b.AllIds()
    ensures var b' := Add(cap, b, taker).book;
            Indexed(AddIndex(cap, b, taker, locate), b'.bids, b'.asks)
  {
    var same, opp := b.On(taker.side), b.On(Opposite(taker.side));
    var r := Match(opp, taker);
    WellFormedView(b, taker.side);
    AddSides(cap, b, taker);
    MatchKeepsIndexed(locate, same, opp, taker);
    MatchKeepsPair(same, opp, taker);
    FreshId(locate - UsedUp(opp, taker), same, r.rest, taker.id);
    IndexedInsert(taker.side, locate - UsedUp(opp, taker), same, r.rest, taker.(qty := r.left));
  }

  // ---------- the index through a cancel ----------

  /** Position of the first order with this id and price, or the length of the list. */
  function IndexAt(s: seq<Order>, id: OrderId, price: Price): (k: nat)
    ensures k <= |s|
    ensures forall i :: 0 <= i < k ==> s[i].id != id || s[i].price != price
    ensures k < |s| ==> s[k].id == id && s[k].price == price
  {
    if s == [] || (s[0].id == id && s[0].price == price) then 0 else 1 + IndexAt(s[1..], id, price)
  }

  ghost predicate HasAt(s: seq<Order>, id: OrderId, price: Price) {
    IndexAt(s, id, price) < |s|
  }

  function RemoveAt(s: seq<Order>, id: OrderId, price: Price): seq<Order> {
    var k := IndexAt(s, id, price);
    if k < |s| then s[..k] + s[k + 1..] else s
  }

  /** The index leads to an order of this id. */
  ghost predicate Leads(b: Book, locate: Index, id: OrderId) {
    id in locate && HasAt(b.On(locate[id].0), id, locate[id].1)
  }

  /** The book without the order the index leads to. */
  function Followed(b: Book, locate: Index, id: OrderId): Book {
    if id !in locate then b
    else
      var (side, price) := locate[id];
      b.With(side, RemoveAt(b.On(side), id, price))
  }

  /** The index after that. */
  ghost function Dropped(b: Book, locate: Index, id: OrderId): Index {
    if Leads(b, locate, id) then locate - {id} else locate
  }

  lemma IndexAtIs(s: seq<Order>, id: OrderId, price: Price, f: nat)
    requires f < |s| && s[f].id == id && s[f].price == price
    requires forall g :: 0 <= g < f ==> s[g].id != id || s[g].price != price
    ensures IndexAt(s, id, price) == f
  {
  }

  /** With unique ids the price adds nothing. */
  lemma {:induction false} RemoveAtIsRemove(s: seq<Order>, id: OrderId, price: Price)
    requires UniqueIds(s) && HasAt(s, id, price)
    ensures RemoveAt(s, id, price) == Remove(s, id)
  {
    var k := IndexAt(s, id, price);
    assert IndexOf(s, id) == k;
  }

  lemma {:induction false} IndexedRemove(locate: Index, s: seq<Order>, t: seq<Order>, f: nat)
    requires Indexed(locate, s, t) && Keyed(s, t) && f < |t|
    ensures Indexed(locate - {t[f].id}, s, t[..f] + t[f + 1..])
    ensures Keyed(s, t[..f] + t[f + 1..])
  {
    var t' := t[..f] + t[f + 1..];
    assert t == t[..f] + [t[f]] + t[f + 1..];
    forall o | o in t' ensures o.id != t[f].id {
      var i :| 0 <= i < |t'| && t'[i] == o;
      assert o == t[if i < f then i else i + 1];
    }
    var locate' := locate - {t[f].id};
    forall x | x in Places(s) + Places(t') ensures x in Entries(locate') {
      assert x in Entries(locate);
      assert x.0 in locate' && locate'[x.0] == x.1;
    }
    forall x | x in Entries(locate') ensures x in Places(s) + Places(t') {
      assert x in Entries(locate);
    }
  }

  /** The index leads to the order where it rests, and following it is the abstract cancel. */
  lemma {:induction false} FoundAt(locate: Index, b: Book, id: OrderId)
    requires Indexed(locate, b.bids, b.asks) && WellFormed(b) && id in locate
    ensures Leads(b, locate, id) && id in b.AllIds() && Followed(b, locate, id) == Cancel(b, id)
  {
    var (side, price) := locate[id];
    assert (id, locate[id]) in Entries(locate);
    var s := if (id, locate[id]) in Places(b.bids) then b.bids else b.asks;
    var f :| 0 <= f < |s| && (s[f].id, (s[f].side, s[f].price)) == (id, locate[id]);
    assert s == b.On(side);
    IdsIndex(b.bids, id);
    IdsIndex(b.asks, id);
    RemoveAtIsRemove(s, id, price);
  }

  lemma {:induction false} FollowedIndexed(locate: Index, b: Book, id: OrderId)
    requires Indexed(locate, b.bids, b.asks) && WellFormed(b) && Leads(b, locate, id)
    ensures Indexed(locate - {id}, Followed(b, locate, id).bids, Followed(b, locate, id).asks)
  {
    var (side, price) := locate[id];
    WellFormedView(b, side);
    IndexedRemove(locate, b.On(Opposite(side)), b.On(side), IndexAt(b.On(side), id, price));
  }

  /** On a well-formed book with an exact index, a cancel by the index is the abstract cancel and keeps both. */
  lemma {:induction false} CancelLawful(locate: Index, b: Book, id: OrderId)
    requires Indexed(locate, b.bids, b.asks) && WellFormed(b)
    ensures Leads(b, locate, id) <==> id in b.AllIds()
    ensures Followed(b, locate, id) == Cancel(b, id) && WellFormed(Cancel(b, id))
    ensures Leads(b, locate, id) ==> Indexed(locate - {id}, Cancel(b, id).bids, Cancel(b, id).asks)
  {
    FreshId(locate, b.bids, b.asks, id);
    CancelKeepsWellFormed(b, id);
    if id in locate {
      FoundAt(locate, b, id);
      FollowedIndexed(locate, b, id);
    } else {
      CancelMissing(b, id);
    }
  }

  // ---------- size ----------

  lemma {:induction false} LastIdIsNew(s: seq<Order>)
    requires UniqueIds(s) && s != []
    ensures var n := |s| - 1;
            Ids(s) == Ids(s[..n]) + {s[n].id} && s[n].id !in Ids(s[..n])
  {
    var n := |s| - 1;
    IdsConcat(s[..n], [s[n]]);
    assert s == s[..n] + [s[n]];
    assert Ids([s[n]]) == {s[n].id};
  }

  lemma {:induction false} IdsSize(s: seq<Order>)
    requires UniqueIds(s)
    ensures |Ids(s)| == |s|
  {
    if s == [] {
    } else {
      IdsSize(s[..|s| - 1]);
      LastIdIsNew(s);
    }
  }

  lemma {:induction false} IndexSize(locate: Index, s: seq<Order>, t: seq<Order>)
    requires Indexed(locate, s, t) && Keyed(s, t)
    ensures |locate| == |s| + |t|
  {
    forall id ensures id in locate.Keys <==> id in Ids(s) + Ids(t) {
      FreshId(locate, s, t, id);
    }
    assert locate.Keys == Ids(s) + Ids(t);
    IdsSize(s);
    IdsSize(t);
    ApartIds(s, t);
    assert |locate| == |locate.Keys|;
  }
}
