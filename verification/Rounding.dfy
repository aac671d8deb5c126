/**
 The floating-point computations of the latency histogram (include/latency_histogram.hpp): the
 rank of a percentage and the mean. Rounding is a parameter of which only little is used, so
 what is proved holds of doubles.
 */
module Roundings {

  const TWO_53: int := 0x20_0000_0000_0000

  predicate AtMost(x: real, y: real) {
    x <= y
  }

  /** An integer with no more than 53 binary places. */
  predicate Whole(x: real) {
    0.0 <= x <= TWO_53 as real && x.Floor as real == x
  }

  /** What is used of rounding: it keeps order, and integers up to 2^53 are exact. */
  ghost predicate Rounds(fl: real -> real) {
    && (forall x: real, y: real {:trigger AtMost(x, y)} :: AtMost(x, y) ==> fl(x) <= fl(y))
    && (forall x: real {:trigger Whole(x)} :: Whole(x) ==> fl(x) == x)
  }

  lemma RoundMono(fl: real -> real, x: real, y: real)
    requires Rounds(fl) && x <= y
    ensures fl(x) <= fl(y)
  {
    assert AtMost(x, y);
  }

  lemma WholeExact(fl: real -> real, n: nat)
    requires Rounds(fl) && n <= TWO_53
    ensures fl(n as real) == n as real
  {
    assert Whole(n as real);
  }

  lemma {:induction false} Scaled(a: real, b: real, c: real)
    requires a <= b && c >= 0.0
    ensures a * c <= b * c
  {
    assert (b - a) * c >= 0.0;
  }

  // ---------- the rank of a percentage ----------

  /** The least integer that is not below x. */
  function Ceil(x: real): int {
    -((-x).Floor)
  }

  function Largest(a: int, b: int): int {
    if a < b then b else a
  }

  function Product(a: real, b: real): real {
    a * b
  }

  /** The product of a fraction and a count, each rounded. */
  function Portion(fl: real -> real, p: real, total: nat): real {
    fl(Product(fl(p / 100.0), fl(total as real)))
  }

  /** k is the first rank, from 1 up, that is not below x. */
  predicate FirstNotBelow(k: int, x: real) {
    k >= 1 && x <= k as real && (k > 1 ==> (k - 1) as real < x)
  }

  /** The rank computed for p percent of `total` samples: the first that the computed portion does not exceed. */
  function Rank(fl: real -> real, p: real, total: nat): (k: nat)
    ensures FirstNotBelow(k, Portion(fl, p, total))
  {
    Largest(1, Ceil(Portion(fl, p, total)))
  }

  /** The rank without rounding. */
  function ExactRank(p: real, total: nat): (k: nat)
    ensures FirstNotBelow(k, p / 100.0 * total as real)
  {
    Largest(1, Ceil(p / 100.0 * total as real))
  }

  lemma CeilMono(x: real, y: real)
    requires x <= y
    ensures Ceil(x) <= Ceil(y)
  {
  }

  lemma CeilClose(x: real, y: real)
    requires -1.0 < x - y < 1.0
    ensures Ceil(y) - 1 <= Ceil(x) <= Ceil(y) + 1
  {
  }

  lemma {:induction false} ProductMono(fl: real -> real, a: real, a': real, n: real)
    requires Rounds(fl) && a <= a' && n >= 0.0
    ensures fl(Product(a, n)) <= fl(Product(a', n))
  {
    Scaled(a, a', n);
    RoundMono(fl, Product(a, n), Product(a', n));
  }

  lemma {:induction false} PortionMono(fl: real -> real, p: real, p': real, total: nat)
    requires Rounds(fl) && 0.0 <= p <= p'
    ensures Portion(fl, p, total) <= Portion(fl, p', total)
  {
    WholeExact(fl, 0);
    RoundMono(fl, 0.0, total as real);
    RoundMono(fl, p / 100.0, p' / 100.0);
    ProductMono(fl, fl(p / 100.0), fl(p' / 100.0), fl(total as real));
  }

  lemma {:induction false} PortionWithin(fl: real -> real, p: real, total: nat)
    requires Rounds(fl) && 0.0 <= p <= 100.0 && total <= TWO_53
    ensures Portion(fl, p, total) <= total as real
  {
    WholeExact(fl, 1);
    WholeExact(fl, total);
    RoundMono(fl, p / 100.0, 1.0);
    ProductMono(fl, fl(p / 100.0), 1.0, total as real);
    assert Product(1.0, total as real) == total as real;
  }

  /** Larger percentages stand for larger ranks, and up to 100 for ranks within the samples, however rounding goes. */
  lemma {:induction false} RankWithin(fl: real -> real, p: real, p': real, total: nat)
    requires Rounds(fl) && 0.0 <= p <= p'
    ensures Rank(fl, p, total) <= Rank(fl, p', total)
    ensures p' <= 100.0 && 0 < total <= TWO_53 ==> Rank(fl, p', total) <= total
  {
    PortionMono(fl, p, p', total);
    CeilMono(Portion(fl, p, total), Portion(fl, p', total));
    if p' <= 100.0 && 0 < total <= TWO_53 {
      PortionWithin(fl, p', total);
      CeilMono(Portion(fl, p', total), total as real);
    }
  }

  /** A rank of a portion reaches that part of a hundred, and the one before it does not. */
  lemma {:induction false} PortionOfHundred(p: real, n: real, k: int)
    ensures p / 100.0 * n <= k as real <==> p * n <= 100.0 * k as real
  {
    assert p * n == 100.0 * (p / 100.0 * n);
  }

  /**
   Where no operation rounds, the rank is the least k >= 1 with p * total <= 100 * k: at least p
   percent of the samples are among the first k.
   */
  lemma {:induction false} RankExact(fl: real -> real, p: real, total: nat)
    requires fl(p / 100.0) == p / 100.0 && fl(total as real) == total as real
    requires fl(p / 100.0 * total as real) == p / 100.0 * total as real
    ensures var k := Rank(fl, p, total);
            && k >= 1 && p * total as real <= 100.0 * k as real
            && (k > 1 ==> 100.0 * (k - 1) as real < p * total as real)
    ensures Rank(fl, p, total) == ExactRank(p, total)
  {
    var k := Rank(fl, p, total);
    assert Product(p / 100.0, total as real) == p / 100.0 * total as real;
    PortionOfHundred(p, total as real, k);
    PortionOfHundred(p, total as real, k - 1);
  }

  /** y is x up to half a unit in the last of 53 places. */
  predicate Near(y: real, x: real) {
    -x <= (y - x) * TWO_53 as real <= x
  }

  lemma {:induction false} NearScaled(a: real, a': real, m: real, x: real, x': real)
    requires Near(a', a) && m >= 0.0 && x == a * m && x' == a' * m
    ensures Near(x', x)
  {
    var e := (a' - a) * TWO_53 as real;
    Scaled(e, a, m);
    Scaled(-a, e, m);
    assert e * m == (x' - x) * TWO_53 as real;
  }

  lemma {:induction false} FractionOf(a: real, m: real, x: real)
    requires 0.0 <= a <= 1.0 && m >= 0.0 && x == a * m
    ensures 0.0 <= x <= m
  {
    Scaled(0.0, a, m);
    Scaled(a, 1.0, m);
  }

  lemma NearTwice(x: real, x': real, y: real, m: real)
    requires 0.0 <= x <= m <= 2251799813685248.0 && Near(x', x) && Near(y, x')
    ensures -1.0 < y - x < 1.0
  {
  }

  lemma {:induction false} NearProduct(a: real, a': real, m: real, x: real, x': real, y: real)
    requires 0.0 <= a <= 1.0 && 0.0 <= m <= 2251799813685248.0 && Near(a', a)
    requires x == a * m && x' == a' * m && Near(y, x')
    ensures -1.0 < y - x < 1.0
  {
    NearScaled(a, a', m, x, x');
    FractionOf(a, m, x);
    NearTwice(x, x', y, m);
  }

  /** Rounded to nearest, the rank is the exact one or a neighbour of it, for up to 2^51 samples. */
  lemma {:induction false} RankNearExact(fl: real -> real, p: real, total: nat)
    requires fl(total as real) == total as real && total <= 0x8_0000_0000_0000 && 0.0 <= p <= 100.0
    requires Near(fl(p / 100.0), p / 100.0)
    requires Near(Portion(fl, p, total), fl(p / 100.0) * total as real)
    ensures ExactRank(p, total) - 1 <= Rank(fl, p, total) <= ExactRank(p, total) + 1
  {
    var a, m := fl(p / 100.0), total as real;
    NearProduct(p / 100.0, a, m, p / 100.0 * m, a * m, Portion(fl, p, total));
    CeilClose(Portion(fl, p, total), p / 100.0 * total as real);
  }

  /** And a neighbour it can be: with the doubles nearest to 0.55 and to the product, 55 percent of 100 is the 56th. */
  lemma {:induction false} RankOffByOne(fl: real -> real)
    requires Rounds(fl)
    requires fl(55.0 / 100.0) == 4953959590107546.0 / 9007199254740992.0
    requires fl(4953959590107546.0 / 9007199254740992.0 * 100.0) == 55.0 + 64.0 / 9007199254740992.0
    ensures Rank(fl, 55.0, 100) == 56 && ExactRank(55.0, 100) == 55
  {
    WholeExact(fl, 100);
    assert Portion(fl, 55.0, 100) == 55.0 + 64.0 / 9007199254740992.0;
  }

  // ---------- a mean ----------

  /** A quotient of two counts, each operation rounded. */
  function Ratio(fl: real -> real, sum: nat, n: nat): real {
    var d := fl(n as real);
    if d == 0.0 then 0.0 else fl(fl(sum as real) / d)
  }

  lemma {:induction false} Positive(a: real, b: real)
    requires a > 0.0 && b > 0.0
    ensures a * b > 0.0
  {
  }

  lemma {:induction false} AtMostQuotient(q: real, m: real, x: real, bound: real)
    requires m > 0.0 && q * m == x && x <= bound * m
    ensures q <= bound
  {
    if q > bound {
      Positive(q - bound, m);
    }
  }

  lemma {:induction false} AtLeastQuotient(q: real, m: real, x: real, bound: real)
    requires m > 0.0 && q * m == x && bound * m <= x
    ensures bound <= q
  {
    if q < bound {
      Positive(bound - q, m);
    }
  }

  lemma {:induction false} QuotientBounds(sum: nat, n: nat, lo: nat, hi: nat)
    requires n > 0 && lo * n <= sum <= hi * n
    ensures lo as real <= sum as real / n as real <= hi as real
    ensures sum as real / n as real <= sum as real
  {
    var q, m := sum as real / n as real, n as real;
    assert q * m == sum as real;
    assert (lo * n) as real == lo as real * m && (hi * n) as real == hi as real * m;
    AtLeastQuotient(q, m, sum as real, lo as real);
    AtMostQuotient(q, m, sum as real, hi as real);
    Scaled(1.0, m, sum as real);
    AtMostQuotient(q, m, sum as real, sum as real);
  }

  /** A quotient computed in floating point stays between integers that bracket it. */
  lemma {:induction false} RatioBetween(fl: real -> real, sum: nat, n: nat, lo: nat, hi: nat)
    requires Rounds(fl) && 0 < n <= TWO_53 && lo <= sum <= TWO_53 && lo * n <= sum <= hi * n
    ensures lo as real <= Ratio(fl, sum, n) <= hi as real
  {
    WholeExact(fl, n);
    WholeExact(fl, sum);
    WholeExact(fl, lo);
    QuotientBounds(sum, n, lo, hi);
    RoundMono(fl, lo as real, sum as real / n as real);
    if hi <= TWO_53 {
      WholeExact(fl, hi);
      RoundMono(fl, sum as real / n as real, hi as real);
    } else {
      WholeExact(fl, TWO_53);
      RoundMono(fl, sum as real / n as real, TWO_53 as real);
    }
  }

  lemma {:induction false} NearQuotient(x: real, x': real, m: real, q: real, q': real)
    requires Near(x', x) && m > 0.0 && q * m == x && q' * m == x'
    ensures Near(q', q)
  {
    var e := (q' - q) * TWO_53 as real;
    assert e * m == (x' - x) * TWO_53 as real;
    AtMostQuotient(e, m, (x' - x) * TWO_53 as real, q);
    AtLeastQuotient(e, m, (x' - x) * TWO_53 as real, -q);
  }

  /** y is x up to a few units in the last place. */
  predicate Close(y: real, x: real) {
    -3.0 * x <= (y - x) * TWO_53 as real <= 3.0 * x
  }

  lemma NearNear(x: real, x': real, y: real)
    requires x >= 0.0 && Near(x', x) && Near(y, x')
    ensures Close(y, x)
  {
  }

  /** Rounded to nearest, the quotient is the exact one up to a few units in the last of 53 places. */
  lemma {:induction false} RatioClose(fl: real -> real, sum: nat, n: nat)
    requires n > 0 && fl(n as real) == n as real && Near(fl(sum as real), sum as real)
    requires Near(Ratio(fl, sum, n), fl(sum as real) / n as real)
    ensures Close(Ratio(fl, sum, n), sum as real / n as real)
  {
    var m := n as real;
    var q, q' := sum as real / m, fl(sum as real) / m;
    assert q * m == sum as real && q' * m == fl(sum as real);
    NearQuotient(sum as real, fl(sum as real), m, q, q');
    AtLeastQuotient(q, m, sum as real, 0.0);
    NearNear(q, q', Ratio(fl, sum, n));
  }
}
