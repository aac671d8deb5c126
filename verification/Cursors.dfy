/** Ring cursors: counts modulo a capacity. */
module Cursors {

  lemma {:induction false} Gap(a: nat, b: nat, cap: nat)
    requires a < b
    ensures a * cap + cap <= b * cap
  {
    assert b * cap - a * cap == (b - a) * cap;
    assert (b - a - 1) * cap >= 0;
  }

  lemma {:induction false} QuotientUnique(q: nat, m: nat, q': nat, m': nat, cap: nat)
    requires m < cap && m' < cap && q * cap + m == q' * cap + m'
    ensures q == q' && m == m'
  {
    if q < q' {
      Gap(q, q', cap);
    } else if q' < q {
      Gap(q', q, cap);
    }
  }

  lemma {:induction false} ModOf(x: nat, q: nat, m: nat, cap: nat)
    requires m < cap && x == q * cap + m
    ensures x % cap == m
  {
    assert x == (x / cap) * cap + x % cap;
    QuotientUnique(q, m, x / cap, x % cap, cap);
  }

  lemma {:induction false} ModNext(a: nat, cap: nat)
    requires cap > 0
    ensures (a % cap + 1) % cap == (a + 1) % cap
  {
    var q, m := a / cap, a % cap;
    assert a == q * cap + m;
    if m + 1 == cap {
      assert a + 1 == (q + 1) * cap;
      ModOf(a + 1, q + 1, 0, cap);
      ModOf(cap, 1, 0, cap);
    } else {
      ModOf(a + 1, q, m + 1, cap);
      ModOf(m + 1, 0, m + 1, cap);
    }
  }

  lemma {:induction false} ModRing(a: nat, cap: nat)
    requires cap > 0
    ensures (a + cap) % cap == a % cap
  {
    var q, m := a / cap, a % cap;
    assert a == q * cap + m;
    assert a + cap == (q + 1) * cap + m;
    ModOf(a + cap, q + 1, m, cap);
  }

  /** Numbers with one remainder differ by at least the divisor. */
  lemma {:induction false} QuotientsApart(q: nat, q': nat, m: nat, cap: nat)
    ensures !(q * cap + m < q' * cap + m < q * cap + m + cap)
  {
    if q < q' {
      Gap(q, q', cap);
    } else if q' < q {
      Gap(q', q, cap);
    }
  }

  /** Counts less than a ring apart fall on different slots. */
  lemma {:induction false} SlotApart(k: nat, l: nat, cap: nat)
    requires k < l < k + cap
    ensures k % cap != l % cap
  {
    if k % cap == l % cap {
      QuotientsApart(k / cap, l / cap, k % cap, cap);
    }
  }

  /** Counts at most a ring apart share a slot exactly when they are equal or a full ring apart. */
  lemma {:induction false} SameSlot(a: nat, b: nat, cap: nat)
    requires b <= a <= b + cap && cap > 0
    ensures a % cap == b % cap <==> a == b || a == b + cap
  {
    if b < a < b + cap {
      SlotApart(b, a, cap);
    } else if a == b + cap {
      ModRing(b, cap);
    }
  }
}
