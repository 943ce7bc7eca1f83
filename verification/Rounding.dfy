/**
 Decimal.quantize on scaled integers: the nearest multiple of the quantum, with
 the two tie rules the services use.
*/
module Rounding {

  /** The default rule: a tie goes to the even neighbour. */
  function HalfEven(n: int, q: int): int
    requires q > 0
  {
    var f, r := n / q, n % q;
    if 2 * r < q then f else if 2 * r > q then f + 1 else if f % 2 == 0 then f else f + 1
  }

  /** ROUND_HALF_UP: a tie goes away from zero. */
  function HalfUp(n: int, q: int): int
    requires q > 0
  {
    var f, r := n / q, n % q;
    if 2 * r < q then f else if 2 * r > q then f + 1 else if n >= 0 then f + 1 else f
  }

  /** `k` quanta is a nearest value to n / q. */
  predicate Nearest(k: int, n: int, q: int) {
    -q <= 2 * (q * k - n) <= q
  }

  /** The one nearest value, and the even one of two. */
  predicate IsHalfEven(k: int, n: int, q: int) {
    Nearest(k, n, q) && (2 * (q * k - n) == q || 2 * (q * k - n) == -q ==> k % 2 == 0)
  }

  /** The one nearest value, and of two the one that is further from zero. */
  predicate IsHalfUp(k: int, n: int, q: int) {
    && Nearest(k, n, q)
    && (2 * (q * k - n) == q ==> n >= 0)
    && (2 * (q * k - n) == -q ==> n <= 0)
  }

  lemma RoundsByItsRule(n: int, q: int)
    requires q > 0
    ensures IsHalfEven(HalfEven(n, q), n, q) && IsHalfUp(HalfUp(n, q), n, q)
  {
    FloorSplit(n, q);
  }

  /** Two nearest values are equal, or the two neighbours of a tie. */
  lemma NearestDiffer(k: int, m: int, n: int, q: int)
    requires q > 0 && Nearest(k, n, q) && Nearest(m, n, q) && k > m
    ensures k == m + 1 && 2 * (q * k - n) == q && 2 * (q * m - n) == -q
  {
    var d := k - m;
    assert q * k == q * m + q * d;
    assert q * d == q * (d - 1) + q;
    MulBounds(q, d - 1);
    assert d == 1;
  }

  /** The rule leaves no choice. */
  lemma HalfEvenIsTheOne(k: int, n: int, q: int)
    requires q > 0
    ensures k == HalfEven(n, q) <==> IsHalfEven(k, n, q)
  {
    RoundsByItsRule(n, q);
    var h := HalfEven(n, q);
    if IsHalfEven(k, n, q) && k > h {
      NearestDiffer(k, h, n, q);
    } else if IsHalfEven(k, n, q) && h > k {
      NearestDiffer(h, k, n, q);
    }
  }

  lemma HalfUpIsTheOne(k: int, n: int, q: int)
    requires q > 0
    ensures k == HalfUp(n, q) <==> IsHalfUp(k, n, q)
  {
    RoundsByItsRule(n, q);
    var h := HalfUp(n, q);
    if IsHalfUp(k, n, q) && k > h {
      NearestDiffer(k, h, n, q);
    } else if IsHalfUp(k, n, q) && h > k {
      NearestDiffer(h, k, n, q);
    }
  }

  lemma FloorSplit(n: int, q: int)
    requires q > 0
    ensures q * (n / q) + n % q == n && 0 <= n % q < q
    ensures q * (n / q + 1) == q * (n / q) + q
  {
  }

  lemma RoundsToNearest(n: int, q: int)
    requires q > 0
    ensures Nearest(HalfEven(n, q), n, q) && Nearest(HalfUp(n, q), n, q)
  {
    FloorSplit(n, q);
  }

  /** A value on the grid is not moved. */
  lemma RoundsExactly(k: int, q: int)
    requires q > 0
    ensures HalfEven(q * k, q) == k && HalfUp(q * k, q) == k
  {
    FloorSplit(q * k, q);
    SameQuotient(k, q * k / q, q * k % q, q);
  }

  lemma MulBounds(q: int, d: int)
    requires q > 0
    ensures d >= 1 ==> q * d >= q
    ensures d <= -1 ==> q * d <= -q
  {
  }

  lemma SameQuotient(k: int, f: int, r: int, q: int)
    requires q * k == q * f + r && 0 <= r < q
    ensures k == f && r == 0
  {
    assert q * (k - f) == r;
    MulBounds(q, k - f);
  }

  /** Rounding keeps a value between two grid values. */
  lemma HalfUpStaysBetween(n: int, q: int, lo: int, hi: int)
    requires q > 0 && q * lo <= n <= q * hi
    ensures lo <= HalfUp(n, q) <= hi
  {
    FloorSplit(n, q);
    var f := n / q;
    assert q * lo == q * f + q * (lo - f);
    assert q * f == q * hi + q * (f - hi);
    MulBounds(q, lo - f);
    MulBounds(q, f - hi);
  }

  /** What rounds away: at most half a quantum, the tie included because zero is even. */
  lemma HalfEvenIsZeroIff(n: int, q: int)
    requires q > 0
    ensures HalfEven(n, q) == 0 <==> -q <= 2 * n <= q
  {
    RoundsToNearest(n, q);
    FloorSplit(n, q);
    var f := n / q;
    MulBounds(q, f);
    MulBounds(q, f + 1);
    if f != 0 && f != -1 {
      assert f >= 1 || f + 1 <= -1;
    }
  }

  lemma HalfEvenNonNegative(n: int, q: int)
    requires q > 0 && n >= 0
    ensures HalfEven(n, q) >= 0
  {
  }
}
