/** Division with remainder, and powers of two. */
module Arithmetic {

  lemma ProductAtLeast(d: int, n: nat)
    requires d >= 1
    ensures d * n >= n
  {
    assert d * n == (d - 1) * n + n;
  }

  /** Quotient and remainder are determined by the division equation. */
  lemma DivModUnique(q: nat, r: nat, n: nat)
    requires r < n
    ensures (q * n + r) / n == q && (q * n + r) % n == r
  {
    var x := q * n + r;
    var q', r' := x / n, x % n;
    assert x == q' * n + r';
    if q < q' {
      assert (q' - q) * n == q' * n - q * n;
      ProductAtLeast(q' - q, n);
    } else if q' < q {
      assert (q - q') * n == q * n - q' * n;
      ProductAtLeast(q - q', n);
    }
  }

  /** Counting up by one either moves the remainder or starts a new round. */
  lemma DivModNext(x: nat, n: nat)
    requires n > 0
    ensures x % n + 1 < n ==> (x + 1) / n == x / n && (x + 1) % n == x % n + 1
    ensures x % n + 1 == n ==> (x + 1) / n == x / n + 1 && (x + 1) % n == 0
  {
    var q, r := x / n, x % n;
    assert x == q * n + r;
    if r + 1 < n {
      DivModUnique(q, r + 1, n);
    } else {
      assert (q + 1) * n == q * n + n;
      DivModUnique(q + 1, 0, n);
    }
  }

  lemma Distribute(a: int, b: int, n: int)
    ensures (a + b) * n == a * n + b * n
  {
  }

  lemma Commute(a: int, b: int)
    ensures a * b == b * a
  {
  }

  lemma Associate(a: int, b: int, c: int)
    ensures a * b * c == a * (b * c)
  {
  }

  lemma NotNegative(a: nat, b: nat)
    ensures a * b >= 0
  {
  }

  lemma ProductMonotone(a: nat, b: nat, n: nat)
    requires a <= b
    ensures a * n <= b * n
  {
    Distribute(a, b - a, n);
  }

  /** Cutting cnt * n numbers into runs of n: number x is in run k iff k is its quotient. */
  lemma RunOf(x: nat, k: nat, cnt: nat, n: nat)
    requires k < cnt && n > 0
    ensures k * n <= x < k * n + n <==> x < cnt * n && k == x / n
  {
    if k * n <= x < k * n + n {
      DivModUnique(k, x - k * n, n);
      Distribute(k, 1, n);
      ProductMonotone(k + 1, cnt, n);
    }
    if k == x / n {
      DivisionEquation(x, n);
    }
  }

  /** The same for any integer: below zero there is no run. */
  lemma RunOfAny(x: int, k: nat, cnt: nat, n: nat)
    requires k < cnt && n > 0
    ensures k * n <= x < k * n + n <==> 0 <= x < cnt * n && k == x / n
  {
    NotNegative(k, n);
    if x >= 0 {
      RunOf(x, k, cnt, n);
    }
  }

  lemma DivisionEquation(x: nat, n: nat)
    requires n > 0
    ensures x / n * n <= x < x / n * n + n
  {
    assert x == x / n * n + x % n;
  }

  lemma QuotientBelow(x: nat, cnt: nat, n: nat)
    requires n > 0 && x < cnt * n
    ensures 0 <= x / n < cnt
  {
    DivisionEquation(x, n);
    if x / n >= cnt {
      ProductMonotone(cnt, x / n, n);
    }
  }

  function Pow2(n: nat): (r: nat)
    ensures r > n
  {
    if n == 0 then 1 else 2 * Pow2(n - 1)
  }

  lemma {:induction false} Pow2Monotone(a: nat, b: nat)
    requires a <= b
    ensures Pow2(a) <= Pow2(b)
    decreases b
  {
    if a < b {
      Pow2Monotone(a, b - 1);
    }
  }

  lemma {:induction false} Pow2Add(a: nat, b: nat)
    ensures Pow2(a + b) == Pow2(a) * Pow2(b)
  {
    if a > 0 {
      Pow2Add(a - 1, b);
      Distribute(Pow2(a - 1), Pow2(a - 1), Pow2(b));
      assert Pow2(a) == Pow2(a - 1) + Pow2(a - 1);
    }
  }
}
