/** Fixed-point decimal arithmetic for fares.

    Every amount is an integer count of a fixed fraction of the currency unit:
    a base price is in cents (DecimalField with 2 places), a fare multiplier in
    hundredths (DecimalField with 2 places), and their product, which Python's
    Decimal keeps exactly, in units of 10^-4. A value whose scale varies
    (the discount factor built from a string) is a `Decimal` pair. */
module Money {

  function Abs(x: int): (r: nat)
    ensures r == x || r == -x
  {
    if x < 0 then -x else x
  }

  function Pow10(k: nat): (r: nat)
    ensures r >= 1
  {
    if k == 0 then 1 else 10 * Pow10(k - 1)
  }

  lemma {:induction false} Pow10Grows(j: nat, k: nat)
    requires j < k
    ensures 10 * Pow10(j) <= Pow10(k)
  {
    if j + 1 < k {
      Pow10Grows(j, k - 1);
    }
  }

  /** The number of characters of `str(d)` for a positive integer `d`. */
  function Digits(d: nat): (k: nat)
    requires d > 0
    ensures k >= 1
    ensures Pow10(k - 1) <= d < Pow10(k)
  {
    if d < 10 then 1 else 1 + Digits(d / 10)
  }

  /** An exact decimal value units / 10^scale, as Python's Decimal holds it. */
  datatype Decimal = Decimal(units: int, scale: nat)

  /** Two decimals denote the same number (Decimal's `==`). */
  predicate SameValue(a: Decimal, b: Decimal)
  {
    a.units * Pow10(b.scale) == b.units * Pow10(a.scale)
  }

  /** Rounds the non-negative quotient n / m to an integer, ties to even. */
  /** q * m is a multiple of m nearest to n, and q is even on a tie. */
  predicate NearestEven(n: int, m: nat, q: int)
  {
    2 * Abs(n - q * m) <= m && (2 * Abs(n - q * m) == m ==> q % 2 == 0)
  }

  function RoundHalfEvenNat(n: nat, m: nat): (q: nat)
    requires m > 0
    ensures NearestEven(n, m, q)
  {
    var q := if 2 * (n % m) < m || (2 * (n % m) == m && (n / m) % 2 == 0) then n / m else n / m + 1;
    RoundedNatIsNearest(n, m, q);
    q
  }

  lemma RoundedNatIsNearest(n: nat, m: nat, q: int)
    requires m > 0
    requires q == if 2 * (n % m) < m || (2 * (n % m) == m && (n / m) % 2 == 0) then n / m else n / m + 1
    ensures NearestEven(n, m, q)
  {
    DivisionRemainders(n, m);
    var r := n % m;
    if q == n / m {
      assert n - q * m == r;
    } else {
      assert n - q * m == r - m;
    }
  }

  /** The distances from n to the multiples of m just below and just above. */
  lemma DivisionRemainders(n: nat, m: nat)
    requires m > 0
    ensures 0 <= n % m < m
    ensures n - (n / m) * m == n % m
    ensures n - (n / m + 1) * m == n % m - m
  {
    assert (n / m + 1) * m == (n / m) * m + m;
  }

  /** `Decimal.quantize` of n / m to an integer step under the default context
      (ROUND_HALF_EVEN): the nearest integer, and the even one on a tie.
      Half-even is symmetric, so a negative quotient rounds like its magnitude. */
  function RoundHalfEven(n: int, m: nat): (q: int)
    requires m > 0
    ensures NearestEven(n, m, q)
  {
    if n >= 0 then RoundHalfEvenNat(n, m)
    else
      var q': int := RoundHalfEvenNat(-n, m);
      NearestEvenNegated(n, m, q');
      -q'
  }

  /** Half-even rounding is symmetric about zero. */
  lemma NearestEvenNegated(n: int, m: nat, q: int)
    requires NearestEven(-n, m, q)
    ensures NearestEven(n, m, -q)
  {
    assert n - (-q) * m == -((-n) - q * m);
  }

  /** The two properties in RoundHalfEven's contract pick exactly one integer. */
  lemma {:induction false} RoundHalfEvenUnique(n: int, m: nat, q: int)
    requires m > 0
    requires 2 * Abs(n - q * m) <= m
    requires 2 * Abs(n - q * m) == m ==> q % 2 == 0
    ensures q == RoundHalfEven(n, m)
  {
    var p := RoundHalfEven(n, m);
    ClosestMultipleUnique(n, m, q, p);
  }

  lemma ClosestMultipleUnique(n: int, m: nat, q: int, p: int)
    requires m > 0
    requires 2 * Abs(n - q * m) <= m
    requires 2 * Abs(n - q * m) == m ==> q % 2 == 0
    requires 2 * Abs(n - p * m) <= m
    requires 2 * Abs(n - p * m) == m ==> p % 2 == 0
    ensures q == p
  {
    var x, y := q * m, p * m;
    NearbyPoints(n, x, y, m);
    var d := q - p;
    assert x - y == d * m by {
      assert q * m - p * m == (q - p) * m;
    }
    if d >= 2 {
      MulAtLeastTwice(d, m);
    } else if d <= -2 {
      MulAtMostMinusTwice(d, m);
    } else if d != 0 {
      ParityClash(q, p);
    }
  }

  /** Two points each within m/2 of n are at most m apart, and exactly m apart
      only when both sit at distance m/2. */
  lemma NearbyPoints(n: int, x: int, y: int, m: nat)
    requires 2 * Abs(n - x) <= m && 2 * Abs(n - y) <= m
    ensures Abs(x - y) <= m
    ensures Abs(x - y) == m ==> 2 * Abs(n - x) == m && 2 * Abs(n - y) == m
  {
  }

  lemma MulAtMostMinusTwice(d: int, m: nat)
    requires d <= -2
    ensures d * m <= -2 * m
  {
    assert d * m + 2 * m == (d + 2) * m;
  }

  lemma ParityClash(q: int, p: int)
    requires q - p == 1 || q - p == -1
    ensures !(q % 2 == 0 && p % 2 == 0)
  {
  }

  lemma MulAtLeastTwice(d: int, m: nat)
    requires d >= 2
    ensures d * m >= 2 * m
  {
    assert d * m - 2 * m == (d - 2) * m;
  }

  /** An exact quotient is left as it is. */
  lemma {:induction false} RoundHalfEvenExact(n: int, m: nat, q: int)
    requires m > 0 && n == q * m
    ensures RoundHalfEven(n, m) == q
  {
    RoundHalfEvenUnique(n, m, q);
  }
}
