/** Decimal numbers as a whole mantissa and a number of decimal places (negative places are trailing zeros). */
module Decimals {
  import opened Digits

  /** The mantissa at more places. */
  function Lift(m: int, places: int, more: int): int
    requires places <= more
  {
    m * Pow10(more - places)
  }

  function Max(a: int, b: int): int {
    if a <= b then b else a
  }

  /** Both denote one number: m / 10^p == n / 10^q. */
  predicate SameNumber(m: int, p: int, n: int, q: int) {
    Lift(m, p, Max(p, q)) == Lift(n, q, Max(p, q))
  }

  lemma LiftMore(m: int, p: int, k: int, l: int)
    requires p <= k <= l
    ensures Lift(m, p, l) == Lift(m, p, k) * Pow10(l - k)
  {
    Pow10Sum(k - p, l - k);
    Associate(m, Pow10(k - p), Pow10(l - k));
  }

  lemma Associate(a: int, b: int, c: int)
    ensures a * (b * c) == a * b * c
  {
  }

  lemma Cancel(a: int, b: int, p: int)
    requires p > 0 && a * p == b * p
    ensures a == b
  {
    assert (a - b) * p == 0;
  }

  /** Any common number of places decides. */
  lemma SameAtAny(m: int, p: int, n: int, q: int, k: int)
    requires p <= k && q <= k
    ensures SameNumber(m, p, n, q) <==> Lift(m, p, k) == Lift(n, q, k)
  {
    var h := Max(p, q);
    LiftMore(m, p, h, k);
    LiftMore(n, q, h, k);
    if Lift(m, p, k) == Lift(n, q, k) {
      Cancel(Lift(m, p, h), Lift(n, q, h), Pow10(k - h));
    }
  }

  lemma SameTransitive(m: int, p: int, n: int, q: int, o: int, r: int)
    requires SameNumber(m, p, n, q) && SameNumber(n, q, o, r)
    ensures SameNumber(m, p, o, r)
  {
    var k := Max(Max(p, q), r);
    SameAtAny(m, p, n, q, k);
    SameAtAny(n, q, o, r, k);
    SameAtAny(m, p, o, r, k);
  }

  lemma SameSymmetric(m: int, p: int, n: int, q: int)
    requires SameNumber(m, p, n, q)
    ensures SameNumber(n, q, m, p)
  {
  }

  /** Zeros at the end change only the places. */
  lemma TrailingZeros(m: int, p: int, k: nat)
    ensures SameNumber(m * Pow10(k), p + k, m, p) && SameNumber(m, p, m * Pow10(k), p + k)
  {
  }

  /** Numbers of one mantissa sign: the sign factors out. */
  lemma SameNegated(m: int, p: int, n: int, q: int)
    requires SameNumber(m, p, n, q)
    ensures SameNumber(-m, p, -n, q)
  {
    var a, b := Pow10(Max(p, q) - p), Pow10(Max(p, q) - q);
    assert (-m) * a == -(m * a) && (-n) * b == -(n * b);
  }
}
