/** Facts about division with remainder that the solver does not find by itself. */
module Division {

  lemma {:induction false} ProductAtLeast(x: int, d: int)
    requires x >= 1 && d > 0
    ensures x * d >= d
  {
    if x > 1 {
      ProductAtLeast(x - 1, d);
      assert x * d == (x - 1) * d + d;
    }
  }

  lemma DivModIdentity(n: int, d: int)
    requires d > 0
    ensures n == n / d * d + n % d && 0 <= n % d < d
  {
  }

  lemma QuotientsEqual(d: int, q: int, r: int, p: int, t: int)
    requires d > 0 && 0 <= r < d && 0 <= t < d && q * d + r == p * d + t
    ensures p == q && r == t
  {
    assert (p - q) * d == p * d - q * d;
    assert (q - p) * d == q * d - p * d;
    if p > q {
      ProductAtLeast(p - q, d);
    } else if q > p {
      ProductAtLeast(q - p, d);
    }
  }

  /** Division with remainder has one answer. */
  lemma QuotientUnique(n: int, d: int, q: int, r: int)
    requires d > 0 && 0 <= r < d && n == q * d + r
    ensures n / d == q && n % d == r
  {
    DivModIdentity(n, d);
    QuotientsEqual(d, q, r, n / d, n % d);
  }

  lemma DivModStep(n: nat, d: nat)
    requires d > 0
    ensures n % d + 1 < d ==> (n + 1) / d == n / d && (n + 1) % d == n % d + 1
    ensures n % d + 1 == d ==> (n + 1) / d == n / d + 1 && (n + 1) % d == 0
  {
    var q, r := n / d, n % d;
    DivModIdentity(n, d);
    if r + 1 < d {
      QuotientUnique(n + 1, d, q, r + 1);
    } else {
      assert n + 1 == (q + 1) * d;
      QuotientUnique(n + 1, d, q + 1, 0);
    }
  }

  lemma DivShift(a: int, k: int, d: nat)
    requires d > 0
    ensures (a + k * d) / d == a / d + k && (a + k * d) % d == a % d
  {
    DivModIdentity(a, d);
    assert a + k * d == (a / d + k) * d + a % d;
    QuotientUnique(a + k * d, d, a / d + k, a % d);
  }

  lemma DivMonotone(a: int, b: int, d: nat)
    requires d > 0 && a <= b
    ensures a / d <= b / d
  {
    DivModIdentity(a, d);
    DivModIdentity(b, d);
    var q, t := a / d, b / d;
    assert (q - t) * d == q * d - t * d;
    if q > t {
      ProductAtLeast(q - t, d);
    }
  }

  /** Numbers less than d apart have different remainders. */
  lemma RemaindersDiffer(i: nat, j: nat, d: nat)
    requires i < j < i + d
    ensures i % d != j % d
  {
    DivModIdentity(i, d);
    DivModIdentity(j, d);
    var p, q := i / d, j / d;
    assert (q - p) * d == q * d - p * d && (p - q) * d == p * d - q * d;
    if q > p {
      ProductAtLeast(q - p, d);
    } else if p > q {
      ProductAtLeast(p - q, d);
    }
  }
}
