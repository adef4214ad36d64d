/** Counter arithmetic of the upstream ring (internal/client/upstream_ring.go): 64-bit counters that
    wrap, a power-of-two capacity, and slot choice by masking. */
module RingWords {
  import opened Division

  const WORD: nat := 0x1_0000_0000_0000_0000

  type U64 = x: int | 0 <= x < WORD

  function Pow2(k: nat): (p: nat)
    ensures p >= 1
  {
    if k == 0 then 1 else 2 * Pow2(k - 1)
  }

  /** Bitwise and, bit by bit. */
  function BitAnd(x: nat, y: nat): nat {
    if x == 0 || y == 0 then 0
    else 2 * BitAnd(x / 2, y / 2) + (if x % 2 == 1 && y % 2 == 1 then 1 else 0)
  }

  lemma BitAndStep(x: nat, m: nat)
    requires m > 0
    ensures BitAnd(x, 2 * m - 1) == 2 * BitAnd(x / 2, m - 1) + x % 2
  {
    assert (2 * m - 1) / 2 == m - 1 && (2 * m - 1) % 2 == 1;
  }

  /** Masking with 2^k - 1 is the remainder modulo 2^k. */
  lemma {:induction false} MaskIsRemainder(x: nat, k: nat)
    ensures BitAnd(x, Pow2(k) - 1) == x % Pow2(k)
    decreases k
  {
    hide BitAnd;
    if k == 0 {
      NoBits(x);
    } else {
      var m := Pow2(k - 1);
      BitAndStep(x, m);
      MaskIsRemainder(x / 2, k - 1);
      HalfRemainder(x, m);
    }
  }

  lemma NoBits(x: nat)
    ensures BitAnd(x, 0) == 0 == x % 1
  {
  }

  lemma HalfRemainder(x: nat, m: nat)
    requires m > 0
    ensures x % (2 * m) == 2 * (x / 2 % m) + x % 2
  {
    var h := x / 2;
    DivModIdentity(h, m);
    assert 2 * (h / m * m) == h / m * (2 * m);
    QuotientUnique(x, 2 * m, h / m, 2 * (h % m) + x % 2);
  }

  lemma {:induction false} Pow2Sum(j: nat, k: nat)
    ensures Pow2(j + k) == Pow2(j) * Pow2(k)
  {
    if j > 0 {
      Pow2Sum(j - 1, k);
      assert 2 * (Pow2(j - 1) * Pow2(k)) == (2 * Pow2(j - 1)) * Pow2(k);
    } else {
      assert 1 * Pow2(k) == Pow2(k);
    }
  }

  lemma WordIsPow2()
    ensures Pow2(64) == WORD
  {
    assert Pow2(8) == 0x100;
    Pow2Sum(8, 8);
    Pow2Sum(16, 16);
    Pow2Sum(32, 32);
  }

  /** The wrapped counter picks the slot the unbounded counter would. */
  lemma SlotOfWrapped(x: nat, k: nat)
    requires k <= 63
    ensures BitAnd(x % WORD, Pow2(k) - 1) == x % Pow2(k)
  {
    hide BitAnd, Pow2;
    MaskIsRemainder(x % WORD, k);
    WordIsPow2();
    Pow2Sum(64 - k, k);
    DivModIdentity(x, WORD);
    ReassociateWord(x / WORD, Pow2(64 - k), Pow2(k));
    DivShift(x % WORD, x / WORD * Pow2(64 - k), Pow2(k));
  }

  lemma ReassociateWord(q: nat, a: nat, b: nat)
    requires a * b == WORD
    ensures q * WORD == q * a * b
  {
  }

  /** Subtracting wrapped counters gives the true distance while that fits a word. */
  lemma DistanceOfWrapped(t: nat, f: nat)
    requires f <= t < f + WORD
    ensures (t % WORD - f % WORD) % WORD == t - f
  {
    DivModIdentity(t, WORD);
    DivModIdentity(f, WORD);
    QuotientUnique(t % WORD - f % WORD, WORD, f / WORD - t / WORD, t - f);
  }

  lemma EqualWhenWrapped(r: nat, t: nat)
    requires r <= t < r + WORD
    ensures r % WORD == t % WORD <==> r == t
  {
    DistanceOfWrapped(t, r);
  }

  lemma IncrementWrapped(x: nat)
    ensures (x % WORD + 1) % WORD == (x + 1) % WORD
  {
    DivModIdentity(x, WORD);
    DivShift(x % WORD + 1, x / WORD, WORD);
  }

  ghost predicate IsPowerOfTwo(c: nat) {
    exists k: nat :: k <= 62 && c == Pow2(k)
  }

  lemma {:induction false} Pow2Monotone(j: nat, k: nat)
    requires j <= k
    ensures Pow2(j) <= Pow2(k)
  {
    if j < k {
      Pow2Monotone(j, k - 1);
    }
  }

  lemma Pow2Of62()
    ensures Pow2(62) == 0x4000_0000_0000_0000
  {
    WordIsPow2();
    Pow2Sum(2, 62);
    assert Pow2(2) == 4;
  }

  /** nextPowerOfTwo: the least power of two that is at least n, for the n for which the source's loop ends
      (LoopEndsExactly). */
  method NextPowerOfTwo(n: int) returns (p: nat)
    requires n <= 0x4000_0000_0000_0000
    ensures IsPowerOfTwo(p) && n <= p
    ensures forall j: nat :: n <= Pow2(j) ==> p <= Pow2(j)
  {
    p := 1;
    ghost var k: nat := 0;
    Pow2Of62();
    while p < n
      invariant k <= 62 && p == Pow2(k)
      decreases 62 - k
      invariant forall j: nat :: j < k ==> Pow2(j) < n
    {
      p := p * 2;
      k := k + 1;
    }
    forall j: nat | n <= Pow2(j) ensures p <= Pow2(j) {
      Pow2Monotone(k, if j < k then k else j);
    }
  }

  // Beyond 2^62.

  /** What a Go int of 64 bits makes of x. */
  function Int64(x: int): int {
    (x + 0x8000_0000_0000_0000) % WORD - 0x8000_0000_0000_0000
  }

  /** The loop's variable after k rounds, as the code computes it. */
  function Doubled(k: nat): int {
    if k == 0 then 1 else Int64(2 * Doubled(k - 1))
  }

  lemma {:induction false} DoubledIs(k: nat)
    ensures Doubled(k) == if k <= 62 then Pow2(k) else if k == 63 then -0x8000_0000_0000_0000 else 0
  {
    hide Pow2, Int64;
    if k == 0 {
      assert Pow2(0) == 1 by { Pow2Start(); }
    } else {
      DoubledIs(k - 1);
      Pow2Of62();
      Pow2Next(k - 1);
      if k <= 62 {
        Pow2Monotone(k, 62);
        Int64Same(Pow2(k));
      } else {
        Int64Wraps();
      }
    }
  }

  lemma Int64Same(x: int)
    requires 0 <= x < 0x8000_0000_0000_0000
    ensures Int64(x) == x
  {
  }

  lemma Int64Wraps()
    ensures Int64(0x8000_0000_0000_0000) == -0x8000_0000_0000_0000
    ensures Int64(2 * -0x8000_0000_0000_0000) == 0 && Int64(2 * 0) == 0
  {
  }

  lemma Pow2Start()
    ensures Pow2(0) == 1
  {
  }

  lemma Pow2Next(k: nat)
    ensures Pow2(k + 1) == 2 * Pow2(k)
  {
  }

  /** The source's loop ends exactly for arguments up to 2^62: above, the doubling passes through the least
      negative number to 0 and stays there. */
  lemma LoopEndsExactly(n: int)
    ensures (exists k: nat :: Doubled(k) >= n) <==> n <= 0x4000_0000_0000_0000
  {
    hide Doubled, Pow2;
    Pow2Of62();
    DoubledIs(62);
    forall k: nat ensures Doubled(k) <= 0x4000_0000_0000_0000 {
      DoubledIs(k);
      if k <= 62 {
        Pow2Monotone(k, 62);
      }
    }
  }
}
