/** Subsequences: what is left of a list when some of its elements are dropped. */
module Subsequences {

  predicate Sub<T(==)>(a: seq<T>, b: seq<T>)
    decreases |b|
  {
    |a| == 0
    || (|b| > 0 && ((a[|a| - 1] == b[|b| - 1] && Sub(a[..|a| - 1], b[..|b| - 1])) || Sub(a, b[..|b| - 1])))
  }

  lemma {:induction false} SubSelf<T>(a: seq<T>)
    ensures Sub(a, a)
  {
    if |a| > 0 {
      SubSelf(a[..|a| - 1]);
    }
  }

  lemma SubBoth<T>(a: seq<T>, b: seq<T>, x: T)
    requires Sub(a, b)
    ensures Sub(a + [x], b + [x])
  {
    assert (a + [x])[..|a|] == a && (b + [x])[..|b|] == b;
  }

  lemma SubSkip<T>(a: seq<T>, b: seq<T>, x: T)
    requires Sub(a, b)
    ensures Sub(a, b + [x])
  {
    assert (b + [x])[..|b|] == b;
  }

  lemma {:induction false} SubAll<T>(a: seq<T>, b: seq<T>, c: seq<T>)
    requires Sub(a, b)
    ensures Sub(a + c, b + c)
  {
    if |c| == 0 {
      assert a + c == a && b + c == b;
    } else {
      var init, last := c[..|c| - 1], c[|c| - 1];
      SubAll(a, b, init);
      SubBoth(a + init, b + init, last);
      assert a + c == a + init + [last] && b + c == b + init + [last];
    }
  }

  lemma {:induction false} SubMore<T>(a: seq<T>, b: seq<T>, c: seq<T>)
    requires Sub(a, b)
    ensures Sub(a, b + c)
  {
    if |c| == 0 {
      assert b + c == b;
    } else {
      var init, last := c[..|c| - 1], c[|c| - 1];
      SubMore(a, b, init);
      SubSkip(a, b + init, last);
      assert b + c == b + init + [last];
    }
  }

  /** Leaving out a stretch in the middle. */
  lemma SubWithout<T>(a: seq<T>, b: seq<T>, c: seq<T>)
    ensures Sub(a + c, a + b + c)
  {
    SubSelf(a);
    SubMore(a, a, b);
    SubAll(a, a + b, c);
  }

  lemma {:induction false} SubTransitive<T>(a: seq<T>, b: seq<T>, c: seq<T>)
    requires Sub(a, b) && Sub(b, c)
    ensures Sub(a, c)
    decreases |b| + |c|
  {
    if |a| > 0 {
      var b0, c0 := b[..|b| - 1], c[..|c| - 1];
      if b[|b| - 1] == c[|c| - 1] && Sub(b0, c0) {
        if a[|a| - 1] == b[|b| - 1] && Sub(a[..|a| - 1], b0) {
          SubTransitive(a[..|a| - 1], b0, c0);
        } else {
          SubTransitive(a, b0, c0);
        }
      } else {
        SubTransitive(a, b, c0);
      }
    }
  }
}
