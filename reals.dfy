/** Sums, minima and maxima over sequences of reals (the model's stand-in for float columns). */
module Reals {

  function Abs(x: real): (r: real)
    ensures r >= 0.0 && (r == x || r == -x)
  {
    if x < 0.0 then -x else x
  }

  function Max(x: real, y: real): (r: real)
    ensures r >= x && r >= y && (r == x || r == y)
  {
    if x >= y then x else y
  }

  /** x * y, as a term of its own: a weight times an inverse distance, or an outcome times a weight. */
  function Product(x: real, y: real): real
  {
    x * y
  }

  lemma ProductAdd(x: real, a: real, b: real)
    ensures Product(x, a) + Product(x, b) == Product(x, a + b)
  {
  }

  lemma ProductNonNegative(x: real, y: real)
    requires x >= 0.0 && y >= 0.0
    ensures Product(x, y) >= 0.0
  {
  }

  /** Every entry of s multiplied by y. */
  function Scaled(y: real, s: seq<real>): (r: seq<real>)
    ensures |r| == |s| && forall k :: 0 <= k < |s| ==> r[k] == Product(y, s[k])
  {
    seq(|s|, k requires 0 <= k < |s| => Product(y, s[k]))
  }

  lemma ScaledAppend(y: real, a: seq<real>, b: seq<real>)
    ensures Scaled(y, a + b) == Scaled(y, a) + Scaled(y, b)
  {
  }

  /** Scaling commutes with summing. */
  lemma {:induction false} SumScaled(y: real, s: seq<real>)
    ensures Sum(Scaled(y, s)) == Product(y, Sum(s))
  {
    if s != [] {
      var n := |s| - 1;
      assert Scaled(y, s)[..n] == Scaled(y, s[..n]);
      SumScaled(y, s[..n]);
      ProductAdd(y, Sum(s[..n]), s[n]);
    }
  }

  /** Sum of a column, accumulated left to right. */
  function Sum(s: seq<real>): real
  {
    if s == [] then 0.0 else Sum(s[..|s| - 1]) + s[|s| - 1]
  }

  lemma {:induction false} SumAppend(a: seq<real>, b: seq<real>)
    ensures Sum(a + b) == Sum(a) + Sum(b)
  {
    if b == [] {
      assert a + b == a;
    } else {
      assert (a + b)[..|a + b| - 1] == a + b[..|b| - 1];
      SumAppend(a, b[..|b| - 1]);
    }
  }

  lemma {:induction false} SumNonNegative(s: seq<real>)
    requires forall k :: 0 <= k < |s| ==> s[k] >= 0.0
    ensures Sum(s) >= 0.0
  {
    if s != [] {
      SumNonNegative(s[..|s| - 1]);
    }
  }

  /** Every term lies in [lo, hi], so the sum lies in [lo * n, hi * n]. */
  lemma {:induction false} SumBetween(s: seq<real>, lo: real, hi: real)
    requires forall k :: 0 <= k < |s| ==> lo <= s[k] <= hi
    ensures lo * |s| as real <= Sum(s) <= hi * |s| as real
  {
    if s != [] {
      SumBetween(s[..|s| - 1], lo, hi);
      assert lo * |s| as real == lo * (|s| - 1) as real + lo;
      assert hi * |s| as real == hi * (|s| - 1) as real + hi;
    }
  }

  /**
   * x added n times, that is x * n; counting arguments use it instead of a
   * product so that they stay within linear arithmetic.
   */
  function Times(x: real, n: nat): real
  {
    if n == 0 then 0.0 else Times(x, n - 1) + x
  }

  lemma {:induction false} TimesIsProduct(x: real, n: nat)
    ensures Times(x, n) == x * n as real
  {
    if n > 0 {
      TimesIsProduct(x, n - 1);
      assert x * n as real == x * (n - 1) as real + x;
    }
  }

  lemma {:induction false} TimesZero(n: nat)
    ensures Times(0.0, n) == 0.0
  {
    if n > 0 {
      TimesZero(n - 1);
    }
  }

  lemma {:induction false} TimesAdd(x: real, a: nat, b: nat, c: nat)
    requires c == a + b
    ensures Times(x, a) + Times(x, b) == Times(x, c)
  {
    if b > 0 {
      TimesAdd(x, a, b - 1, c - 1);
    }
  }

  /** Times is monotone in the value added. */
  lemma {:induction false} TimesMonotone(x: real, y: real, n: nat)
    requires x <= y
    ensures Times(x, n) <= Times(y, n)
  {
    if n > 0 {
      TimesMonotone(x, y, n - 1);
    }
  }

  lemma DivSelf(c: real)
    requires c != 0.0
    ensures c / c == 1.0
  {
  }

  /** A fraction of a positive whole lies in [0, 1]. */
  lemma DivBounds(t: real, n: real)
    requires 0.0 <= t <= n && n > 0.0
    ensures 0.0 <= t / n <= 1.0
  {
  }

  /** A sum between lo * n and hi * n gives a mean between lo and hi. */
  lemma QuotientBetween(x: real, n: real, lo: real, hi: real)
    requires n > 0.0 && lo * n <= x <= hi * n
    ensures lo <= x / n <= hi
  {
    assert x / n * n == x;
  }

  /** The average of terms in [lo, hi] lies in [lo, hi]. */
  lemma AverageBetween(s: seq<real>, lo: real, hi: real)
    requires s != [] && forall k :: 0 <= k < |s| ==> lo <= s[k] <= hi
    ensures lo <= Sum(s) / |s| as real <= hi
  {
    SumBetween(s, lo, hi);
    QuotientBetween(Sum(s), |s| as real, lo, hi);
  }

  /** n copies of x. */
  function Repeat(x: real, n: nat): (r: seq<real>)
    ensures |r| == n && forall k :: 0 <= k < n ==> r[k] == x
  {
    seq(n, _ => x)
  }

  lemma {:induction false} SumRepeat(x: real, n: nat)
    ensures Sum(Repeat(x, n)) == n as real * x
  {
    if n > 0 {
      assert Repeat(x, n)[..n - 1] == Repeat(x, n - 1);
      SumRepeat(x, n - 1);
    }
  }

  /** Smallest element of a non-empty column (pandas' `min()`). */
  function MinOf(s: seq<real>): (r: real)
    requires |s| > 0
    ensures (forall k :: 0 <= k < |s| ==> r <= s[k]) && exists k :: 0 <= k < |s| && r == s[k]
  {
    if |s| == 1 then s[0]
    else
      var m := MinOf(s[..|s| - 1]);
      if s[|s| - 1] < m then s[|s| - 1] else m
  }

  /** Largest element of a non-empty column (pandas' `max()`). */
  function MaxOf(s: seq<real>): (r: real)
    requires |s| > 0
    ensures (forall k :: 0 <= k < |s| ==> s[k] <= r) && exists k :: 0 <= k < |s| && r == s[k]
  {
    if |s| == 1 then s[0]
    else
      var m := MaxOf(s[..|s| - 1]);
      if s[|s| - 1] > m then s[|s| - 1] else m
  }

  lemma SumSnoc(s: seq<real>, x: real)
    ensures Sum(s + [x]) == Sum(s) + x
  {
    assert (s + [x])[..|s|] == s;
  }

  /** One more term in [lo, hi] keeps a sum of k terms between Times(lo, k) and Times(hi, k). */
  lemma SnocBetween(s: seq<real>, x: real, lo: real, hi: real, k: nat)
    requires Times(lo, k) <= Sum(s) <= Times(hi, k) && lo <= x <= hi
    ensures Times(lo, k + 1) <= Sum(s + [x]) <= Times(hi, k + 1)
  {
    SumSnoc(s, x);
  }

  /** A sum of non-negative terms is at least each of its terms. */
  lemma {:induction false} SumAtLeast(s: seq<real>, x: real)
    requires forall k :: 0 <= k < |s| ==> s[k] >= 0.0
    requires x in s
    ensures Sum(s) >= x
  {
    var n := |s| - 1;
    SumNonNegative(s[..n]);
    if s[n] != x {
      assert x in s[..n];
      SumAtLeast(s[..n], x);
    }
  }
}
