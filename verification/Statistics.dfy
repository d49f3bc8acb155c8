/** Sums, mean and variance of a load over a cluster, as real arithmetic. */
module Statistics {

  function SumBy<T>(f: T -> real, xs: seq<T>): real {
    if xs == [] then 0.0 else SumBy(f, xs[..|xs| - 1]) + f(xs[|xs| - 1])
  }

  function Mean<T>(f: T -> real, xs: seq<T>): real
    requires xs != []
  {
    SumBy(f, xs) / |xs| as real
  }

  function SquaredDistance<T>(f: T -> real, center: real): T -> real {
    x => (f(x) - center) * (f(x) - center)
  }

  function Variance<T>(f: T -> real, xs: seq<T>): real
    requires xs != []
  {
    SumBy(SquaredDistance(f, Mean(f, xs)), xs) / |xs| as real
  }

  lemma {:induction false} SumConcat<T>(f: T -> real, a: seq<T>, b: seq<T>)
    ensures SumBy(f, a + b) == SumBy(f, a) + SumBy(f, b)
    decreases |b|
  {
    if b == [] {
      assert a + b == a;
    } else {
      SumConcat(f, a, b[..|b| - 1]);
      assert (a + b)[..|a + b| - 1] == a + b[..|b| - 1];
    }
  }

  lemma RemoveOne<T>(f: T -> real, b: seq<T>, k: nat)
    requires k < |b|
    ensures var rest := b[..k] + b[k + 1..];
            multiset(rest) == multiset(b) - multiset{b[k]} && SumBy(f, b) == SumBy(f, rest) + f(b[k])
  {
    var prefix, suffix := b[..k], b[k + 1..];
    assert b[..k + 1][..k] == prefix;
    SumConcat(f, b[..k + 1], suffix);
    SumConcat(f, prefix, suffix);
    assert b == b[..k + 1] + suffix && b[..k + 1] == prefix + [b[k]];
    assert multiset(b) == multiset(prefix) + multiset{b[k]} + multiset(suffix);
  }

  /** Sums do not depend on the order in which a map is visited. */
  lemma {:induction false} SumOfPermutation<T>(f: T -> real, a: seq<T>, b: seq<T>)
    requires multiset(a) == multiset(b)
    ensures SumBy(f, a) == SumBy(f, b)
    decreases |a|
  {
    assert |a| == |multiset(a)| == |multiset(b)| == |b|;
    if a != [] {
      var n := |a| - 1;
      assert a[n] in multiset(b);
      var k :| 0 <= k < |b| && b[k] == a[n];
      RemoveOne(f, a, n);
      RemoveOne(f, b, k);
      assert a[..n] + a[n + 1..] == a[..n];
      SumOfPermutation(f, a[..n], b[..k] + b[k + 1..]);
    }
  }

  lemma VarianceOfPermutation<T>(f: T -> real, a: seq<T>, b: seq<T>)
    requires a != [] && multiset(a) == multiset(b)
    ensures b != [] && Mean(f, a) == Mean(f, b) && Variance(f, a) == Variance(f, b)
  {
    assert |a| == |multiset(a)| == |multiset(b)| == |b|;
    SumOfPermutation(f, a, b);
    SumOfPermutation(SquaredDistance(f, Mean(f, a)), a, b);
  }

  /** c added up n times; linear where c * n is not. */
  function Repeated(c: real, n: nat): real {
    if n == 0 then 0.0 else Repeated(c, n - 1) + c
  }

  lemma {:induction false} RepeatedIsProduct(c: real, n: nat)
    ensures Repeated(c, n) == c * n as real
  {
    if n > 0 {
      RepeatedIsProduct(c, n - 1);
      var r := (n - 1) as real;
      assert n as real == r + 1.0;
      assert c * (r + 1.0) == c * r + c;
    }
  }

  /** A sum is determined by its parts. */
  lemma SumOfOne<T>(f: T -> real, x: T)
    ensures SumBy(f, []) == 0.0 && SumBy(f, [x]) == f(x)
  {
    assert [x][..0] == [];
  }

  lemma MeanTimesCount<T>(f: T -> real, xs: seq<T>)
    requires xs != []
    ensures Mean(f, xs) * |xs| as real == SumBy(f, xs)
  {
  }

  lemma {:induction false} SumWithinBounds<T>(f: T -> real, xs: seq<T>, lo: real, hi: real)
    requires forall x :: x in xs ==> lo <= f(x) <= hi
    ensures Repeated(lo, |xs|) <= SumBy(f, xs) <= Repeated(hi, |xs|)
  {
    if xs != [] {
      assert xs[|xs| - 1] in xs;
      SumWithinBounds(f, xs[..|xs| - 1], lo, hi);
    }
  }

  lemma MeanWithinBounds<T>(f: T -> real, xs: seq<T>, lo: real, hi: real)
    requires xs != [] && forall x :: x in xs ==> lo <= f(x) <= hi
    ensures lo <= Mean(f, xs) <= hi
  {
    SumWithinBounds(f, xs, lo, hi);
    RepeatedIsProduct(lo, |xs|);
    RepeatedIsProduct(hi, |xs|);
    DivideBound(SumBy(f, xs), |xs| as real, lo, hi);
  }

  lemma DivideBound(s: real, n: real, lo: real, hi: real)
    requires n >= 1.0 && lo * n <= s <= hi * n
    ensures lo <= s / n <= hi
  {
    var q := s / n;
    assert q * n == s;
    if q < lo {
      ScaleStrict(q, lo, n);
    } else if q > hi {
      ScaleStrict(hi, q, n);
    }
  }

  lemma ScaleStrict(a: real, b: real, n: real)
    requires a < b && n > 0.0
    ensures a * n < b * n
  {
    assert (b - a) * n > 0.0;
  }

  /** The variance is at most the square of the spread. */
  lemma VarianceWithinSpread<T>(f: T -> real, xs: seq<T>, lo: real, hi: real)
    requires xs != [] && forall x :: x in xs ==> lo <= f(x) <= hi
    ensures 0.0 <= Variance(f, xs) <= (hi - lo) * (hi - lo)
  {
    MeanWithinBounds(f, xs, lo, hi);
    var m := Mean(f, xs);
    var d := SquaredDistance(f, m);
    forall x | x in xs ensures 0.0 <= d(x) <= (hi - lo) * (hi - lo) {
      SquareWithin(f(x) - m, hi - lo);
    }
    MeanWithinBounds(d, xs, 0.0, (hi - lo) * (hi - lo));
  }

  lemma SquareWithin(d: real, spread: real)
    requires -spread <= d <= spread
    ensures 0.0 <= d * d <= spread * spread
  {
    if d >= 0.0 {
      assert d * d <= spread * d <= spread * spread;
    } else {
      assert (-d) * (-d) <= spread * (-d) <= spread * spread;
    }
  }

  lemma {:induction false} SumOfEquals<T>(f: T -> real, g: T -> real, xs: seq<T>)
    requires forall x :: x in xs ==> f(x) == g(x)
    ensures SumBy(f, xs) == SumBy(g, xs)
  {
    if xs != [] {
      assert xs[|xs| - 1] in xs;
      SumOfEquals(f, g, xs[..|xs| - 1]);
    }
  }

  /** The variance is the mean of the squared distances from the mean, over all nodes. */
  lemma VarianceTimesCount<T>(f: T -> real, distance: T -> real, squared: T -> real, xs: seq<T>)
    requires xs != [] && forall x :: x in xs ==> distance(x) == f(x) - SumBy(f, xs) / |xs| as real
    requires forall x :: x in xs ==> squared(x) == distance(x) * distance(x)
    ensures Variance(f, xs) == SumBy(squared, xs) / |xs| as real
  {
    SumOfEquals(squared, SquaredDistance(f, Mean(f, xs)), xs);
  }

  lemma {:induction false} SumNonNegative<T>(f: T -> real, xs: seq<T>)
    requires forall x :: x in xs ==> f(x) >= 0.0
    ensures SumBy(f, xs) >= 0.0
  {
    if xs != [] {
      assert xs[|xs| - 1] in xs;
      SumNonNegative(f, xs[..|xs| - 1]);
    }
  }

  lemma {:induction false} ElementWithinSum<T>(f: T -> real, xs: seq<T>, x: T)
    requires x in xs && forall y :: y in xs ==> f(y) >= 0.0
    ensures f(x) <= SumBy(f, xs)
  {
    var front, last := xs[..|xs| - 1], xs[|xs| - 1];
    assert xs == front + [last];
    assert last in xs && forall y :: y in front ==> y in xs;
    if x in front {
      ElementWithinSum(f, front, x);
    } else {
      SumNonNegative(f, front);
    }
  }

  /**
   The imbalance score is 100 * sqrt(variance) / mean, so for non-negative loads it is at most
   100 * sqrt(n - 1): all the load on one node.
   */
  lemma ImbalanceAtMostAllOnOneNode<T>(f: T -> real, xs: seq<T>)
    requires xs != [] && forall x :: x in xs ==> f(x) >= 0.0
    ensures Variance(f, xs) <= (|xs| as real - 1.0) * (Mean(f, xs) * Mean(f, xs))
  {
    var m, n := Mean(f, xs), |xs| as real;
    VarianceBelowLine(f, xs, m, n, (n - 2.0) * m, m * m);
    LineAtMean(n, m);
  }

  lemma VarianceBelowLine<T>(f: T -> real, xs: seq<T>, m: real, n: real, a: real, u: real)
    requires xs != [] && forall x :: x in xs ==> f(x) >= 0.0
    requires m == Mean(f, xs) && n == |xs| as real && a == (n - 2.0) * m && u == m * m
    ensures Variance(f, xs) <= a * m + u
  {
    MeanTimesCount(f, xs);
    var d := SquaredDistance(f, m);
    forall x | x in xs ensures d(x) <= a * f(x) + u {
      ElementWithinSum(f, xs, x);
      SquareBelowLine(f(x), m, n, a, u);
    }
    MeanBelowLine(f, d, xs, a, u);
  }

  lemma LineAtMean(n: real, m: real)
    ensures ((n - 2.0) * m) * m + m * m == (n - 1.0) * (m * m)
  {
  }

  lemma SquareBelowLine(v: real, m: real, n: real, a: real, u: real)
    requires 0.0 <= v <= m * n && a == (n - 2.0) * m && u == m * m
    ensures (v - m) * (v - m) <= a * v + u
  {
    assert a * v + u - (v - m) * (v - m) == v * (m * n - v);
  }

  lemma {:induction false} SumBelowLine<T>(f: T -> real, d: T -> real, xs: seq<T>, a: real, u: real)
    requires forall x :: x in xs ==> d(x) <= a * f(x) + u
    ensures SumBy(d, xs) <= a * SumBy(f, xs) + Repeated(u, |xs|)
  {
    if xs != [] {
      var front, last := xs[..|xs| - 1], xs[|xs| - 1];
      assert last in xs && forall x :: x in front ==> x in xs;
      SumBelowLine(f, d, front, a, u);
      assert a * (SumBy(f, front) + f(last)) == a * SumBy(f, front) + a * f(last);
    }
  }

  /** What lies pointwise below a line over the load has its mean below the line at the mean load. */
  lemma MeanBelowLine<T>(f: T -> real, d: T -> real, xs: seq<T>, a: real, u: real)
    requires xs != [] && forall x :: x in xs ==> d(x) <= a * f(x) + u
    ensures Mean(d, xs) <= a * Mean(f, xs) + u
  {
    SumBelowLine(f, d, xs, a, u);
    RepeatedIsProduct(u, |xs|);
    DivideLine(SumBy(d, xs), SumBy(f, xs), |xs| as real, a, u);
  }

  lemma DivideLine(d: real, s: real, n: real, a: real, u: real)
    requires n >= 1.0 && d <= a * s + u * n
    ensures d / n <= a * (s / n) + u
  {
    var p, q := s / n, d / n;
    assert p * n == s && q * n == d;
    var bound := a * p + u;
    assert bound * n == a * (p * n) + u * n;
    if q > bound {
      ScaleStrict(bound, q, n);
    }
  }

  lemma {:induction false} ZeroSumOfNonNegatives<T>(g: T -> real, xs: seq<T>)
    requires forall x :: x in xs ==> g(x) >= 0.0
    ensures SumBy(g, xs) >= 0.0
    ensures SumBy(g, xs) == 0.0 <==> forall x :: x in xs ==> g(x) == 0.0
  {
    if xs != [] {
      var front, last := xs[..|xs| - 1], xs[|xs| - 1];
      assert xs == front + [last];
      assert last in xs && forall x :: x in front ==> x in xs;
      ZeroSumOfNonNegatives(g, front);
    }
  }

  lemma ProductPositive(a: real, b: real, p: real)
    requires a > 0.0 && b > 0.0 && p == a * b
    ensures p > 0.0
  {
  }

  /** Squares are named because the solver rewrites x * x < y * y beyond recognition. */
  lemma SquareOrder(a: real, b: real, aa: real, bb: real)
    requires 0.0 <= a < b && aa == a * a && bb == b * b
    ensures aa < bb
  {
    var ab := a * b;
    ProductPositive(b - a, b, bb - ab);
    if a > 0.0 {
      ProductPositive(b - a, a, ab - aa);
    }
  }

  lemma SquareSign(e: real, sq: real)
    requires sq == e * e
    ensures if e == 0.0 then sq == 0.0 else sq > 0.0
  {
    if e < 0.0 {
      ProductPositive(-e, -e, sq);
    } else if e > 0.0 {
      ProductPositive(e, e, sq);
    }
  }

  /** The score is zero exactly when every node carries the same load. */
  lemma NoImbalanceIffAllEqual<T>(f: T -> real, xs: seq<T>)
    requires xs != []
    ensures Variance(f, xs) == 0.0 <==> forall x, y :: x in xs && y in xs ==> f(x) == f(y)
  {
    var m := Mean(f, xs);
    var d := SquaredDistance(f, m);
    forall x ensures d(x) >= 0.0 && (d(x) == 0.0 <==> f(x) == m) {
      SquareSign(f(x) - m, d(x));
    }
    assert SumBy(d, xs) == 0.0 <==> forall x :: x in xs ==> f(x) == m by {
      ZeroSumOfNonNegatives(d, xs);
    }
    assert Variance(f, xs) == 0.0 <==> SumBy(d, xs) == 0.0 by {
      ZeroQuotient(SumBy(d, xs), |xs| as real);
    }
    if forall x, y :: x in xs && y in xs ==> f(x) == f(y) {
      assert xs[0] in xs;
      MeanWithinBounds(f, xs, f(xs[0]), f(xs[0]));
    }
  }

  lemma ZeroQuotient(s: real, n: real)
    requires n > 0.0
    ensures s / n == 0.0 <==> s == 0.0
  {
    var q := s / n;
    assert q * n == s;
  }

  lemma {:induction false} ScaledSum<T>(f: T -> real, g: T -> real, xs: seq<T>, c: real)
    requires forall x :: x in xs ==> g(x) == c * f(x)
    ensures SumBy(g, xs) == c * SumBy(f, xs)
  {
    if xs != [] {
      var front, last := xs[..|xs| - 1], xs[|xs| - 1];
      assert last in xs && forall x :: x in front ==> x in xs;
      ScaledSum(f, g, front, c);
      assert c * (SumBy(f, front) + f(last)) == c * SumBy(f, front) + c * f(last);
    }
  }

  lemma ScaledMean<T>(f: T -> real, g: T -> real, xs: seq<T>, c: real)
    requires xs != [] && forall x :: x in xs ==> g(x) == c * f(x)
    ensures Mean(g, xs) == c * Mean(f, xs)
  {
    ScaledSum(f, g, xs, c);
    ScaledQuotient(SumBy(f, xs), SumBy(g, xs), |xs| as real, c);
  }

  /** Scaling every load scales the mean, and the variance by the square. */
  lemma ScaledLoads<T>(f: T -> real, g: T -> real, xs: seq<T>, c: real, cc: real)
    requires xs != [] && cc == c * c && forall x :: x in xs ==> g(x) == c * f(x)
    ensures Mean(g, xs) == c * Mean(f, xs)
    ensures Variance(g, xs) == cc * Variance(f, xs)
  {
    ScaledMean(f, g, xs, c);
    var d, e := SquaredDistance(f, Mean(f, xs)), SquaredDistance(g, Mean(g, xs));
    forall x | x in xs ensures e(x) == cc * d(x) {
      ScaledSquare(c, cc, f(x), Mean(f, xs), g(x), Mean(g, xs));
    }
    ScaledMean(d, e, xs, cc);
  }

  lemma ScaledQuotient(s: real, t: real, n: real, c: real)
    requires n > 0.0 && t == c * s
    ensures t / n == c * (s / n)
  {
    var q := s / n;
    assert q * n == s;
    assert c * q * n == t;
  }

  lemma ScaledSquare(c: real, cc: real, v: real, m: real, w: real, k: real)
    requires cc == c * c && w == c * v && k == c * m
    ensures (w - k) * (w - k) == cc * ((v - m) * (v - m))
  {
    var gap := v - m;
    assert w - k == c * gap;
    assert (c * gap) * (c * gap) == (c * c) * (gap * gap);
  }
}
