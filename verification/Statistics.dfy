/** Sums, variance, z-scores and percentiles in exact real arithmetic. The square root is a
    parameter with the one property it is used for: it is a root, rounded up if at all. */
module Statistics {

  /** f gives the positive root at x or a bit more, if x is positive. */
  predicate RootAt(f: real -> real, x: real) {
    x > 0.0 ==> f(x) > 0.0 && f(x) * f(x) >= x
  }

  ghost predicate IsSqrt(f: real -> real) {
    forall x: real :: RootAt(f, x)
  }

  /** And the root itself, where that is asked for. */
  predicate ExactAt(f: real -> real, x: real) {
    x > 0.0 ==> f(x) * f(x) == x
  }

  lemma MeanOfFactors(s: real, t: real, x: real)
    requires s * t == x
    ensures ((s + t) / 2.0) * ((s + t) / 2.0) >= x
  {
    var m, d := (s + t) / 2.0, (s - t) / 2.0;
    assert s == m + d && t == m - d;
    assert x == m * m - d * d;
    SquareNotNegative(d);
  }

  /** Newton's iteration comes down to the root from above, so it can stand for it. */
  function NewtonRoot(x: real, steps: nat): (r: real)
    requires x > 0.0
    ensures r > 0.0 && r * r >= x
  {
    if steps == 0 then x + 1.0
    else
      var s := NewtonRoot(x, steps - 1);
      QuotientProduct(x, s, x / s);
      MeanOfFactors(s, x / s, x);
      (s + x / s) / 2.0
  }

  function Root(x: real): real {
    if x > 0.0 then NewtonRoot(x, 20) else 1.0
  }

  lemma RootIsSqrt()
    ensures IsSqrt(Root)
  {
    forall x: real
      ensures RootAt(Root, x)
    {
    }
  }

  function Sum(xs: seq<real>): real {
    if xs == [] then 0.0 else Sum(xs[..|xs| - 1]) + xs[|xs| - 1]
  }

  function SumSq(xs: seq<real>): real {
    if xs == [] then 0.0 else SumSq(xs[..|xs| - 1]) + xs[|xs| - 1] * xs[|xs| - 1]
  }

  lemma {:induction false} SumSnoc(xs: seq<real>, x: real)
    ensures Sum(xs + [x]) == Sum(xs) + x && SumSq(xs + [x]) == SumSq(xs) + x * x
  {
    assert (xs + [x])[..|xs|] == xs;
  }

  function Mean(s: real, n: real): real
    requires n > 0.0
  {
    s / n
  }

  function Variance(q: real, n: real, mu: real): real
    requires n > 0.0
  {
    q / n - mu * mu
  }

  function Sigma(sqrt: real -> real, v: real): (sigma: real)
    requires IsSqrt(sqrt)
    ensures sigma > 0.0
  {
    assert RootAt(sqrt, v);
    if v > 0.0 then sqrt(v) else 1.0
  }

  /** How far a count is from the mean, in standard deviations. */
  function Deviations(sqrt: real -> real, c: real, mu: real, v: real): real
    requires IsSqrt(sqrt)
  {
    (c - mu) / Sigma(sqrt, v)
  }

  /** The z-score of a count c, given the sum s and the sum of squares q of n counts. */
  function ZScore(sqrt: real -> real, c: real, s: real, q: real, n: real): real
    requires IsSqrt(sqrt) && n > 0.0
  {
    Deviations(sqrt, c, Mean(s, n), Variance(q, n, Mean(s, n)))
  }

  // ---- Samuelson's inequality ----

  lemma ProductSign(p: real, x: real)
    ensures p > 0.0 && x > 0.0 ==> p * x > 0.0
  {
  }

  lemma CancelPositive(p: real, a: real, b: real)
    requires p > 0.0
    requires p * a <= p * b
    ensures a <= b
  {
    ProductSign(p, a - b);
    assert p * (a - b) == p * a - p * b;
  }

  lemma SquareNotNegative(d: real)
    ensures d * d >= 0.0
  {
    ProductSign(d, d);
    ProductSign(-d, -d);
  }

  lemma SquaredDistancesStep(n: real, x: real, y: real, s: real, q: real)
    requires n * (x * x) - 2.0 * (x * s) + q >= 0.0
    ensures (n + 1.0) * (x * x) - 2.0 * (x * (s + y)) + (q + y * y) >= 0.0
  {
    var d := x - y;
    SquareNotNegative(d);
    assert d * d == x * x - 2.0 * (x * y) + y * y;
    assert x * (s + y) == x * s + x * y;
    assert (n + 1.0) * (x * x) == n * (x * x) + x * x;
  }

  /** The sum of the squared distances from x, expanded, is not negative. */
  lemma {:induction false} SquaredDistances(xs: seq<real>, x: real)
    ensures |xs| as real * (x * x) - 2.0 * (x * Sum(xs)) + SumSq(xs) >= 0.0
  {
    if xs != [] {
      var n := |xs| - 1;
      SquaredDistances(xs[..n], x);
      SquaredDistancesStep(n as real, x, xs[n], Sum(xs[..n]), SumSq(xs[..n]));
    }
  }

  lemma CauchySchwarzStep(n: real, x: real, s: real, q: real)
    requires s * s <= n * q && n * (x * x) - 2.0 * (x * s) + q >= 0.0
    ensures (s + x) * (s + x) <= (n + 1.0) * (q + x * x)
  {
    assert (s + x) * (s + x) == s * s + 2.0 * (x * s) + x * x;
    assert (n + 1.0) * (q + x * x) == n * q + n * (x * x) + q + x * x;
  }

  /** Cauchy-Schwarz: the variance is not negative. */
  lemma {:induction false} CauchySchwarz(xs: seq<real>)
    ensures Sum(xs) * Sum(xs) <= |xs| as real * SumSq(xs)
  {
    if xs != [] {
      var n := |xs| - 1;
      CauchySchwarz(xs[..n]);
      SquaredDistances(xs[..n], xs[n]);
      CauchySchwarzStep(n as real, xs[n], Sum(xs[..n]), SumSq(xs[..n]));
    }
  }

  lemma {:induction false} SumFront(xs: seq<real>)
    requires xs != []
    ensures Sum(xs) == xs[0] + Sum(xs[1..]) && SumSq(xs) == xs[0] * xs[0] + SumSq(xs[1..])
  {
    var n := |xs| - 1;
    if n > 0 {
      SumFront(xs[..n]);
      assert xs[..n][1..] == xs[1..][..n - 1];
    } else {
      assert xs[..0] == [] == xs[1..];
    }
  }

  lemma SamuelsonAlgebra(m: real, c: real, s: real, q: real)
    requires m >= 0.0 && s * s <= m * q
    ensures ((m + 1.0) * c - (s + c)) * ((m + 1.0) * c - (s + c))
         <= m * ((m + 1.0) * (q + c * c) - (s + c) * (s + c))
  {
    var e := m * q - s * s;
    assert (m + 1.0) * c - (s + c) == m * c - s;
    assert (m * c - s) * (m * c - s) == m * (m * (c * c)) - 2.0 * (m * (s * c)) + s * s;
    assert (m + 1.0) * (q + c * c) - (s + c) * (s + c) == e + q + m * (c * c) - 2.0 * (s * c);
    assert m * (e + q + m * (c * c) - 2.0 * (s * c))
        == m * e + m * q + m * (m * (c * c)) - 2.0 * (m * (s * c));
    assert m * e >= 0.0;
  }

  lemma SamuelsonFromRest(n: real, c: real, s: real, q: real, s': real, q': real)
    requires n >= 1.0 && s == s' + c && q == q' + c * c && s' * s' <= (n - 1.0) * q'
    ensures (n * c - s) * (n * c - s) <= (n - 1.0) * (n * q - s * s)
  {
    SamuelsonAlgebra(n - 1.0, c, s', q');
  }

  /** No sample lies more than sqrt(n - 1) standard deviations from the mean of its n-sample. */
  lemma {:induction false} Samuelson(xs: seq<real>, n: real, c: real, s: real, q: real)
    requires xs != [] && n == |xs| as real && c == xs[0] && s == Sum(xs) && q == SumSq(xs)
    ensures (n * c - s) * (n * c - s) <= (n - 1.0) * (n * q - s * s)
  {
    SumFront(xs);
    CauchySchwarz(xs[1..]);
    SamuelsonFromRest(n, c, s, q, Sum(xs[1..]), SumSq(xs[1..]));
  }

  lemma DistanceFromMean(n: real, c: real, s: real, q: real, mu: real, v: real)
    requires n > 0.0 && n * mu == s && n * v == q - n * (mu * mu)
    requires (n * c - s) * (n * c - s) <= (n - 1.0) * (n * q - s * s)
    ensures (c - mu) * (c - mu) <= (n - 1.0) * v
  {
    var d := c - mu;
    assert n * c - s == n * d;
    assert (n * d) * (n * d) == n * (n * (d * d));
    assert n * q - s * s == n * (n * v) by {
      assert s * s == n * (n * (mu * mu));
      assert n * q == n * (n * v + n * (mu * mu));
    }
    assert (n - 1.0) * (n * (n * v)) == n * (n * ((n - 1.0) * v));
    CancelPositive(n, n * (d * d), n * ((n - 1.0) * v));
    CancelPositive(n, d * d, (n - 1.0) * v);
  }

  lemma QuotientProduct(s: real, n: real, mu: real)
    requires n > 0.0 && mu == s / n
    ensures n * mu == s
  {
  }

  lemma DistanceBound(n: real, c: real, s: real, q: real)
    requires n > 0.0
    requires (n * c - s) * (n * c - s) <= (n - 1.0) * (n * q - s * s)
    ensures var mu := Mean(s, n); var d := c - mu;
            d * d <= (n - 1.0) * Variance(q, n, mu)
  {
    var mu := Mean(s, n);
    var v := Variance(q, n, mu);
    QuotientProduct(s, n, mu);
    QuotientProduct(q, n, q / n);
    assert n * v == q - n * (mu * mu);
    DistanceFromMean(n, c, s, q, mu, v);
  }

  lemma QuotientBound(d: real, sigma: real, v: real, k: real, z: real)
    requires sigma > 0.0 && k >= 0.0 && d * d <= k * v && z * sigma == d
    requires v > 0.0 ==> sigma * sigma >= v
    ensures z * z <= k
  {
    if v > 0.0 {
      var w := sigma * sigma;
      assert d * d == w * (z * z);
      assert k * v <= k * w by { ProductSign(k, w - v); }
      CancelPositive(w, z * z, k);
    } else {
      assert k * v <= 0.0;
      assert d * d == sigma * (sigma * (z * z));
      CancelPositive(sigma, sigma * (z * z), 0.0);
      CancelPositive(sigma, z * z, 0.0);
    }
  }

  lemma DeviationsBound(sqrt: real -> real, c: real, mu: real, v: real, k: real)
    requires IsSqrt(sqrt) && k >= 0.0
    requires (c - mu) * (c - mu) <= k * v
    ensures Deviations(sqrt, c, mu, v) * Deviations(sqrt, c, mu, v) <= k
  {
    assert RootAt(sqrt, v);
    var d, sigma := c - mu, Sigma(sqrt, v);
    QuotientProduct(d, sigma, d / sigma);
    QuotientBound(d, sigma, v, k, d / sigma);
  }

  lemma ZScoreFromSamuelson(sqrt: real -> real, n: real, c: real, s: real, q: real)
    requires IsSqrt(sqrt) && n >= 1.0
    requires (n * c - s) * (n * c - s) <= (n - 1.0) * (n * q - s * s)
    ensures ZScore(sqrt, c, s, q, n) * ZScore(sqrt, c, s, q, n) <= n - 1.0
  {
    DistanceBound(n, c, s, q);
    DeviationsBound(sqrt, c, Mean(s, n), Variance(q, n, Mean(s, n)), n - 1.0);
  }

  /** The z-score of one of n counts among all of them satisfies z * z <= n - 1, whatever the
      counts are. */
  lemma {:induction false} ZScoreBound(sqrt: real -> real, xs: seq<real>, n: real, c: real, s: real, q: real)
    requires IsSqrt(sqrt)
    requires xs != [] && n == |xs| as real && c == xs[0] && s == Sum(xs) && q == SumSq(xs)
    ensures ZScore(sqrt, c, s, q, n) * ZScore(sqrt, c, s, q, n) <= n - 1.0
  {
    Samuelson(xs, n, c, s, q);
    ZScoreFromSamuelson(sqrt, n, c, s, q);
  }

  // ---- Percentiles ----

  predicate Sorted(s: seq<real>) {
    forall i, j :: 0 <= i <= j < |s| ==> s[i] <= s[j]
  }

  function Insert(x: real, s: seq<real>): (r: seq<real>)
    requires Sorted(s)
    ensures Sorted(r) && |r| == |s| + 1
    ensures r[0] == x || (s != [] && r[0] == s[0])
  {
    if s == [] || x <= s[0] then [x] + s
    else
      [s[0]] + Insert(x, s[1..])
  }

  lemma {:induction false} InsertAdds(x: real, s: seq<real>)
    requires Sorted(s)
    ensures multiset(Insert(x, s)) == multiset(s) + multiset{x}
  {
    if s != [] && x > s[0] {
      InsertAdds(x, s[1..]);
      assert s == [s[0]] + s[1..];
    }
  }

  /** The ordered arrangement of the samples. */
  function Sort(s: seq<real>): (r: seq<real>)
    ensures Sorted(r) && |r| == |s| && multiset(r) == multiset(s)
  {
    if s == [] then []
    else
      var t := Sort(s[1..]);
      InsertAdds(s[0], t);
      assert s == [s[0]] + s[1..];
      Insert(s[0], t)
  }

  function CountAbove(s: seq<real>, t: real): (n: nat)
    ensures n <= |s|
  {
    if s == [] then 0 else CountAbove(s[1..], t) + if s[0] > t then 1 else 0
  }

  lemma {:induction false} CountAboveInsert(x: real, s: seq<real>, t: real)
    requires Sorted(s)
    ensures CountAbove(Insert(x, s), t) == CountAbove(s, t) + if x > t then 1 else 0
  {
    if s == [] || x <= s[0] {
      assert ([x] + s)[1..] == s;
    } else {
      CountAboveInsert(x, s[1..], t);
      assert ([s[0]] + Insert(x, s[1..]))[1..] == Insert(x, s[1..]);
    }
  }

  /** Sorting does not change how many samples exceed a value. */
  lemma {:induction false} CountAboveSort(s: seq<real>, t: real)
    ensures CountAbove(Sort(s), t) == CountAbove(s, t)
  {
    if s != [] {
      CountAboveSort(s[1..], t);
      CountAboveInsert(s[0], Sort(s[1..]), t);
    }
  }

  /** In a sorted list only elements past position i can exceed element i, and if element i
      exceeds t then so do all the later ones. */
  lemma {:induction false} CountAboveSorted(s: seq<real>, i: nat, t: real)
    requires Sorted(s) && i < |s|
    ensures s[i] <= t ==> CountAbove(s, t) <= |s| - 1 - i
    ensures s[i] > t ==> CountAbove(s, t) >= |s| - i
  {
    if i > 0 {
      CountAboveSorted(s[1..], i - 1, t);
    } else if s[0] > t && |s| > 1 {
      CountAboveSorted(s[1..], 0, t);
    }
  }

  /** The index int(0.95 * (m - 1)). */
  function PercentileIndex(m: nat): (i: nat)
    requires m > 0
    ensures i < m
    ensures m - 1 - i == (m + 18) / 20
  {
    19 * (m - 1) / 20
  }

  function Percentile95(s: seq<real>): real
    requires s != []
  {
    Sort(s)[PercentileIndex(|s|)]
  }

  /** At most one in twenty of the other samples exceeds the 95th percentile. */
  lemma {:induction false} FewAbovePercentile(s: seq<real>)
    requires s != []
    ensures CountAbove(s, Percentile95(s)) <= (|s| + 18) / 20
  {
    var i := PercentileIndex(|s|);
    CountAboveSorted(Sort(s), i, Sort(s)[i]);
    CountAboveSort(s, Percentile95(s));
  }

  /** If few enough samples exceed t, the percentile does not. */
  lemma {:induction false} PercentileAtMost(s: seq<real>, t: real)
    requires s != [] && CountAbove(s, t) <= (|s| + 18) / 20
    ensures Percentile95(s) <= t
  {
    var i := PercentileIndex(|s|);
    CountAboveSorted(Sort(s), i, t);
    CountAboveSort(s, t);
  }
}
