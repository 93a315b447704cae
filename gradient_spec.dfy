/** What the gradient accumulation and the batch loops compute, as pure
    functions of the inputs and of the forward aligner's output. */
module GradientSpec {
  import opened BackwardTable

  /** What the forward aligner hands back for one (centroid, series) pair:
      its cumulative cost table, its distance table and the soft-DTW
      distance. */
  datatype Forward = Forward(cost: Matrix, dist: Matrix, distance: real)

  /** The aligner's tables cover the block that the backward pass of a
      centroid of length m and a series of length n uses. */
  predicate Fits(fw: Forward, m: nat, n: nat) {
    Covers(fw.cost, m + 2, n + 2) && Covers(fw.dist, m + 1, n + 1)
  }

  /** The backward problem of one pair: the aligner's tables with their
      padding seeded. */
  function Seeded(fw: Forward, m: nat, n: nat, gamma: real, exp: real -> real, negInf: real): (p: Problem)
    requires Fits(fw, m, n) && gamma > 0.0
    ensures p.WellFormed() && p.m == m && p.n == n && p.gamma == gamma
  {
    Problem(SeededCost(fw.cost, m, n, negInf), SeededDist(fw.dist, m, n), m, n, gamma, exp)
  }

  /** What one alignment cell adds to the gradient of a centroid
      coordinate: its responsibility e times 2 (xi - yj), the derivative of
      the squared distance (xi - yj)^2 in xi. */
  function Term(e: real, xi: real, yj: real): real {
    e * 2.0 * (xi - yj)
  }

  /** The scalar sum of one row after its first t series points:
      the sum over j < t of row[j+1] * 2 * (xi - ys[j]). */
  function Partial(row: seq<real>, xi: real, ys: seq<real>, t: nat): real
    requires t <= |ys| && t < |row|
  {
    if t == 0 then 0.0 else Partial(row, xi, ys, t - 1) + Term(row[t], xi, ys[t - 1])
  }

  /** The same sum for coordinate k of vector points. */
  function PartialMv(row: seq<real>, xi: seq<real>, ys: seq<seq<real>>, k: nat, t: nat): real
    requires t <= |ys| && t < |row| && k < |xi| && HasDim(ys, k + 1)
  {
    if t == 0 then 0.0 else PartialMv(row, xi, ys, k, t - 1) + Term(row[t], xi[k], ys[t - 1][k])
  }

  /** Every point of ys has at least dim coordinates. */
  predicate HasDim(ys: seq<seq<real>>, dim: nat) {
    forall j :: 0 <= j < |ys| ==> dim <= |ys[j]|
  }

  /** The number of columns of a table of vector points (0 for no rows). */
  function Cols(x: seq<seq<real>>): nat {
    if |x| == 0 then 0 else |x[0]|
  }

  /** x is rectangular: every row has Cols(x) entries. */
  predicate IsTable(x: seq<seq<real>>) {
    forall r :: 0 <= r < |x| ==> |x[r]| == Cols(x)
  }

  /** Coordinate k of every point. */
  function Column(ys: seq<seq<real>>, k: nat): (col: seq<real>)
    requires HasDim(ys, k + 1)
    ensures |col| == |ys| && forall j :: 0 <= j < |ys| ==> col[j] == ys[j][k]
  {
    seq(|ys|, j requires 0 <= j < |ys| => ys[j][k])
  }

  /** The vector sum for coordinate k is the scalar sum over coordinate k. */
  lemma {:induction false} PartialMvIsPartial(row: seq<real>, xi: seq<real>, ys: seq<seq<real>>, k: nat, t: nat)
    requires t <= |ys| && t < |row| && k < |xi| && HasDim(ys, k + 1)
    ensures PartialMv(row, xi, ys, k, t) == Partial(row, xi[k], Column(ys, k), t)
  {
    if t > 0 {
      PartialMvIsPartial(row, xi, ys, k, t - 1);
    }
  }

  /** The sums over two rows that agree on cells 1..t are equal. */
  lemma {:induction false} PartialAgrees(r1: seq<real>, r2: seq<real>, xi: real, ys: seq<real>, t: nat)
    requires t <= |ys| && t < |r1| && t < |r2|
    requires forall c :: 1 <= c <= t ==> r1[c] == r2[c]
    ensures Partial(r1, xi, ys, t) == Partial(r2, xi, ys, t)
  {
    if t > 0 {
      PartialAgrees(r1, r2, xi, ys, t - 1);
      assert r1[t] == r2[t];
    }
  }

  /** The same for the vector sums. */
  lemma {:induction false} PartialMvAgrees(r1: seq<real>, r2: seq<real>, xi: seq<real>, ys: seq<seq<real>>, k: nat, t: nat)
    requires t <= |ys| && t < |r1| && t < |r2| && k < |xi| && HasDim(ys, k + 1)
    requires forall c :: 1 <= c <= t ==> r1[c] == r2[c]
    ensures PartialMv(r1, xi, ys, k, t) == PartialMv(r2, xi, ys, k, t)
  {
    if t > 0 {
      PartialMvAgrees(r1, r2, xi, ys, k, t - 1);
      assert r1[t] == r2[t];
    }
  }

  /** The contribution of one series to the gradient, before weighting
      (scalar points): entry r is the sum over j of E(r+1, j+1) * 2 *
      (x[r] - y[j]). */
  function GradientUv(p: Problem, x: seq<real>, y: seq<real>): (g: seq<real>)
    requires p.WellFormed() && p.m == |x| && p.n == |y|
    ensures |g| == |x|
  {
    seq(|x|, r requires 0 <= r < |x| => Partial(ERow(p, r + 1), x[r], y, |y|))
  }

  /** The same contribution for vector points: entry (r, k) is the sum
      over j of E(r+1, j+1) * 2 * (x[r][k] - y[j][k]). */
  function GradientMv(p: Problem, x: seq<seq<real>>, y: seq<seq<real>>): (g: seq<seq<real>>)
    requires p.WellFormed() && p.m == |x| && p.n == |y| && IsTable(x) && HasDim(y, Cols(x))
    ensures |g| == |x| && forall r :: 0 <= r < |x| ==> |g[r]| == Cols(x)
  {
    seq(|x|, r requires 0 <= r < |x| =>
      seq(Cols(x), k requires 0 <= k < Cols(x) => PartialMv(ERow(p, r + 1), x[r], y, k, |y|)))
  }

  /** The row sums of a table value T (scalar points): entry r is the sum
      over row r+1 of T. */
  lemma TableSumsUv(T: seq<seq<real>>, x: seq<real>, y: seq<real>) returns (g: seq<real>)
    requires |x| < |T| && forall i :: 1 <= i <= |x| ==> |y| < |T[i]|
    ensures |g| == |x| && forall r :: 0 <= r < |x| ==> g[r] == Partial(T[r + 1], x[r], y, |y|)
  {
    g := seq(|x|, r requires 0 <= r < |x| => Partial(T[r + 1], x[r], y, |y|));
  }

  /** The row sums of the table of p are the scalar contribution. */
  lemma TableSumsAreGradientUv(p: Problem, T: seq<seq<real>>, x: seq<real>, y: seq<real>, g: seq<real>)
    requires p.WellFormed() && TableOf(p, T) && p.m == |x| && p.n == |y|
    requires |g| == |x| && forall r :: 0 <= r < |x| ==> g[r] == Partial(T[r + 1], x[r], y, |y|)
    ensures g == GradientUv(p, x, y)
  {
    forall r | 0 <= r < |x| ensures g[r] == GradientUv(p, x, y)[r] {
      PartialAgrees(T[r + 1], ERow(p, r + 1), x[r], y, |y|);
    }
  }

  /** The row sums of a table value T (vector points): entry (r, k) is the
      sum over row r+1 of T for coordinate k. */
  lemma TableSumsMv(T: seq<seq<real>>, x: seq<seq<real>>, y: seq<seq<real>>) returns (g: seq<seq<real>>)
    requires |x| < |T| && forall i :: 1 <= i <= |x| ==> |y| < |T[i]|
    requires IsTable(x) && HasDim(y, Cols(x))
    ensures Shaped(g, |x|, Cols(x))
    ensures forall r, k :: 0 <= r < |x| && 0 <= k < Cols(x) ==> g[r][k] == PartialMv(T[r + 1], x[r], y, k, |y|)
  {
    g := seq(|x|, r requires 0 <= r < |x| =>
      seq(Cols(x), k requires 0 <= k < Cols(x) => PartialMv(T[r + 1], x[r], y, k, |y|)));
  }

  /** The row sums of the table of p are the vector contribution. */
  lemma TableSumsAreGradientMv(p: Problem, T: seq<seq<real>>, x: seq<seq<real>>, y: seq<seq<real>>,
                               g: seq<seq<real>>)
    requires p.WellFormed() && TableOf(p, T) && p.m == |x| && p.n == |y|
    requires IsTable(x) && HasDim(y, Cols(x)) && Shaped(g, |x|, Cols(x))
    requires forall r, k :: 0 <= r < |x| && 0 <= k < Cols(x) ==> g[r][k] == PartialMv(T[r + 1], x[r], y, k, |y|)
    ensures g == GradientMv(p, x, y)
  {
    forall r | 0 <= r < |x| ensures g[r] == GradientMv(p, x, y)[r] {
      forall k | 0 <= k < Cols(x) ensures g[r][k] == GradientMv(p, x, y)[r][k] {
        PartialMvAgrees(T[r + 1], ERow(p, r + 1), x[r], y, k, |y|);
      }
    }
  }

  /** The two overloads agree: column k of the vector gradient is the scalar
      gradient of coordinate k of the centroid against coordinate k of the
      series, on the same backward table. */
  lemma MvColumnIsUv(p: Problem, x: seq<seq<real>>, y: seq<seq<real>>, k: nat)
    requires p.WellFormed() && p.m == |x| && p.n == |y| && IsTable(x) && HasDim(y, Cols(x))
    requires k < Cols(x)
    ensures forall r :: 0 <= r < |x| ==>
      GradientMv(p, x, y)[r][k] == GradientUv(p, Column(x, k), Column(y, k))[r]
  {
    forall r | 0 <= r < |x|
      ensures GradientMv(p, x, y)[r][k] == GradientUv(p, Column(x, k), Column(y, k))[r]
    {
      PartialMvIsPartial(ERow(p, r + 1), x[r], y, k, |y|);
    }
  }

  /** With points of dimension 1 the vector gradient is the scalar gradient
      of the same data read as scalars. */
  lemma DimOneIsUnivariate(p: Problem, x: seq<seq<real>>, y: seq<seq<real>>)
    requires p.WellFormed() && p.m == |x| && p.n == |y| && IsTable(x) && HasDim(y, Cols(x))
    requires 1 <= |x| && Cols(x) == 1
    ensures GradientMv(p, x, y) ==
      seq(|x|, r requires 0 <= r < |x| => [GradientUv(p, Column(x, 0), Column(y, 0))[r]])
  {
    MvColumnIsUv(p, x, y, 0);
    forall r | 0 <= r < |x|
      ensures GradientMv(p, x, y)[r] == [GradientUv(p, Column(x, 0), Column(y, 0))[r]]
    {
    }
  }
  /** before plus weight times contribution, entry by entry: what one
      weighted gradient update adds. */
  function Accumulate(before: seq<real>, weight: real, contribution: seq<real>): (s: seq<real>)
    requires |before| == |contribution|
    ensures |s| == |before|
  {
    seq(|before|, r requires 0 <= r < |before| => before[r] + weight * contribution[r])
  }

  /** The same for tables. */
  function AccumulateMv(before: seq<seq<real>>, weight: real, contribution: seq<seq<real>>): (s: seq<seq<real>>)
    requires |before| == |contribution| && forall r :: 0 <= r < |before| ==> |before[r]| == |contribution[r]|
    ensures |s| == |before| && forall r :: 0 <= r < |before| ==> |s[r]| == |before[r]|
  {
    seq(|before|, r requires 0 <= r < |before| => Accumulate(before[r], weight, contribution[r]))
  }

  /** Starting from zero, the sum over k, in order, of weights[k] times the
      vector gs[k], entry by entry. */
  function WeightedSum(gs: seq<seq<real>>, weights: seq<real>, len: nat): (g: seq<real>)
    requires |weights| == |gs| && forall k :: 0 <= k < |gs| ==> |gs[k]| == len
    ensures |g| == len
    decreases |gs|
  {
    if |gs| == 0 then seq(len, r => 0.0)
    else
      var k := |gs| - 1;
      Accumulate(WeightedSum(gs[..k], weights[..k], len), weights[k], gs[k])
  }

  /** The same sum for tables of `rows` x `cols` entries. */
  function WeightedSumMv(gs: seq<seq<seq<real>>>, weights: seq<real>, rows: nat, cols: nat): (g: seq<seq<real>>)
    requires |weights| == |gs| && forall k :: 0 <= k < |gs| ==> Shaped(gs[k], rows, cols)
    ensures Shaped(g, rows, cols)
    decreases |gs|
  {
    if |gs| == 0 then seq(rows, r => seq(cols, c => 0.0))
    else
      var k := |gs| - 1;
      var before := WeightedSumMv(gs[..k], weights[..k], rows, cols);
      assert Shaped(gs[k], rows, cols);
      AccumulateMv(before, weights[k], gs[k])
  }

  /** g has `rows` rows of `cols` entries each. */
  predicate Shaped(g: seq<seq<real>>, rows: nat, cols: nat) {
    |g| == rows && forall r :: 0 <= r < rows ==> |g[r]| == cols
  }

  /** Every series' aligner output fits the backward pass of that series. */
  ghost predicate AllFit<P>(forward: (seq<P>, seq<P>) -> Forward, cent: seq<P>, series: seq<seq<P>>) {
    forall k :: 0 <= k < |series| ==> Fits(forward(cent, series[k]), |cent|, |series[k]|)
  }

  /** The unweighted contribution of every series (scalar points), with the
      centroid in the role of x and the series in the role of y. */
  function ContributionsUv(forward: (seq<real>, seq<real>) -> Forward, gamma: real, exp: real -> real,
                           negInf: real, cent: seq<real>, series: seq<seq<real>>): (gs: seq<seq<real>>)
    requires gamma > 0.0 && AllFit(forward, cent, series)
    ensures |gs| == |series| && forall k :: 0 <= k < |series| ==> |gs[k]| == |cent|
  {
    seq(|series|, k requires 0 <= k < |series| =>
      GradientUv(Seeded(forward(cent, series[k]), |cent|, |series[k]|, gamma, exp, negInf), cent, series[k]))
  }

  /** The unweighted contribution of every series (vector points). */
  function ContributionsMv(forward: (seq<seq<real>>, seq<seq<real>>) -> Forward, gamma: real, exp: real -> real,
                           negInf: real, cent: seq<seq<real>>, series: seq<seq<seq<real>>>): (gs: seq<seq<seq<real>>>)
    requires gamma > 0.0 && AllFit(forward, cent, series) && IsTable(cent)
    requires forall k :: 0 <= k < |series| ==> HasDim(series[k], Cols(cent))
    ensures |gs| == |series| && forall k :: 0 <= k < |series| ==> Shaped(gs[k], |cent|, Cols(cent))
  {
    seq(|series|, k requires 0 <= k < |series| =>
      GradientMv(Seeded(forward(cent, series[k]), |cent|, |series[k]|, gamma, exp, negInf), cent, series[k]))
  }

  /** The weighted objective: the sum over series k, in order, of
      weights[k] times the soft-DTW distance of the centroid to series k. */
  function BatchObjective<P>(forward: (seq<P>, seq<P>) -> Forward, cent: seq<P>,
                             series: seq<seq<P>>, weights: seq<real>): real
    requires |weights| == |series|
    decreases |series|
  {
    if |series| == 0 then 0.0
    else
      var k := |series| - 1;
      BatchObjective(forward, cent, series[..k], weights[..k]) + weights[k] * forward(cent, series[k]).distance
  }

  /** The weighted gradient for scalar points. */
  function BatchGradientUv(forward: (seq<real>, seq<real>) -> Forward, gamma: real, exp: real -> real,
                           negInf: real, cent: seq<real>, series: seq<seq<real>>, weights: seq<real>): (g: seq<real>)
    requires gamma > 0.0 && |weights| == |series| && AllFit(forward, cent, series)
    ensures |g| == |cent|
  {
    WeightedSum(ContributionsUv(forward, gamma, exp, negInf, cent, series), weights, |cent|)
  }

  /** The weighted gradient for vector points. */
  function BatchGradientMv(forward: (seq<seq<real>>, seq<seq<real>>) -> Forward, gamma: real, exp: real -> real,
                           negInf: real, cent: seq<seq<real>>, series: seq<seq<seq<real>>>,
                           weights: seq<real>): (g: seq<seq<real>>)
    requires gamma > 0.0 && |weights| == |series| && AllFit(forward, cent, series)
    requires IsTable(cent) && forall k :: 0 <= k < |series| ==> HasDim(series[k], Cols(cent))
    ensures Shaped(g, |cent|, Cols(cent))
  {
    WeightedSumMv(ContributionsMv(forward, gamma, exp, negInf, cent, series), weights, |cent|, Cols(cent))
  }

  /** Two collections whose aligner outputs fit still fit side by side. */
  lemma ConcatFits<P>(forward: (seq<P>, seq<P>) -> Forward, cent: seq<P>, s1: seq<seq<P>>, s2: seq<seq<P>>)
    requires AllFit(forward, cent, s1) && AllFit(forward, cent, s2)
    ensures AllFit(forward, cent, s1 + s2)
  {
  }

  /** Two collections of points with dim coordinates, side by side. */
  lemma ConcatHasDim(s1: seq<seq<seq<real>>>, s2: seq<seq<seq<real>>>, dim: nat)
    requires forall k :: 0 <= k < |s1| ==> HasDim(s1[k], dim)
    requires forall k :: 0 <= k < |s2| ==> HasDim(s2[k], dim)
    ensures forall k :: 0 <= k < |s1 + s2| ==> HasDim((s1 + s2)[k], dim)
  {
  }

  /** Weighted additivity of the objective: the batch over two collections
      one after the other is the sum of the two batches. */
  lemma {:induction false} BatchObjectiveAdditive<P>(forward: (seq<P>, seq<P>) -> Forward, cent: seq<P>,
                                                     s1: seq<seq<P>>, w1: seq<real>, s2: seq<seq<P>>, w2: seq<real>)
    requires |w1| == |s1| && |w2| == |s2|
    ensures BatchObjective(forward, cent, s1 + s2, w1 + w2)
         == BatchObjective(forward, cent, s1, w1) + BatchObjective(forward, cent, s2, w2)
    decreases |s2|
  {
    if |s2| == 0 {
      assert s1 + s2 == s1 && w1 + w2 == w1;
    } else {
      var k := |s2| - 1;
      assert (s1 + s2)[..|s1| + k] == s1 + s2[..k];
      assert (w1 + w2)[..|s1| + k] == w1 + w2[..k];
      BatchObjectiveAdditive(forward, cent, s1, w1, s2[..k], w2[..k]);
    }
  }

  /** Additivity of the weighted vector sum. */
  lemma {:induction false} WeightedSumAdditive(g1: seq<seq<real>>, w1: seq<real>, g2: seq<seq<real>>, w2: seq<real>, len: nat)
    requires |w1| == |g1| && forall k :: 0 <= k < |g1| ==> |g1[k]| == len
    requires |w2| == |g2| && forall k :: 0 <= k < |g2| ==> |g2[k]| == len
    ensures forall k :: 0 <= k < |g1 + g2| ==> |(g1 + g2)[k]| == len
    ensures forall r :: 0 <= r < len ==>
      WeightedSum(g1 + g2, w1 + w2, len)[r] == WeightedSum(g1, w1, len)[r] + WeightedSum(g2, w2, len)[r]
    decreases |g2|
  {
    assert forall k :: 0 <= k < |g1 + g2| ==> |(g1 + g2)[k]| == len by {
      forall k | 0 <= k < |g1 + g2| ensures |(g1 + g2)[k]| == len {
        if k >= |g1| { assert (g1 + g2)[k] == g2[k - |g1|]; }
      }
    }
    if |g2| == 0 {
      assert g1 + g2 == g1 && w1 + w2 == w1;
    } else {
      var k := |g2| - 1;
      var G, W := g1 + g2, w1 + w2;
      assert G[..|g1| + k] == g1 + g2[..k] && G[|g1| + k] == g2[k];
      assert W[..|g1| + k] == w1 + w2[..k] && W[|g1| + k] == w2[k];
      WeightedSumAdditive(g1, w1, g2[..k], w2[..k], len);
    }
  }

  /** Additivity of the weighted table sum. */
  lemma {:induction false} WeightedSumMvAdditive(g1: seq<seq<seq<real>>>, w1: seq<real>, g2: seq<seq<seq<real>>>,
                                                 w2: seq<real>, rows: nat, cols: nat)
    requires |w1| == |g1| && forall k :: 0 <= k < |g1| ==> Shaped(g1[k], rows, cols)
    requires |w2| == |g2| && forall k :: 0 <= k < |g2| ==> Shaped(g2[k], rows, cols)
    ensures forall k :: 0 <= k < |g1 + g2| ==> Shaped((g1 + g2)[k], rows, cols)
    ensures forall r, c :: 0 <= r < rows && 0 <= c < cols ==>
      WeightedSumMv(g1 + g2, w1 + w2, rows, cols)[r][c]
      == WeightedSumMv(g1, w1, rows, cols)[r][c] + WeightedSumMv(g2, w2, rows, cols)[r][c]
    decreases |g2|
  {
    assert forall k :: 0 <= k < |g1 + g2| ==> Shaped((g1 + g2)[k], rows, cols) by {
      forall k | 0 <= k < |g1 + g2| ensures Shaped((g1 + g2)[k], rows, cols) {
        if k >= |g1| { assert (g1 + g2)[k] == g2[k - |g1|]; }
      }
    }
    if |g2| == 0 {
      assert g1 + g2 == g1 && w1 + w2 == w1;
    } else {
      var k := |g2| - 1;
      var G, W := g1 + g2, w1 + w2;
      assert G[..|g1| + k] == g1 + g2[..k] && G[|g1| + k] == g2[k];
      assert W[..|g1| + k] == w1 + w2[..k] && W[|g1| + k] == w2[k];
      WeightedSumMvAdditive(g1, w1, g2[..k], w2[..k], rows, cols);
    }
  }

  /** Weighted additivity of the scalar gradient: the batch over two
      collections one after the other is the sum of the two batches. */
  lemma BatchGradientUvAdditive(forward: (seq<real>, seq<real>) -> Forward, gamma: real,
                                exp: real -> real, negInf: real, cent: seq<real>,
                                s1: seq<seq<real>>, w1: seq<real>, s2: seq<seq<real>>, w2: seq<real>)
    requires gamma > 0.0 && |w1| == |s1| && |w2| == |s2|
    requires AllFit(forward, cent, s1) && AllFit(forward, cent, s2)
    ensures AllFit(forward, cent, s1 + s2)
    ensures forall r :: 0 <= r < |cent| ==>
      BatchGradientUv(forward, gamma, exp, negInf, cent, s1 + s2, w1 + w2)[r]
      == BatchGradientUv(forward, gamma, exp, negInf, cent, s1, w1)[r]
       + BatchGradientUv(forward, gamma, exp, negInf, cent, s2, w2)[r]
  {
    ConcatFits(forward, cent, s1, s2);
    var c1 := ContributionsUv(forward, gamma, exp, negInf, cent, s1);
    var c2 := ContributionsUv(forward, gamma, exp, negInf, cent, s2);
    var c := ContributionsUv(forward, gamma, exp, negInf, cent, s1 + s2);
    assert c == c1 + c2 by {
      forall k | 0 <= k < |c| ensures c[k] == (c1 + c2)[k] {
        if k >= |s1| { assert (s1 + s2)[k] == s2[k - |s1|]; }
      }
    }
    WeightedSumAdditive(c1, w1, c2, w2, |cent|);
  }

  /** Weighted additivity of the vector gradient. */
  lemma BatchGradientMvAdditive(forward: (seq<seq<real>>, seq<seq<real>>) -> Forward,
                                gamma: real, exp: real -> real, negInf: real,
                                cent: seq<seq<real>>, s1: seq<seq<seq<real>>>, w1: seq<real>,
                                s2: seq<seq<seq<real>>>, w2: seq<real>)
    requires gamma > 0.0 && |w1| == |s1| && |w2| == |s2|
    requires AllFit(forward, cent, s1) && AllFit(forward, cent, s2) && IsTable(cent)
    requires forall k :: 0 <= k < |s1| ==> HasDim(s1[k], Cols(cent))
    requires forall k :: 0 <= k < |s2| ==> HasDim(s2[k], Cols(cent))
    ensures AllFit(forward, cent, s1 + s2) && forall k :: 0 <= k < |s1 + s2| ==> HasDim((s1 + s2)[k], Cols(cent))
    ensures forall r, c :: 0 <= r < |cent| && 0 <= c < Cols(cent) ==>
      BatchGradientMv(forward, gamma, exp, negInf, cent, s1 + s2, w1 + w2)[r][c]
      == BatchGradientMv(forward, gamma, exp, negInf, cent, s1, w1)[r][c]
       + BatchGradientMv(forward, gamma, exp, negInf, cent, s2, w2)[r][c]
  {
    ConcatFits(forward, cent, s1, s2);
    ConcatHasDim(s1, s2, Cols(cent));
    var c1 := ContributionsMv(forward, gamma, exp, negInf, cent, s1);
    var c2 := ContributionsMv(forward, gamma, exp, negInf, cent, s2);
    var c := ContributionsMv(forward, gamma, exp, negInf, cent, s1 + s2);
    assert c == c1 + c2 by {
      forall k | 0 <= k < |c| ensures c[k] == (c1 + c2)[k] {
        if k >= |s1| { assert (s1 + s2)[k] == s2[k - |s1|]; }
      }
    }
    WeightedSumMvAdditive(c1, w1, c2, w2, |cent|, Cols(cent));
  }

  /** Seeding a buffer whose block holds the aligner's tables gives, on the
      block, the seeded tables of the aligner. */
  lemma SeedingKeepsBlock(fw: Forward, C: Matrix, D: Matrix, m: nat, n: nat,
                          gamma: real, exp: real -> real, negInf: real)
    requires Fits(fw, m, n) && gamma > 0.0 && Covers(C, m + 2, n + 2) && Covers(D, m + 1, n + 1)
    requires forall i, j :: 0 <= i < m + 2 && 0 <= j < n + 2 ==> C[i][j] == fw.cost[i][j]
    requires forall i, j :: 0 <= i < m + 1 && 0 <= j < n + 1 ==> D[i][j] == fw.dist[i][j]
    ensures SameBlock(Seeded(fw, m, n, gamma, exp, negInf), SeededCost(C, m, n, negInf), SeededDist(D, m, n))
  {
  }

  /** The contribution of a series reads only the block of its tables. */
  lemma GradientUvReadsOnlyBlock(p: Problem, C: Matrix, D: Matrix, x: seq<real>, y: seq<real>)
    requires p.WellFormed() && SameBlock(p, C, D) && p.m == |x| && p.n == |y|
    ensures GradientUv(p.(cost := C, dist := D), x, y) == GradientUv(p, x, y)
  {
    forall r | 0 <= r < |x|
      ensures GradientUv(p.(cost := C, dist := D), x, y)[r] == GradientUv(p, x, y)[r]
    {
      RowReadsOnlyBlock(p, C, D, r + 1);
    }
  }

  /** The same for vector points. */
  lemma GradientMvReadsOnlyBlock(p: Problem, C: Matrix, D: Matrix, x: seq<seq<real>>, y: seq<seq<real>>)
    requires p.WellFormed() && SameBlock(p, C, D) && p.m == |x| && p.n == |y|
    requires IsTable(x) && HasDim(y, Cols(x))
    ensures GradientMv(p.(cost := C, dist := D), x, y) == GradientMv(p, x, y)
  {
    forall r | 0 <= r < |x|
      ensures GradientMv(p.(cost := C, dist := D), x, y)[r] == GradientMv(p, x, y)[r]
    {
      RowReadsOnlyBlock(p, C, D, r + 1);
    }
  }

  /** One more series in the objective adds its weighted distance d. */
  lemma BatchObjectiveStep<P>(forward: (seq<P>, seq<P>) -> Forward, cent: seq<P>,
                              series: seq<seq<P>>, weights: seq<real>, k: nat, d: real)
    requires |weights| == |series| && k < |series| && d == forward(cent, series[k]).distance
    ensures BatchObjective(forward, cent, series[..k + 1], weights[..k + 1])
         == BatchObjective(forward, cent, series[..k], weights[..k]) + weights[k] * d
  {
    assert series[..k + 1][..k] == series[..k] && weights[..k + 1][..k] == weights[..k];
  }

  /** The scalar contribution computed on reused buffers, which hold the
      aligner's tables only in the pair's block and are then seeded, is the
      contribution of the aligner's own seeded tables. */
  lemma SeededBufferGradientUv(fw: Forward, C: Matrix, D: Matrix, gamma: real, exp: real -> real,
                               negInf: real, x: seq<real>, y: seq<real>)
    requires Fits(fw, |x|, |y|) && gamma > 0.0 && Covers(C, |x| + 2, |y| + 2) && Covers(D, |x| + 1, |y| + 1)
    requires forall i, j :: 0 <= i < |x| + 2 && 0 <= j < |y| + 2 ==> C[i][j] == fw.cost[i][j]
    requires forall i, j :: 0 <= i < |x| + 1 && 0 <= j < |y| + 1 ==> D[i][j] == fw.dist[i][j]
    ensures GradientUv(Problem(SeededCost(C, |x|, |y|, negInf), SeededDist(D, |x|, |y|), |x|, |y|, gamma, exp), x, y)
         == GradientUv(Seeded(fw, |x|, |y|, gamma, exp, negInf), x, y)
  {
    var p := Seeded(fw, |x|, |y|, gamma, exp, negInf);
    SeedingKeepsBlock(fw, C, D, |x|, |y|, gamma, exp, negInf);
    GradientUvReadsOnlyBlock(p, SeededCost(C, |x|, |y|, negInf), SeededDist(D, |x|, |y|), x, y);
  }

  /** The same for vector points. */
  lemma SeededBufferGradientMv(fw: Forward, C: Matrix, D: Matrix, gamma: real, exp: real -> real,
                               negInf: real, x: seq<seq<real>>, y: seq<seq<real>>)
    requires Fits(fw, |x|, |y|) && gamma > 0.0 && Covers(C, |x| + 2, |y| + 2) && Covers(D, |x| + 1, |y| + 1)
    requires IsTable(x) && HasDim(y, Cols(x))
    requires forall i, j :: 0 <= i < |x| + 2 && 0 <= j < |y| + 2 ==> C[i][j] == fw.cost[i][j]
    requires forall i, j :: 0 <= i < |x| + 1 && 0 <= j < |y| + 1 ==> D[i][j] == fw.dist[i][j]
    ensures GradientMv(Problem(SeededCost(C, |x|, |y|, negInf), SeededDist(D, |x|, |y|), |x|, |y|, gamma, exp), x, y)
         == GradientMv(Seeded(fw, |x|, |y|, gamma, exp, negInf), x, y)
  {
    var p := Seeded(fw, |x|, |y|, gamma, exp, negInf);
    SeedingKeepsBlock(fw, C, D, |x|, |y|, gamma, exp, negInf);
    GradientMvReadsOnlyBlock(p, SeededCost(C, |x|, |y|, negInf), SeededDist(D, |x|, |y|), x, y);
  }

  /** One more series in the scalar batch gradient adds its weighted
      contribution. */
  lemma BatchGradientUvStep(forward: (seq<real>, seq<real>) -> Forward, gamma: real, exp: real -> real,
                            negInf: real, cent: seq<real>, series: seq<seq<real>>, weights: seq<real>, k: nat)
    requires gamma > 0.0 && |weights| == |series| && AllFit(forward, cent, series) && k < |series|
    ensures AllFit(forward, cent, series[..k]) && AllFit(forward, cent, series[..k + 1])
    ensures BatchGradientUv(forward, gamma, exp, negInf, cent, series[..k + 1], weights[..k + 1])
         == Accumulate(BatchGradientUv(forward, gamma, exp, negInf, cent, series[..k], weights[..k]), weights[k],
                       GradientUv(Seeded(forward(cent, series[k]), |cent|, |series[k]|, gamma, exp, negInf), cent, series[k]))
  {
    var s0, s1 := series[..k], series[..k + 1];
    assert s1[..k] == s0 && s1[k] == series[k];
    var c0 := ContributionsUv(forward, gamma, exp, negInf, cent, s0);
    var c1 := ContributionsUv(forward, gamma, exp, negInf, cent, s1);
    assert c1[..k] == c0;
    assert weights[..k + 1][..k] == weights[..k];
  }

  /** One more series in the vector batch gradient adds its weighted
      contribution. */
  lemma BatchGradientMvStep(forward: (seq<seq<real>>, seq<seq<real>>) -> Forward, gamma: real, exp: real -> real,
                            negInf: real, cent: seq<seq<real>>, series: seq<seq<seq<real>>>, weights: seq<real>, k: nat)
    requires gamma > 0.0 && |weights| == |series| && AllFit(forward, cent, series) && k < |series|
    requires IsTable(cent) && forall j :: 0 <= j < |series| ==> HasDim(series[j], Cols(cent))
    ensures AllFit(forward, cent, series[..k]) && AllFit(forward, cent, series[..k + 1])
    ensures BatchGradientMv(forward, gamma, exp, negInf, cent, series[..k + 1], weights[..k + 1])
         == AccumulateMv(BatchGradientMv(forward, gamma, exp, negInf, cent, series[..k], weights[..k]), weights[k],
                         GradientMv(Seeded(forward(cent, series[k]), |cent|, |series[k]|, gamma, exp, negInf), cent, series[k]))
  {
    var s0, s1 := series[..k], series[..k + 1];
    assert s1[..k] == s0 && s1[k] == series[k];
    var c0 := ContributionsMv(forward, gamma, exp, negInf, cent, s0);
    var c1 := ContributionsMv(forward, gamma, exp, negInf, cent, s1);
    assert c1[..k] == c0;
    assert weights[..k + 1][..k] == weights[..k];
  }
}
