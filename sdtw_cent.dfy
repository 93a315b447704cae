/** The soft-DTW barycenter backward pass over caller-owned buffers: the
    cumulative cost buffer cm, the distance buffer dm and the two-row
    responsibility buffer em. Each method is proved against the pure
    definitions of BackwardTable and GradientSpec. */
module SdtwCent {
  import opened BackwardTable
  import opened GradientSpec

  /** The buffers are large enough for a centroid of length m and a series
      of length n. */
  predicate BuffersFit(m: nat, n: nat, cm: array2<real>, dm: array2<real>, em: array2<real>) {
    m + 2 <= cm.Length0 && n + 2 <= cm.Length1 &&
    m + 1 <= dm.Length0 && n + 1 <= dm.Length1 &&
    2 <= em.Length0 && n + 2 <= em.Length1
  }

  /** The three buffers are distinct objects. */
  predicate Distinct(cm: array2<real>, dm: array2<real>, em: array2<real>) {
    cm != dm && cm != em && dm != em
  }

  /** Seeds the padding of cm and dm for a centroid of length m and a series
      of length n, and resets em to the single 1 at column n+1 of the parity
      row of m+1. */
  method InitMatrices(m: nat, n: nat, negInf: real, cm: array2<real>, dm: array2<real>, em: array2<real>)
    requires BuffersFit(m, n, cm, dm, em) && Distinct(cm, dm, em)
    modifies cm, dm, em
    ensures forall i, j :: 0 <= i < dm.Length0 && 0 <= j < dm.Length1 ==>
      dm[i, j] == if DistBoundary(m, n, i, j) then 0.0 else old(dm[i, j])
    ensures forall i, j :: 0 <= i < cm.Length0 && 0 <= j < cm.Length1 ==>
      cm[i, j] == if i == m + 1 && j == n + 1 then old(cm[m, n])
                  else if CostBoundary(m, n, i, j) then negInf
                  else old(cm[i, j])
    ensures forall r, c :: 0 <= r < em.Length0 && 0 <= c < em.Length1 ==>
      em[r, c] == if r == (m + 1) % 2 && c == n + 1 then 1.0 else 0.0
  {
    for i := 1 to m + 1
      invariant forall a, b :: 0 <= a < dm.Length0 && 0 <= b < dm.Length1 ==>
        dm[a, b] == if b == n && a < i - 1 then 0.0 else old(dm[a, b])
      invariant forall a, b :: 0 <= a < cm.Length0 && 0 <= b < cm.Length1 ==>
        cm[a, b] == if b == n + 1 && 1 <= a < i then negInf else old(cm[a, b])
    {
      dm[i - 1, n] := 0.0;
      cm[i, n + 1] := negInf;
    }
    for j := 1 to n + 1
      invariant forall a, b :: 0 <= a < dm.Length0 && 0 <= b < dm.Length1 ==>
        dm[a, b] == if (b == n && a < m) || (a == m && b < j - 1) then 0.0 else old(dm[a, b])
      invariant forall a, b :: 0 <= a < cm.Length0 && 0 <= b < cm.Length1 ==>
        cm[a, b] == if (b == n + 1 && 1 <= a <= m) || (a == m + 1 && 1 <= b < j) then negInf
                    else old(cm[a, b])
    {
      dm[m, j - 1] := 0.0;
      cm[m + 1, j] := negInf;
    }
    cm[m + 1, n + 1] := cm[m, n];
    dm[m, n] := 0.0;
    forall r, c | 0 <= r < em.Length0 && 0 <= c < em.Length1 {
      em[r, c] := 0.0;
    }
    em[(m + 1) % 2, n + 1] := 1.0;
  }

  /** Cells 0..rows-1 x 0..cols-1 of buffer a hold those of table M. */
  ghost predicate Mirrors(a: array2<real>, M: Matrix, rows: nat, cols: nat)
    reads a
  {
    rows <= a.Length0 && cols <= a.Length1 && Covers(M, rows, cols) &&
    forall r, c :: 0 <= r < rows && 0 <= c < cols ==> a[r, c] == M[r][c]
  }

  /** The contents of buffer a, cell by cell. */
  lemma Contents(a: array2<real>) returns (M: Matrix)
    ensures |M| == a.Length0 && forall r :: 0 <= r < |M| ==> |M[r]| == a.Length1
    ensures Mirrors(a, M, a.Length0, a.Length1)
  {
    M := Snapshot(a);
  }

  /** A table that holds every cell of a buffer is its snapshot. */
  lemma SnapshotOfMirror(a: array2<real>, M: Matrix)
    requires |M| == a.Length0 && forall r :: 0 <= r < |M| ==> |M[r]| == a.Length1
    requires Mirrors(a, M, a.Length0, a.Length1)
    ensures Snapshot(a) == M
  {
    var S := Snapshot(a);
    forall r | 0 <= r < |M| ensures S[r] == M[r] {
      assert forall c :: 0 <= c < a.Length1 ==> S[r][c] == M[r][c];
    }
  }

  /** A buffer holding the seeded cells of table C is the seeded table. */
  lemma SeededCostSnapshot(a: array2<real>, C: Matrix, m: nat, n: nat, negInf: real)
    requires |C| == a.Length0 && forall r :: 0 <= r < |C| ==> |C[r]| == a.Length1
    requires m + 2 <= a.Length0 && n + 2 <= a.Length1
    requires forall i, j :: 0 <= i < a.Length0 && 0 <= j < a.Length1 ==>
      a[i, j] == if i == m + 1 && j == n + 1 then C[m][n] else if CostBoundary(m, n, i, j) then negInf else C[i][j]
    ensures Snapshot(a) == SeededCost(C, m, n, negInf)
  {
    SnapshotOfMirror(a, SeededCost(C, m, n, negInf));
  }

  /** The same for the distance table. */
  lemma SeededDistSnapshot(a: array2<real>, D: Matrix, m: nat, n: nat)
    requires |D| == a.Length0 && forall r :: 0 <= r < |D| ==> |D[r]| == a.Length1
    requires m + 1 <= a.Length0 && n + 1 <= a.Length1
    requires forall i, j :: 0 <= i < a.Length0 && 0 <= j < a.Length1 ==>
      a[i, j] == if DistBoundary(m, n, i, j) then 0.0 else D[i][j]
    ensures Snapshot(a) == SeededDist(D, m, n)
  {
    SnapshotOfMirror(a, SeededDist(D, m, n));
  }

  /** What the reset leaves in em is what the row loop expects before its
      first pass: the parity row of m+1 holds row m+1 of the table (the
      seed 1 at its corner, 0 elsewhere), and the cell that row m reads as
      its right edge, column n+1 of the parity row of m, is 0 as in row m of
      the table. */
  lemma SeedIsLastRow(p: Problem, T: seq<seq<real>>, em: array2<real>)
    requires p.WellFormed() && TableOf(p, T) && 2 <= em.Length0 && p.n + 2 <= em.Length1
    requires forall r, c :: 0 <= r < em.Length0 && 0 <= c < em.Length1 ==>
      em[r, c] == if r == (p.m + 1) % 2 && c == p.n + 1 then 1.0 else 0.0
    ensures forall r, c :: r == (p.m + 1) % 2 && 1 <= c <= p.n + 1 ==> em[r, c] == T[p.m + 1][c]
    ensures em[p.m % 2, p.n + 1] == 0.0
    ensures 1 <= p.m ==> em[p.m % 2, p.n + 1] == T[p.m][p.n + 1]
  {
    forall r, c | r == (p.m + 1) % 2 && 1 <= c <= p.n + 1 ensures em[r, c] == T[p.m + 1][c] {
      assert T[p.m + 1][c] == E(p, p.m + 1, c);
    }
    if 1 <= p.m {
      assert T[p.m][p.n + 1] == E(p, p.m, p.n + 1);
    }
  }

  /** A vector buffer holding before plus weight times g, entry by entry, is
      that accumulation. */
  lemma ContentsAreAccumulate(a: array<real>, before: seq<real>, weight: real, g: seq<real>)
    requires |before| == a.Length && |g| == a.Length
    requires forall r :: 0 <= r < a.Length ==> a[r] == before[r] + weight * g[r]
    ensures a[..] == Accumulate(before, weight, g)
  {
    var v := Accumulate(before, weight, g);
    forall r | 0 <= r < a.Length ensures a[..][r] == v[r] {
    }
  }

  /** A buffer holding before plus weight times g, cell by cell, is that
      accumulation. */
  lemma SnapshotIsAccumulateMv(a: array2<real>, before: Matrix, weight: real, g: Matrix)
    requires Shaped(before, a.Length0, a.Length1) && Shaped(g, a.Length0, a.Length1)
    requires forall r, k :: 0 <= r < a.Length0 && 0 <= k < a.Length1 ==> a[r, k] == before[r][k] + weight * g[r][k]
    ensures Snapshot(a) == AccumulateMv(before, weight, g)
  {
    var M := AccumulateMv(before, weight, g);
    forall r, k | 0 <= r < a.Length0 && 0 <= k < a.Length1 ensures a[r, k] == M[r][k] {
    }
    SnapshotOfMirror(a, M);
  }

  /** Fills cells n down to 1 of the parity row of i with the backward step
      of the tables C and D that cm and dm hold, reading the other parity
      row as row i+1. The ghost results are the two parity rows afterwards:
      the row of i is swept against the other one. Every other cell of em
      is left alone. */
  method UpdateEm(i: nat, n: nat, gamma: real, exp: real -> real,
                  cm: array2<real>, dm: array2<real>, em: array2<real>, ghost C: Matrix, ghost D: Matrix)
    returns (ghost prev: seq<real>, ghost row: seq<real>)
    requires 1 <= i && gamma > 0.0 && BuffersFit(i, n, cm, dm, em) && Distinct(cm, dm, em)
    requires Mirrors(cm, C, i + 2, n + 2) && Mirrors(dm, D, i + 1, n + 1)
    modifies em
    ensures |prev| == em.Length1 && |row| == em.Length1
    ensures forall c :: 0 <= c < em.Length1 ==> em[(i + 1) % 2, c] == prev[c] && em[i % 2, c] == row[c]
    ensures SweptFrom(C, D, gamma, exp, i, n, prev, row, 0)
    ensures forall r, c :: 0 <= r < em.Length0 && 0 <= c < em.Length1 && !(r == i % 2 && 1 <= c <= n) ==>
      em[r, c] == old(em[r, c])
  {
    var cur, other := i % 2, (i + 1) % 2;
    prev, row := Row(em, other), Row(em, cur);
    var j := n;
    while j > 0
      invariant 0 <= j <= n && |row| == em.Length1
      invariant forall c :: 0 <= c < em.Length1 ==> em[cur, c] == row[c] && em[other, c] == prev[c]
      invariant SweptFrom(C, D, gamma, exp, i, n, prev, row, j)
      invariant forall r, c :: 0 <= r < em.Length0 && 0 <= c < em.Length1 && !(r == cur && j < c <= n) ==>
        em[r, c] == old(em[r, c])
    {
      var a := exp((cm[i + 1, j] - cm[i, j] - dm[i, j - 1]) / gamma);
      var b := exp((cm[i, j + 1] - cm[i, j] - dm[i - 1, j]) / gamma);
      var c := exp((cm[i + 1, j + 1] - cm[i, j] - dm[i, j]) / gamma);
      ghost var v := Backstep(C, D, gamma, exp, i, j, prev[j], row[j + 1], prev[j + 1]);
      assert v == Combine(a, b, c, prev[j], row[j + 1], prev[j + 1]);
      em[cur, j] := Combine(a, b, c, em[other, j], em[cur, j + 1], em[other, j + 1]);
      SweepStep(C, D, gamma, exp, i, n, prev, row, j);
      row := row[j := v];
      j := j - 1;
    }
  }

  /** The gradient sum of one centroid point xi over row r of em: the sum
      over j of em[r, j+1] * 2 * (xi - y[j]). */
  method RowGradient(em: array2<real>, r: nat, xi: real, y: seq<real>, ghost row: seq<real>) returns (grad: real)
    requires r < em.Length0 && |y| < em.Length1 && |y| < |row|
    requires forall c :: 1 <= c <= |y| ==> em[r, c] == row[c]
    ensures grad == Partial(row, xi, y, |y|)
  {
    grad := 0.0;
    for j := 0 to |y|
      invariant grad == Partial(row, xi, y, j)
    {
      assert em[r, j + 1] == row[j + 1];
      grad := grad + Term(em[r, j + 1], xi, y[j]);
    }
  }

  /** One pass of the row loop of the scalar update for row i: sweeps the
      parity row of i, adds weight times its gradient sum to entry i-1 and,
      on the first pass, clears the corner seed. Row i+1 of the table T is
      expected in the other parity row; afterwards row i is in the parity
      row of i and the other row ends in 0, as the next pass expects. */
  method GradientStepUv(gradient: array<real>, weight: real, gamma: real, exp: real -> real,
                        cm: array2<real>, dm: array2<real>,
                        em: array2<real>, x: seq<real>, y: seq<real>, i: nat,
                        ghost p: Problem, ghost T: seq<seq<real>>, ghost g: seq<real>)
    requires p.WellFormed() && p.m == |x| && p.n == |y| && p.gamma == gamma && p.exp == exp && 1 <= i <= |x|
    requires gradient.Length == |x| && BuffersFit(|x|, |y|, cm, dm, em) && Distinct(cm, dm, em)
    requires Mirrors(cm, p.cost, i + 2, |y| + 2) && Mirrors(dm, p.dist, i + 1, |y| + 1)
    requires TableOf(p, T) && forall j :: 1 <= j <= |x| ==> T[j][|y| + 1] == 0.0
    requires |g| == |x| && g[i - 1] == Partial(T[i], x[i - 1], y, |y|)
    requires forall r, c :: r == (i + 1) % 2 && 1 <= c <= |y| + 1 ==> em[r, c] == T[i + 1][c]
    requires em[i % 2, |y| + 1] == 0.0
    modifies em, gradient
    ensures forall r, c :: r == i % 2 && 1 <= c <= |y| + 1 ==> em[r, c] == T[i][c]
    ensures em[(i + 1) % 2, |y| + 1] == 0.0
    ensures forall r :: 0 <= r < |x| ==>
      gradient[r] == if r == i - 1 then old(gradient[r]) + weight * g[r] else old(gradient[r])
  {
    var n := |y|;
    ghost var prev, row := UpdateEm(i, n, gamma, exp, cm, dm, em, p.cost, p.dist);
    SweepRowOfTable(p, T, i, prev, row);
    var grad := RowGradient(em, i % 2, x[i - 1], y, row);
    PartialAgrees(row, T[i], x[i - 1], y, n);
    gradient[i - 1] := gradient[i - 1] + weight * grad;
    if i == |x| {
      em[(i + 1) % 2, n + 1] := 0.0;
    }
  }

  /** The row loop of the scalar update, from row |x| down to row 1. It
      starts with row |x|+1 of the table T of p in the parity row of |x|+1
      and 0 at the right edge of the other row. Every entry r of the gradient
      gains weight times g[r], the row sum of row r+1 of T. At the end, row 1
      of T is in em row 1 and the right edge of em row 0 is 0. */
  method RowLoopUv(gradient: array<real>, weight: real, gamma: real, exp: real -> real,
                   cm: array2<real>, dm: array2<real>, em: array2<real>, x: seq<real>, y: seq<real>,
                   ghost p: Problem, ghost T: seq<seq<real>>, ghost g: seq<real>)
    requires p.WellFormed() && p.m == |x| && p.n == |y| && p.gamma == gamma && p.exp == exp
    requires gradient.Length == |x| && BuffersFit(|x|, |y|, cm, dm, em) && Distinct(cm, dm, em)
    requires Mirrors(cm, p.cost, |x| + 2, |y| + 2) && Mirrors(dm, p.dist, |x| + 1, |y| + 1)
    requires TableOf(p, T) && forall j :: 1 <= j <= |x| ==> T[j][|y| + 1] == 0.0
    requires |g| == |x| && forall r :: 0 <= r < |x| ==> g[r] == Partial(T[r + 1], x[r], y, |y|)
    requires forall r, c :: r == (|x| + 1) % 2 && 1 <= c <= |y| + 1 ==> em[r, c] == T[|x| + 1][c]
    requires em[|x| % 2, |y| + 1] == 0.0
    modifies em, gradient
    ensures forall r :: 0 <= r < |x| ==> gradient[r] == old(gradient[r]) + weight * g[r]
    ensures forall r, c :: r == 1 && 1 <= c <= |y| + 1 ==> em[r, c] == T[1][c]
    ensures em[0, |y| + 1] == 0.0
  {
    ghost var before := gradient[..];
    var i := |x|;
    while i > 0
      invariant 0 <= i <= |x|
      invariant forall r, c :: r == (i + 1) % 2 && 1 <= c <= |y| + 1 ==> em[r, c] == T[i + 1][c]
      invariant em[i % 2, |y| + 1] == 0.0
      invariant forall r :: i <= r < |x| ==> gradient[r] == before[r] + weight * g[r]
      invariant forall r :: 0 <= r < i ==> gradient[r] == before[r]
    {
      GradientStepUv(gradient, weight, gamma, exp, cm, dm, em, x, y, i, p, T, g);
      assert (i - 1) % 2 == (i + 1) % 2;
      i := i - 1;
    }
  }

  /** Adds weight times the gradient contribution of series y to the
      gradient of the scalar centroid x, sweeping the responsibility table
      from row |x| up to row 1 through the two rows of em. Before the sweep
      the buffers are seeded as InitMatrices does; the corner seed of em is
      cleared once row |x| is done. */
  method UpdateGradientUv(gradient: array<real>, weight: real, gamma: real, exp: real -> real, negInf: real,
                          cm: array2<real>, dm: array2<real>, em: array2<real>, x: seq<real>, y: seq<real>)
    requires gamma > 0.0 && gradient.Length == |x|
    requires BuffersFit(|x|, |y|, cm, dm, em) && Distinct(cm, dm, em)
    modifies gradient, cm, dm, em
    ensures em[0, |y| + 1] == 0.0 && em[1, |y| + 1] == if |x| == 0 then 1.0 else 0.0
    ensures forall i, j :: 0 <= i < dm.Length0 && 0 <= j < dm.Length1 ==>
      dm[i, j] == if DistBoundary(|x|, |y|, i, j) then 0.0 else old(dm[i, j])
    ensures forall i, j :: 0 <= i < cm.Length0 && 0 <= j < cm.Length1 ==>
      cm[i, j] == if i == |x| + 1 && j == |y| + 1 then old(cm[|x|, |y|])
                  else if CostBoundary(|x|, |y|, i, j) then negInf
                  else old(cm[i, j])
    ensures gradient[..] == Accumulate(old(gradient[..]), weight,
                                       GradientUv(Problem(Snapshot(cm), Snapshot(dm), |x|, |y|, gamma, exp), x, y))
  {
    ghost var before := gradient[..];
    var m, n := |x|, |y|;
    InitMatrices(m, n, negInf, cm, dm, em);
    ghost var C := Contents(cm);
    ghost var D := Contents(dm);
    ghost var p := Problem(C, D, m, n, gamma, exp);
    ghost var T := Table(p);
    SeedIsLastRow(p, T, em);
    ghost var g := TableSumsUv(T, x, y);
    RowLoopUv(gradient, weight, gamma, exp, cm, dm, em, x, y, p, T, g);
    ContentsAreAccumulate(gradient, before, weight, g);
    TableSumsAreGradientUv(p, T, x, y, g);
    SnapshotOfMirror(cm, C);
    SnapshotOfMirror(dm, D);
  }

  /** The coordinate sums of centroid point xi over row r of em, into grad:
      after zeroing grad, every series point j adds em[r, j+1] * 2 *
      (xi[k] - y[j][k]) to grad[k] for each of the dim coordinates k. */
  method RowGradientMv(em: array2<real>, r: nat, xi: seq<real>, y: seq<seq<real>>, dim: nat,
                       grad: array<real>, ghost row: seq<real>)
    requires r < em.Length0 && |y| < em.Length1 && |y| < |row|
    requires grad.Length == dim && dim <= |xi| && HasDim(y, dim)
    requires forall c :: 1 <= c <= |y| ==> em[r, c] == row[c]
    modifies grad
    ensures forall k :: 0 <= k < dim ==> grad[k] == PartialMv(row, xi, y, k, |y|)
  {
    forall k | 0 <= k < dim {
      grad[k] := 0.0;
    }
    for j := 0 to |y|
      invariant forall k :: 0 <= k < dim ==> grad[k] == PartialMv(row, xi, y, k, j)
    {
      assert em[r, j + 1] == row[j + 1];
      for k := 0 to dim
        invariant forall q :: 0 <= q < k ==> grad[q] == PartialMv(row, xi, y, q, j + 1)
        invariant forall q :: k <= q < dim ==> grad[q] == PartialMv(row, xi, y, q, j)
      {
        grad[k] := grad[k] + Term(em[r, j + 1], xi[k], y[j][k]);
      }
    }
  }

  /** Adds weight times grad to row r of the gradient, entry by entry; every
      other row is left alone. */
  method AddScaledRow(gradient: array2<real>, r: nat, weight: real, grad: array<real>)
    requires r < gradient.Length0 && grad.Length == gradient.Length1
    modifies gradient
    ensures forall a, k :: 0 <= a < gradient.Length0 && 0 <= k < gradient.Length1 ==>
      gradient[a, k] == if a == r then old(gradient[a, k]) + weight * grad[k] else old(gradient[a, k])
  {
    for k := 0 to gradient.Length1
      invariant forall a, q :: 0 <= a < gradient.Length0 && 0 <= q < gradient.Length1 ==>
        gradient[a, q] == if a == r && q < k then old(gradient[a, q]) + weight * grad[q] else old(gradient[a, q])
    {
      gradient[r, k] := gradient[r, k] + weight * grad[k];
    }
  }

  /** One pass of the row loop of the vector update for row i: sweeps the
      parity row of i, adds weight times its coordinate sums to row i-1 of
      the gradient and, on the first pass, clears the corner seed. */
  method GradientStepMv(gradient: array2<real>, grad: array<real>, weight: real, gamma: real, exp: real -> real,
                        cm: array2<real>, dm: array2<real>, em: array2<real>,
                        x: seq<seq<real>>, y: seq<seq<real>>, dim: nat, i: nat,
                        ghost p: Problem, ghost T: seq<seq<real>>, ghost g: seq<seq<real>>)
    requires p.WellFormed() && p.m == |x| && p.n == |y| && p.gamma == gamma && p.exp == exp && 1 <= i <= |x|
    requires IsTable(x) && dim == Cols(x) && HasDim(y, dim)
    requires gradient.Length0 == |x| && gradient.Length1 == dim && grad.Length == dim
    requires BuffersFit(|x|, |y|, cm, dm, em) && Distinct(cm, dm, em) && gradient != em
    requires Mirrors(cm, p.cost, i + 2, |y| + 2) && Mirrors(dm, p.dist, i + 1, |y| + 1)
    requires TableOf(p, T) && forall j :: 1 <= j <= |x| ==> T[j][|y| + 1] == 0.0
    requires Shaped(g, |x|, dim)
    requires forall r, k :: r == i - 1 && 0 <= k < dim ==> g[r][k] == PartialMv(T[r + 1], x[r], y, k, |y|)
    requires forall r, c :: r == (i + 1) % 2 && 1 <= c <= |y| + 1 ==> em[r, c] == T[i + 1][c]
    requires em[i % 2, |y| + 1] == 0.0
    modifies em, gradient, grad
    ensures forall r, c :: r == i % 2 && 1 <= c <= |y| + 1 ==> em[r, c] == T[i][c]
    ensures em[(i + 1) % 2, |y| + 1] == 0.0
    ensures forall r, k :: 0 <= r < |x| && 0 <= k < dim ==>
      gradient[r, k] == if r == i - 1 then old(gradient[r, k]) + weight * g[r][k] else old(gradient[r, k])
  {
    var n := |y|;
    ghost var prev, row := UpdateEm(i, n, gamma, exp, cm, dm, em, p.cost, p.dist);
    SweepRowOfTable(p, T, i, prev, row);
    RowGradientMv(em, i % 2, x[i - 1], y, dim, grad, row);
    forall k | 0 <= k < dim ensures grad[k] == g[i - 1][k] {
      PartialMvAgrees(row, T[i], x[i - 1], y, k, n);
    }
    AddScaledRow(gradient, i - 1, weight, grad);
    if i == |x| {
      em[(i + 1) % 2, n + 1] := 0.0;
    }
  }

  /** The row loop of the vector update, from row |x| down to row 1, with
      the same effect on em as the scalar loop. Every cell (r, k) of the
      gradient gains weight times g[r][k], the coordinate sum of row r+1 of
      T. */
  method RowLoopMv(gradient: array2<real>, grad: array<real>, weight: real, gamma: real, exp: real -> real,
                   cm: array2<real>, dm: array2<real>, em: array2<real>,
                   x: seq<seq<real>>, y: seq<seq<real>>, dim: nat,
                   ghost p: Problem, ghost T: seq<seq<real>>, ghost g: seq<seq<real>>)
    requires p.WellFormed() && p.m == |x| && p.n == |y| && p.gamma == gamma && p.exp == exp
    requires IsTable(x) && dim == Cols(x) && HasDim(y, dim)
    requires gradient.Length0 == |x| && gradient.Length1 == dim && grad.Length == dim
    requires BuffersFit(|x|, |y|, cm, dm, em) && Distinct(cm, dm, em) && gradient != em
    requires Mirrors(cm, p.cost, |x| + 2, |y| + 2) && Mirrors(dm, p.dist, |x| + 1, |y| + 1)
    requires TableOf(p, T) && forall j :: 1 <= j <= |x| ==> T[j][|y| + 1] == 0.0
    requires Shaped(g, |x|, dim)
    requires forall r, k :: 0 <= r < |x| && 0 <= k < dim ==> g[r][k] == PartialMv(T[r + 1], x[r], y, k, |y|)
    requires forall r, c :: r == (|x| + 1) % 2 && 1 <= c <= |y| + 1 ==> em[r, c] == T[|x| + 1][c]
    requires em[|x| % 2, |y| + 1] == 0.0
    modifies em, gradient, grad
    ensures forall r, k :: 0 <= r < |x| && 0 <= k < dim ==> gradient[r, k] == old(gradient[r, k]) + weight * g[r][k]
    ensures forall r, c :: r == 1 && 1 <= c <= |y| + 1 ==> em[r, c] == T[1][c]
    ensures em[0, |y| + 1] == 0.0
  {
    var i := |x|;
    while i > 0
      invariant 0 <= i <= |x|
      invariant forall r, c :: r == (i + 1) % 2 && 1 <= c <= |y| + 1 ==> em[r, c] == T[i + 1][c]
      invariant em[i % 2, |y| + 1] == 0.0
      invariant forall r, k :: i <= r < |x| && 0 <= k < dim ==> gradient[r, k] == old(gradient[r, k]) + weight * g[r][k]
      invariant forall r, k :: 0 <= r < i && 0 <= k < dim ==> gradient[r, k] == old(gradient[r, k])
    {
      GradientStepMv(gradient, grad, weight, gamma, exp, cm, dm, em, x, y, dim, i, p, T, g);
      assert (i - 1) % 2 == (i + 1) % 2;
      i := i - 1;
    }
  }

  /** Adds weight times the gradient contribution of series y to the
      gradient of the vector centroid x, one row of the responsibility table
      at a time, with a scratch vector of Cols(x) coordinate sums. */
  method UpdateGradientMv(gradient: array2<real>, weight: real, gamma: real, exp: real -> real, negInf: real,
                          cm: array2<real>, dm: array2<real>, em: array2<real>,
                          x: seq<seq<real>>, y: seq<seq<real>>)
    requires gamma > 0.0 && IsTable(x) && HasDim(y, Cols(x))
    requires gradient.Length0 == |x| && gradient.Length1 == Cols(x)
    requires BuffersFit(|x|, |y|, cm, dm, em) && Distinct(cm, dm, em)
    requires gradient != cm && gradient != dm && gradient != em
    modifies gradient, cm, dm, em
    ensures em[0, |y| + 1] == 0.0 && em[1, |y| + 1] == if |x| == 0 then 1.0 else 0.0
    ensures forall i, j :: 0 <= i < dm.Length0 && 0 <= j < dm.Length1 ==>
      dm[i, j] == if DistBoundary(|x|, |y|, i, j) then 0.0 else old(dm[i, j])
    ensures forall i, j :: 0 <= i < cm.Length0 && 0 <= j < cm.Length1 ==>
      cm[i, j] == if i == |x| + 1 && j == |y| + 1 then old(cm[|x|, |y|])
                  else if CostBoundary(|x|, |y|, i, j) then negInf
                  else old(cm[i, j])
    ensures Snapshot(gradient) == AccumulateMv(old(Snapshot(gradient)), weight,
                                               GradientMv(Problem(Snapshot(cm), Snapshot(dm), |x|, |y|, gamma, exp), x, y))
  {
    ghost var before := Snapshot(gradient);
    var m, n, dim := |x|, |y|, Cols(x);
    var grad := new real[dim];
    InitMatrices(m, n, negInf, cm, dm, em);
    ghost var C := Contents(cm);
    ghost var D := Contents(dm);
    ghost var p := Problem(C, D, m, n, gamma, exp);
    ghost var T := Table(p);
    SeedIsLastRow(p, T, em);
    ghost var g := TableSumsMv(T, x, y);
    RowLoopMv(gradient, grad, weight, gamma, exp, cm, dm, em, x, y, dim, p, T, g);
    SnapshotIsAccumulateMv(gradient, before, weight, g);
    TableSumsAreGradientMv(p, T, x, y, g);
    SnapshotOfMirror(cm, C);
    SnapshotOfMirror(dm, D);
  }

  /** The forward aligner of the distance module, as an oracle: forward(x, y)
      is its output for the pair. Its cost and distance tables are written
      into the leading (|x|+2) x (|y|+2) and (|x|+1) x (|y|+1) blocks of cm
      and dm, and its soft-DTW distance is returned. */
  method SoftDtw<P>(forward: (seq<P>, seq<P>) -> Forward, x: seq<P>, y: seq<P>,
                    cm: array2<real>, dm: array2<real>) returns (d: real)
    requires Fits(forward(x, y), |x|, |y|) && cm != dm
    requires |x| + 2 <= cm.Length0 && |y| + 2 <= cm.Length1 && |x| + 1 <= dm.Length0 && |y| + 1 <= dm.Length1
    modifies cm, dm
    ensures d == forward(x, y).distance
    ensures forall i, j :: 0 <= i < cm.Length0 && 0 <= j < cm.Length1 ==>
      cm[i, j] == if i < |x| + 2 && j < |y| + 2 then forward(x, y).cost[i][j] else old(cm[i, j])
    ensures forall i, j :: 0 <= i < dm.Length0 && 0 <= j < dm.Length1 ==>
      dm[i, j] == if i < |x| + 1 && j < |y| + 1 then forward(x, y).dist[i][j] else old(dm[i, j])
  {
    var fw := forward(x, y);
    forall i, j | 0 <= i < |x| + 2 && 0 <= j < |y| + 2 {
      cm[i, j] := fw.cost[i][j];
    }
    forall i, j | 0 <= i < |x| + 1 && 0 <= j < |y| + 1 {
      dm[i, j] := fw.dist[i][j];
    }
    d := fw.distance;
  }

  /** Adds weight times the scalar contribution of series y once the
      aligner has left its tables for (cent, y) in the blocks of cm and dm:
      the result is the contribution of the aligner's seeded tables, whatever
      lies outside the blocks. */
  method AddSeriesUv(forward: (seq<real>, seq<real>) -> Forward, cent: seq<real>, y: seq<real>,
                     weight: real, gamma: real, exp: real -> real, negInf: real,
                     cm: array2<real>, dm: array2<real>, em: array2<real>, gradient: array<real>)
    requires gamma > 0.0 && Fits(forward(cent, y), |cent|, |y|) && gradient.Length == |cent|
    requires BuffersFit(|cent|, |y|, cm, dm, em) && Distinct(cm, dm, em)
    requires forall i, j :: 0 <= i < |cent| + 2 && 0 <= j < |y| + 2 ==> cm[i, j] == forward(cent, y).cost[i][j]
    requires forall i, j :: 0 <= i < |cent| + 1 && 0 <= j < |y| + 1 ==> dm[i, j] == forward(cent, y).dist[i][j]
    modifies cm, dm, em, gradient
    ensures gradient[..] == Accumulate(old(gradient[..]), weight,
                                       GradientUv(Seeded(forward(cent, y), |cent|, |y|, gamma, exp, negInf), cent, y))
  {
    ghost var C, D := Snapshot(cm), Snapshot(dm);
    UpdateGradientUv(gradient, weight, gamma, exp, negInf, cm, dm, em, cent, y);
    SeededCostSnapshot(cm, C, |cent|, |y|, negInf);
    SeededDistSnapshot(dm, D, |cent|, |y|);
    SeededBufferGradientUv(forward(cent, y), C, D, gamma, exp, negInf, cent, y);
  }

  /** The same for vector points. */
  method AddSeriesMv(forward: (seq<seq<real>>, seq<seq<real>>) -> Forward, cent: seq<seq<real>>,
                     y: seq<seq<real>>, weight: real, gamma: real, exp: real -> real, negInf: real,
                     cm: array2<real>, dm: array2<real>, em: array2<real>, gradient: array2<real>)
    requires gamma > 0.0 && Fits(forward(cent, y), |cent|, |y|) && IsTable(cent) && HasDim(y, Cols(cent))
    requires gradient.Length0 == |cent| && gradient.Length1 == Cols(cent)
    requires BuffersFit(|cent|, |y|, cm, dm, em) && Distinct(cm, dm, em)
    requires gradient != cm && gradient != dm && gradient != em
    requires forall i, j :: 0 <= i < |cent| + 2 && 0 <= j < |y| + 2 ==> cm[i, j] == forward(cent, y).cost[i][j]
    requires forall i, j :: 0 <= i < |cent| + 1 && 0 <= j < |y| + 1 ==> dm[i, j] == forward(cent, y).dist[i][j]
    modifies cm, dm, em, gradient
    ensures Snapshot(gradient) == AccumulateMv(old(Snapshot(gradient)), weight,
                                               GradientMv(Seeded(forward(cent, y), |cent|, |y|, gamma, exp, negInf), cent, y))
  {
    ghost var C, D := Snapshot(cm), Snapshot(dm);
    UpdateGradientMv(gradient, weight, gamma, exp, negInf, cm, dm, em, cent, y);
    SeededCostSnapshot(cm, C, |cent|, |y|, negInf);
    SeededDistSnapshot(dm, D, |cent|, |y|);
    SeededBufferGradientMv(forward(cent, y), C, D, gamma, exp, negInf, cent, y);
  }

  /** The batch loop for scalar points: for each series in order, runs the
      aligner on (centroid, series), adds the weighted distance to the
      objective and the weighted contribution to a gradient that starts at
      zero, always with the centroid as x and the series as y. */
  method SdtwCentUv(forward: (seq<real>, seq<real>) -> Forward, series: seq<seq<real>>, cent: seq<real>,
                    weights: seq<real>, gamma: real, exp: real -> real, negInf: real,
                    cm: array2<real>, dm: array2<real>, em: array2<real>)
    returns (objective: real, gradient: array<real>)
    requires gamma > 0.0 && |weights| == |series| && AllFit(forward, cent, series)
    requires forall k :: 0 <= k < |series| ==> BuffersFit(|cent|, |series[k]|, cm, dm, em)
    requires Distinct(cm, dm, em)
    modifies cm, dm, em
    ensures fresh(gradient)
    ensures objective == BatchObjective(forward, cent, series, weights)
    ensures gradient[..] == BatchGradientUv(forward, gamma, exp, negInf, cent, series, weights)
  {
    gradient := new real[|cent|](_ => 0.0);
    objective := 0.0;
    assert series[..0] == [] && weights[..0] == [];
    assert gradient[..] == BatchGradientUv(forward, gamma, exp, negInf, cent, series[..0], weights[..0]);
    for k := 0 to |series|
      invariant AllFit(forward, cent, series[..k])
      invariant objective == BatchObjective(forward, cent, series[..k], weights[..k])
      invariant gradient[..] == BatchGradientUv(forward, gamma, exp, negInf, cent, series[..k], weights[..k])
    {
      var d := SoftDtw(forward, cent, series[k], cm, dm);
      objective := objective + weights[k] * d;
      AddSeriesUv(forward, cent, series[k], weights[k], gamma, exp, negInf, cm, dm, em, gradient);
      BatchGradientUvStep(forward, gamma, exp, negInf, cent, series, weights, k);
      BatchObjectiveStep(forward, cent, series, weights, k, d);
    }
    assert series[..|series|] == series && weights[..|series|] == weights;
  }

  /** The batch loop for vector points, with a gradient table of the
      centroid's shape that starts at zero. */
  method SdtwCentMv(forward: (seq<seq<real>>, seq<seq<real>>) -> Forward, series: seq<seq<seq<real>>>,
                    cent: seq<seq<real>>, weights: seq<real>, gamma: real, exp: real -> real, negInf: real,
                    cm: array2<real>, dm: array2<real>, em: array2<real>)
    returns (objective: real, gradient: array2<real>)
    requires gamma > 0.0 && |weights| == |series| && AllFit(forward, cent, series)
    requires IsTable(cent) && forall k :: 0 <= k < |series| ==> HasDim(series[k], Cols(cent))
    requires forall k :: 0 <= k < |series| ==> BuffersFit(|cent|, |series[k]|, cm, dm, em)
    requires Distinct(cm, dm, em)
    modifies cm, dm, em
    ensures fresh(gradient)
    ensures objective == BatchObjective(forward, cent, series, weights)
    ensures Snapshot(gradient) == BatchGradientMv(forward, gamma, exp, negInf, cent, series, weights)
  {
    gradient := new real[|cent|, Cols(cent)]((_, _) => 0.0);
    objective := 0.0;
    assert series[..0] == [] && weights[..0] == [];
    SnapshotOfMirror(gradient, BatchGradientMv(forward, gamma, exp, negInf, cent, series[..0], weights[..0]));
    for k := 0 to |series|
      invariant AllFit(forward, cent, series[..k])
      invariant objective == BatchObjective(forward, cent, series[..k], weights[..k])
      invariant Snapshot(gradient) == BatchGradientMv(forward, gamma, exp, negInf, cent, series[..k], weights[..k])
    {
      var d := SoftDtw(forward, cent, series[k], cm, dm);
      objective := objective + weights[k] * d;
      AddSeriesMv(forward, cent, series[k], weights[k], gamma, exp, negInf, cm, dm, em, gradient);
      BatchGradientMvStep(forward, gamma, exp, negInf, cent, series, weights, k);
      BatchObjectiveStep(forward, cent, series, weights, k, d);
    }
    assert series[..|series|] == series && weights[..|series|] == weights;
  }
}
