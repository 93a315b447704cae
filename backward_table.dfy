/** The full responsibility table of the soft-DTW backward pass, as a pure
    reference: the two-row buffer of the imperative model is proved to
    reproduce it row by row. Tables are values here; a ghost `Snapshot` reads
    a buffer into one. */
module BackwardTable {

  /** A dense matrix as a sequence of rows. */
  type Matrix = seq<seq<real>>

  /** M has at least `rows` rows, and each of those at least `cols` entries. */
  predicate Covers(M: Matrix, rows: nat, cols: nat) {
    rows <= |M| && forall r :: 0 <= r < rows ==> cols <= |M[r]|
  }

  /** The contents of a two-dimensional buffer, row by row. */
  ghost function Snapshot(a: array2<real>): (M: Matrix)
    reads a
    ensures |M| == a.Length0
    ensures forall i :: 0 <= i < a.Length0 ==> |M[i]| == a.Length1
    ensures forall i, j :: 0 <= i < a.Length0 && 0 <= j < a.Length1 ==> M[i][j] == a[i, j]
  {
    seq(a.Length0, i requires 0 <= i < a.Length0 reads a =>
      seq(a.Length1, j requires 0 <= j < a.Length1 reads a => a[i, j]))
  }

  /** One row of a two-dimensional buffer. */
  ghost function Row(a: array2<real>, r: nat): (s: seq<real>)
    requires r < a.Length0
    reads a
    ensures |s| == a.Length1
    ensures forall j :: 0 <= j < a.Length1 ==> s[j] == a[r, j]
  {
    seq(a.Length1, j requires 0 <= j < a.Length1 reads a => a[r, j])
  }

  /** The padding cells of the cost table that seeding sets to minus
      infinity, for a centroid of length m and a series of length n: column
      n+1 of rows 1..m and row m+1 of columns 1..n. The corner (m+1, n+1)
      is handled apart. */
  predicate CostBoundary(m: nat, n: nat, i: nat, j: nat) {
    (1 <= i <= m && j == n + 1) || (i == m + 1 && 1 <= j <= n)
  }

  /** The cells of the distance table that seeding zeroes: column n of rows
      0..m and row m of columns 0..n. */
  predicate DistBoundary(m: nat, n: nat, i: nat, j: nat) {
    (i <= m && j == n) || (i == m && j <= n)
  }

  /** The cost table once its padding is seeded: minus infinity on the
      boundary, and the corner (m+1, n+1) a copy of (m, n). */
  function SeededCost(C: Matrix, m: nat, n: nat, negInf: real): (S: Matrix)
    requires Covers(C, m + 2, n + 2)
    ensures |S| == |C| && forall i :: 0 <= i < |C| ==> |S[i]| == |C[i]|
    ensures Covers(S, m + 2, n + 2)
    ensures forall i, j :: 0 <= i < |C| && 0 <= j < |C[i]| ==>
      S[i][j] == if i == m + 1 && j == n + 1 then C[m][n]
                 else if CostBoundary(m, n, i, j) then negInf
                 else C[i][j]
  {
    seq(|C|, i requires 0 <= i < |C| =>
      seq(|C[i]|, j requires 0 <= j < |C[i]| =>
        if i == m + 1 && j == n + 1 then C[m][n]
        else if CostBoundary(m, n, i, j) then negInf
        else C[i][j]))
  }

  /** The distance table once its last row and column are zeroed. */
  function SeededDist(D: Matrix, m: nat, n: nat): (S: Matrix)
    requires Covers(D, m + 1, n + 1)
    ensures |S| == |D| && forall i :: 0 <= i < |D| ==> |S[i]| == |D[i]|
    ensures Covers(S, m + 1, n + 1)
    ensures forall i, j :: 0 <= i < |D| && 0 <= j < |D[i]| ==>
      S[i][j] == if DistBoundary(m, n, i, j) then 0.0 else D[i][j]
  {
    seq(|D|, i requires 0 <= i < |D| =>
      seq(|D[i]|, j requires 0 <= j < |D[i]| =>
        if DistBoundary(m, n, i, j) then 0.0 else D[i][j]))
  }

  /** One step of the backward recurrence at cell (i, j): the values of the
      cell below, to the right and diagonally below-right, weighted by the
      exponentials a, b and c. */
  function Backstep(C: Matrix, D: Matrix, gamma: real, exp: real -> real,
                    i: nat, j: nat, down: real, right: real, diag: real): real
    requires gamma > 0.0 && 1 <= i && 1 <= j
    requires Covers(C, i + 2, j + 2) && Covers(D, i + 1, j + 1)
  {
    Combine(exp((C[i + 1][j] - C[i][j] - D[i][j - 1]) / gamma),
            exp((C[i][j + 1] - C[i][j] - D[i - 1][j]) / gamma),
            exp((C[i + 1][j + 1] - C[i][j] - D[i][j]) / gamma),
            down, right, diag)
  }

  /** The weighted sum a * down + b * right + c * diag of one backward step. */
  function Combine(a: real, b: real, c: real, down: real, right: real, diag: real): real {
    a * down + b * right + c * diag
  }

  /** Everything the backward pass of one (centroid, series) pair depends
      on: the seeded tables, the lengths m and n, gamma and exp. */
  datatype Problem = Problem(cost: Matrix, dist: Matrix, m: nat, n: nat,
                             gamma: real, exp: real -> real)
  {
    predicate WellFormed() {
      gamma > 0.0 && Covers(cost, m + 2, n + 2) && Covers(dist, m + 1, n + 1)
    }
  }

  /** The full responsibility table E(i, j), 1 <= i <= m+1, 1 <= j <= n+1:
      1 at the corner (m+1, n+1), 0 on the rest of the last row and column,
      and the backward recurrence inside. */
  function E(p: Problem, i: nat, j: nat): real
    requires p.WellFormed() && 1 <= i <= p.m + 1 && 1 <= j <= p.n + 1
    decreases (p.m + 1 - i) + (p.n + 1 - j)
  {
    if i == p.m + 1 && j == p.n + 1 then 1.0
    else if i == p.m + 1 || j == p.n + 1 then 0.0
    else Backstep(p.cost, p.dist, p.gamma, p.exp, i, j,
                  E(p, i + 1, j), E(p, i, j + 1), E(p, i + 1, j + 1))
  }

  /** Row i of the table, laid out as a buffer row (index 0 unused). */
  function ERow(p: Problem, i: nat): (row: seq<real>)
    requires p.WellFormed() && 1 <= i <= p.m + 1
    ensures |row| == p.n + 2
    ensures forall j :: 1 <= j <= p.n + 1 ==> row[j] == E(p, i, j)
  {
    seq(p.n + 2, j requires 0 <= j < p.n + 2 => if j == 0 then 0.0 else E(p, i, j))
  }

  /** Cell c of `row` satisfies the backward step of row i against `prev`
      (read as row i+1) and its own right neighbour. */
  predicate CellSwept(C: Matrix, D: Matrix, gamma: real, exp: real -> real, i: nat,
                      prev: seq<real>, row: seq<real>, c: nat)
    requires gamma > 0.0 && 1 <= i && 1 <= c && Covers(C, i + 2, c + 2) && Covers(D, i + 1, c + 1)
    requires c + 2 <= |prev| && c + 2 <= |row|
  {
    row[c] == Backstep(C, D, gamma, exp, i, c, prev[c], row[c + 1], prev[c + 1])
  }

  /** Cells j+1..n of `row` are all swept: what a sweep from n down to j+1
      leaves behind. */
  predicate SweptFrom(C: Matrix, D: Matrix, gamma: real, exp: real -> real, i: nat, n: nat,
                      prev: seq<real>, row: seq<real>, j: nat)
    requires gamma > 0.0 && 1 <= i && Covers(C, i + 2, n + 2) && Covers(D, i + 1, n + 1)
    requires n + 2 <= |prev| && n + 2 <= |row|
  {
    forall c :: j < c <= n ==> CellSwept(C, D, gamma, exp, i, prev, row, c)
  }

  /** Writing the backward step into cell j extends a sweep by one cell. */
  lemma SweepStep(C: Matrix, D: Matrix, gamma: real, exp: real -> real, i: nat, n: nat,
                  prev: seq<real>, row: seq<real>, j: nat)
    requires gamma > 0.0 && 1 <= i && Covers(C, i + 2, n + 2) && Covers(D, i + 1, n + 1)
    requires n + 2 <= |prev| && n + 2 <= |row| && 1 <= j <= n
    requires SweptFrom(C, D, gamma, exp, i, n, prev, row, j)
    ensures SweptFrom(C, D, gamma, exp, i, n, prev,
                      row[j := Backstep(C, D, gamma, exp, i, j, prev[j], row[j + 1], prev[j + 1])], j - 1)
  {
    var row' := row[j := Backstep(C, D, gamma, exp, i, j, prev[j], row[j + 1], prev[j + 1])];
    forall c | j - 1 < c <= n
      ensures CellSwept(C, D, gamma, exp, i, prev, row', c)
    {
      assert row'[c + 1] == row[c + 1];
      if c > j {
        assert CellSwept(C, D, gamma, exp, i, prev, row, c);
      }
    }
  }

  /** Ring-buffer equivalence. Suppose `prev` holds row i+1 of the table,
      `row` ends in the padding value 0, and the whole of 1..n of `row` is
      swept against `prev`. Then cells j..n+1 of `row` are row i of the
      table. */
  lemma {:induction false} SweepRow(p: Problem, i: nat, prev: seq<real>, row: seq<real>, j: nat)
    requires p.WellFormed() && 1 <= i <= p.m && 1 <= j <= p.n + 1
    requires p.n + 2 <= |prev| && p.n + 2 <= |row|
    requires forall c :: 1 <= c <= p.n + 1 ==> prev[c] == E(p, i + 1, c)
    requires row[p.n + 1] == 0.0
    requires SweptFrom(p.cost, p.dist, p.gamma, p.exp, i, p.n, prev, row, 0)
    ensures forall c :: j <= c <= p.n + 1 ==> row[c] == E(p, i, c)
    decreases p.n + 1 - j
  {
    if j <= p.n {
      SweepRow(p, i, prev, row, j + 1);
      assert CellSwept(p.cost, p.dist, p.gamma, p.exp, i, prev, row, j);
    }
  }

  /** T lays the whole table of p out as rows 1..m+1 of a sequence, each
      laid out as a buffer row. The cells are tied to E only where E is
      mentioned, so that code working on T does not unfold the recurrence. */
  ghost predicate TableOf(p: Problem, T: seq<seq<real>>)
    requires p.WellFormed()
  {
    |T| == p.m + 2 && (forall i :: 1 <= i <= p.m + 1 ==> |T[i]| == p.n + 2) &&
    forall i, j {:trigger E(p, i, j)} :: 1 <= i <= p.m + 1 && 1 <= j <= p.n + 1 ==> T[i][j] == E(p, i, j)
  }

  /** The table of p as a value, with its boundary: 1 at the corner
      (m+1, n+1) and 0 on the rest of the last row and column. */
  lemma Table(p: Problem) returns (T: seq<seq<real>>)
    requires p.WellFormed()
    ensures TableOf(p, T)
    ensures T[p.m + 1][p.n + 1] == 1.0
    ensures forall i, j :: i == p.m + 1 && 1 <= j <= p.n ==> T[i][j] == 0.0
    ensures forall i :: 1 <= i <= p.m ==> T[i][p.n + 1] == 0.0
  {
    T := seq(p.m + 2, i requires 0 <= i < p.m + 2 => if i == 0 then [] else ERow(p, i));
  }

  /** SweepRow stated over a table value: a row swept against row i+1 of T,
      ending in the padding value 0, is row i of T. */
  lemma SweepRowOfTable(p: Problem, T: seq<seq<real>>, i: nat, prev: seq<real>, row: seq<real>)
    requires p.WellFormed() && TableOf(p, T) && 1 <= i <= p.m
    requires p.n + 2 <= |prev| && p.n + 2 <= |row|
    requires forall c :: 1 <= c <= p.n + 1 ==> prev[c] == T[i + 1][c]
    requires row[p.n + 1] == 0.0
    requires SweptFrom(p.cost, p.dist, p.gamma, p.exp, i, p.n, prev, row, 0)
    ensures forall c :: 1 <= c <= p.n + 1 ==> row[c] == T[i][c]
  {
    assert forall c :: 1 <= c <= p.n + 1 ==> prev[c] == E(p, i + 1, c);
    SweepRow(p, i, prev, row, 1);
    assert forall c :: 1 <= c <= p.n + 1 ==> row[c] == E(p, i, c);
  }

  /** Tables C and D agree with those of p on the cells the backward pass
      of p reads: 1..m+1 x 1..n+1 of the cost table and 0..m x 0..n of the
      distance table. */
  ghost predicate SameBlock(p: Problem, C: Matrix, D: Matrix)
    requires p.WellFormed()
  {
    Covers(C, p.m + 2, p.n + 2) && Covers(D, p.m + 1, p.n + 1) &&
    (forall i, j :: 1 <= i <= p.m + 1 && 1 <= j <= p.n + 1 ==> p.cost[i][j] == C[i][j]) &&
    (forall i, j :: 0 <= i <= p.m && 0 <= j <= p.n ==> p.dist[i][j] == D[i][j])
  }

  /** The backward pass reads nothing outside the current pair's block:
      cells that a longer, earlier series left in a reused buffer cannot
      change the table. Rows are taken from the last one upwards, each by
      SweepRow. */
  lemma {:induction false} TableReadsOnlyBlock(p: Problem, C: Matrix, D: Matrix, i: nat)
    requires p.WellFormed() && SameBlock(p, C, D) && 1 <= i <= p.m + 1
    ensures forall j :: 1 <= j <= p.n + 1 ==> E(p, i, j) == E(p.(cost := C, dist := D), i, j)
    decreases p.m + 1 - i
  {
    var q := p.(cost := C, dist := D);
    if i <= p.m {
      TableReadsOnlyBlock(p, C, D, i + 1);
      var prev, row := ERow(q, i + 1), ERow(q, i);
      forall c | 1 <= c <= p.n
        ensures CellSwept(p.cost, p.dist, p.gamma, p.exp, i, prev, row, c)
      {
        BackstepReadsOnlyBlock(p, C, D, i, c, prev[c], row[c + 1], prev[c + 1]);
      }
      SweepRow(p, i, prev, row, 1);
    }
  }

  /** One backward step reads only cells of the block. */
  lemma BackstepReadsOnlyBlock(p: Problem, C: Matrix, D: Matrix, i: nat, j: nat,
                               down: real, right: real, diag: real)
    requires p.WellFormed() && SameBlock(p, C, D) && 1 <= i <= p.m && 1 <= j <= p.n
    ensures Backstep(p.cost, p.dist, p.gamma, p.exp, i, j, down, right, diag)
         == Backstep(C, D, p.gamma, p.exp, i, j, down, right, diag)
  {
  }

  /** Row form of TableReadsOnlyBlock. */
  lemma RowReadsOnlyBlock(p: Problem, C: Matrix, D: Matrix, i: nat)
    requires p.WellFormed() && SameBlock(p, C, D) && 1 <= i <= p.m + 1
    ensures ERow(p, i) == ERow(p.(cost := C, dist := D), i)
  {
    TableReadsOnlyBlock(p, C, D, i);
  }

  /** With an exponential that is never negative, every responsibility is
      non-negative, as a soft alignment probability must be. */
  lemma {:induction false} ResponsibilityNonnegative(p: Problem, i: nat, j: nat)
    requires p.WellFormed() && 1 <= i <= p.m + 1 && 1 <= j <= p.n + 1
    requires forall r :: 0.0 <= p.exp(r)
    ensures 0.0 <= E(p, i, j)
    decreases (p.m + 1 - i) + (p.n + 1 - j)
  {
    if i <= p.m && j <= p.n {
      ResponsibilityNonnegative(p, i + 1, j);
      ResponsibilityNonnegative(p, i, j + 1);
      ResponsibilityNonnegative(p, i + 1, j + 1);
      var C, D, g := p.cost, p.dist, p.gamma;
      var a := p.exp((C[i + 1][j] - C[i][j] - D[i][j - 1]) / g);
      var b := p.exp((C[i][j + 1] - C[i][j] - D[i - 1][j]) / g);
      var c := p.exp((C[i + 1][j + 1] - C[i][j] - D[i][j]) / g);
      assert 0.0 <= a && 0.0 <= b && 0.0 <= c;
    }
  }
}
