# Soft-DTW barycenter backward pass

This project models the backward pass of the soft-DTW barycenter gradient in
`src/centroids/sdtw-cent.cpp` and proves properties of the model. The pass
turns the cumulative cost table `cm` and the distance table `dm` of one
(centroid, series) pair into the table of soft alignment responsibilities
`E(i, j)`. It keeps only two rows of that table alive, in the two-row
buffer `em`, selected by row parity. Each row is reduced into the gradient
with respect to the centroid as soon as it is produced. Over a batch of
series, the weighted distances and the weighted gradient contributions are
summed.

The model keeps the code's imperative shape:

- `cm`, `dm` and `em` are `array2<real>` buffers owned by the caller. The
  methods update them in place.
- The scalar gradient is an `array<real>`. The vector gradient is an
  `array2<real>`.
- The univariate and multivariate overloads are separate methods, as in the
  source.

Three modules:

- `BackwardTable` holds the pure reference. It defines:
  - the seeded tables, `SeededCost` and `SeededDist`;
  - one backward step, `Backstep`, with the weights `a`, `b` and `c` of
    lines 37-39;
  - the full responsibility table `E`: 1 at `(m+1, n+1)`, 0 on the rest of
    row `m+1` and column `n+1`, and the recurrence inside.

  The ghost lemma `Table` produces the whole of `E` as a sequence of rows,
  for the other proofs to refer to. Its lemmas show that a right-to-left sweep of one buffer row against the
  row below reproduces row `i` of `E` (`SweepStep`, `SweepRow`). They also
  show that `E` reads nothing outside the current pair's block of the
  buffers.
- `GradientSpec` holds what the gradient is:
  - `Term` is one cell's term `e * 2 * (xi - yj)`;
  - `Partial` / `PartialMv` are the row sums;
  - `GradientUv` / `GradientMv` are the per-series contributions;
  - `BatchObjective` and `BatchGradientUv` / `BatchGradientMv` are the
    weighted batch sums, with `Accumulate` and `WeightedSum`.

  Its lemmas cover:
  - agreement of the two overloads;
  - weighted additivity;
  - the one-series step of the batch;
  - the fact that the contribution computed on reused buffers is the one
    of the aligner's own tables.
- `SdtwCent` holds the imperative code:
  - `InitMatrices`, `UpdateEm`, `UpdateGradientUv`, `UpdateGradientMv`;
  - the batch loops `SdtwCentUv` and `SdtwCentMv`.

  Every method is proved against the functions above. Some loop bodies are
  split into helper methods, each with its own contract:
  - the row loop of `update_gradient`: `RowLoopUv` and `RowLoopMv`, with
    one pass each in `GradientStepUv` and `GradientStepMv`;
  - the `j` sum: `RowGradient` and `RowGradientMv`;
  - the `k` accumulation loop: `AddScaledRow`;
  - the update call of the batch loop: `AddSeriesUv` and `AddSeriesMv`.

Other choices:

- **The forward aligner.** `soft_dtw` lives in another module, so it is an
  oracle. It is a function parameter `forward` that maps (centroid, series)
  to its cost table, distance table and distance. Method `SoftDtw` writes
  that output into the leading blocks of `cm` and `dm`.
- **Constants.** `exp` and `R_NegInf` are parameters (`exp: real -> real`,
  `negInf: real`).
- **Buffer reuse.** The batch postconditions determine the objective and
  the gradient from the inputs and `forward` alone. They do not depend on
  what the buffers held before the call or hold outside the current block.
  So two calls on the same inputs give the same result, whatever a longer
  earlier series left behind.
- **The last column of the cost table.** The code sets `cm(i, n+1)` only
  for `1 <= i <= m` (line 18), not for `i = 0`. The model follows the code.

## Model

| member | source | states |
|---|---|---|
| SdtwCent.InitMatrices | src/centroids/sdtw-cent.cpp:15-30 | Seeding. Every cell of `dm` on column `n` (rows `0..m`) or row `m` (columns `0..n`) becomes 0. Every cell of `cm` on column `n+1` (rows `1..m`) or row `m+1` (columns `1..n`) becomes `negInf`. `cm(m+1, n+1)` becomes the old `cm(m, n)`. All other cells of `cm`/`dm` are unchanged. `em` becomes 0 everywhere except 1 at `((m+1)%2, n+1)`, whatever it held before. |
| SdtwCent.UpdateEm | src/centroids/sdtw-cent.cpp:32-42 | Writes only cells `1..n` of row `i%2` of `em`. Every written cell satisfies the backward step of row `i` against the other parity row, read as row `i+1`, and against its own right neighbour. `cm` and `dm` are not modified. |
| BackwardTable.SweepStep | src/centroids/sdtw-cent.cpp:36-40 | Writing the backward step into cell `j` extends the swept cells from `j+1..n` to `j..n`. Cells to its right keep their step. |
| BackwardTable.SweepRow | src/centroids/sdtw-cent.cpp:36-41 | Ring-buffer equivalence. Suppose the other row holds row `i+1` of `E`, the row ends in 0 at `n+1`, and the sweep has run from `n` down to 1. Then cells `j..n+1` hold row `i` of `E`. The right-to-left order makes each cell read an already-final right neighbour. |
| SdtwCent.SeedIsLastRow | src/centroids/sdtw-cent.cpp:28-29 | After the reset of `em`, the parity row of `m+1` holds row `m+1` of the responsibility table in cells `1..n+1`: the seed 1 at `n+1` and 0 elsewhere. Cell `n+1` of the parity row of `m` is 0, which is `E(m, n+1)` when `m >= 1`. This is the state the first pass of the row loop expects. |
| BackwardTable.SweepRowOfTable | src/centroids/sdtw-cent.cpp:58-60 | After `update_em(i)`, the parity row of `i` holds row `i` of the table in cells `1..n+1`, given that the other row held row `i+1`. |
| BackwardTable.TableReadsOnlyBlock | src/centroids/sdtw-cent.cpp:37-39 | `E` reads only cells `1..m+1 x 1..n+1` of the cost table and `0..m x 0..n` of the distance table. Tables that agree there give the same `E`. |
| BackwardTable.BackstepReadsOnlyBlock | src/centroids/sdtw-cent.cpp:37-40 | One backward step at `(i, j)` reads only block cells. |
| BackwardTable.RowReadsOnlyBlock | src/centroids/sdtw-cent.cpp:36-41 | Row form of the block property. |
| BackwardTable.ResponsibilityNonnegative | src/centroids/sdtw-cent.cpp:37-40 | If `exp` is never negative, every responsibility `E(i, j)` is at least 0. |
| SdtwCent.RowGradient | src/centroids/sdtw-cent.cpp:61-62 | The `j` loop computes the sum of `em(r, j+1) * 2 * (xi - y[j])` over all `j < n`. |
| GradientSpec.PartialAgrees | src/centroids/sdtw-cent.cpp:62 | The scalar row sum depends only on cells `1..t` of the row. |
| GradientSpec.PartialMvAgrees | src/centroids/sdtw-cent.cpp:82 | The vector row sum for coordinate `k` depends only on cells `1..t` of the row. |
| GradientSpec.TableSumsAreGradientUv | src/centroids/sdtw-cent.cpp:59-63 | The row sums over rows `1..m` of the table are the per-series contribution `GradientUv`. |
| GradientSpec.TableSumsAreGradientMv | src/centroids/sdtw-cent.cpp:77-85 | The coordinate row sums of the table are the per-series contribution `GradientMv`. |
| SdtwCent.GradientStepUv | src/centroids/sdtw-cent.cpp:60-64 | Iteration `i` of the row loop. It expects row `i+1` of the table in the other parity row. It leaves row `i` in the parity row of `i`, and 0 at column `n+1` of the other row. It changes only `gradient[i-1]`, which gains `weight` times the row sum. |
| SdtwCent.RowLoopUv | src/centroids/sdtw-cent.cpp:59-65 | The whole row loop, from row `m` down to row 1. Starting from the state that `SeedIsLastRow` describes, every entry `gradient[r]` gains `weight` times the row sum of row `r+1` of the table. At the end, row 1 of the table is in `em` row 1 and column `n+1` of `em` row 0 is 0. |
| SdtwCent.UpdateGradientUv | src/centroids/sdtw-cent.cpp:51-66 | Afterwards `gradient == old(gradient) + weight * GradientUv`, entry by entry, where `GradientUv` is computed on the seeded buffers. `cm`/`dm` are seeded as by `InitMatrices`. Both cells of column `n+1` of `em` end at 0 when `m >= 1`. With `m = 0`, the seed 1 is never cleared. |
| SdtwCent.RowGradientMv | src/centroids/sdtw-cent.cpp:79-84 | `grad` is zeroed. Then, for every coordinate `k < dim`, it becomes the sum over `j` of `em(r, j+1) * 2 * (xi[k] - y[j][k])`. |
| SdtwCent.AddScaledRow | src/centroids/sdtw-cent.cpp:85 | Row `r` of the gradient gains `weight * grad[k]` in each column `k`. Every other row is unchanged. |
| SdtwCent.GradientStepMv | src/centroids/sdtw-cent.cpp:78-86 | Iteration `i` of the vector row loop. It has the same row and seed effect on `em` as the scalar step. It changes only row `i-1` of the gradient, adding `weight` times the coordinate sums. |
| SdtwCent.RowLoopMv | src/centroids/sdtw-cent.cpp:77-87 | The vector row loop. It has the same effect on `em` as the scalar loop, and every cell `gradient(r, k)` gains `weight` times the coordinate-`k` row sum of row `r+1` of the table. |
| SdtwCent.UpdateGradientMv | src/centroids/sdtw-cent.cpp:69-88 | Afterwards `gradient == old(gradient) + weight * GradientMv`, cell by cell, where `GradientMv` is computed on the seeded buffers. It has the same seeding and seed-clearing effects as the scalar update. |
| GradientSpec.PartialMvIsPartial | src/centroids/sdtw-cent.cpp:82 | The vector row sum for coordinate `k` is the scalar row sum (line 62) of coordinate `k` of the centroid point against coordinate `k` of the series. |
| GradientSpec.MvColumnIsUv | src/centroids/sdtw-cent.cpp:80-84 | Column `k` of the vector contribution is the scalar contribution of column `k` of the centroid against column `k` of the series, on the same table. |
| GradientSpec.DimOneIsUnivariate | src/centroids/sdtw-cent.cpp:69-88 | With points of dimension 1, the vector overload's contribution is the scalar overload's contribution on the same data read as scalars. |
| GradientSpec.SeedingKeepsBlock | src/centroids/sdtw-cent.cpp:18-27 | Seeding buffers whose block holds the aligner's tables gives, on that block, the seeded tables of the aligner. |
| GradientSpec.GradientUvReadsOnlyBlock | src/centroids/sdtw-cent.cpp:59-63 | The scalar contribution depends only on the pair's block of the tables. |
| GradientSpec.GradientMvReadsOnlyBlock | src/centroids/sdtw-cent.cpp:77-85 | The vector contribution depends only on the pair's block of the tables. |
| GradientSpec.SeededBufferGradientUv | src/centroids/sdtw-cent.cpp:105-111 | The contribution computed on reused buffers is the contribution of the aligner's own seeded tables. The buffers hold the aligner's tables only in the block and are then seeded. Cells left beyond the block by a longer earlier series cannot change it. |
| GradientSpec.SeededBufferGradientMv | src/centroids/sdtw-cent.cpp:131-137 | The same for vector points. |
| SdtwCent.SoftDtw | src/centroids/sdtw-cent.cpp:105 | The aligner, as an oracle. Its tables for (centroid, series) land in the leading `(m+2) x (n+2)` and `(m+1) x (n+1)` blocks of `cm` and `dm`. The other cells are unchanged. It returns the pair's soft-DTW distance. |
| SdtwCent.AddSeriesUv | src/centroids/sdtw-cent.cpp:109-111 | After the aligner has filled the blocks, the update adds `weight` times the contribution of the aligner's seeded tables, whatever lies outside the blocks. |
| SdtwCent.AddSeriesMv | src/centroids/sdtw-cent.cpp:135-137 | The same for vector points. |
| GradientSpec.BatchObjectiveStep | src/centroids/sdtw-cent.cpp:106 | One more series adds `weights[k] * d` to the objective. |
| GradientSpec.BatchGradientUvStep | src/centroids/sdtw-cent.cpp:103-111 | One more series adds `weights[k]` times its contribution to the scalar batch gradient. |
| GradientSpec.BatchGradientMvStep | src/centroids/sdtw-cent.cpp:129-137 | One more series adds `weights[k]` times its contribution to the vector batch gradient. |
| SdtwCent.SdtwCentUv | src/centroids/sdtw-cent.cpp:95-118 | The objective is the sum over series `k`, in order, of `weights[k]` times the distance of (centroid, series `k`). The gradient is a fresh array with the sum of `weights[k]` times the contribution of series `k`, starting from zero. The centroid is always in the role of `x`. The result is independent of the earlier contents of the scratch buffers. |
| SdtwCent.SdtwCentMv | src/centroids/sdtw-cent.cpp:121-144 | The same for vector points, with a fresh gradient table of the centroid's shape. |
| GradientSpec.BatchObjectiveAdditive | src/centroids/sdtw-cent.cpp:102-106 | The objective over two collections one after the other is the batch objective of the first plus that of the second. |
| GradientSpec.WeightedSumAdditive | src/centroids/sdtw-cent.cpp:101-112 | The weighted sum of vectors over two collections is the sum of the two weighted sums, entry by entry. |
| GradientSpec.WeightedSumMvAdditive | src/centroids/sdtw-cent.cpp:127-138 | The same for tables, cell by cell. |
| GradientSpec.BatchGradientUvAdditive | src/centroids/sdtw-cent.cpp:101-112 | The scalar batch gradient over two collections is the sum of the two batch gradients, entry by entry. |
| GradientSpec.BatchGradientMvAdditive | src/centroids/sdtw-cent.cpp:127-138 | The vector batch gradient over two collections is the sum of the two batch gradients, cell by cell. |

## Left out

- The forward aligner `soft_dtw` (`../distances/distances++.h`) is not part of this model. It is the oracle `forward`. `SoftDtw` writes its output into the leading blocks of `cm` and `dm` and does not touch other cells. What the real aligner does to other cells is unknown, and the backward pass provably does not read them.
- Floating point is modelled as `real`. Rounding, overflow of `exp`, and NaN or infinity propagation are not modelled, and `gamma > 0` is a precondition.
- `exp` and `R_NegInf` are parameters, unconstrained except in `ResponsibilityNonnegative`, which assumes `exp` is never negative. So "minus infinity" is an arbitrary real that only ever feeds `exp`.
- Analytic claims are not stated: agreement with finite differences, and the sign or size of the gradient in particular scenarios. They are facts about the real exponential, not about the buffers.
- The Rcpp bridging is not modelled: `Rcpp::as`, `List::create` at lines 113-117 (the model returns the pair `(objective, gradient)`) and `BEGIN_RCPP`/`END_RCPP`. Nor is the gateway `sdtw_cent` (lines 150-160), which only dispatches on the multivariate flag to one of the two batch loops.
- Index arithmetic is on unbounded naturals. The source's 32-bit `int` indices are not modelled.
- Buffer shapes, `|weights| == |series|`, `Distinct(cm, dm, em)` (the three buffers are different objects; a vector gradient is none of them either), and series points with at least the centroid's dimension are preconditions. The source checks none of them. A buffer or a series point that is too small makes the source read or write out of bounds. If two buffers were the same matrix, the seeding and the sweep would overwrite each other's cells.
- The vector centroid is a sequence of rows in the model, so the model requires that all rows have the same length. An R `NumericMatrix` is always rectangular, so this precondition holds for every input the source gets.
- UpdateGradientUv: of the final `em`, only column `n+1` is stated. That is what later calls depend on; the rest is scratch that `InitMatrices` resets.
- UpdateGradientMv: of the final `em`, only column `n+1` is stated, for the same reason.
- Parallel execution across series is not modelled; the source is sequential.
