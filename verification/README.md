# Gaussian-field harmonic classifier in Dafny

This project models `gaussianfield.py`, a Python implementation of the
Gaussian-field (harmonic-function) classifier from Zhu, Ghahramani and
Lafferty (ICML 2003), together with its two expected-risk estimators for
active learning. Arithmetic uses Dafny's exact `real` numbers. A matrix is a
`seq<seq<real>>`. A column count that numpy would carry in an array's shape
(the number of classes `k`) is passed explicitly, because a matrix with no
rows does not record its width.

- `LinearAlgebra` (`linear_algebra.dfy`) defines vectors, matrices, sums,
  inner products, matrix products, identity and two-sided inverse. It proves
  that the matrix product is associative.
- `Laplacian` (`laplacian.dfy`) defines `combinatorial_laplacian`, L = diag(rowsum W) − W.
- `HarmonicSolver` (`harmonic_solver.dfy`) models `solve`:
  - the boolean-mask gather of the unlabeled×unlabeled Laplacian block and the
    unlabeled×labeled weight block, written over the increasing index lists of
    the mask;
  - the product `Linv · W_ul · labels`;
  - the harmonic equation `L_uu · field = W_ul · labels`.

  The library inverse is an input `Linv` that must be a two-sided inverse of
  `L_uu`. The module proves that with labels whose rows sum to 1, such as
  one-hot labels, every row of the field sums to 1.
- `Results` (`results.dfy`) holds the `Ok`/`Err` result type shared by the
  solver and the estimators.
- `RiskEstimator` (`risk_estimator.dfy`) models `expected_risk` and
  `expected_risk_pre`, with the broadcasts of the source written out
  entrywise:
  - the two normalisations of `Linv`;
  - the hypothetical fields `fplus`;
  - the running elementwise maxima `maxfplus` and `pre_maxfplus`;
  - the per-label and per-class risk sums.
- `PathGraph` (`path_graph.dfy`) is a worked instance: the path 0-1-2-3 with
  its end nodes labeled. It proves that `Solve` returns the field
  (2/3, 1/3), (1/3, 2/3) on the inner nodes.

How the source's failure modes appear in the model:
- `expected_risk` with zero classes never binds the accumulator it returns,
  so that call fails. The model returns `Err(NoClasses)`.
  `expected_risk_pre` returns a zero vector in that case.
- A label matrix whose row count is not the number of labeled nodes makes
  the product in `solve` fail. The model returns `Err(LabelCountMismatch)`.

Where the documentation and the code disagree, the model follows the code:
- Both comments (lines 64 and 96) call the normalisation "column-wise".
  Line 65 divides row `i` by `Linv[i][i]`; line 97 divides column `j` by
  `Linv[j][j]`. `RowNormalized` and `ColumnNormalized` model each line as
  written. `NormalizationsTransposed` proves the two agree up to a transpose
  when `Linv` is symmetric.
- The hypothetical field of `expected_risk` (line 76) adds `field[j][c]`
  along the row and scales `nG[i][j]` by the value at node `i`. The model
  keeps that orientation.

## Model

| member | source | states |
|---|---|---|
| Laplacian.RowSums | gaussianfield.py:11 | one entry per node, entry i is the weighted degree Σ_j W[i][j] |
| Laplacian.Diagonal | gaussianfield.py:11 | `np.diag`: a square matrix with d on its diagonal and zeros elsewhere |
| Laplacian.MatSub | gaussianfield.py:14 | the m×n entrywise difference, row by row |
| Laplacian.CombinatorialLaplacian | gaussianfield.py:8-15 | L is n×n, off the diagonal L[i][j] = −W[i][j], and on it L[i][i] is the row sum of W less the self-loop W[i][i] |
| Laplacian.LaplacianRowsSumToZero | gaussianfield.py:11-14 | every row of L sums to zero |
| Laplacian.LaplacianSymmetric | gaussianfield.py:11-14 | a symmetric W gives a symmetric L |
| Laplacian.LaplacianSigns | gaussianfield.py:11-14 | with nonnegative weights, L is ≤ 0 off the diagonal and ≥ 0 on it |
| HarmonicSolver.Indices | gaussianfield.py:39-40 | the mask positions holding a given value, each in range, strictly increasing |
| HarmonicSolver.IndicesComplete | gaussianfield.py:39-40 | every position holding the value is listed |
| HarmonicSolver.IndicesPartition | gaussianfield.py:39-40 | the unlabeled and labeled index lists together have n entries (u + l = n) |
| HarmonicSolver.IndicesOfAbsentValue | gaussianfield.py:39-40 | a value absent from the mask selects no index |
| HarmonicSolver.Gather | gaussianfield.py:39-40 | `np.ix_` selection: the result has one row per row index and one column per column index, entry (a, b) = M[rows[a]][cols[b]] |
| HarmonicSolver.Partition | gaussianfield.py:34-40 | L_uu is u×u with entry (a, b) = L[U[a]][U[b]]; W_ul is u×l with entry (a, b) = W[U[a]][Lb[b]] |
| HarmonicSolver.PartitionInTermsOfWeights | gaussianfield.py:34-40 | L_uu entries from W: −W[U[a]][U[b]] off the diagonal, the full degree of U[a] less its self-loop on it |
| HarmonicSolver.SumSplitByMask | gaussianfield.py:39-40 | every row sum splits into the sum over the unlabeled positions plus the sum over the labeled ones |
| HarmonicSolver.UnlabeledRowSums | gaussianfield.py:34-40 | row a of L_uu sums to the weight from node U[a] to the labeled nodes, the sum of row a of W_ul |
| HarmonicSolver.InverseSolves | gaussianfield.py:43-44 | for a two-sided inverse, (Linv·W_ul)·labels solves L_uu·X = W_ul·labels |
| HarmonicSolver.HarmonicSolutionUnique | gaussianfield.py:43-44 | any X with L_uu·X = W_ul·labels equals (Linv·W_ul)·labels |
| HarmonicSolver.Solve | gaussianfield.py:18-46 | fails exactly when the label rows do not match the labeled count; otherwise it returns Linv and a u×k field satisfying the harmonic equation L_uu·field = W_ul·labels |
| HarmonicSolver.FieldRowsSumToOne | gaussianfield.py:18-46 | when every label row sums to 1, as one-hot labels do, every row of the returned field sums to 1 |
| HarmonicSolver.SolveAllLabeled | gaussianfield.py:39-44 | with every node labeled, the empty matrix inverts the empty block and the solve returns an empty field |
| LinearAlgebra.MatMulAssociative | gaussianfield.py:44 | (A·B)·C = A·(B·C) |
| PathGraph.PathGraphExample | gaussianfield.py:18-46 | on the path 0-1-2-3 with its ends labeled as classes 0 and 1, the inverse of L_uu = [[2, −1], [−1, 2]] is [[2/3, 1/3], [1/3, 2/3]], and that is also the field |
| RiskEstimator.ElementwiseMax | gaussianfield.py:77 | `np.maximum` of two u×u matrices: entry (i, j) is the larger of the two entries |
| RiskEstimator.RowNormalized | gaussianfield.py:65 | nG[i][j] · Linv[i][i] = Linv[i][j], and nG has a unit diagonal |
| RiskEstimator.FPlus | gaussianfield.py:73-76 | fplus is u×u and, where nG[i][i] = 1, its diagonal is pinned to the indicator of yk == c |
| RiskEstimator.MaxFPlus | gaussianfield.py:70-77 | the `maxfplus` loop; its contract fixes only the u×u shape, and MaxFPlusIsLeastUpperBound states its value |
| RiskEstimator.MaxFPlusIsLeastUpperBound | gaussianfield.py:70-77 | each accumulator entry is ≥ 0 and ≥ every fplus entry of the classes seen so far, and equals 0 or one of them |
| RiskEstimator.MaxFPlusNonnegative | gaussianfield.py:70-77 | each accumulator entry is ≥ 0 |
| RiskEstimator.MaxFPlusDiagonal | gaussianfield.py:65-77 | with a unit-diagonal nG, the accumulator diagonal is 1 once class yk has been seen and 0 before |
| RiskEstimator.LabelWeightNonnegative | gaussianfield.py:78 | the scalar Σ(1 + maxfplus) of every hypothetical label is ≥ 0 |
| RiskEstimator.LabelWeight | gaussianfield.py:78 | `np.sum(1+maxfplus)` over the whole accumulator of label yk, which is ≥ 0 |
| RiskEstimator.LabelWeights | gaussianfield.py:78 | one weight per hypothetical label: k entries, entry yk is the weight of label yk |
| RiskEstimator.NaiveRisk | gaussianfield.py:68-78 | the `risk = risk + …` accumulation; its contract fixes only the length u, and NaiveRiskClosedForm states its value |
| RiskEstimator.NaiveRiskClosedForm | gaussianfield.py:68-78 | after labels 0..y−1, risk[i] is the inner product of field[i][0..y) with those labels' weights |
| RiskEstimator.NaiveRiskIsDot | gaussianfield.py:68-78 | once all labels have been added, risk[i] = Σ_yk weight(yk) · field[i][yk] |
| RiskEstimator.ExpectedRisk | gaussianfield.py:49-79 | fails exactly when there are no classes; otherwise risk has length u with risk[i] = Σ_yk Σ_{a,b}(1 + maxfplus_yk[a][b]) · field[i][yk], and the returned accumulator is that of the last label |
| RiskEstimator.FullAccumulator | gaussianfield.py:69-79 | after all classes, every accumulator is entrywise ≥ 0 with diagonal exactly 1 |
| RiskEstimator.ExpectedRiskNonnegative | gaussianfield.py:68-79 | a nonnegative field gives a nonnegative risk vector |
| RiskEstimator.ColumnNormalized | gaussianfield.py:97 | nG[i][j] · Linv[j][j] = Linv[i][j], and nG has a unit diagonal |
| RiskEstimator.NormalizationsTransposed | gaussianfield.py:97 | for a symmetric Linv, the column normalisation is the transpose of the row normalisation of line 65 |
| RiskEstimator.PreTerm | gaussianfield.py:106 | the prefactor term is u×u and zero on the diagonal when nG has a unit diagonal |
| RiskEstimator.Prefactor | gaussianfield.py:103-109 | the `pre_maxfplus` loop; its contract fixes only the u×u shape, and PrefactorIsLeastUpperBound states its value |
| RiskEstimator.PrefactorIsLeastUpperBound | gaussianfield.py:103-109 | each pre_maxfplus entry is ≥ 0 and ≥ every class term seen so far, and equals 0 or one of them |
| RiskEstimator.PrefactorDiagonalZero | gaussianfield.py:103-109 | with a unit-diagonal nG, pre_maxfplus is zero on the diagonal |
| RiskEstimator.Summand | gaussianfield.py:118 | 1 − max(candidate, pre[i][j]) is at most 1 − pre[i][j] and at most 1 − candidate, and equals one of the two |
| RiskEstimator.Summands | gaussianfield.py:118 | for candidate j, one summand per node i |
| RiskEstimator.ClassSums | gaussianfield.py:118 | the `axis=0` sum: k entries, entry c is the sum over i of the class-c summands of candidate j |
| RiskEstimator.ClassSumMatrix | gaussianfield.py:118 | u×k, row j holds the class sums of candidate j |
| RiskEstimator.SelfSummandVanishes | gaussianfield.py:118 | the summand of node j in its own column is 1 − max(1, pre[j][j]) = 0, so the column sum runs over the other nodes |
| RiskEstimator.PreRisk | gaussianfield.py:112-118 | the `risk += …` accumulation; its contract fixes only the length u, and PreRiskClosedForm states its value |
| RiskEstimator.PreRiskClosedForm | gaussianfield.py:100-118 | after classes 0..c−1, risk[j] is the inner product of field[j][0..c) with j's column sums |
| RiskEstimator.PreRiskIsDot | gaussianfield.py:112-118 | once all classes have been added, risk[j] = Σ_c field[j][c] · (column sum of class c at j) |
| RiskEstimator.ExpectedRiskPre | gaussianfield.py:81-120 | risk has length u and risk[j] = Σ_c (Σ_i (1 − max(field[i][c] + (1 − field[j][c])·nG[i][j], pre[i][j]))) · field[j][c] |
| RiskEstimator.PreRiskSelfTermsVanish | gaussianfield.py:97-118 | within expected_risk_pre the prefactor is entrywise ≥ 0 with a zero diagonal and every class term has a zero self-summand |
| RiskEstimator.Boundaries | gaussianfield.py:62-120 | with no unlabeled nodes both estimators return an empty vector; with no classes expected_risk fails and expected_risk_pre returns zeros |

## Left out

- `data.py` is not part of this model. It is file reading and data-frame preparation.
- The matrix inverse (line 43) is a foreign numerical routine. `Linv` is an input required to be a two-sided inverse of `L_uu`. Singular-matrix detection is not modelled.
- Floating-point rounding, NaN, infinities and conditioning are not modelled. Arithmetic is exact over the reals.
- The two risk estimators are not proved equal. The source does not promise it, and their formulas differ: a whole-matrix sum of 1 + maxfplus against per-column sums of 1 − max, and transposed normalisations.
- Broadcasting mechanics, in-place `out=` buffers and performance are written as entrywise functions and recursive sums.
- HarmonicSolver.Solve: requires the mask length to equal the number of nodes, as the docstring states. The selection itself does not check this length.
- HarmonicSolver.Solve: requires `Linv` to be a two-sided inverse of `L_uu`, in place of a call to the inverse routine.
- RiskEstimator.ExpectedRisk: requires a nonzero diagonal of `Linv`. With a zero diagonal entry the source divides by zero and yields infinities or NaN rather than failing.
- RiskEstimator.ExpectedRiskPre: requires a nonzero diagonal of `Linv`, for the same reason.
- RiskEstimator.ExpectedRiskPre: states its result through the class sums and the prefactor, not through a property of the risk values themselves. The source promises nothing more about them.
- The Laplacian's positive semi-definiteness is not stated.
- The maximum principle for the field (0 ≤ field ≤ 1 for one-hot labels) is not stated. It needs `Linv` to be entrywise nonnegative, which follows from M-matrix theory for a connected graph with nonnegative weights. That theory is not part of this model. The row-sum half of the same promise is proved (`FieldRowsSumToOne`).
