/** The harmonic-function solver: partition the Laplacian by the labeled mask
    and solve L_uu · field = W_ul · labels through the inverse of L_uu
    (equation 5 of Zhu, Ghahramani and Lafferty, ICML 2003). */
module HarmonicSolver {
  import opened LinearAlgebra
  import opened Laplacian
  import opened Results

  /** The increasing list of the positions i with mask[i] == b. */
  function Indices(mask: seq<bool>, b: bool): (r: seq<nat>)
    ensures forall a :: 0 <= a < |r| ==> r[a] < |mask| && mask[r[a]] == b
    ensures forall a, a' :: 0 <= a < a' < |r| ==> r[a] < r[a']
  {
    if |mask| == 0 then []
    else
      var n := |mask| - 1;
      Indices(mask[..n], b) + (if mask[n] == b then [n] else [])
  }

  /** Every position carrying b is listed. */
  lemma {:induction false} IndicesComplete(mask: seq<bool>, b: bool, i: nat)
    requires i < |mask| && mask[i] == b
    ensures i in Indices(mask, b)
    decreases |mask|
  {
    var n := |mask| - 1;
    if i < n {
      IndicesComplete(mask[..n], b, i);
    } else {
      assert Indices(mask, b)[|Indices(mask, b)| - 1] == i;
    }
  }

  /** Every position is either labeled or unlabeled: u + l == n. */
  lemma {:induction false} IndicesPartition(mask: seq<bool>)
    ensures |Indices(mask, false)| + |Indices(mask, true)| == |mask|
    decreases |mask|
  {
    if |mask| > 0 {
      IndicesPartition(mask[..|mask| - 1]);
    }
  }

  /** A value that never occurs in the mask has no positions. */
  lemma {:induction false} IndicesOfAbsentValue(mask: seq<bool>, b: bool)
    requires forall i :: 0 <= i < |mask| ==> mask[i] != b
    ensures Indices(mask, b) == []
    decreases |mask|
  {
    if |mask| > 0 {
      IndicesOfAbsentValue(mask[..|mask| - 1], b);
    }
  }

  /** The submatrix of M on the given rows and columns, in the given order. */
  function Gather(M: Matrix, rows: seq<nat>, cols: seq<nat>): (G: Matrix)
    requires forall a :: 0 <= a < |rows| ==> rows[a] < |M|
    requires forall a, b :: 0 <= a < |rows| && 0 <= b < |cols| ==> cols[b] < |M[rows[a]]|
    ensures IsMatrix(G, |rows|, |cols|)
    ensures forall a, b :: 0 <= a < |rows| && 0 <= b < |cols| ==> G[a][b] == M[rows[a]][cols[b]]
  {
    seq(|rows|, a requires 0 <= a < |rows| =>
      seq(|cols|, b requires 0 <= b < |cols| => M[rows[a]][cols[b]]))
  }

  /** The two blocks the solver needs: L_uu (unlabeled rows and columns of the
      Laplacian) and W_ul (unlabeled rows, labeled columns of the weights). */
  datatype Blocks = Blocks(uu: Matrix, ul: Matrix)

  function Partition(W: Matrix, labeled: seq<bool>): (p: Blocks)
    requires IsMatrix(W, |W|, |W|) && |labeled| == |W|
    ensures var U, Lb := Indices(labeled, false), Indices(labeled, true);
      && IsMatrix(p.uu, |U|, |U|)
      && IsMatrix(p.ul, |U|, |Lb|)
      && (forall a, b :: 0 <= a < |U| && 0 <= b < |U| ==>
            p.uu[a][b] == CombinatorialLaplacian(W)[U[a]][U[b]])
      && (forall a, b :: 0 <= a < |U| && 0 <= b < |Lb| ==> p.ul[a][b] == W[U[a]][Lb[b]])
  {
    var U, Lb := Indices(labeled, false), Indices(labeled, true);
    Blocks(Gather(CombinatorialLaplacian(W), U, U), Gather(W, U, Lb))
  }

  /** The entries of L_uu in terms of the weights: off the diagonal, minus the
      weight between the two unlabeled nodes; on it, the full degree of the node
      (edges to labeled nodes included) less its self-loop. */
  lemma {:induction false} PartitionInTermsOfWeights(W: Matrix, labeled: seq<bool>)
    requires IsMatrix(W, |W|, |W|) && |labeled| == |W|
    ensures var U := Indices(labeled, false);
      forall a, b :: 0 <= a < |U| && 0 <= b < |U| ==>
        Partition(W, labeled).uu[a][b] ==
          (if a == b then Sum(W[U[a]]) else 0.0) - W[U[a]][U[b]]
  {
    var U := Indices(labeled, false);
    forall a, b | 0 <= a < |U| && 0 <= b < |U|
      ensures a != b ==> U[a] != U[b]
    {
      if a < b {
        assert U[a] < U[b];
      } else if b < a {
        assert U[b] < U[a];
      }
    }
  }

  /** With A·Ainv == I, the field Ainv·B·C (computed left to right, as the
      solver does) satisfies A · field == B · C. */
  lemma {:induction false} InverseSolves(A: Matrix, Ainv: Matrix, B: Matrix, C: Matrix, k: nat)
    requires IsInverse(A, Ainv, |A|)
    requires IsMatrix(B, |A|, |C|) && IsMatrix(C, |C|, k)
    ensures MatMul(A, MatMul(MatMul(Ainv, B, |C|), C, k), k) == MatMul(B, C, k)
  {
    var u := |A|;
    var BC := MatMul(B, C, k);
    MatMulAssociative(Ainv, B, C, k);
    MatMulAssociative(A, Ainv, BC, k);
    IdentityMulLeft(MatMul(A, Ainv, u), BC, k);
  }

  /** The harmonic solution is unique: any X with A · X == B · C is Ainv·B·C. */
  lemma {:induction false} HarmonicSolutionUnique(A: Matrix, Ainv: Matrix, B: Matrix, C: Matrix, k: nat, X: Matrix)
    requires IsInverse(A, Ainv, |A|)
    requires IsMatrix(B, |A|, |C|) && IsMatrix(C, |C|, k) && IsMatrix(X, |A|, k)
    requires MatMul(A, X, k) == MatMul(B, C, k)
    ensures X == MatMul(MatMul(Ainv, B, |C|), C, k)
  {
    var u := |A|;
    MatMulAssociative(Ainv, B, C, k);
    MatMulAssociative(Ainv, A, X, k);
    IdentityMulLeft(MatMul(Ainv, A, u), X, k);
  }

  datatype SolveError = LabelCountMismatch(labeledNodes: nat, labelRows: nat)

  /** The solver's two results: the field on the unlabeled nodes and the
      inverse of L_uu, returned for reuse by the risk estimators. */
  datatype Solution = Solution(field: Matrix, inverse: Matrix)

  /** solve(W, labels, labeled). The inverse of L_uu comes from a numerical
      library; here it is the argument Linv, required to be a two-sided inverse.
      `k` is the number of classes, the column count of `labels`. */
  function Solve(W: Matrix, labels: Matrix, k: nat, labeled: seq<bool>, Linv: Matrix)
    : (r: Result<Solution, SolveError>)
    requires IsMatrix(W, |W|, |W|) && |labeled| == |W|
    requires IsMatrix(labels, |labels|, k)
    requires IsInverse(Partition(W, labeled).uu, Linv, |Indices(labeled, false)|)
    ensures r.Err? <==> |labels| != |Indices(labeled, true)|
    ensures r.Err? ==> r.error == LabelCountMismatch(|Indices(labeled, true)|, |labels|)
    ensures r.Ok? ==>
      var p, u := Partition(W, labeled), |Indices(labeled, false)|;
      && r.value.inverse == Linv
      && IsMatrix(r.value.field, u, k)
      && MatMul(p.uu, r.value.field, k) == MatMul(p.ul, labels, k)
  {
    var p := Partition(W, labeled);
    var l := |Indices(labeled, true)|;
    if |labels| != l then
      Err(LabelCountMismatch(l, |labels|))
    else
      var field := MatMul(MatMul(Linv, p.ul, l), labels, k);
      InverseSolves(p.uu, Linv, p.ul, labels, k);
      Ok(Solution(field, Linv))
  }

  /** A fully labeled graph has no unlabeled block: the solve succeeds with an
      empty field and an empty inverse. */
  lemma {:induction false} SolveAllLabeled(W: Matrix, labels: Matrix, k: nat, labeled: seq<bool>)
    requires IsMatrix(W, |W|, |W|) && |labeled| == |W|
    requires forall i :: 0 <= i < |labeled| ==> labeled[i]
    requires IsMatrix(labels, |W|, k)
    ensures IsInverse(Partition(W, labeled).uu, [], |Indices(labeled, false)|)
    ensures Solve(W, labels, k, labeled, []) == Ok(Solution([], []))
  {
    IndicesPartition(labeled);
    IndicesOfAbsentValue(labeled, false);
  }

  /** The entries of v at the given positions, in order. */
  function Select(v: Vector, idx: seq<nat>): (s: Vector)
    requires forall a :: 0 <= a < |idx| ==> idx[a] < |v|
    ensures |s| == |idx|
    ensures forall a :: 0 <= a < |idx| ==> s[a] == v[idx[a]]
  {
    seq(|idx|, a requires 0 <= a < |idx| => v[idx[a]])
  }

  /** Selecting by a mask one position longer adds at most the last entry. */
  lemma {:induction false} SelectExtend(v: Vector, mask: seq<bool>, b: bool)
    requires |v| == |mask| > 0
    ensures var n := |v| - 1;
      Select(v, Indices(mask, b)) ==
        Select(v[..n], Indices(mask[..n], b)) + (if mask[n] == b then [v[n]] else [])
  {
    var n := |v| - 1;
    var I := Indices(mask[..n], b);
    assert Indices(mask, b) == I + (if mask[n] == b then [n] else []);
    assert forall a :: 0 <= a < |I| ==> v[I[a]] == v[..n][I[a]];
  }

  /** The mask splits every sum into its unlabeled and its labeled part. */
  lemma {:induction false} SumSplitByMask(v: Vector, mask: seq<bool>)
    requires |v| == |mask|
    ensures Sum(v) == Sum(Select(v, Indices(mask, false))) + Sum(Select(v, Indices(mask, true)))
    decreases |v|
  {
    if |v| > 0 {
      var n := |v| - 1;
      var F, T := Select(v[..n], Indices(mask[..n], false)), Select(v[..n], Indices(mask[..n], true));
      SumSplitByMask(v[..n], mask[..n]);
      SelectExtend(v, mask, false);
      SelectExtend(v, mask, true);
      SumSingleton(v[n]);
      if mask[n] {
        assert Select(v, Indices(mask, false)) == F;
        SumConcat(T, [v[n]]);
      } else {
        assert Select(v, Indices(mask, true)) == T;
        SumConcat(F, [v[n]]);
      }
    }
  }

  /** Row a of L_uu sums to the total weight from node U[a] to the labeled
      nodes, which is the sum of row a of W_ul: L_uu · 1 == W_ul · 1. */
  lemma {:induction false} UnlabeledRowSums(W: Matrix, labeled: seq<bool>, a: nat)
    requires IsMatrix(W, |W|, |W|) && |labeled| == |W|
    requires a < |Indices(labeled, false)|
    ensures Sum(Partition(W, labeled).uu[a]) == Sum(Partition(W, labeled).ul[a])
  {
    var U, Lb := Indices(labeled, false), Indices(labeled, true);
    var p := Partition(W, labeled);
    var row := CombinatorialLaplacian(W)[U[a]];
    assert p.uu[a] == Select(row, U);
    var toLabeled := Select(row, Lb);
    forall b | 0 <= b < |Lb|
      ensures toLabeled[b] == -p.ul[a][b]
    {
      assert U[a] != Lb[b] by {
        assert !labeled[U[a]] && labeled[Lb[b]];
      }
    }
    LaplacianRowsSumToZero(W);
    SumSplitByMask(row, labeled);
    SumNegated(p.ul[a], toLabeled);
  }

  /** When every label row sums to 1 (one-hot labels in particular), every
      row of the returned field sums to 1. */
  lemma {:induction false} FieldRowsSumToOne(W: Matrix, labels: Matrix, k: nat, labeled: seq<bool>, Linv: Matrix)
    requires IsMatrix(W, |W|, |W|) && |labeled| == |W|
    requires IsMatrix(labels, |labels|, k)
    requires IsInverse(Partition(W, labeled).uu, Linv, |Indices(labeled, false)|)
    requires forall b :: 0 <= b < |labels| ==> Sum(labels[b]) == 1.0
    ensures var r := Solve(W, labels, k, labeled, Linv);
      r.Ok? ==> forall a :: 0 <= a < |r.value.field| ==> Sum(r.value.field[a]) == 1.0
  {
    var l, u := |Indices(labeled, true)|, |Indices(labeled, false)|;
    if |labels| == l {
      var p := Partition(W, labeled);
      var G := MatMul(Linv, p.ul, l);
      var field := MatMul(G, labels, k);
      assert Solve(W, labels, k, labeled, Linv).value.field == field;
      assert MatVec(labels, Ones(k)) == Ones(l) by {
        forall b | 0 <= b < l
          ensures MatVec(labels, Ones(k))[b] == 1.0
        {
          DotOnes(labels[b]);
        }
      }
      assert MatVec(p.ul, Ones(l)) == MatVec(p.uu, Ones(u)) by {
        forall a | 0 <= a < u
          ensures MatVec(p.ul, Ones(l))[a] == MatVec(p.uu, Ones(u))[a]
        {
          DotOnes(p.ul[a]);
          DotOnes(p.uu[a]);
          UnlabeledRowSums(W, labeled, a);
        }
      }
      MatMulVec(G, labels, k, Ones(k));
      MatMulVec(Linv, p.ul, l, Ones(l));
      MatMulVec(Linv, p.uu, u, Ones(u));
      IdentityMatVec(MatMul(Linv, p.uu, u), Ones(u));
      forall a | 0 <= a < u
        ensures Sum(field[a]) == 1.0
      {
        DotOnes(field[a]);
        assert MatVec(field, Ones(k))[a] == Dot(field[a], Ones(k));
      }
    }
  }
}
