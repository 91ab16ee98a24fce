/** The combinatorial Laplacian L = D - W of an edge-weight matrix W, where D is
    the diagonal matrix of row sums (the weighted degrees). */
module Laplacian {
  import opened LinearAlgebra

  /** The weighted degree of every node: the sum of its row of W. */
  function RowSums(W: Matrix): (d: Vector)
    ensures |d| == |W|
    ensures forall i :: 0 <= i < |W| ==> d[i] == Sum(W[i])
  {
    seq(|W|, i requires 0 <= i < |W| => Sum(W[i]))
  }

  /** The square diagonal matrix with d on its diagonal. */
  function Diagonal(d: Vector): (D: Matrix)
    ensures IsMatrix(D, |d|, |d|)
    ensures forall i, j :: 0 <= i < |d| && 0 <= j < |d| ==> D[i][j] == (if i == j then d[i] else 0.0)
  {
    seq(|d|, i requires 0 <= i < |d| =>
      seq(|d|, j requires 0 <= j < |d| => if i == j then d[i] else 0.0))
  }

  function MatSub(A: Matrix, B: Matrix, m: nat, n: nat): (C: Matrix)
    requires IsMatrix(A, m, n) && IsMatrix(B, m, n)
    ensures IsMatrix(C, m, n)
    ensures forall i :: 0 <= i < m ==> C[i] == VecSub(A[i], B[i])
  {
    seq(m, i requires 0 <= i < m => VecSub(A[i], B[i]))
  }

  /** L = diag(rowsum W) - W. Off the diagonal L is -W; on it, the weighted
      degree less the self-loop weight. */
  function CombinatorialLaplacian(W: Matrix): (L: Matrix)
    requires IsMatrix(W, |W|, |W|)
    ensures IsMatrix(L, |W|, |W|)
    ensures forall i, j :: 0 <= i < |W| && 0 <= j < |W| && i != j ==> L[i][j] == -W[i][j]
    ensures forall i :: 0 <= i < |W| ==> L[i][i] == Sum(W[i]) - W[i][i]
  {
    MatSub(Diagonal(RowSums(W)), W, |W|, |W|)
  }

  /** Every row of the Laplacian sums to zero: constant functions lie in its kernel. */
  lemma {:induction false} LaplacianRowsSumToZero(W: Matrix)
    requires IsMatrix(W, |W|, |W|)
    ensures forall i :: 0 <= i < |W| ==> Sum(CombinatorialLaplacian(W)[i]) == 0.0
  {
    var n := |W|;
    var D := Diagonal(RowSums(W));
    forall i | 0 <= i < n
      ensures Sum(CombinatorialLaplacian(W)[i]) == 0.0
    {
      assert CombinatorialLaplacian(W)[i] == VecSub(D[i], W[i]);
      SumOfDifference(D[i], W[i]);
      SumOfOneHot(D[i], i);
    }
  }

  /** A symmetric weight matrix has a symmetric Laplacian. */
  lemma {:induction false} LaplacianSymmetric(W: Matrix)
    requires IsMatrix(W, |W|, |W|) && IsSymmetric(W)
    ensures IsSymmetric(CombinatorialLaplacian(W))
  {
  }

  /** With nonnegative weights, the Laplacian is nonpositive off the diagonal
      and nonnegative on it (a degree is at least the self-loop weight). */
  lemma {:induction false} LaplacianSigns(W: Matrix)
    requires IsMatrix(W, |W|, |W|)
    requires forall i, j :: 0 <= i < |W| && 0 <= j < |W| ==> W[i][j] >= 0.0
    ensures forall i, j :: 0 <= i < |W| && 0 <= j < |W| && i != j ==>
              CombinatorialLaplacian(W)[i][j] <= 0.0
    ensures forall i :: 0 <= i < |W| ==> CombinatorialLaplacian(W)[i][i] >= 0.0
  {
    forall i | 0 <= i < |W|
      ensures Sum(W[i]) >= W[i][i]
    {
      var others := W[i][..i] + W[i][i + 1..];
      SumExcept(W[i], i);
      assert forall j :: 0 <= j < |others| ==> others[j] >= 0.0 by {
        forall j | 0 <= j < |others|
          ensures others[j] >= 0.0
        {
          if j < i {
            assert others[j] == W[i][j];
          } else {
            assert others[j] == W[i][j + 1];
          }
        }
      }
      SumNonnegative(others);
    }
  }
}
