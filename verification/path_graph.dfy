/** A worked instance of the solver: the 4-node path graph 0-1-2-3 with unit
    weights, node 0 labeled with class 0 and node 3 with class 1. */
module PathGraph {
  import opened LinearAlgebra
  import opened Laplacian
  import opened Results
  import opened HarmonicSolver

  lemma {:induction false} Dot2(x: Vector, y: Vector)
    requires |x| == |y| == 2
    ensures Dot(x, y) == x[0] * y[0] + x[1] * y[1]
  {
    assert x[..1][..0] == [] && y[..1][..0] == [];
    assert Dot(x[..1], y[..1]) == x[0] * y[0];
    assert Dot(x, y) == Dot(x[..1], y[..1]) + x[1] * y[1];
  }

  /** Row i of the product of two 2×2 matrices, written out. */
  lemma {:induction false} MatMul2Row(A: Matrix, B: Matrix, i: nat)
    requires IsMatrix(A, 2, 2) && IsMatrix(B, 2, 2) && i < 2
    ensures MatMul(A, B, 2)[i] ==
      [A[i][0] * B[0][0] + A[i][1] * B[1][0], A[i][0] * B[0][1] + A[i][1] * B[1][1]]
  {
    var r := MatMul(A, B, 2)[i];
    assert r == VecMat(A[i], B, 2);
    Dot2(A[i], Column(B, 0));
    Dot2(A[i], Column(B, 1));
    assert r[0] == A[i][0] * B[0][0] + A[i][1] * B[1][0];
    assert r[1] == A[i][0] * B[0][1] + A[i][1] * B[1][1];
  }

  function PathWeights(): Matrix {
    [[0.0, 1.0, 0.0, 0.0], [1.0, 0.0, 1.0, 0.0], [0.0, 1.0, 0.0, 1.0], [0.0, 0.0, 1.0, 0.0]]
  }

  function PathMask(): seq<bool> { [true, false, false, true] }

  /** Extending a prefix of the mask by one position. */
  lemma {:induction false} IndicesExtend(m: seq<bool>, b: bool, n: nat)
    requires n < |m|
    ensures Indices(m[..n + 1], b) == Indices(m[..n], b) + (if m[n] == b then [n] else [])
  {
    assert m[..n + 1][..n] == m[..n];
  }

  /** The unlabeled positions of the mask [true, false, false, true]. */
  lemma {:induction false} MaskUnlabeled(m: seq<bool>)
    requires |m| == 4 && m[0] && !m[1] && !m[2] && m[3]
    ensures Indices(m, false) == [1, 2]
  {
    assert m[..0] == [];
    IndicesExtend(m, false, 0);
    IndicesExtend(m, false, 1);
    IndicesExtend(m, false, 2);
    IndicesExtend(m, false, 3);
    assert m[..4] == m;
  }

  /** The labeled positions of the mask [true, false, false, true]. */
  lemma {:induction false} MaskLabeled(m: seq<bool>)
    requires |m| == 4 && m[0] && !m[1] && !m[2] && m[3]
    ensures Indices(m, true) == [0, 3]
  {
    assert m[..0] == [];
    IndicesExtend(m, true, 0);
    IndicesExtend(m, true, 1);
    IndicesExtend(m, true, 2);
    IndicesExtend(m, true, 3);
    assert m[..4] == m;
  }

  lemma {:induction false} PathIndices()
    ensures Indices(PathMask(), false) == [1, 2]
    ensures Indices(PathMask(), true) == [0, 3]
  {
    MaskUnlabeled(PathMask());
    MaskLabeled(PathMask());
  }

  lemma {:induction false} PathDegrees()
    ensures Sum(PathWeights()[1]) == 2.0 && Sum(PathWeights()[2]) == 2.0
  {
    var W := PathWeights();
    SumExcept(W[1], 0);
    SumExcept(W[1][1..], 1);
    assert W[1][..0] + W[1][1..] == [0.0, 1.0, 0.0];
    SumOfOneHot([0.0, 1.0, 0.0], 1);
    SumOfOneHot([1.0, 0.0, 1.0, 0.0] [0 := 0.0], 2);
    SumExcept(W[2], 1);
    assert W[2][..1] + W[2][2..] == [0.0, 0.0, 1.0];
    SumOfOneHot([0.0, 0.0, 1.0], 2);
  }

  lemma {:induction false} PathBlocks()
    ensures Partition(PathWeights(), PathMask()) == Blocks([[2.0, -1.0], [-1.0, 2.0]], [[1.0, 0.0], [0.0, 1.0]])
  {
    PathIndices();
    PathDegrees();
    var p := Partition(PathWeights(), PathMask());
    assert p.uu[0] == [2.0, -1.0] && p.uu[1] == [-1.0, 2.0];
    assert p.ul[0] == [1.0, 0.0] && p.ul[1] == [0.0, 1.0];
  }

  function PathInverse(): Matrix {
    [[2.0 / 3.0, 1.0 / 3.0], [1.0 / 3.0, 2.0 / 3.0]]
  }

  lemma {:induction false} PathInverseLeft(A: Matrix, B: Matrix)
    requires A == [[2.0, -1.0], [-1.0, 2.0]] && B == PathInverse()
    ensures IsIdentity(MatMul(A, B, 2), 2)
  {
    MatMul2Row(A, B, 0);
    MatMul2Row(A, B, 1);
  }

  lemma {:induction false} PathInverseRight(A: Matrix, B: Matrix)
    requires A == [[2.0, -1.0], [-1.0, 2.0]] && B == PathInverse()
    ensures IsIdentity(MatMul(B, A, 2), 2)
  {
    MatMul2Row(B, A, 0);
    MatMul2Row(B, A, 1);
  }

  lemma {:induction false} InverseTimesIdentity(B: Matrix, I: Matrix)
    requires B == PathInverse() && I == [[1.0, 0.0], [0.0, 1.0]]
    ensures MatMul(B, I, 2) == B
  {
    var P := MatMul(B, I, 2);
    MatMul2Row(B, I, 0);
    MatMul2Row(B, I, 1);
    assert P[0] == B[0] && P[1] == B[1];
  }

  lemma {:induction false} PathInverseIsInverse()
    ensures IsInverse(Partition(PathWeights(), PathMask()).uu, PathInverse(), 2)
  {
    PathBlocks();
    var uu := [[2.0, -1.0], [-1.0, 2.0]];
    PathInverseLeft(uu, PathInverse());
    PathInverseRight(uu, PathInverse());
  }

  /** The 4-node path 0-1-2-3 with its ends labeled by classes 0 and 1: the
      inner nodes get the field (2/3, 1/3) and (1/3, 2/3), each leaning toward
      the label of its nearer end. */
  lemma {:induction false} PathGraphExample()
    ensures IsInverse(Partition(PathWeights(), PathMask()).uu, PathInverse(), 2)
    ensures Solve(PathWeights(), [[1.0, 0.0], [0.0, 1.0]], 2, PathMask(), PathInverse()) ==
            Ok(Solution([[2.0 / 3.0, 1.0 / 3.0], [1.0 / 3.0, 2.0 / 3.0]], PathInverse()))
  {
    PathInverseIsInverse();
    PathBlocks();
    PathIndices();
    var I := [[1.0, 0.0], [0.0, 1.0]];
    InverseTimesIdentity(PathInverse(), I);
  }
}
