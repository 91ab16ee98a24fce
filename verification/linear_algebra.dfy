/** Dense real matrices stored as sequences of rows, and the handful of
    operations the harmonic solver and the risk estimators are built from:
    sums, inner products, matrix products, identities and inverses.
    Exact `real` arithmetic stands in for the floating point of the
    original program. */
module LinearAlgebra {

  type Vector = seq<real>
  type Matrix = seq<seq<real>>

  /** M has `rows` rows of `cols` entries each. */
  predicate IsMatrix(M: Matrix, rows: nat, cols: nat) {
    |M| == rows && forall i :: 0 <= i < rows ==> |M[i]| == cols
  }

  predicate IsSymmetric(M: Matrix)
    requires IsMatrix(M, |M|, |M|)
  {
    forall i, j :: 0 <= i < |M| && 0 <= j < |M| ==> M[i][j] == M[j][i]
  }

  function ZeroVector(n: nat): (z: Vector)
    ensures |z| == n
    ensures forall i :: 0 <= i < n ==> z[i] == 0.0
  {
    seq(n, i => 0.0)
  }

  function ZeroMatrix(m: nat, n: nat): (Z: Matrix)
    ensures IsMatrix(Z, m, n)
    ensures forall i, j :: 0 <= i < m && 0 <= j < n ==> Z[i][j] == 0.0
  {
    seq(m, i => ZeroVector(n))
  }

  function Ones(n: nat): (o: Vector)
    ensures |o| == n
    ensures forall i :: 0 <= i < n ==> o[i] == 1.0
  {
    seq(n, i => 1.0)
  }

  function VecAdd(x: Vector, y: Vector): (z: Vector)
    requires |x| == |y|
    ensures |z| == |x|
    ensures forall i :: 0 <= i < |x| ==> z[i] == x[i] + y[i]
  {
    seq(|x|, i requires 0 <= i < |x| => x[i] + y[i])
  }

  function VecSub(x: Vector, y: Vector): (z: Vector)
    requires |x| == |y|
    ensures |z| == |x|
    ensures forall i :: 0 <= i < |x| ==> z[i] == x[i] - y[i]
  {
    seq(|x|, i requires 0 <= i < |x| => x[i] - y[i])
  }

  function Scale(s: real, x: Vector): (z: Vector)
    ensures |z| == |x|
    ensures forall i :: 0 <= i < |x| ==> z[i] == Mul(s, x[i])
  {
    seq(|x|, i requires 0 <= i < |x| => Mul(s, x[i]))
  }

  /** Column j of M, top to bottom. */
  function Column(M: Matrix, j: nat): (col: Vector)
    requires forall i :: 0 <= i < |M| ==> j < |M[i]|
    ensures |col| == |M|
    ensures forall i :: 0 <= i < |M| ==> col[i] == M[i][j]
  {
    seq(|M|, i requires 0 <= i < |M| => M[i][j])
  }

  function Transpose(M: Matrix, m: nat, n: nat): (T: Matrix)
    requires IsMatrix(M, m, n)
    ensures IsMatrix(T, n, m)
    ensures forall i, j :: 0 <= i < n && 0 <= j < m ==> T[i][j] == M[j][i]
  {
    seq(n, i requires 0 <= i < n => Column(M, i))
  }

  /** Sum of the entries of a vector. */
  function Sum(v: Vector): real
  {
    if |v| == 0 then 0.0 else Sum(v[..|v| - 1]) + v[|v| - 1]
  }

  /** Sum of all the entries of a matrix. */
  function Total(M: Matrix): real
  {
    if |M| == 0 then 0.0 else Total(M[..|M| - 1]) + Sum(M[|M| - 1])
  }

  /** The product of two reals, named so that the recursive definitions below
      expose a product to the solver's nonlinear arithmetic only when a proof
      reaches for this definition. */
  function Mul(a: real, b: real): real
  {
    a * b
  }

  /** Inner product of two vectors of one length. */
  function Dot(x: Vector, y: Vector): real
    requires |x| == |y|
  {
    if |x| == 0 then 0.0 else Dot(x[..|x| - 1], y[..|y| - 1]) + Mul(x[|x| - 1], y[|y| - 1])
  }

  /** Row vector times matrix: entry j is the inner product of a with column j of B. */
  function VecMat(a: Vector, B: Matrix, q: nat): (r: Vector)
    requires IsMatrix(B, |a|, q)
    ensures |r| == q
  {
    seq(q, j requires 0 <= j < q => Dot(a, Column(B, j)))
  }

  /** Matrix times column vector: entry l is the inner product of row l of B with z. */
  function MatVec(B: Matrix, z: Vector): (r: Vector)
    requires IsMatrix(B, |B|, |z|)
    ensures |r| == |B|
  {
    seq(|B|, l requires 0 <= l < |B| => Dot(B[l], z))
  }

  /** The product of an m×p matrix A and a p×q matrix B. The column count q is
      passed explicitly because a matrix with no rows does not record it. */
  function MatMul(A: Matrix, B: Matrix, q: nat): (P: Matrix)
    requires IsMatrix(A, |A|, |B|) && IsMatrix(B, |B|, q)
    ensures IsMatrix(P, |A|, q)
  {
    seq(|A|, i requires 0 <= i < |A| => VecMat(A[i], B, q))
  }

  predicate IsIdentity(M: Matrix, n: nat) {
    IsMatrix(M, n, n) &&
    forall i, j :: 0 <= i < n && 0 <= j < n ==> M[i][j] == (if i == j then 1.0 else 0.0)
  }

  /** B is a two-sided inverse of the n×n matrix A. */
  predicate IsInverse(A: Matrix, B: Matrix, n: nat) {
    IsMatrix(A, n, n) && IsMatrix(B, n, n) &&
    IsIdentity(MatMul(A, B, n), n) && IsIdentity(MatMul(B, A, n), n)
  }

  // ---------------------------------------------------------------------
  // Sums

  lemma {:induction false} SumOfZeros(v: Vector)
    requires forall i :: 0 <= i < |v| ==> v[i] == 0.0
    ensures Sum(v) == 0.0
    decreases |v|
  {
    if |v| > 0 {
      SumOfZeros(v[..|v| - 1]);
    }
  }

  lemma {:induction false} SumNonnegative(v: Vector)
    requires forall i :: 0 <= i < |v| ==> v[i] >= 0.0
    ensures Sum(v) >= 0.0
    decreases |v|
  {
    if |v| > 0 {
      SumNonnegative(v[..|v| - 1]);
    }
  }

  lemma {:induction false} SumConcat(a: Vector, b: Vector)
    ensures Sum(a + b) == Sum(a) + Sum(b)
    decreases |b|
  {
    if |b| > 0 {
      assert (a + b)[..|a + b| - 1] == a + b[..|b| - 1];
      SumConcat(a, b[..|b| - 1]);
    } else {
      assert a + b == a;
    }
  }

  lemma {:induction false} SumSingleton(x: real)
    ensures Sum([x]) == x
  {
    assert [x][..0] == [];
  }

  /** The sum is the entry at j plus the sum of all the other entries. */
  lemma {:induction false} SumExcept(v: Vector, j: nat)
    requires j < |v|
    ensures Sum(v) == Sum(v[..j] + v[j + 1..]) + v[j]
  {
    var before, after := v[..j], v[j + 1..];
    assert v == (before + [v[j]]) + after;
    SumConcat(before + [v[j]], after);
    SumConcat(before, [v[j]]);
    SumConcat(before, after);
    SumSingleton(v[j]);
  }

  lemma {:induction false} SumOfDifference(a: Vector, b: Vector)
    requires |a| == |b|
    ensures Sum(VecSub(a, b)) == Sum(a) - Sum(b)
    decreases |a|
  {
    if |a| > 0 {
      var n := |a| - 1;
      assert VecSub(a, b)[..n] == VecSub(a[..n], b[..n]);
      SumOfDifference(a[..n], b[..n]);
    }
  }

  /** A vector that is zero everywhere but at i sums to its entry at i. */
  lemma {:induction false} SumOfOneHot(v: Vector, i: nat)
    requires i < |v|
    requires forall j :: 0 <= j < |v| && j != i ==> v[j] == 0.0
    ensures Sum(v) == v[i]
  {
    SumExcept(v, i);
    SumOfZeros(v[..i] + v[i + 1..]);
  }

  /** Negating every entry negates the sum. */
  lemma {:induction false} SumNegated(v: Vector, w: Vector)
    requires |v| == |w|
    requires forall i :: 0 <= i < |w| ==> w[i] == -v[i]
    ensures Sum(w) == -Sum(v)
    decreases |v|
  {
    if |v| > 0 {
      SumNegated(v[..|v| - 1], w[..|w| - 1]);
    }
  }

  lemma {:induction false} TotalNonnegative(M: Matrix)
    requires forall i, j :: 0 <= i < |M| && 0 <= j < |M[i]| ==> M[i][j] >= 0.0
    ensures Total(M) >= 0.0
    decreases |M|
  {
    if |M| > 0 {
      TotalNonnegative(M[..|M| - 1]);
      SumNonnegative(M[|M| - 1]);
    }
  }

  // ---------------------------------------------------------------------
  // Inner products and products

  lemma {:induction false} DotZeroLeft(x: Vector, y: Vector)
    requires |x| == |y|
    requires forall i :: 0 <= i < |x| ==> x[i] == 0.0
    ensures Dot(x, y) == 0.0
    decreases |x|
  {
    if |x| > 0 {
      DotZeroLeft(x[..|x| - 1], y[..|y| - 1]);
    }
  }

  /** One step of a prefix inner product. */
  lemma {:induction false} DotPrefixStep(x: Vector, w: Vector, y: nat)
    requires |x| == |w| && 0 < y <= |w|
    ensures Dot(x[..y], w[..y]) == Dot(x[..y - 1], w[..y - 1]) + Mul(x[y - 1], w[y - 1])
  {
    assert x[..y][..y - 1] == x[..y - 1];
    assert w[..y][..y - 1] == w[..y - 1];
  }

  /** Pairing with the all-ones vector sums a vector. */
  lemma {:induction false} DotOnes(v: Vector)
    ensures Dot(v, Ones(|v|)) == Sum(v)
    decreases |v|
  {
    if |v| > 0 {
      var n := |v| - 1;
      assert Ones(|v|)[..n] == Ones(n);
      DotOnes(v[..n]);
    }
  }

  /** Dot(e_i, v) == v[i] for the i-th unit vector e_i. */
  lemma {:induction false} DotUnitLeft(e: Vector, v: Vector, i: nat)
    requires |e| == |v| && i < |e|
    requires forall j :: 0 <= j < |e| ==> e[j] == (if j == i then 1.0 else 0.0)
    ensures Dot(e, v) == v[i]
    decreases |e|
  {
    var n := |e| - 1;
    if i == n {
      DotZeroLeft(e[..n], v[..n]);
    } else {
      DotUnitLeft(e[..n], v[..n], i);
    }
  }

  /** The inner product is linear in its first argument. */
  lemma DotLinearLeft(x: Vector, y: Vector, s: real, z: Vector)
    requires |x| == |y| == |z|
    ensures Dot(VecAdd(x, Scale(s, y)), z) == Dot(x, z) + Mul(s, Dot(y, z))
  {
    DotAddLeft(x, Scale(s, y), z, VecAdd(x, Scale(s, y)));
    DotScaleLeft(s, y, z, Scale(s, y));
  }

  /** Additivity in the first argument, with the sum w = x + y given entrywise. */
  lemma {:induction false} DotAddLeft(x: Vector, y: Vector, z: Vector, w: Vector)
    requires |x| == |y| == |z| == |w|
    requires forall i :: 0 <= i < |w| ==> w[i] == x[i] + y[i]
    ensures Dot(w, z) == Dot(x, z) + Dot(y, z)
    decreases |w|
  {
    if |w| > 0 {
      var n := |w| - 1;
      DotAddLeft(x[..n], y[..n], z[..n], w[..n]);
      Distribute(w[n], x[n], y[n], z[n]);
    }
  }

  lemma Distribute(w: real, a: real, b: real, c: real)
    requires w == a + b
    ensures Mul(w, c) == Mul(a, c) + Mul(b, c)
  {
  }

  /** Homogeneity in the first argument, with w = s·y given entrywise. */
  lemma {:induction false} DotScaleLeft(s: real, y: Vector, z: Vector, w: Vector)
    requires |y| == |z| == |w|
    requires forall i :: 0 <= i < |w| ==> w[i] == Mul(s, y[i])
    ensures Dot(w, z) == Mul(s, Dot(y, z))
    decreases |w|
  {
    if |w| > 0 {
      var n := |w| - 1;
      DotScaleLeft(s, y[..n], z[..n], w[..n]);
      ScaleStep(Dot(w, z), Dot(w[..n], z[..n]), Dot(y, z), Dot(y[..n], z[..n]), w[n], y[n], z[n], s);
    }
  }

  /** The arithmetic of one induction step of DotScaleLeft. */
  lemma ScaleStep(e: real, dw: real, ey: real, dy: real, wn: real, b: real, c: real, s: real)
    requires e == dw + Mul(wn, c) && dw == Mul(s, dy) && wn == Mul(s, b) && ey == dy + Mul(b, c)
    ensures e == Mul(s, ey)
  {
  }

  /** Peeling the last row of B off the row-vector product. */
  lemma {:induction false} VecMatPeel(a: Vector, B: Matrix, q: nat)
    requires IsMatrix(B, |a|, q) && |a| > 0
    ensures VecMat(a, B, q) ==
            VecAdd(VecMat(a[..|a| - 1], B[..|a| - 1], q), Scale(a[|a| - 1], B[|a| - 1]))
  {
    var p := |a|;
    var a', B' := a[..p - 1], B[..p - 1];
    var rest := VecAdd(VecMat(a', B', q), Scale(a[p - 1], B[p - 1]));
    forall j | 0 <= j < q
      ensures VecMat(a, B, q)[j] == rest[j]
    {
      assert Column(B, j)[..p - 1] == Column(B', j);
      assert VecMat(a, B, q)[j] == Dot(a, Column(B, j));
    }
  }

  /** (a·B)·z == a·(B·z): the core of associativity of the product. */
  lemma {:induction false} VecMatDot(a: Vector, B: Matrix, q: nat, z: Vector)
    requires IsMatrix(B, |a|, q) && |z| == q
    ensures Dot(VecMat(a, B, q), z) == Dot(a, MatVec(B, z))
    decreases |a|
  {
    var p := |a|;
    if p == 0 {
      DotZeroLeft(VecMat(a, B, q), z);
    } else {
      var a', B' := a[..p - 1], B[..p - 1];
      VecMatDot(a', B', q, z);
      VecMatPeel(a, B, q);
      DotLinearLeft(VecMat(a', B', q), B[p - 1], a[p - 1], z);
      assert MatVec(B, z)[..p - 1] == MatVec(B', z);
    }
  }

  /** The matrix product is associative: (A·B)·C == A·(B·C). */
  lemma {:induction false} MatMulAssociative(A: Matrix, B: Matrix, C: Matrix, s: nat)
    requires IsMatrix(A, |A|, |B|) && IsMatrix(B, |B|, |C|) && IsMatrix(C, |C|, s)
    ensures MatMul(MatMul(A, B, |C|), C, s) == MatMul(A, MatMul(B, C, s), s)
  {
    var q := |C|;
    var AB := MatMul(A, B, q);
    var BC := MatMul(B, C, s);
    forall i | 0 <= i < |A|
      ensures MatMul(AB, C, s)[i] == MatMul(A, BC, s)[i]
    {
      forall c | 0 <= c < s
        ensures MatMul(AB, C, s)[i][c] == MatMul(A, BC, s)[i][c]
      {
        assert Column(BC, c) == MatVec(B, Column(C, c));
        VecMatDot(A[i], B, q, Column(C, c));
      }
    }
  }

  /** Multiplying by the identity on the left changes nothing. */
  lemma {:induction false} IdentityMulLeft(I: Matrix, X: Matrix, q: nat)
    requires IsIdentity(I, |X|) && IsMatrix(X, |X|, q)
    ensures MatMul(I, X, q) == X
  {
    forall i | 0 <= i < |X|
      ensures MatMul(I, X, q)[i] == X[i]
    {
      forall c | 0 <= c < q
        ensures MatMul(I, X, q)[i][c] == X[i][c]
      {
        DotUnitLeft(I[i], Column(X, c), i);
      }
    }
  }

  /** (A·B)·z == A·(B·z) for a column vector z. */
  lemma {:induction false} MatMulVec(A: Matrix, B: Matrix, q: nat, z: Vector)
    requires IsMatrix(A, |A|, |B|) && IsMatrix(B, |B|, q) && |z| == q
    ensures MatVec(MatMul(A, B, q), z) == MatVec(A, MatVec(B, z))
  {
    forall i | 0 <= i < |A|
      ensures MatVec(MatMul(A, B, q), z)[i] == MatVec(A, MatVec(B, z))[i]
    {
      VecMatDot(A[i], B, q, z);
    }
  }

  /** The identity fixes every column vector. */
  lemma {:induction false} IdentityMatVec(I: Matrix, z: Vector)
    requires IsIdentity(I, |z|)
    ensures MatVec(I, z) == z
  {
    forall i | 0 <= i < |z|
      ensures MatVec(I, z)[i] == z[i]
    {
      DotUnitLeft(I[i], z, i);
    }
  }
}
