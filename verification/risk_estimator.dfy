/** The two expected-risk estimators for active learning: the direct form
    (`expected_risk`) and the form that hoists a per-pair prefactor out of the
    class loop (`expected_risk_pre`). Both take the field on the u unlabeled
    nodes (u×k) and the inverse Linv (u×u) of the unlabeled Laplacian block. */
module RiskEstimator {
  import opened LinearAlgebra
  import opened Results

  predicate IsSquare(G: Matrix) {
    IsMatrix(G, |G|, |G|)
  }

  predicate NonzeroDiagonal(G: Matrix)
    requires IsSquare(G)
  {
    forall i :: 0 <= i < |G| ==> G[i][i] != 0.0
  }

  predicate UnitDiagonal(G: Matrix)
    requires IsSquare(G)
  {
    forall i :: 0 <= i < |G| ==> G[i][i] == 1.0
  }

  /** The 0/1 value of a boolean, as numpy promotes it in arithmetic. */
  function Indicator(b: bool): real {
    if b then 1.0 else 0.0
  }

  function Max(a: real, b: real): (m: real)
    ensures m >= a && m >= b && (m == a || m == b)
  {
    if a >= b then a else b
  }

  /** np.maximum on two u×u matrices. */
  function ElementwiseMax(A: Matrix, B: Matrix, u: nat): (M: Matrix)
    requires IsMatrix(A, u, u) && IsMatrix(B, u, u)
    ensures IsMatrix(M, u, u)
    ensures forall i, j :: 0 <= i < u && 0 <= j < u ==> M[i][j] == Max(A[i][j], B[i][j])
  {
    seq(u, i requires 0 <= i < u => seq(u, j requires 0 <= j < u => Max(A[i][j], B[i][j])))
  }

  // ---------------------------------------------------------------------
  // expected_risk

  /** Each row of G divided by that row's own diagonal entry. */
  function RowNormalized(G: Matrix): (nG: Matrix)
    requires IsSquare(G) && NonzeroDiagonal(G)
    ensures IsMatrix(nG, |G|, |G|)
    ensures forall i, j :: 0 <= i < |G| && 0 <= j < |G| ==> nG[i][j] * G[i][i] == G[i][j]
    ensures UnitDiagonal(nG)
  {
    seq(|G|, i requires 0 <= i < |G| => seq(|G|, j requires 0 <= j < |G| => G[i][j] / G[i][i]))
  }

  /** The field after a hypothetical query, for predicted class c and true label yk:
      entry (i, j) is field[j][c] + (ind(yk == c) - field[i][c]) · nG[i][j].
      On the diagonal it is pinned to the hypothetical label. */
  function FPlus(field: Matrix, nG: Matrix, k: nat, yk: nat, c: nat): (F: Matrix)
    requires IsMatrix(field, |field|, k) && IsMatrix(nG, |field|, |field|) && c < k
    ensures IsMatrix(F, |field|, |field|)
    ensures forall i :: 0 <= i < |field| && nG[i][i] == 1.0 ==> F[i][i] == Indicator(yk == c)
  {
    var u := |field|;
    seq(u, i requires 0 <= i < u => seq(u, j requires 0 <= j < u =>
      field[j][c] + Mul(Indicator(yk == c) - field[i][c], nG[i][j])))
  }

  /** The running elementwise maximum `maxfplus` for label yk after the classes
      0 .. c-1, starting from zeros. */
  function MaxFPlus(field: Matrix, nG: Matrix, k: nat, yk: nat, c: nat): (M: Matrix)
    requires IsMatrix(field, |field|, k) && IsMatrix(nG, |field|, |field|) && c <= k
    ensures IsMatrix(M, |field|, |field|)
    decreases c
  {
    if c == 0 then ZeroMatrix(|field|, |field|)
    else ElementwiseMax(FPlus(field, nG, k, yk, c - 1), MaxFPlus(field, nG, k, yk, c - 1), |field|)
  }

  /** Each accumulator entry is the least upper bound of 0 and the fplus
      entries of the classes seen so far: it is nonnegative, at least each of
      them, and equal to 0 or to one of them. */
  lemma {:induction false} MaxFPlusIsLeastUpperBound(field: Matrix, nG: Matrix, k: nat, yk: nat, c: nat, i: nat, j: nat)
    requires IsMatrix(field, |field|, k) && IsMatrix(nG, |field|, |field|) && c <= k
    requires i < |field| && j < |field|
    ensures var M := MaxFPlus(field, nG, k, yk, c);
      && M[i][j] >= 0.0
      && (forall c' :: 0 <= c' < c ==> M[i][j] >= FPlus(field, nG, k, yk, c')[i][j])
      && (M[i][j] == 0.0 || exists c' :: 0 <= c' < c && M[i][j] == FPlus(field, nG, k, yk, c')[i][j])
    decreases c
  {
    if c > 0 {
      MaxFPlusIsLeastUpperBound(field, nG, k, yk, c - 1, i, j);
      var M, M', F := MaxFPlus(field, nG, k, yk, c), MaxFPlus(field, nG, k, yk, c - 1), FPlus(field, nG, k, yk, c - 1);
      assert M[i][j] == Max(F[i][j], M'[i][j]);
      if M[i][j] == F[i][j] {
        assert exists c' :: 0 <= c' < c && M[i][j] == FPlus(field, nG, k, yk, c')[i][j];
      }
    }
  }

  /** Every accumulator entry is nonnegative, since the accumulator starts at zero. */
  lemma {:induction false} MaxFPlusNonnegative(field: Matrix, nG: Matrix, k: nat, yk: nat, c: nat, i: nat, j: nat)
    requires IsMatrix(field, |field|, k) && IsMatrix(nG, |field|, |field|) && c <= k
    requires i < |field| && j < |field|
    ensures MaxFPlus(field, nG, k, yk, c)[i][j] >= 0.0
    decreases c
  {
    if c > 0 {
      MaxFPlusNonnegative(field, nG, k, yk, c - 1, i, j);
    }
  }

  /** On the diagonal the accumulator is 1 once the class yk has been seen and
      0 before: the pinned entries are 0/1 indicators. */
  lemma {:induction false} MaxFPlusDiagonal(field: Matrix, nG: Matrix, k: nat, yk: nat, c: nat, i: nat)
    requires IsMatrix(field, |field|, k) && IsMatrix(nG, |field|, |field|) && c <= k
    requires UnitDiagonal(nG) && i < |field|
    ensures MaxFPlus(field, nG, k, yk, c)[i][i] == Indicator(yk < c)
    decreases c
  {
    if c > 0 {
      MaxFPlusDiagonal(field, nG, k, yk, c - 1, i);
      var F := FPlus(field, nG, k, yk, c - 1);
      assert F[i][i] == Indicator(yk == c - 1);
      assert MaxFPlus(field, nG, k, yk, c)[i][i] == Max(F[i][i], MaxFPlus(field, nG, k, yk, c - 1)[i][i]);
    }
  }

  function OnePlus(M: Matrix): (N: Matrix)
    ensures |N| == |M|
    ensures forall i :: 0 <= i < |M| ==> |N[i]| == |M[i]|
    ensures forall i, j :: 0 <= i < |M| && 0 <= j < |M[i]| ==> N[i][j] == 1.0 + M[i][j]
  {
    seq(|M|, i requires 0 <= i < |M| => seq(|M[i]|, j requires 0 <= j < |M[i]| => 1.0 + M[i][j]))
  }

  /** The weight of hypothetical label yk: the sum over the whole matrix of
      1 + maxfplus once every class has been seen. */
  function LabelWeight(field: Matrix, nG: Matrix, k: nat, yk: nat): (w: real)
    requires IsMatrix(field, |field|, k) && IsMatrix(nG, |field|, |field|)
    ensures w >= 0.0
  {
    LabelWeightNonnegative(field, nG, k, yk);
    Total(OnePlus(MaxFPlus(field, nG, k, yk, k)))
  }

  /** The sum of 1 + maxfplus is nonnegative, since every accumulator entry is. */
  lemma {:induction false} LabelWeightNonnegative(field: Matrix, nG: Matrix, k: nat, yk: nat)
    requires IsMatrix(field, |field|, k) && IsMatrix(nG, |field|, |field|)
    ensures Total(OnePlus(MaxFPlus(field, nG, k, yk, k))) >= 0.0
  {
    var M := MaxFPlus(field, nG, k, yk, k);
    forall i, j | 0 <= i < |field| && 0 <= j < |field|
      ensures OnePlus(M)[i][j] >= 0.0
    {
      MaxFPlusNonnegative(field, nG, k, yk, k, i, j);
    }
    TotalNonnegative(OnePlus(M));
  }

  function LabelWeights(field: Matrix, nG: Matrix, k: nat): (ws: Vector)
    requires IsMatrix(field, |field|, k) && IsMatrix(nG, |field|, |field|)
    ensures |ws| == k
    ensures forall yk :: 0 <= yk < k ==> ws[yk] == LabelWeight(field, nG, k, yk)
  {
    seq(k, yk requires 0 <= yk < k => LabelWeight(field, nG, k, yk))
  }

  /** The risk vector after the hypothetical labels 0 .. y-1: each label adds
      its weight ws[yk] times the field column of that label. */
  function NaiveRisk(field: Matrix, k: nat, ws: Vector, y: nat): (risk: Vector)
    requires IsMatrix(field, |field|, k) && |ws| == k && y <= k
    ensures |risk| == |field|
    decreases y
  {
    if y == 0 then ZeroVector(|field|)
    else VecAdd(NaiveRisk(field, k, ws, y - 1), Scale(ws[y - 1], Column(field, y - 1)))
  }

  /** Entry i of the accumulated risk is the inner product of node i's first y
      field values with the first y label weights. */
  lemma {:induction false} NaiveRiskClosedForm(field: Matrix, k: nat, ws: Vector, y: nat, i: nat)
    requires IsMatrix(field, |field|, k) && |ws| == k && y <= k
    requires i < |field|
    ensures NaiveRisk(field, k, ws, y)[i] == Dot(field[i][..y], ws[..y])
    decreases y
  {
    if y > 0 {
      NaiveRiskClosedForm(field, k, ws, y - 1, i);
      DotPrefixStep(field[i], ws, y);
    }
  }

  datatype RiskError = NoClasses

  /** expected_risk returns the risk vector and the accumulator of the last label. */
  datatype NaiveResult = NaiveResult(risk: Vector, maxfplus: Matrix)

  /** expected_risk(field, Linv). With no classes the source's loop never binds
      the accumulator it returns, so that call fails. */
  function ExpectedRisk(field: Matrix, k: nat, Linv: Matrix): (r: Result<NaiveResult, RiskError>)
    requires IsMatrix(field, |field|, k) && IsMatrix(Linv, |field|, |field|)
    requires NonzeroDiagonal(Linv)
    ensures r.Err? <==> k == 0
    ensures r.Ok? ==> |r.value.risk| == |field|
    ensures r.Ok? ==> forall i :: 0 <= i < |field| ==>
              r.value.risk[i] == Dot(field[i], LabelWeights(field, RowNormalized(Linv), k))
    ensures r.Ok? ==> r.value.maxfplus == MaxFPlus(field, RowNormalized(Linv), k, k - 1, k)
  {
    if k == 0 then Err(NoClasses)
    else
      var nG := RowNormalized(Linv);
      var ws := LabelWeights(field, nG, k);
      NaiveRiskIsDot(field, k, ws);
      Ok(NaiveResult(NaiveRisk(field, k, ws, k), MaxFPlus(field, nG, k, k - 1, k)))
  }

  /** The fully accumulated risk is, row by row, the inner product of the field with the weights. */
  lemma {:induction false} NaiveRiskIsDot(field: Matrix, k: nat, ws: Vector)
    requires IsMatrix(field, |field|, k) && |ws| == k
    ensures forall i :: 0 <= i < |field| ==> NaiveRisk(field, k, ws, k)[i] == Dot(field[i], ws)
  {
    forall i | 0 <= i < |field|
      ensures NaiveRisk(field, k, ws, k)[i] == Dot(field[i], ws)
    {
      NaiveRiskClosedForm(field, k, ws, k, i);
      assert field[i][..k] == field[i];
      assert ws[..k] == ws;
    }
  }

  /** Once every class has been seen, the accumulator of any label yk is
      nonnegative with a unit diagonal. */
  lemma {:induction false} FullAccumulator(field: Matrix, nG: Matrix, k: nat, yk: nat)
    requires IsMatrix(field, |field|, k) && IsMatrix(nG, |field|, |field|) && yk < k
    requires UnitDiagonal(nG)
    ensures forall i, j :: 0 <= i < |field| && 0 <= j < |field| ==> MaxFPlus(field, nG, k, yk, k)[i][j] >= 0.0
    ensures forall i :: 0 <= i < |field| ==> MaxFPlus(field, nG, k, yk, k)[i][i] == 1.0
  {
    forall i, j | 0 <= i < |field| && 0 <= j < |field|
      ensures MaxFPlus(field, nG, k, yk, k)[i][j] >= 0.0
    {
      MaxFPlusNonnegative(field, nG, k, yk, k, i, j);
    }
    forall i | 0 <= i < |field|
      ensures MaxFPlus(field, nG, k, yk, k)[i][i] == 1.0
    {
      MaxFPlusDiagonal(field, nG, k, yk, k, i);
    }
  }

  /** With a nonnegative field every risk entry is nonnegative. */
  lemma {:induction false} ExpectedRiskNonnegative(field: Matrix, k: nat, Linv: Matrix)
    requires IsMatrix(field, |field|, k) && IsMatrix(Linv, |field|, |field|)
    requires NonzeroDiagonal(Linv) && k > 0
    requires forall i, c :: 0 <= i < |field| && 0 <= c < k ==> field[i][c] >= 0.0
    ensures forall i :: 0 <= i < |field| ==> ExpectedRisk(field, k, Linv).value.risk[i] >= 0.0
  {
    var nG := RowNormalized(Linv);
    var ws := LabelWeights(field, nG, k);
    forall i | 0 <= i < |field|
      ensures Dot(field[i], ws) >= 0.0
    {
      DotNonnegative(field[i], ws);
    }
  }

  lemma {:induction false} DotNonnegative(x: Vector, y: Vector)
    requires |x| == |y|
    requires forall i :: 0 <= i < |x| ==> x[i] >= 0.0 && y[i] >= 0.0
    ensures Dot(x, y) >= 0.0
    decreases |x|
  {
    if |x| > 0 {
      DotNonnegative(x[..|x| - 1], y[..|y| - 1]);
    }
  }

  // ---------------------------------------------------------------------
  // expected_risk_pre

  /** Each column of G divided by that column's own diagonal entry. */
  function ColumnNormalized(G: Matrix): (nG: Matrix)
    requires IsSquare(G) && NonzeroDiagonal(G)
    ensures IsMatrix(nG, |G|, |G|)
    ensures forall i, j :: 0 <= i < |G| && 0 <= j < |G| ==> nG[i][j] * G[j][j] == G[i][j]
    ensures UnitDiagonal(nG)
  {
    seq(|G|, i requires 0 <= i < |G| => seq(|G|, j requires 0 <= j < |G| => G[i][j] / G[j][j]))
  }

  /** The two normalisations differ by a transpose when G is symmetric. */
  lemma {:induction false} NormalizationsTransposed(G: Matrix)
    requires IsSquare(G) && NonzeroDiagonal(G) && IsSymmetric(G)
    ensures ColumnNormalized(G) == Transpose(RowNormalized(G), |G|, |G|)
  {
    var C, T := ColumnNormalized(G), Transpose(RowNormalized(G), |G|, |G|);
    forall i | 0 <= i < |G|
      ensures C[i] == T[i]
    {
      forall j | 0 <= j < |G|
        ensures C[i][j] == T[i][j]
      {
        assert C[i][j] == G[i][j] / G[j][j];
      }
    }
  }

  /** Entry (i, j) is field[i][c] - field[j][c] · nG[i][j]; zero on the diagonal. */
  function PreTerm(field: Matrix, nG: Matrix, k: nat, c: nat): (P: Matrix)
    requires IsMatrix(field, |field|, k) && IsMatrix(nG, |field|, |field|) && c < k
    ensures IsMatrix(P, |field|, |field|)
    ensures forall i :: 0 <= i < |field| && nG[i][i] == 1.0 ==> P[i][i] == 0.0
  {
    var u := |field|;
    seq(u, i requires 0 <= i < u => seq(u, j requires 0 <= j < u =>
      field[i][c] - Mul(field[j][c], nG[i][j])))
  }

  /** The prefactor `pre_maxfplus` after the classes 0 .. c-1, starting from zeros. */
  function Prefactor(field: Matrix, nG: Matrix, k: nat, c: nat): (M: Matrix)
    requires IsMatrix(field, |field|, k) && IsMatrix(nG, |field|, |field|) && c <= k
    ensures IsMatrix(M, |field|, |field|)
    decreases c
  {
    if c == 0 then ZeroMatrix(|field|, |field|)
    else ElementwiseMax(PreTerm(field, nG, k, c - 1), Prefactor(field, nG, k, c - 1), |field|)
  }

  /** Each prefactor entry is the least upper bound of 0 and the terms of the
      classes seen so far. */
  lemma {:induction false} PrefactorIsLeastUpperBound(field: Matrix, nG: Matrix, k: nat, c: nat, i: nat, j: nat)
    requires IsMatrix(field, |field|, k) && IsMatrix(nG, |field|, |field|) && c <= k
    requires i < |field| && j < |field|
    ensures var M := Prefactor(field, nG, k, c);
      && M[i][j] >= 0.0
      && (forall c' :: 0 <= c' < c ==> M[i][j] >= PreTerm(field, nG, k, c')[i][j])
      && (M[i][j] == 0.0 || exists c' :: 0 <= c' < c && M[i][j] == PreTerm(field, nG, k, c')[i][j])
    decreases c
  {
    if c > 0 {
      PrefactorIsLeastUpperBound(field, nG, k, c - 1, i, j);
    }
  }

  /** With a unit diagonal in nG the prefactor is zero on its diagonal. */
  lemma {:induction false} PrefactorDiagonalZero(field: Matrix, nG: Matrix, k: nat, c: nat, i: nat)
    requires IsMatrix(field, |field|, k) && IsMatrix(nG, |field|, |field|) && c <= k
    requires UnitDiagonal(nG) && i < |field|
    ensures Prefactor(field, nG, k, c)[i][i] == 0.0
    decreases c
  {
    if c > 0 {
      PrefactorDiagonalZero(field, nG, k, c - 1, i);
      var P := PreTerm(field, nG, k, c - 1);
      assert P[i][i] == 0.0;
      assert Prefactor(field, nG, k, c)[i][i] == Max(P[i][i], Prefactor(field, nG, k, c - 1)[i][i]);
    }
  }

  /** The summand 1 - max(field[i][c] + (1 - field[j][c]) · nG[i][j], pre[i][j]):
      the smaller of 1 minus the hypothetical field value and 1 minus the prefactor. */
  function Summand(field: Matrix, nG: Matrix, pre: Matrix, k: nat, c: nat, i: nat, j: nat): (s: real)
    requires IsMatrix(field, |field|, k) && IsMatrix(nG, |field|, |field|)
    requires IsMatrix(pre, |field|, |field|)
    requires c < k && i < |field| && j < |field|
    ensures s <= 1.0 - pre[i][j]
    ensures s <= 1.0 - (field[i][c] + Mul(1.0 - field[j][c], nG[i][j]))
    ensures s == 1.0 - pre[i][j] || s == 1.0 - (field[i][c] + Mul(1.0 - field[j][c], nG[i][j]))
  {
    1.0 - Max(field[i][c] + Mul(1.0 - field[j][c], nG[i][j]), pre[i][j])
  }

  /** The summands for candidate query j, over all nodes i. */
  function Summands(field: Matrix, nG: Matrix, pre: Matrix, k: nat, c: nat, j: nat): (s: Vector)
    requires IsMatrix(field, |field|, k) && IsMatrix(nG, |field|, |field|)
    requires IsMatrix(pre, |field|, |field|)
    requires c < k && j < |field|
    ensures |s| == |field|
    ensures forall i :: 0 <= i < |field| ==> s[i] == Summand(field, nG, pre, k, c, i, j)
  {
    seq(|field|, i requires 0 <= i < |field| => Summand(field, nG, pre, k, c, i, j))
  }

  /** Node j contributes nothing to its own column: its summand is
      1 - max(1, pre[j][j]) == 0, so the column sum runs over the other nodes. */
  lemma {:induction false} SelfSummandVanishes(field: Matrix, nG: Matrix, pre: Matrix, k: nat, c: nat, j: nat)
    requires IsMatrix(field, |field|, k) && IsMatrix(nG, |field|, |field|)
    requires IsMatrix(pre, |field|, |field|)
    requires c < k && j < |field|
    requires UnitDiagonal(nG) && pre[j][j] <= 1.0
    ensures Summand(field, nG, pre, k, c, j, j) == 0.0
    ensures var s := Summands(field, nG, pre, k, c, j);
      Sum(s) == Sum(s[..j] + s[j + 1..])
  {
    assert nG[j][j] == 1.0;
    assert Mul(1.0 - field[j][c], nG[j][j]) == 1.0 - field[j][c];
    SumExcept(Summands(field, nG, pre, k, c, j), j);
  }

  /** For every candidate j and class c, np.sum(..., axis=0)[j]. */
  function ClassSums(field: Matrix, nG: Matrix, pre: Matrix, k: nat, j: nat): (s: Vector)
    requires IsMatrix(field, |field|, k) && IsMatrix(nG, |field|, |field|)
    requires IsMatrix(pre, |field|, |field|) && j < |field|
    ensures |s| == k
    ensures forall c :: 0 <= c < k ==> s[c] == Sum(Summands(field, nG, pre, k, c, j))
  {
    seq(k, c requires 0 <= c < k => Sum(Summands(field, nG, pre, k, c, j)))
  }

  /** The class sums of every candidate: S[j][c] == ClassSums(..., j)[c]. */
  function ClassSumMatrix(field: Matrix, nG: Matrix, pre: Matrix, k: nat): (S: Matrix)
    requires IsMatrix(field, |field|, k) && IsMatrix(nG, |field|, |field|)
    requires IsMatrix(pre, |field|, |field|)
    ensures IsMatrix(S, |field|, k)
    ensures forall j :: 0 <= j < |field| ==> S[j] == ClassSums(field, nG, pre, k, j)
  {
    seq(|field|, j requires 0 <= j < |field| => ClassSums(field, nG, pre, k, j))
  }

  /** The risk after the classes 0 .. c-1: each class c adds, for every
      candidate j, its column sum S[j][c] times field[j][c]. */
  function PreRisk(field: Matrix, k: nat, S: Matrix, c: nat): (risk: Vector)
    requires IsMatrix(field, |field|, k) && IsMatrix(S, |field|, k) && c <= k
    ensures |risk| == |field|
    decreases c
  {
    var u := |field|;
    if c == 0 then ZeroVector(u)
    else VecAdd(PreRisk(field, k, S, c - 1), seq(u, j requires 0 <= j < u => Mul(field[j][c - 1], S[j][c - 1])))
  }

  /** Entry j of the accumulated risk is the inner product of node j's first c
      field values with its first c class sums. */
  lemma {:induction false} PreRiskClosedForm(field: Matrix, k: nat, S: Matrix, c: nat, j: nat)
    requires IsMatrix(field, |field|, k) && IsMatrix(S, |field|, k) && c <= k
    requires j < |field|
    ensures PreRisk(field, k, S, c)[j] == Dot(field[j][..c], S[j][..c])
    decreases c
  {
    if c > 0 {
      PreRiskClosedForm(field, k, S, c - 1, j);
      DotPrefixStep(field[j], S[j], c);
    }
  }

  /** expected_risk_pre(field, Linv): the risk vector, one entry per candidate. */
  function ExpectedRiskPre(field: Matrix, k: nat, Linv: Matrix): (risk: Vector)
    requires IsMatrix(field, |field|, k) && IsMatrix(Linv, |field|, |field|)
    requires NonzeroDiagonal(Linv)
    ensures |risk| == |field|
    ensures var nG := ColumnNormalized(Linv);
      var pre := Prefactor(field, nG, k, k);
      forall j :: 0 <= j < |field| ==> risk[j] == Dot(field[j], ClassSums(field, nG, pre, k, j))
  {
    var nG := ColumnNormalized(Linv);
    var pre := Prefactor(field, nG, k, k);
    var S := ClassSumMatrix(field, nG, pre, k);
    PreRiskIsDot(field, k, S);
    PreRisk(field, k, S, k)
  }

  /** The fully accumulated risk is, for each candidate, the inner product of
      its field row with its row of class sums. */
  lemma {:induction false} PreRiskIsDot(field: Matrix, k: nat, S: Matrix)
    requires IsMatrix(field, |field|, k) && IsMatrix(S, |field|, k)
    ensures forall j :: 0 <= j < |field| ==> PreRisk(field, k, S, k)[j] == Dot(field[j], S[j])
  {
    forall j | 0 <= j < |field|
      ensures PreRisk(field, k, S, k)[j] == Dot(field[j], S[j])
    {
      PreRiskClosedForm(field, k, S, k, j);
      assert field[j][..k] == field[j];
      assert S[j][..k] == S[j];
    }
  }

  /** Within expected_risk_pre the prefactor is nonnegative, zero on its
      diagonal, and every class term has a zero self-summand. */
  lemma {:induction false} PreRiskSelfTermsVanish(field: Matrix, k: nat, Linv: Matrix)
    requires IsMatrix(field, |field|, k) && IsMatrix(Linv, |field|, |field|)
    requires NonzeroDiagonal(Linv)
    ensures var nG := ColumnNormalized(Linv);
      var pre := Prefactor(field, nG, k, k);
      && (forall i, j :: 0 <= i < |field| && 0 <= j < |field| ==> pre[i][j] >= 0.0)
      && (forall i :: 0 <= i < |field| ==> pre[i][i] == 0.0)
      && (forall c, j :: 0 <= c < k && 0 <= j < |field| ==>
            Summand(field, nG, pre, k, c, j, j) == 0.0)
  {
    var nG := ColumnNormalized(Linv);
    var pre := Prefactor(field, nG, k, k);
    forall i, j | 0 <= i < |field| && 0 <= j < |field|
      ensures pre[i][j] >= 0.0
    {
      PrefactorIsLeastUpperBound(field, nG, k, k, i, j);
    }
    forall i | 0 <= i < |field|
      ensures pre[i][i] == 0.0
    {
      PrefactorDiagonalZero(field, nG, k, k, i);
    }
    forall c, j | 0 <= c < k && 0 <= j < |field|
      ensures Summand(field, nG, pre, k, c, j, j) == 0.0
    {
      SelfSummandVanishes(field, nG, pre, k, c, j);
    }
  }

  /** With no unlabeled nodes both estimators return an empty risk vector; with
      no classes the direct form fails while the hoisted form returns zeros. */
  lemma {:induction false} Boundaries(field: Matrix, k: nat, Linv: Matrix)
    requires IsMatrix(field, |field|, k) && IsMatrix(Linv, |field|, |field|)
    requires NonzeroDiagonal(Linv)
    ensures |field| == 0 && k > 0 ==> ExpectedRisk(field, k, Linv).value.risk == []
    ensures |field| == 0 ==> ExpectedRiskPre(field, k, Linv) == []
    ensures k == 0 ==> ExpectedRisk(field, k, Linv).Err?
    ensures k == 0 ==> forall j :: 0 <= j < |field| ==> ExpectedRiskPre(field, k, Linv)[j] == 0.0
  {
  }
}
