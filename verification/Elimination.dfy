/** Gaussian elimination with partial pivoting, as a function on matrix values, and what it
    does to the determinant. The in-place algorithm of DenseMatrix refines these functions. */
module Elimination {
  import opened Vectors
  import opened Determinant

  const TOLERANCE: real := 0.0000000001

  function Abs(x: real): (r: real)
    ensures r >= 0.0 && (r == 0.0 <==> x == 0.0)
  {
    if x < 0.0 then -x else x
  }

  /** The first row of k..hi whose entry in column k has the largest magnitude. */
  function PivotRow(m: Matrix, k: nat, hi: nat): (p: nat)
    requires k < hi <= |m| && forall i :: k <= i < hi ==> k < |m[i]|
    ensures k <= p < hi
    ensures forall i :: k <= i < hi ==> Abs(m[i][k]) <= Abs(m[p][k])
    ensures forall i :: k <= i < p ==> Abs(m[i][k]) < Abs(m[p][k])
    decreases hi
  {
    if hi == k + 1 then k
    else
      var p := PivotRow(m, k, hi - 1);
      if Abs(m[hi - 1][k]) > Abs(m[p][k]) then hi - 1 else p
  }

  /** Row k subtracted from row i so often that column k of row i vanishes. */
  function ClearEntry(m: Matrix, k: nat, i: nat): (r: Matrix)
    requires k < |m| && i < |m| && |m[i]| == |m[k]| && k < |m[k]| && m[k][k] != 0.0
    ensures |r| == |m| && |r[i]| == |m[i]| && forall x :: 0 <= x < |m| && x != i ==> r[x] == m[x]
  {
    m[i := Lin(1.0, m[i], -(m[i][k] / m[k][k]), m[k])]
  }

  /** Column k cleared in the rows k + 1 .. hi. */
  function ClearBelow(m: Matrix, k: nat, hi: nat, cols: nat): (r: Matrix)
    requires IsMatrix(m, |m|, cols) && k < cols && k < hi <= |m| && m[k][k] != 0.0
    ensures IsMatrix(r, |m|, cols)
    ensures forall i :: 0 <= i <= k || hi <= i < |m| ==> r[i] == m[i]
    decreases hi
  {
    if hi == k + 1 then m else ClearEntry(ClearBelow(m, k, hi - 1, cols), k, hi - 1)
  }

  lemma ClearBelowUnfold(m: Matrix, k: nat, i: nat, cols: nat)
    requires IsMatrix(m, |m|, cols) && k < cols && k < i < |m| && m[k][k] != 0.0
    ensures ClearBelow(m, k, i + 1, cols) == ClearEntry(ClearBelow(m, k, i, cols), k, i)
  {
  }

  /** Row p moved up to row k and column k cleared below it. */
  function PivotStep(m: Matrix, k: nat, p: nat, cols: nat): (r: Matrix)
    requires IsMatrix(m, |m|, cols) && k < cols && k <= p < |m| && m[p][k] != 0.0
    ensures IsMatrix(r, |m|, cols)
  {
    ClearBelow(SwapRows(m, k, p), k, |m|, cols)
  }

  function CountSwap(k: nat, p: nat, swaps: nat): nat {
    if p != k then swaps + 1 else swaps
  }

  datatype Echelon = Singular(m: Matrix) | Reduced(m: Matrix, swaps: nat)

  /** Elimination of the columns k .. dim, with `swaps` row swaps already done. A pivot whose
      magnitude does not exceed the tolerance stops the elimination. */
  function GaussFrom(tol: real, m: Matrix, k: nat, dim: nat, cols: nat, swaps: nat): (r: Echelon)
    requires IsMatrix(m, |m|, cols) && k <= dim <= cols && dim <= |m| && tol >= 0.0
    ensures IsMatrix(r.m, |m|, cols)
    decreases dim - k
  {
    if k == dim then Reduced(m, swaps)
    else
      var p := PivotRow(m, k, |m|);
      if Abs(m[p][k]) <= tol then Singular(m)
      else
        GaussFrom(tol, PivotStep(m, k, p, cols), k + 1, dim, cols, CountSwap(k, p, swaps))
  }

  function Min(a: nat, b: nat): nat {
    if a < b then a else b
  }

  function Gauss(tol: real, m: Matrix, cols: nat): (r: Echelon)
    requires IsMatrix(m, |m|, cols) && tol >= 0.0
    ensures IsMatrix(r.m, |m|, cols)
  {
    GaussFrom(tol, m, 0, Min(|m|, cols), cols, 0)
  }

  // ---------- the shape of the result ----------

  /** Below the diagonal, the columns before k are zero. */
  ghost predicate LowerZero(m: Matrix, k: nat) {
    (forall i :: 0 <= i < |m| ==> k <= |m[i]|) &&
    forall i, j :: 0 <= j < k && j < i < |m| ==> m[i][j] == 0.0
  }

  /** The first k diagonal entries exceed the tolerance in magnitude. */
  ghost predicate LargePivots(tol: real, m: Matrix, k: nat) {
    k <= |m| && forall i :: 0 <= i < k ==> i < |m[i]| && Abs(m[i][i]) > tol
  }

  lemma QuotientCancels(x: real, p: real)
    requires p != 0.0
    ensures Mix(1.0, x, -(x / p), p) == 0.0
  {
  }

  lemma {:induction false} ClearBelowShape(m: Matrix, k: nat, hi: nat, cols: nat)
    requires IsMatrix(m, |m|, cols) && k < cols && k < hi <= |m| && m[k][k] != 0.0
    requires LowerZero(m, k)
    ensures LowerZero(ClearBelow(m, k, hi, cols), k)
    ensures forall i :: k < i < hi ==> ClearBelow(m, k, hi, cols)[i][k] == 0.0
    decreases hi
  {
    hide Mix;
    if hi > k + 1 {
      var m1 := ClearBelow(m, k, hi - 1, cols);
      ClearBelowShape(m, k, hi - 1, cols);
      QuotientCancels(m1[hi - 1][k], m1[k][k]);
      var row := ClearBelow(m, k, hi, cols)[hi - 1];
      forall j | 0 <= j < k ensures row[j] == 0.0 {
        assert row[j] == Mix(1.0, m1[hi - 1][j], -(m1[hi - 1][k] / m1[k][k]), m1[k][j]);
        MixZero(-(m1[hi - 1][k] / m1[k][k]));
      }
    }
  }

  lemma MixZero(f: real)
    ensures Mix(1.0, 0.0, f, 0.0) == 0.0
  {
  }

  lemma SwapKeepsShape(tol: real, m: Matrix, k: nat, p: nat)
    requires LowerZero(m, k) && LargePivots(tol, m, k) && k <= p < |m|
    ensures LowerZero(SwapRows(m, k, p), k) && LargePivots(tol, SwapRows(m, k, p), k)
  {
  }

  /** One round of the elimination. */
  lemma GaussUnfold(tol: real, m: Matrix, k: nat, dim: nat, cols: nat, swaps: nat)
    requires IsMatrix(m, |m|, cols) && k < dim <= cols && dim <= |m| && tol >= 0.0
    ensures var p := PivotRow(m, k, |m|);
            GaussFrom(tol, m, k, dim, cols, swaps) ==
              if Abs(m[p][k]) <= tol then Singular(m)
              else GaussFrom(tol, PivotStep(m, k, p, cols), k + 1, dim, cols, CountSwap(k, p, swaps))
  {
  }

  lemma PivotStepShape(tol: real, m: Matrix, k: nat, cols: nat, p: nat)
    requires IsMatrix(m, |m|, cols) && k < cols && k <= p < |m| && tol >= 0.0 && Abs(m[p][k]) > tol
    requires LowerZero(m, k) && LargePivots(tol, m, k)
    ensures var r := PivotStep(m, k, p, cols);
            LowerZero(r, k + 1) && LargePivots(tol, r, k + 1)
  {
    var s := SwapRows(m, k, p);
    assert LowerZero(s, k);
    ClearBelowShape(s, k, |m|, cols);
  }

  /** A finished elimination leaves an echelon form with large pivots, and swaps at most
      once per column (never in the last row). */
  lemma {:induction false} GaussShape(tol: real, m: Matrix, k: nat, dim: nat, cols: nat, swaps: nat)
    requires IsMatrix(m, |m|, cols) && k <= dim <= cols && dim <= |m| && tol >= 0.0
    requires LowerZero(m, k) && LargePivots(tol, m, k)
    ensures var r := GaussFrom(tol, m, k, dim, cols, swaps);
            r.Reduced? ==>
              && LowerZero(r.m, dim) && LargePivots(tol, r.m, dim)
              && swaps <= r.swaps <= swaps + (dim - k)
              && (dim == |m| && k < dim ==> r.swaps < swaps + (dim - k))
    decreases dim - k
  {
    hide PivotStep, PivotRow;
    if k < dim {
      var p := PivotRow(m, k, |m|);
      if Abs(m[p][k]) > tol {
        PivotStepShape(tol, m, k, cols, p);
        GaussShape(tol, PivotStep(m, k, p, cols), k + 1, dim, cols, CountSwap(k, p, swaps));
      }
    }
  }

  /** x with the sign that `swaps` row swaps give it. */
  function Signed(swaps: nat, x: real): real {
    if swaps % 2 == 0 then x else -x
  }

  // ---------- what elimination does to the determinant ----------

  lemma {:induction false} ClearBelowDet(m: Matrix, k: nat, hi: nat)
    requires Square(m) && k < hi <= |m| && m[k][k] != 0.0
    ensures Det(ClearBelow(m, k, hi, |m|)) == Det(m)
    decreases hi
  {
    hide Det;
    if hi > k + 1 {
      var m1 := ClearBelow(m, k, hi - 1, |m|);
      ClearBelowDet(m, k, hi - 1);
      DetRowAdd(m1, hi - 1, -(m1[hi - 1][k] / m1[k][k]), k);
    }
  }

  lemma SwapDet(m: Matrix, k: nat, p: nat, swaps: nat)
    requires Square(m) && k <= p < |m|
    ensures Square(SwapRows(m, k, p))
    ensures Signed(CountSwap(k, p, swaps), Det(SwapRows(m, k, p))) == Signed(swaps, Det(m))
  {
    hide *;
    CountedSwap(k, p, swaps);
    if p != k {
      DetSwap(m, k, p);
      SignedNegate(swaps, Det(m));
    } else {
      assert SwapRows(m, k, p) == m;
    }
  }

  lemma CountedSwap(k: nat, p: nat, swaps: nat)
    ensures CountSwap(k, p, swaps) == if p != k then swaps + 1 else swaps
  {
  }

  lemma PivotStepDet(m: Matrix, k: nat, p: nat, swaps: nat)
    requires Square(m) && k <= p < |m| && m[p][k] != 0.0
    ensures Signed(CountSwap(k, p, swaps), Det(PivotStep(m, k, p, |m|))) == Signed(swaps, Det(m))
  {
    hide Det, Signed, ClearBelow, CountSwap;
    SwapDet(m, k, p, swaps);
    ClearBelowDet(SwapRows(m, k, p), k, |m|);
  }

  lemma SignedNegate(swaps: nat, x: real)
    ensures Signed(swaps + 1, -x) == Signed(swaps, x)
  {
  }

  /** Elimination keeps sign times determinant. */
  lemma {:induction false} GaussDet(tol: real, m: Matrix, k: nat, swaps: nat)
    requires Square(m) && k <= |m| && tol >= 0.0
    ensures var r := GaussFrom(tol, m, k, |m|, |m|, swaps);
            r.Reduced? ==> Signed(r.swaps, Det(r.m)) == Signed(swaps, Det(m))
    decreases |m| - k
  {
    hide Det, Signed, PivotStep, PivotRow;
    if k < |m| {
      var p := PivotRow(m, k, |m|);
      if Abs(m[p][k]) > tol {
        PivotStepDet(m, k, p, swaps);
        GaussDet(tol, PivotStep(m, k, p, |m|), k + 1, CountSwap(k, p, swaps));
      }
    }
  }

  /** If all of column k vanishes from row k on, and the columns before it are already
      triangular, the determinant is zero. */
  lemma {:induction false} DeadColumn(m: Matrix, k: nat)
    requires Square(m) && k < |m| && LowerZero(m, k)
    requires forall i :: k <= i < |m| ==> m[i][k] == 0.0
    ensures Det(m) == 0.0
    decreases |m|
  {
    hide Sum, Terms;
    if k == 0 {
      DetZeroColumn(m);
    } else {
      forall j | 0 <= j < |m| ensures Terms(m)[j] == 0.0 {
        TermAt(m, j);
        if j > 0 {
          DetZeroColumn(Minor(m, j));
        } else {
          DeadColumn(Minor(m, 0), k - 1);
        }
      }
      SumZero(Terms(m));
    }
  }

  lemma {:induction false} ExactSingularDet(m: Matrix, k: nat, swaps: nat)
    requires Square(m) && k <= |m| && LowerZero(m, k) && LargePivots(0.0, m, k)
    ensures GaussFrom(0.0, m, k, |m|, |m|, swaps).Singular? ==> Det(m) == 0.0
    decreases |m| - k
  {
    hide Det, PivotStep, PivotRow;
    if k < |m| {
      var p := PivotRow(m, k, |m|);
      if Abs(m[p][k]) > 0.0 {
        PivotStepShape(0.0, m, k, |m|, p);
        PivotStepDet(m, k, p, 0);
        ExactSingularDet(PivotStep(m, k, p, |m|), k + 1, CountSwap(k, p, swaps));
      } else {
        DeadColumn(m, k);
      }
    }
  }

  // ---------- the two determinant algorithms ----------

  /** The determinant by elimination: zero when elimination reports a singular matrix, else the
      parity of the swaps times the product of the diagonal. */
  function DetGauss(tol: real, m: Matrix): real
    requires Square(m) && m != [] && tol >= 0.0
  {
    if |m| == 1 then m[0][0]
    else
      match Gauss(tol, m, |m|)
      case Singular(_) => 0.0
      case Reduced(u, swaps) => Signed(swaps, DiagonalProduct(u, |m|))
  }

  lemma DetOneByOne(m: Matrix)
    requires Square(m) && |m| == 1
    ensures Det(m) == m[0][0]
  {
    assert Terms(m)[0] == Cofactor(1.0, m[0][0], Det(Minor(m, 0)));
    assert Sum(Terms(m)) == Sum(Terms(m)[..0]) + Terms(m)[0];
  }

  lemma DetTwoByTwo(m: Matrix)
    requires Square(m) && |m| == 2
    ensures Det(m) == m[0][0] * m[1][1] - m[0][1] * m[1][0]
  {
    hide Det, Terms, Sum, Cofactor, Sgn;
    DetOneByOne(Minor(m, 0));
    DetOneByOne(Minor(m, 1));
    TermAt(m, 0);
    SignedCofactor(0, m[0][0], m[1][1]);
    TermAt(m, 1);
    SignedCofactor(1, m[0][1], m[1][0]);
    DetExpansion(m);
    SumTwo(Terms(m));
  }

  lemma SumTwo(t: Vec)
    requires |t| == 2
    ensures Sum(t) == t[0] + t[1]
  {
    SumSnoc([], t[0]);
    SumSnoc([] + [t[0]], t[1]);
    assert t == ([] + [t[0]]) + [t[1]];
  }

  lemma SumThree(t: Vec)
    requires |t| == 3
    ensures Sum(t) == t[0] + t[1] + t[2]
  {
    SumTwo(t[..2]);
    SumSnoc(t[..2], t[2]);
    assert t == t[..2] + [t[2]];
  }

  lemma SignedCofactor(j: nat, x: real, d: real)
    ensures Cofactor(Sgn(j), x, d) == if j % 2 == 0 then x * d else -(x * d)
  {
  }

  lemma DetThreeByThree(m: Matrix)
    requires Square(m) && |m| == 3
    ensures Det(m) == m[0][0] * (m[1][1] * m[2][2] - m[1][2] * m[2][1])
                    - m[0][1] * (m[1][0] * m[2][2] - m[1][2] * m[2][0])
                    + m[0][2] * (m[1][0] * m[2][1] - m[1][1] * m[2][0])
  {
    hide Det, Terms, Sum, Cofactor, Sgn;
    forall j | 0 <= j < 3 {
      DetTwoByTwo(Minor(m, j));
    }
    assert Det(Minor(m, 0)) == m[1][1] * m[2][2] - m[1][2] * m[2][1];
    TermAt(m, 0);
    SignedCofactor(0, m[0][0], m[1][1] * m[2][2] - m[1][2] * m[2][1]);
    assert Det(Minor(m, 1)) == m[1][0] * m[2][2] - m[1][2] * m[2][0];
    TermAt(m, 1);
    SignedCofactor(1, m[0][1], m[1][0] * m[2][2] - m[1][2] * m[2][0]);
    assert Det(Minor(m, 2)) == m[1][0] * m[2][1] - m[1][1] * m[2][0];
    TermAt(m, 2);
    SignedCofactor(2, m[0][2], m[1][0] * m[2][1] - m[1][1] * m[2][0]);
    DetExpansion(m);
    SumThree(Terms(m));
  }

  /** Whenever elimination does not report singular, the two determinants are equal and not zero. */
  lemma GaussAgreesWithLaplace(tol: real, m: Matrix)
    requires Square(m) && |m| >= 2 && tol >= 0.0 && Gauss(tol, m, |m|).Reduced?
    ensures DetGauss(tol, m) == Det(m) != 0.0
  {
    hide Det, DiagonalProduct, GaussFrom;
    var r := Gauss(tol, m, |m|);
    GaussShape(tol, m, 0, |m|, |m|, 0);
    GaussDet(tol, m, 0, 0);
    assert UpperTriangular(r.m);
    DetTriangular(r.m);
    DiagonalNonZero(r.m, |m|);
  }

  /** Exactly when the two determinants agree: the only disagreement is a matrix with non-zero
      determinant whose pivots fall under the tolerance. */
  lemma AgreementExactly(tol: real, m: Matrix)
    requires Square(m) && m != [] && tol >= 0.0
    ensures DetGauss(tol, m) == Det(m) <==> |m| == 1 || Gauss(tol, m, |m|).Reduced? || Det(m) == 0.0
  {
    hide Det;
    if |m| == 1 {
      DetOneByOne(m);
    } else if Gauss(tol, m, |m|).Reduced? {
      GaussAgreesWithLaplace(tol, m);
    }
  }

  /** With an exact zero test in place of the tolerance, elimination reports singular exactly
      for determinant zero, and the two algorithms always agree. */
  lemma ExactGaussAlwaysAgrees(m: Matrix)
    requires Square(m) && m != []
    ensures Gauss(0.0, m, |m|).Singular? <==> Det(m) == 0.0
    ensures DetGauss(0.0, m) == Det(m)
  {
    hide Det;
    ExactSingularDet(m, 0, 0);
    if |m| == 1 {
      DetOneByOne(m);
    } else if Gauss(0.0, m, |m|).Reduced? {
      GaussAgreesWithLaplace(0.0, m);
    }
  }

  /** A diagonal matrix with determinant 10^-11 that the elimination calls singular. */
  lemma ToleranceDisagreement()
    ensures var m := [[0.00000000001, 0.0], [0.0, 1.0]];
            Square(m) && Gauss(TOLERANCE, m, 2).Singular? && DetGauss(TOLERANCE, m) != Det(m)
  {
    var m: Matrix := [[0.00000000001, 0.0], [0.0, 1.0]];
    assert PivotRow(m, 0, 2) == 0;
    assert UpperTriangular(m);
    DetTriangular(m);
    assert DiagonalProduct(m, 2) == DiagonalProduct(m, 1) * m[1][1];
    assert DiagonalProduct(m, 1) == DiagonalProduct(m, 0) * m[0][0];
  }
}
