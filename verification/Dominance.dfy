/** Matrices on which elimination is safe, told from their entries alone: in every column the
    diagonal exceeds all the other entries together by more than the tolerance. */
module Dominance {
  import opened Vectors
  import opened Determinant
  import opened Elimination
  import opened Inversion
  import opened LuDecomposition

  /** The magnitudes in column c of the rows from lo on, without row skip. */
  function Rest(m: Matrix, c: nat, skip: nat, lo: nat): (r: real)
    requires IsMatrix(m, |m|, |m|) && c < |m|
    ensures r >= 0.0
    decreases |m| - lo
  {
    if lo >= |m| then 0.0 else (if lo == skip then 0.0 else Abs(m[lo][c])) + Rest(m, c, skip, lo + 1)
  }

  /** From row and column k on, every diagonal entry is larger than the rest of its column by more
      than the tolerance. */
  ghost predicate Dominant(tol: real, m: Matrix, k: nat)
    requires Square(m)
  {
    forall j :: k <= j < |m| ==> Abs(m[j][j]) > tol + Rest(m, j, j, k)
  }

  lemma {:induction false} EntryBelowRest(m: Matrix, c: nat, skip: nat, lo: nat, i: nat)
    requires Square(m) && c < |m| && lo <= i < |m| && i != skip
    ensures Abs(m[i][c]) <= Rest(m, c, skip, lo)
    decreases |m| - lo
  {
    if lo < i {
      EntryBelowRest(m, c, skip, lo + 1, i);
    }
  }

  /** What skipping a row takes away is that row's entry. */
  lemma {:induction false} RestSplit(m: Matrix, c: nat, skip: nat, other: nat, lo: nat)
    requires Square(m) && c < |m| && other < lo <= skip < |m|
    ensures Rest(m, c, skip, lo) + Abs(m[skip][c]) == Rest(m, c, other, lo)
    decreases |m| - lo
  {
    if lo < skip {
      RestSplit(m, c, skip, other, lo + 1);
    } else {
      RestAbove(m, c, skip, other, lo + 1);
    }
  }

  lemma {:induction false} RestAbove(m: Matrix, c: nat, skip: nat, other: nat, lo: nat)
    requires Square(m) && c < |m| && other < lo && skip < lo
    ensures Rest(m, c, skip, lo) == Rest(m, c, other, lo)
    decreases |m| - lo
  {
    if lo < |m| {
      RestAbove(m, c, skip, other, lo + 1);
    }
  }

  // ---------- one column cleared ----------

  lemma {:induction false} ClearBelowEntries(m: Matrix, k: nat, hi: nat)
    requires Square(m) && k < hi <= |m| && m[k][k] != 0.0
    ensures forall i, j :: k < i < hi && 0 <= j < |m| ==>
              ClearBelow(m, k, hi, |m|)[i][j] == Mix(1.0, m[i][j], -(m[i][k] / m[k][k]), m[k][j])
    decreases hi
  {
    hide Mix;
    if hi > k + 1 {
      ClearBelowEntries(m, k, hi - 1);
    }
  }

  /** How far clearing column k can move the other entries of column j, entry by entry. */
  function Drift(m: Matrix, k: nat, j: nat): (g: real)
    requires Square(m) && k < |m| && j < |m| && m[k][k] != 0.0
    ensures g >= 0.0 && g * Abs(m[k][k]) == Abs(m[k][j])
  {
    QuotientBack(Abs(m[k][j]), Abs(m[k][k]));
    Abs(m[k][j]) / Abs(m[k][k])
  }

  lemma QuotientBack(x: real, y: real)
    requires x >= 0.0 && y > 0.0
    ensures x / y >= 0.0 && x / y * y == x
  {
  }

  lemma MixMoves(x: real, y: real, a: real, b: real, g: real)
    requires b != 0.0 && g >= 0.0 && g * Abs(b) == Abs(a)
    ensures Abs(x) - g * Abs(y) <= Abs(Mix(1.0, x, -(y / b), a)) <= Abs(x) + g * Abs(y)
  {
    var q := y / b;
    assert q * b == y;
    AbsProduct(q, b);
    AbsProduct(q, a);
    Reorder(Abs(q), g, Abs(b));
    assert Abs(q * a) == g * Abs(y);
    assert Mix(1.0, x, -q, a) == x - q * a;
  }

  lemma AbsProduct(x: real, y: real)
    ensures Abs(x * y) == Abs(x) * Abs(y)
  {
  }

  lemma Reorder(x: real, g: real, y: real)
    ensures x * (g * y) == g * (x * y)
  {
  }

  /** r differs from m in column j, below row k, by at most g times the entries of column k. */
  ghost predicate MovedBy(m: Matrix, r: Matrix, k: nat, j: nat, g: real)
    requires Square(m) && Square(r) && |r| == |m| && k < |m| && j < |m|
  {
    forall i :: k < i < |m| ==>
      Abs(m[i][j]) - Times(g, Abs(m[i][k])) <= Abs(r[i][j]) <= Abs(m[i][j]) + Times(g, Abs(m[i][k]))
  }

  function Times(g: real, x: real): real {
    g * x
  }

  lemma TimesAdd(g: real, x: real, y: real)
    ensures Times(g, x + y) == Times(g, x) + Times(g, y)
  {
  }

  lemma TimesOrder(g: real, x: real, y: real)
    requires g >= 0.0 && x <= y
    ensures Times(g, x) <= Times(g, y)
  {
  }

  lemma ColumnMoves(m: Matrix, r: Matrix, k: nat, j: nat)
    requires Square(m) && Square(r) && |r| == |m| && k < j < |m| && m[k][k] != 0.0
    requires forall i :: k < i < |m| ==> r[i][j] == Mix(1.0, m[i][j], -(m[i][k] / m[k][k]), m[k][j])
    ensures MovedBy(m, r, k, j, Drift(m, k, j))
  {
    hide Abs, Mix, Drift;
    var g := Drift(m, k, j);
    forall i | k < i < |m|
      ensures Abs(m[i][j]) - Times(g, Abs(m[i][k])) <= Abs(r[i][j]) <= Abs(m[i][j]) + Times(g, Abs(m[i][k]))
    {
      MixMoves(m[i][j], m[i][k], m[k][j], m[k][k], g);
    }
  }

  lemma {:induction false} RestMoves(m: Matrix, r: Matrix, k: nat, j: nat, lo: nat, g: real)
    requires Square(m) && Square(r) && |r| == |m| && k < j < |m| && k < lo && g >= 0.0 && MovedBy(m, r, k, j, g)
    ensures Rest(r, j, j, lo) <= Rest(m, j, j, lo) + Times(g, Rest(m, k, j, lo))
    decreases |m| - lo
  {
    hide Abs, Times;
    if lo < |m| {
      RestMoves(m, r, k, j, lo + 1, g);
      TimesAdd(g, if lo == j then 0.0 else Abs(m[lo][k]), Rest(m, k, j, lo + 1));
    } else {
      TimesAdd(g, 0.0, 0.0);
    }
  }

  /** What the entries of column j can gain is at most what row k loses there. */
  lemma ColumnKeeps(tol: real, m: Matrix, r: Matrix, k: nat, j: nat, g: real)
    requires Square(m) && Square(r) && |r| == |m| && k < j < |m| && tol >= 0.0
    requires Abs(m[j][j]) > tol + Rest(m, j, j, k) && Abs(m[k][k]) > tol + Rest(m, k, k, k)
    requires g >= 0.0 && Times(g, Abs(m[k][k])) == Abs(m[k][j]) && MovedBy(m, r, k, j, g)
    ensures Abs(r[j][j]) > tol + Rest(r, j, j, k + 1)
  {
    hide Abs, Rest, Times;
    RestMoves(m, r, k, j, k + 1, g);
    RestSplit(m, k, j, k, k + 1);
    RestStart(m, k, k, k);
    RestStart(m, j, j, k);
    TimesAdd(g, Rest(m, k, j, k + 1), Abs(m[j][k]));
    TimesOrder(g, Rest(m, k, k, k + 1), Abs(m[k][k]));
  }

  /** Clearing a column keeps the rest dominant. */
  lemma ClearKeepsDominant(tol: real, m: Matrix, k: nat)
    requires Square(m) && k < |m| && tol >= 0.0 && Dominant(tol, m, k) && m[k][k] != 0.0
    ensures Dominant(tol, ClearBelow(m, k, |m|, |m|), k + 1)
  {
    hide ClearBelow, Abs, Mix, Rest, Drift, MovedBy;
    var r := ClearBelow(m, k, |m|, |m|);
    ClearBelowEntries(m, k, |m|);
    forall j | k + 1 <= j < |m| ensures Abs(r[j][j]) > tol + Rest(r, j, j, k + 1) {
      ColumnMoves(m, r, k, j);
      ColumnKeeps(tol, m, r, k, j, Drift(m, k, j));
    }
  }

  lemma RestStart(m: Matrix, c: nat, skip: nat, lo: nat)
    requires Square(m) && c < |m| && lo < |m|
    ensures Rest(m, c, skip, lo) == (if lo == skip then 0.0 else Abs(m[lo][c])) + Rest(m, c, skip, lo + 1)
  {
  }

  /** The diagonal entry is the pivot, and it is large enough. */
  lemma DiagonalIsPivot(tol: real, m: Matrix, k: nat)
    requires Square(m) && k < |m| && tol >= 0.0 && Dominant(tol, m, k)
    ensures PivotRow(m, k, |m|) == k && Abs(m[k][k]) > tol
  {
    hide Abs, Rest;
    var p := PivotRow(m, k, |m|);
    if p != k {
      EntryBelowRest(m, k, k, k, p);
    }
  }

  // ---------- the whole elimination ----------

  lemma {:induction false} DominantFrom(tol: real, m: Matrix, k: nat, swaps: nat)
    requires Square(m) && k <= |m| && tol >= 0.0 && Dominant(tol, m, k)
    ensures var r := GaussFrom(tol, m, k, |m|, |m|, swaps); r.Reduced? && r.swaps == swaps
    decreases |m| - k
  {
    hide ClearBelow, Rest, PivotRow;
    if k < |m| {
      DiagonalIsPivot(tol, m, k);
      ClearKeepsDominant(tol, m, k);
      assert SwapRows(m, k, k) == m;
      DominantFrom(tol, ClearBelow(m, k, |m|, |m|), k + 1, swaps);
    }
  }

  /** On a dominant matrix of any size elimination ends without a row swap and never reports it
      singular, both determinants give the same number, which is not zero, and inversion and LU
      decomposition succeed. */
  lemma DominantAgrees(tol: real, m: Matrix)
    requires Square(m) && |m| >= 2 && tol >= 0.0 && Dominant(tol, m, 0)
    ensures var r := Gauss(tol, m, |m|); r.Reduced? && r.swaps == 0
    ensures DetGauss(tol, m) == Det(m) != 0.0
    ensures Inverse(tol, m).Some? && Decompose(tol, m).Some?
  {
    hide Det, GaussFrom, DetGauss, Inverse, Dominant, Decompose;
    DecomposeWhenRegular(tol, m);
    DominantFrom(tol, m, 0, 0);
    GaussAgreesWithLaplace(tol, m);
    InvertibleExactly(tol, m);
  }

  // ---------- diagonal matrices ----------

  ghost predicate Diagonal(m: Matrix) {
    Square(m) && forall i, j :: 0 <= i < |m| && 0 <= j < |m| && i != j ==> m[i][j] == 0.0
  }

  /** Nothing is there to be cleared. */
  lemma {:induction false} ClearDiagonal(m: Matrix, k: nat, hi: nat)
    requires Diagonal(m) && k < hi <= |m| && m[k][k] != 0.0
    ensures ClearBelow(m, k, hi, |m|) == m
    decreases hi
  {
    hide Mix;
    if hi > k + 1 {
      ClearDiagonal(m, k, hi - 1);
      assert m[hi - 1][k] == 0.0 && -(0.0 / m[k][k]) == 0.0;
      forall j | 0 <= j < |m| ensures Mix(1.0, m[hi - 1][j], 0.0, m[k][j]) == m[hi - 1][j] {
        MixNothing(m[hi - 1][j], m[k][j]);
      }
      assert Lin(1.0, m[hi - 1], 0.0, m[k]) == m[hi - 1];
    }
  }

  lemma MixNothing(x: real, y: real)
    ensures Mix(1.0, x, 0.0, y) == x
  {
  }

  lemma DiagonalPivot(m: Matrix, k: nat)
    requires Diagonal(m) && k < |m|
    ensures PivotRow(m, k, |m|) == k
  {
    var p := PivotRow(m, k, |m|);
    assert Abs(m[p][k]) == Abs(if p == k then m[k][k] else 0.0);
    assert Abs(m[k][k]) >= 0.0;
  }

  lemma {:induction false} DiagonalFrom(tol: real, m: Matrix, k: nat, swaps: nat)
    requires Diagonal(m) && k <= |m| && tol >= 0.0
    ensures GaussFrom(tol, m, k, |m|, |m|, swaps).Reduced? <==>
            forall i :: k <= i < |m| ==> m[i][i] > tol || m[i][i] < -tol
    decreases |m| - k
  {
    hide ClearBelow;
    if k < |m| {
      DiagonalPivot(m, k);
      if Abs(m[k][k]) > tol {
        ClearDiagonal(m, k, |m|);
        assert SwapRows(m, k, k) == m;
        DiagonalFrom(tol, m, k + 1, swaps);
      }
    }
  }

  /** With the tolerance of the library, a diagonal matrix has an inverse exactly when all its diagonal
      entries exceed 10^-10 in magnitude. */
  lemma DiagonalInverse(m: Matrix)
    requires Diagonal(m) && m != []
    ensures Inverse(TOLERANCE, m).Some? <==>
            forall i :: 0 <= i < |m| ==> m[i][i] > 0.0000000001 || m[i][i] < -0.0000000001
  {
    hide Inverse, GaussFrom;
    InvertibleExactly(TOLERANCE, m);
    DiagonalFrom(TOLERANCE, m, 0, 0);
  }
}
