/** LU decomposition with partial pivoting as a function on matrix values, and the proof of
    P * A == L * U. */
module LuDecomposition {
  import opened Options
  import opened Vectors
  import opened Determinant
  import opened Elimination

  /** Row order, unit lower factor, upper factor and number of row swaps. */
  datatype Lu = Lu(order: seq<nat>, l: Matrix, u: Matrix, swaps: nat)

  ghost predicate Shaped(s: Lu, n: nat) {
    |s.order| == n && IsMatrix(s.l, n, n) && IsMatrix(s.u, n, n)
  }

  /** The first k entries of rows x and y exchanged. */
  function SwapPrefix(l: Matrix, k: nat, x: nat, y: nat): (r: Matrix)
    requires IsMatrix(l, |l|, |l|) && k <= |l| && x < |l| && y < |l|
    ensures IsMatrix(r, |l|, |l|)
    ensures r[x] == l[y][..k] + l[x][k..] && (x != y ==> r[y] == l[x][..k] + l[y][k..])
    ensures forall i :: 0 <= i < |l| && i != x && i != y ==> r[i] == l[i]
  {
    if x == y then
      assert l[x][..k] + l[x][k..] == l[x];
      l
    else l[x := l[y][..k] + l[x][k..]][y := l[x][..k] + l[y][k..]]
  }

  function SwapOrder(p: seq<nat>, x: nat, y: nat): (r: seq<nat>)
    requires x < |p| && y < |p|
    ensures |r| == |p| && r[x] == p[y] && r[y] == p[x]
    ensures forall i :: 0 <= i < |p| && i != x && i != y ==> r[i] == p[i]
  {
    p[x := p[y]][y := p[x]]
  }

  /** The multipliers of column k stored in the rows k + 1 .. hi of l. */
  function StoreFactors(l: Matrix, u: Matrix, k: nat, hi: nat): (r: Matrix)
    requires Square(l) && IsMatrix(u, |l|, |l|) && k < hi <= |l| && u[k][k] != 0.0
    ensures IsMatrix(r, |l|, |l|)
    ensures forall i :: 0 <= i <= k || hi <= i < |l| ==> r[i] == l[i]
    ensures forall i :: k < i < hi ==> r[i] == l[i][k := u[i][k] / u[k][k]]
    decreases hi
  {
    if hi == k + 1 then l
    else
      var r := StoreFactors(l, u, k, hi - 1);
      r[hi - 1 := r[hi - 1][k := u[hi - 1][k] / u[k][k]]]
  }

  function LuSwap(s: Lu, n: nat, k: nat, p: nat): (r: Lu)
    requires Shaped(s, n) && k <= p < n
    ensures Shaped(r, n)
  {
    Lu(SwapOrder(s.order, k, p), SwapPrefix(s.l, k, k, p), SwapRows(s.u, k, p), CountSwap(k, p, s.swaps))
  }

  function LuClear(s: Lu, n: nat, k: nat): (r: Lu)
    requires Shaped(s, n) && k < n && s.u[k][k] != 0.0
    ensures Shaped(r, n)
  {
    s.(l := StoreFactors(s.l, s.u, k, n), u := ClearBelow(s.u, k, n, n))
  }

  /** The elimination of the columns k .. n - 1. The last column has no pivot test. */
  function LuFrom(tol: real, s: Lu, n: nat, k: nat): (r: Option<Lu>)
    requires Shaped(s, n) && k < n && tol >= 0.0
    ensures r.Some? ==> Shaped(r.value, n)
    decreases n - k
  {
    if k == n - 1 then Some(s)
    else
      var p := PivotRow(s.u, k, n);
      if Abs(s.u[p][k]) <= tol then None
      else LuFrom(tol, LuClear(LuSwap(s, n, k, p), n, k), n, k + 1)
  }

  function LuStart(a: Matrix): (s: Lu)
    requires Square(a)
    ensures Shaped(s, |a|)
  {
    Lu(seq(|a|, i requires 0 <= i < |a| => i), Identity(|a|), a, 0)
  }

  function Decompose(tol: real, a: Matrix): (r: Option<Lu>)
    requires Square(a) && a != [] && tol >= 0.0
    ensures r.Some? ==> Shaped(r.value, |a|)
  {
    LuFrom(tol, LuStart(a), |a|, 0)
  }

  // ---------- one round at a time ----------

  lemma LuStartShape(a: Matrix)
    requires Square(a)
    ensures LowerZero(a, 0)
  {
  }

  lemma LuUnfold(tol: real, s: Lu, n: nat, k: nat)
    requires Shaped(s, n) && k < n && tol >= 0.0
    ensures k == n - 1 ==> LuFrom(tol, s, n, k) == Some(s)
    ensures k < n - 1 ==>
              var p := PivotRow(s.u, k, n);
              LuFrom(tol, s, n, k) ==
                if Abs(s.u[p][k]) <= tol then None
                else LuFrom(tol, LuClear(LuSwap(s, n, k, p), n, k), n, k + 1)
  {
  }

  lemma LuSwapIs(s: Lu, n: nat, k: nat, p: nat)
    requires Shaped(s, n) && k <= p < n
    ensures LuSwap(s, n, k, p) ==
            if p == k then s
            else Lu(SwapOrder(s.order, k, p), SwapPrefix(s.l, k, k, p), SwapRows(s.u, k, p), s.swaps + 1)
  {
  }

  lemma LuClearIs(s: Lu, n: nat, k: nat)
    requires Shaped(s, n) && k < n && s.u[k][k] != 0.0
    ensures LuClear(s, n, k) == Lu(s.order, StoreFactors(s.l, s.u, k, n), ClearBelow(s.u, k, n, n), s.swaps)
  {
  }

  lemma LuRoundShape(s: Lu, n: nat, k: nat, p: nat)
    requires Shaped(s, n) && k <= p < n && LowerZero(s.u, k) && s.u[p][k] != 0.0
    ensures LowerZero(LuSwap(s, n, k, p).u, k) && LuSwap(s, n, k, p).u[k][k] == s.u[p][k]
    ensures LowerZero(ClearBelow(LuSwap(s, n, k, p).u, k, n, n), k + 1)
  {
    ClearBelowShape(SwapRows(s.u, k, p), k, n, n);
  }

  // ---------- permutations ----------

  ghost predicate Permutation(p: seq<nat>) {
    (forall i :: 0 <= i < |p| ==> p[i] < |p|) &&
    forall i, j :: 0 <= i < j < |p| ==> p[i] != p[j]
  }

  /** Row i of the pivot matrix selects row p[i]. */
  function PivotMatrix(p: seq<nat>): (m: Matrix)
    requires forall i :: 0 <= i < |p| ==> p[i] < |p|
    ensures IsMatrix(m, |p|, |p|)
    ensures forall i :: 0 <= i < |p| ==> m[i] == Unit(|p|, p[i])
  {
    seq(|p|, i requires 0 <= i < |p| => Unit(|p|, p[i]))
  }

  lemma DetIdentity(n: nat)
    ensures Det(Identity(n)) == 1.0
  {
    DetTriangular(Identity(n));
    IdentityDiagonal(n, n);
  }

  lemma {:induction false} IdentityDiagonal(n: nat, k: nat)
    requires k <= n
    ensures DiagonalProduct(Identity(n), k) == 1.0
  {
    if k > 0 {
      IdentityDiagonal(n, k - 1);
    }
  }

  // ---------- the invariant ----------

  /** Row i of the reordered matrix, rebuilt from the multipliers stored so far. */
  function Rebuilt(s: Lu, n: nat, k: nat, i: nat): (r: Vec)
    requires Shaped(s, n) && i < n && k <= n
    ensures |r| == n
  {
    var c := Min(i, k);
    Lin(1.0, Combine(s.l[i][..c], s.u[..c], n), 1.0, s.u[i])
  }

  ghost predicate LowerShape(l: Matrix, k: nat) {
    Square(l) &&
    forall i, j :: 0 <= i < |l| && 0 <= j < |l| ==>
      (i == j ==> l[i][j] == 1.0) && (j > i ==> l[i][j] == 0.0) && (k <= j < i ==> l[i][j] == 0.0)
  }

  ghost predicate LuInvariant(s: Lu, a: Matrix, k: nat) {
    && Square(a) && Shaped(s, |a|) && k <= |a|
    && Permutation(s.order)
    && LowerShape(s.l, k) && LowerZero(s.u, k)
    && (forall i :: 0 <= i < |a| ==> a[s.order[i]] == Rebuilt(s, |a|, k, i))
    && Det(PivotMatrix(s.order)) == Sgn(s.swaps)
    && Signed(s.swaps, Det(s.u)) == Det(a)
  }

  lemma StartInvariant(a: Matrix)
    requires Square(a)
    ensures LuInvariant(LuStart(a), a, 0)
  {
    hide Det;
    var s := LuStart(a);
    DetIdentity(|a|);
    assert PivotMatrix(s.order) == Identity(|a|);
    forall i | 0 <= i < |a| ensures a[s.order[i]] == Rebuilt(s, |a|, 0, i) {
      assert Lin(1.0, Zeros(|a|), 1.0, a[i]) == a[i];
    }
  }

  lemma SwapRebuilt(s: Lu, a: Matrix, k: nat, p: nat, i: nat)
    requires LuInvariant(s, a, k) && k <= p < |a| && i < |a|
    ensures var r := LuSwap(s, |a|, k, p); a[r.order[i]] == Rebuilt(r, |a|, k, i)
  {
    hide Det, Combine, Permutation;
    var r := LuSwap(s, |a|, k, p);
    var x := if i == k then p else if i == p then k else i;
    assert r.order[i] == s.order[x] && r.u[i] == s.u[x];
    var c := Min(i, k);
    assert c == Min(x, k);
    assert r.l[i][..c] == s.l[x][..c];
    assert r.u[..c] == s.u[..c];
  }

  lemma SwapShape(s: Lu, a: Matrix, k: nat, p: nat)
    requires LuInvariant(s, a, k) && k <= p < |a|
    ensures var r := LuSwap(s, |a|, k, p); LowerShape(r.l, k) && LowerZero(r.u, k) && Permutation(r.order)
  {
    hide Det, Combine, Rebuilt;
  }

  lemma SwapSigns(s: Lu, a: Matrix, k: nat, p: nat)
    requires LuInvariant(s, a, k) && k <= p < |a|
    requires Permutation(LuSwap(s, |a|, k, p).order)
    ensures var r := LuSwap(s, |a|, k, p);
            Det(PivotMatrix(r.order)) == Sgn(r.swaps) && Signed(r.swaps, Det(r.u)) == Det(a)
  {
    hide Det, Combine, Rebuilt;
    var r := LuSwap(s, |a|, k, p);
    var m := PivotMatrix(s.order);
    assert PivotMatrix(r.order) == SwapRows(m, k, p);
    SwapDet(m, k, p, s.swaps);
    SwapDet(s.u, k, p, s.swaps);
  }

  lemma SwapInvariant(s: Lu, a: Matrix, k: nat, p: nat)
    requires LuInvariant(s, a, k) && k <= p < |a|
    ensures LuInvariant(LuSwap(s, |a|, k, p), a, k)
  {
    hide Det, Combine, Rebuilt;
    SwapShape(s, a, k, p);
    SwapSigns(s, a, k, p);
    forall i | 0 <= i < |a| ensures a[LuSwap(s, |a|, k, p).order[i]] == Rebuilt(LuSwap(s, |a|, k, p), |a|, k, i) {
      SwapRebuilt(s, a, k, p, i);
    }
  }

  lemma {:induction false} ClearBelowRow(m: Matrix, k: nat, hi: nat, cols: nat, i: nat)
    requires IsMatrix(m, |m|, cols) && k < cols && k < i < hi <= |m| && m[k][k] != 0.0
    ensures ClearBelow(m, k, hi, cols)[i] == Lin(1.0, m[i], -(m[i][k] / m[k][k]), m[k])
    decreases hi
  {
    if i < hi - 1 {
      ClearBelowRow(m, k, hi - 1, cols, i);
    }
  }

  lemma Redistribute(x: real, f: real, y: real, z: real)
    ensures Mix(1.0, Mix(1.0, x, f, y), 1.0, Mix(1.0, z, -f, y)) == Mix(1.0, x, 1.0, z)
  {
  }

  /** Clearing a row moves its share of row k from U into L. */
  lemma ClearRebuilt(s: Lu, a: Matrix, k: nat, i: nat)
    requires LuInvariant(s, a, k) && k < |a| && s.u[k][k] != 0.0 && i < |a|
    ensures var r := LuClear(s, |a|, k); Rebuilt(r, |a|, k + 1, i) == Rebuilt(s, |a|, k, i)
  {
    hide Det, Mix, Permutation, ClearBelow, StoreFactors;
    var n, r := |a|, LuClear(s, |a|, k);
    if i <= k {
      assert Min(i, k + 1) == Min(i, k) == i;
      assert r.u[..i] == s.u[..i];
    } else {
      var f := s.u[i][k] / s.u[k][k];
      ClearBelowRow(s.u, k, n, n, i);
      assert r.l[i][..k + 1][..k] == s.l[i][..k] && r.l[i][..k + 1][k] == f;
      assert r.u[..k + 1][..k] == s.u[..k];
      var old_ := Combine(s.l[i][..k], s.u[..k], n);
      assert Combine(r.l[i][..k + 1], r.u[..k + 1], n) == Lin(1.0, old_, f, s.u[k]);
      var left, right := Rebuilt(r, n, k + 1, i), Rebuilt(s, n, k, i);
      forall j | 0 <= j < n ensures left[j] == right[j] {
        Redistribute(old_[j], f, s.u[k][j], s.u[i][j]);
      }
    }
  }

  lemma ClearInvariant(s: Lu, a: Matrix, k: nat)
    requires LuInvariant(s, a, k) && k < |a| && s.u[k][k] != 0.0
    ensures LuInvariant(LuClear(s, |a|, k), a, k + 1)
  {
    hide Det, Combine, Rebuilt, ClearBelow, StoreFactors;
    ClearBelowShape(s.u, k, |a|, |a|);
    ClearBelowDet(s.u, k, |a|);
    forall i | 0 <= i < |a| ensures a[s.order[i]] == Rebuilt(LuClear(s, |a|, k), |a|, k + 1, i) {
      ClearRebuilt(s, a, k, i);
    }
  }

  lemma {:induction false} LuFromInvariant(tol: real, s: Lu, a: Matrix, k: nat)
    requires LuInvariant(s, a, k) && k < |a| && tol >= 0.0
    ensures var r := LuFrom(tol, s, |a|, k); r.Some? ==> LuInvariant(r.value, a, |a| - 1)
    decreases |a| - k
  {
    hide Det, Combine, Rebuilt, LuSwap, LuClear, PivotRow, Permutation, LowerShape, LowerZero, PivotMatrix;
    if k < |a| - 1 {
      var p := PivotRow(s.u, k, |a|);
      if Abs(s.u[p][k]) > tol {
        var t := LuSwap(s, |a|, k, p);
        SwappedPivot(s, |a|, k, p);
        SwapInvariant(s, a, k, p);
        ClearInvariant(t, a, k);
        LuFromInvariant(tol, LuClear(t, |a|, k), a, k + 1);
      }
    }
  }

  lemma SwappedPivot(s: Lu, n: nat, k: nat, p: nat)
    requires Shaped(s, n) && k <= p < n
    ensures LuSwap(s, n, k, p).u[k] == s.u[p]
  {
  }

  // ---------- the decomposition ----------

  ghost predicate UnitLower(l: Matrix) {
    Square(l) && forall i, j :: 0 <= i <= j < |l| ==> l[i][j] == if i == j then 1.0 else 0.0
  }

  /** A coefficient vector that is 1 at position i and 0 after it. */
  lemma {:induction false} CombineUnitLower(c: Vec, m: Matrix, i: nat, cols: nat)
    requires IsMatrix(m, |c|, cols) && i < |c| && c[i] == 1.0
    requires forall j :: i < j < |c| ==> c[j] == 0.0
    ensures Combine(c, m, cols) == Lin(1.0, Combine(c[..i], m[..i], cols), 1.0, m[i])
    decreases |c|
  {
    hide Mix;
    var n := |c| - 1;
    if i < n {
      CombineUnitLower(c[..n], m[..n], i, cols);
      assert c[..n][..i] == c[..i] && m[..n][..i] == m[..i];
      var full, part := Combine(c, m, cols), Combine(c[..n], m[..n], cols);
      forall j | 0 <= j < cols ensures full[j] == part[j] {
        MixNothing(part[j], m[n][j]);
      }
    }
  }

  lemma MixNothing(x: real, y: real)
    ensures Mix(1.0, x, 0.0, y) == x
  {
  }

  /** Whenever the decomposition does not report a singular matrix: the row order is a
      permutation whose sign is the parity of the swaps, L is unit lower triangular, U is upper
      triangular, P * A == L * U, and parity times diagonal product is the determinant. */
  lemma DecomposeCorrect(tol: real, a: Matrix)
    requires Square(a) && a != [] && tol >= 0.0 && Decompose(tol, a).Some?
    ensures var s := Decompose(tol, a).value;
            && Permutation(s.order) && UnitLower(s.l) && UpperTriangular(s.u)
            && Mul(PivotMatrix(s.order), a, |a|) == Mul(s.l, s.u, |a|)
            && Det(PivotMatrix(s.order)) == Sgn(s.swaps)
            && Signed(s.swaps, DiagonalProduct(s.u, |a|)) == Det(a)
  {
    hide Det, LuFrom, LuStart, Combine, DiagonalProduct, LowerShape;
    StartInvariant(a);
    LuFromInvariant(tol, LuStart(a), a, 0);
    var s, n := Decompose(tol, a).value, |a|;
    FactorShapes(s, a);
    DetTriangular(s.u);
    forall i | 0 <= i < n
      ensures Mul(PivotMatrix(s.order), a, n)[i] == Mul(s.l, s.u, n)[i]
    {
      FactorRow(s, a, i);
    }
  }

  lemma FactorShapes(s: Lu, a: Matrix)
    requires a != [] && LuInvariant(s, a, |a| - 1)
    ensures UnitLower(s.l) && UpperTriangular(s.u)
  {
    hide Det, Rebuilt, Combine;
  }

  lemma FactorRow(s: Lu, a: Matrix, i: nat)
    requires a != [] && LuInvariant(s, a, |a| - 1) && UnitLower(s.l) && i < |a|
    ensures Combine(PivotMatrix(s.order)[i], a, |a|) == Combine(s.l[i], s.u, |a|)
  {
    hide Det, Combine, Mix;
    var n := |a|;
    CombineSingle(Unit(n, s.order[i]), s.order[i], a, n);
    var row := a[s.order[i]];
    forall j | 0 <= j < n ensures Lin(1.0, row, 0.0, row)[j] == row[j] {
      MixNothing(row[j], row[j]);
    }
    assert Lin(1.0, row, 0.0, row) == row;
    CombineUnitLower(s.l[i], s.u, i, n);
    assert Min(i, n - 1) == i;
  }

  // ---------- when there is a decomposition ----------

  lemma {:induction false} LuFollowsGauss(tol: real, s: Lu, n: nat, k: nat)
    requires Shaped(s, n) && k < n && tol >= 0.0
    ensures var g := GaussFrom(tol, s.u, k, n - 1, n, s.swaps);
            && (LuFrom(tol, s, n, k).Some? <==> g.Reduced?)
            && (g.Reduced? ==> LuFrom(tol, s, n, k).value.u == g.m && LuFrom(tol, s, n, k).value.swaps == g.swaps)
    decreases n - k
  {
    hide PivotRow, ClearBelow, StoreFactors, SwapPrefix, SwapOrder, CountSwap;
    if k < n - 1 {
      var p := PivotRow(s.u, k, n);
      if Abs(s.u[p][k]) > tol {
        LuFollowsGauss(tol, LuClear(LuSwap(s, n, k, p), n, k), n, k + 1);
      }
    }
  }

  /** Elimination that finishes also finishes its first columns. */
  lemma {:induction false} FewerColumns(tol: real, m: Matrix, k: nat, dim: nat, cols: nat, swaps: nat)
    requires IsMatrix(m, |m|, cols) && k <= dim < cols && dim < |m| && tol >= 0.0
    ensures GaussFrom(tol, m, k, dim + 1, cols, swaps).Reduced? ==> GaussFrom(tol, m, k, dim, cols, swaps).Reduced?
    decreases dim - k
  {
    hide PivotRow, PivotStep;
    if k < dim {
      var p := PivotRow(m, k, |m|);
      if Abs(m[p][k]) > tol {
        FewerColumns(tol, PivotStep(m, k, p, cols), k + 1, dim, cols, CountSwap(k, p, swaps));
      }
    }
  }

  /** There is a decomposition exactly when elimination finishes all columns but the last, in which no
      pivot is asked for; the upper factor and the swaps are then those of that elimination, and all
      pivots but the last exceed the tolerance. */
  lemma DecomposeExactly(tol: real, a: Matrix)
    requires Square(a) && a != [] && tol >= 0.0
    ensures var g, r := GaussFrom(tol, a, 0, |a| - 1, |a|, 0), Decompose(tol, a);
            && (r.Some? <==> g.Reduced?)
            && (r.Some? ==> r.value.u == g.m && r.value.swaps == g.swaps)
            && (r.Some? ==> forall i :: 0 <= i < |a| - 1 ==> r.value.u[i][i] > tol || r.value.u[i][i] < -tol)
  {
    hide LuFrom, GaussFrom, Identity;
    LuFollowsGauss(tol, LuStart(a), |a|, 0);
    GaussShape(tol, a, 0, |a| - 1, |a|, 0);
  }

  lemma DecomposeWhenReduced(tol: real, a: Matrix)
    requires Square(a) && a != [] && tol >= 0.0
    ensures Gauss(tol, a, |a|).Reduced? ==> Decompose(tol, a).Some?
  {
    hide LuFrom, GaussFrom, Decompose;
    DecomposeExactly(tol, a);
    FewerColumns(tol, a, 0, |a| - 1, |a|, 0);
  }

  /** Whenever elimination of the whole matrix does not report singular there is a decomposition; and with
      an exact zero test in place of the tolerance there is one for every matrix whose determinant is
      not zero. */
  lemma DecomposeWhenRegular(tol: real, a: Matrix)
    requires Square(a) && a != [] && tol >= 0.0
    ensures Gauss(tol, a, |a|).Reduced? ==> Decompose(tol, a).Some?
    ensures Decompose(0.0, a).None? ==> Det(a) == 0.0
  {
    hide *;
    DecomposeWhenReduced(tol, a);
    DecomposeWhenReduced(0.0, a);
    ExactGaussAlwaysAgrees(a);
  }
}
