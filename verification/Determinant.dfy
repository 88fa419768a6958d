/** The determinant by first-row cofactor expansion, and its theory:
    linear in every row, negated by row swaps, unchanged by row additions,
    and the diagonal product on triangular matrices. */
module Determinant {
  import opened Vectors

  function Sgn(j: nat): real {
    if j % 2 == 0 then 1.0 else -1.0
  }

  /** The matrix without row 0 and column j. */
  function Minor(m: Matrix, j: nat): (r: Matrix)
    requires Square(m) && j < |m|
    ensures IsMatrix(r, |m| - 1, |m| - 1)
    ensures forall i :: 0 <= i < |m| - 1 ==> r[i] == RemoveAt(m[i + 1], j)
  {
    seq(|m| - 1, i requires 0 <= i < |m| - 1 => RemoveAt(m[i + 1], j))
  }

  function Cofactor(s: real, x: real, d: real): real {
    s * x * d
  }

  /** Cofactor expansion along row 0. The empty determinant is 1, so that a
      one-by-one determinant is its only entry. */
  function Det(m: Matrix): real
    requires Square(m)
    decreases |m|
  {
    if m == [] then 1.0 else Sum(Terms(m))
  }

  function Terms(m: Matrix): (t: Vec)
    requires Square(m) && m != []
    ensures |t| == |m|
    decreases |m|, 0
  {
    seq(|m|, j requires 0 <= j < |m| => Cofactor(Sgn(j), m[0][j], Det(Minor(m, j))))
  }

  lemma DetExpansion(m: Matrix)
    requires Square(m) && m != []
    ensures Det(m) == Sum(Terms(m))
  {
  }

  lemma TermAt(m: Matrix, j: nat)
    requires Square(m) && j < |m|
    ensures Terms(m)[j] == Cofactor(Sgn(j), m[0][j], Det(Minor(m, j)))
  {
  }

  // ---------- linearity in each row ----------

  lemma {:induction false} DetLinear(m: Matrix, i: nat, a: real, u: Vec, b: real, v: Vec)
    requires Square(m) && i < |m| && |u| == |v| == |m|
    ensures Square(m[i := u]) && Square(m[i := v]) && Square(m[i := Lin(a, u, b, v)])
    ensures Det(m[i := Lin(a, u, b, v)]) == Mix(a, Det(m[i := u]), b, Det(m[i := v]))
    decreases |m|
  {
    hide Mix, Cofactor, Sum, Det, Terms;
    DetExpansion(m[i := Lin(a, u, b, v)]);
    DetExpansion(m[i := u]);
    DetExpansion(m[i := v]);
    var mw, mu, mv := m[i := Lin(a, u, b, v)], m[i := u], m[i := v];
    forall j | 0 <= j < |m|
      ensures Terms(mw)[j] == Mix(a, Terms(mu)[j], b, Terms(mv)[j])
    {
      TermLinear(m, i, a, u, b, v, j);
    }
    assert Terms(mw) == Lin(a, Terms(mu), b, Terms(mv));
    SumLin(a, Terms(mu), b, Terms(mv));
  }

  lemma TermLinear(m: Matrix, i: nat, a: real, u: Vec, b: real, v: Vec, j: nat)
    requires Square(m) && i < |m| && |u| == |v| == |m| && j < |m|
    ensures Square(m[i := u]) && Square(m[i := v]) && Square(m[i := Lin(a, u, b, v)])
    ensures Terms(m[i := Lin(a, u, b, v)])[j] == Mix(a, Terms(m[i := u])[j], b, Terms(m[i := v])[j])
    decreases |m|, 0
  {
    var w := Lin(a, u, b, v);
    var mw, mu, mv := m[i := w], m[i := u], m[i := v];
    var s, dw, du, dv := Sgn(j), Det(Minor(mw, j)), Det(Minor(mu, j)), Det(Minor(mv, j));
    assert Terms(mw)[j] == Cofactor(s, mw[0][j], dw);
    assert Terms(mu)[j] == Cofactor(s, mu[0][j], du);
    assert Terms(mv)[j] == Cofactor(s, mv[0][j], dv);
    if i == 0 {
      assert Minor(mw, j) == Minor(mu, j) == Minor(mv, j);
      CofactorLinearEntry(s, a, u[j], b, v[j], du);
    } else {
      MinorOfUpdate(m, i, u, j);
      MinorOfUpdate(m, i, v, j);
      MinorOfUpdate(m, i, w, j);
      assert RemoveAt(w, j) == Lin(a, RemoveAt(u, j), b, RemoveAt(v, j));
      DetLinear(Minor(m, j), i - 1, a, RemoveAt(u, j), b, RemoveAt(v, j));
      CofactorLinearDet(s, m[0][j], a, du, b, dv);
    }
  }

  lemma CofactorLinearEntry(s: real, a: real, x: real, b: real, y: real, d: real)
    ensures Cofactor(s, Mix(a, x, b, y), d) == Mix(a, Cofactor(s, x, d), b, Cofactor(s, y, d))
  {
  }

  lemma CofactorLinearDet(s: real, x: real, a: real, p: real, b: real, q: real)
    ensures Cofactor(s, x, Mix(a, p, b, q)) == Mix(a, Cofactor(s, x, p), b, Cofactor(s, x, q))
  {
  }

  lemma MinorOfUpdate(m: Matrix, i: nat, u: Vec, j: nat)
    requires Square(m) && 0 < i < |m| && |u| == |m| && j < |m|
    ensures Square(m[i := u]) && Minor(m[i := u], j) == Minor(m, j)[i - 1 := RemoveAt(u, j)]
  {
  }

  // ---------- swapping the first two rows ----------

  function RemoveTwo(s: Vec, j: nat, k: nat): (r: Vec)
    requires j < |s| && k < |s| && j != k
    ensures |r| == |s| - 2
  {
    RemoveAt(RemoveAt(s, j), Shift(j, k))
  }

  /** The index that column k has once column j is gone. */
  function Shift(j: nat, k: nat): (r: nat)
    requires j != k
  {
    if k < j then k else k - 1
  }

  lemma RemoveTwoSymmetric(s: Vec, j: nat, k: nat)
    requires j < |s| && k < |s| && j != k
    ensures RemoveTwo(s, j, k) == RemoveTwo(s, k, j)
  {
  }

  /** One entry of the expansion along the first two rows. */
  function PairTerm(m: Matrix, j: nat, k: nat): real
    requires Square(m) && 2 <= |m| && j < |m| && k < |m|
  {
    if j == k then 0.0
    else Cofactor(Sgn(j), m[0][j], Cofactor(Sgn(Shift(j, k)), m[1][k], Det(Minor(Minor(m, j), Shift(j, k)))))
  }

  function PairGrid(m: Matrix): (g: Matrix)
    requires Square(m) && 2 <= |m|
    ensures IsMatrix(g, |m|, |m|)
    ensures forall j, k :: 0 <= j < |m| && 0 <= k < |m| ==> g[j][k] == PairTerm(m, j, k)
  {
    seq(|m|, j requires 0 <= j < |m| => seq(|m|, k requires 0 <= k < |m| => PairTerm(m, j, k)))
  }

  lemma PairEntry(m: Matrix, j: nat, k: nat)
    requires Square(m) && 2 <= |m| && j < |m| && k < |m| - 1
    ensures RemoveAt(PairGrid(m)[j], j)[k] == Cofactor(Sgn(j), m[0][j], Terms(Minor(m, j))[k])
  {
    var k' := if k < j then k else k + 1;
    assert RemoveAt(PairGrid(m)[j], j)[k] == PairTerm(m, j, k');
    assert Shift(j, k') == k && Minor(m, j)[0] == RemoveAt(m[1], j) && RemoveAt(m[1], j)[k] == m[1][k'];
    assert Terms(Minor(m, j))[k] == Cofactor(Sgn(k), m[1][k'], Det(Minor(Minor(m, j), k)));
  }

  lemma PairRow(m: Matrix, j: nat)
    requires Square(m) && 2 <= |m| && j < |m|
    ensures Sum(PairGrid(m)[j]) == Terms(m)[j]
  {
    hide Cofactor, Sum, Det, Terms;
    DetExpansion(Minor(m, j));
    TermAt(m, j);
    var row := PairGrid(m)[j];
    var rest := RemoveAt(row, j);
    var inner := Terms(Minor(m, j));
    SumRemove(row, j);
    forall k | 0 <= k < |inner| ensures rest[k] == Cofactor(Sgn(j), m[0][j], inner[k]) {
      PairEntry(m, j, k);
    }
    SumCofactors(Sgn(j), m[0][j], inner, rest);
  }

  lemma SumCofactors(s: real, x: real, u: Vec, w: Vec)
    requires |u| == |w| && forall k :: 0 <= k < |u| ==> w[k] == Cofactor(s, x, u[k])
    ensures Sum(w) == Cofactor(s, x, Sum(u))
  {
    SumScaled(s * x, u, w);
  }

  lemma DetByPairs(m: Matrix)
    requires Square(m) && 2 <= |m|
    ensures Det(m) == Sum(RowSums(PairGrid(m)))
  {
    forall j | 0 <= j < |m| ensures RowSums(PairGrid(m))[j] == Terms(m)[j] {
      PairRow(m, j);
    }
    assert RowSums(PairGrid(m)) == Terms(m);
  }

  lemma PairAntisymmetric(m: Matrix, j: nat, k: nat)
    requires Square(m) && 2 <= |m| && j < |m| && k < |m|
    ensures Square(SwapRows(m, 0, 1))
    ensures PairTerm(SwapRows(m, 0, 1), j, k) == -PairTerm(m, k, j)
  {
    var s := SwapRows(m, 0, 1);
    if j != k {
      var d, d' := Minor(Minor(s, j), Shift(j, k)), Minor(Minor(m, k), Shift(k, j));
      forall i | 0 <= i < |m| - 2 ensures d[i] == d'[i] {
        assert d[i] == RemoveTwo(m[i + 2], j, k);
        assert d'[i] == RemoveTwo(m[i + 2], k, j);
        RemoveTwoSymmetric(m[i + 2], j, k);
      }
      assert d == d';
      SignFlip(j, k);
      SignedProduct(Sgn(j), m[1][j], Sgn(Shift(j, k)), m[0][k], Det(d), Sgn(k), Sgn(Shift(k, j)));
    }
  }

  lemma SignFlip(j: nat, k: nat)
    requires j != k
    ensures Sgn(j) * Sgn(Shift(j, k)) == -(Sgn(k) * Sgn(Shift(k, j)))
  {
  }

  lemma SignedProduct(s: real, x: real, t: real, y: real, d: real, s': real, t': real)
    requires s * t == -(s' * t')
    ensures Cofactor(s, x, Cofactor(t, y, d)) == -Cofactor(s', y, Cofactor(t', x, d))
  {
    assert s * x * (t * y * d) == (s * t) * (x * y * d);
    assert s' * y * (t' * x * d) == (s' * t') * (x * y * d);
  }

  lemma DetSwapFirst(m: Matrix)
    requires Square(m) && 2 <= |m|
    ensures Square(SwapRows(m, 0, 1)) && Det(SwapRows(m, 0, 1)) == -Det(m)
  {
    hide Sum, Det, PairTerm;
    var s, n := SwapRows(m, 0, 1), |m|;
    var g, g' := PairGrid(m), PairGrid(s);
    DetByPairs(m);
    DetByPairs(s);
    SumExchange(g, n);
    forall j | 0 <= j < n ensures RowSums(g')[j] == -ColumnSums(g, n)[j] {
      forall k | 0 <= k < n ensures g'[j][k] == -Column(g, j)[k] {
        PairAntisymmetric(m, j, k);
        assert g'[j][k] == PairTerm(s, j, k) && Column(g, j)[k] == g[k][j] == PairTerm(m, k, j);
      }
      SumNegate(Column(g, j), g'[j]);
    }
    SumNegate(ColumnSums(g, n), RowSums(g'));
  }

  lemma CofactorNegate(s: real, x: real, d: real)
    ensures Cofactor(s, x, -d) == -Cofactor(s, x, d)
  {
  }

  // ---------- arbitrary swaps ----------

  lemma {:induction false} DetSwapAdjacent(m: Matrix, i: nat)
    requires Square(m) && i + 1 < |m|
    ensures Square(SwapRows(m, i, i + 1)) && Det(SwapRows(m, i, i + 1)) == -Det(m)
    decreases |m|
  {
    hide Cofactor, Sum, Det, Terms;
    var s := SwapRows(m, i, i + 1);
    if i == 0 {
      DetSwapFirst(m);
    } else {
      DetExpansion(m);
      DetExpansion(s);
      forall j | 0 <= j < |m| ensures Terms(s)[j] == -Terms(m)[j] {
        assert Minor(s, j) == SwapRows(Minor(m, j), i - 1, i);
        DetSwapAdjacent(Minor(m, j), i - 1);
        CofactorNegate(Sgn(j), m[0][j], Det(Minor(m, j)));
        TermAt(m, j);
        TermAt(s, j);
      }
      SumNegate(Terms(m), Terms(s));
    }
  }

  /** Swapping two different rows negates the determinant. */
  lemma {:induction false} DetSwap(m: Matrix, a: nat, b: nat)
    requires Square(m) && a < b < |m|
    ensures Square(SwapRows(m, a, b)) && Det(SwapRows(m, a, b)) == -Det(m)
    decreases b - a
  {
    hide Det;
    if b == a + 1 {
      DetSwapAdjacent(m, a);
    } else {
      var m1 := SwapRows(m, a, a + 1);
      var m2 := SwapRows(m1, a + 1, b);
      DetSwapAdjacent(m, a);
      DetSwap(m1, a + 1, b);
      DetSwapAdjacent(m2, a);
      assert SwapRows(m2, a, a + 1) == SwapRows(m, a, b);
    }
  }

  lemma DetEqualRows(m: Matrix, a: nat, b: nat)
    requires Square(m) && a < |m| && b < |m| && a != b && m[a] == m[b]
    ensures Det(m) == 0.0
  {
    var lo, hi := if a < b then a else b, if a < b then b else a;
    DetSwap(m, lo, hi);
    assert SwapRows(m, lo, hi) == m;
  }

  /** Adding a multiple of one row to another keeps the determinant. */
  lemma DetRowAdd(m: Matrix, i: nat, f: real, k: nat)
    requires Square(m) && i < |m| && k < |m| && i != k
    ensures Square(m[i := Lin(1.0, m[i], f, m[k])])
    ensures Det(m[i := Lin(1.0, m[i], f, m[k])]) == Det(m)
  {
    DetLinear(m, i, 1.0, m[i], f, m[k]);
    assert m[i := m[i]] == m;
    DetEqualRows(m[i := m[k]], i, k);
  }

  // ---------- triangular matrices ----------

  ghost predicate UpperTriangular(m: Matrix) {
    Square(m) && forall i, j :: 0 <= j < i < |m| ==> m[i][j] == 0.0
  }

  function DiagonalProduct(m: Matrix, k: nat): real
    requires Square(m) && k <= |m|
  {
    if k == 0 then 1.0 else DiagonalProduct(m, k - 1) * m[k - 1][k - 1]
  }

  lemma {:induction false} DetZeroColumn(m: Matrix)
    requires Square(m) && m != [] && forall i :: 0 <= i < |m| ==> m[i][0] == 0.0
    ensures Det(m) == 0.0
    decreases |m|
  {
    forall j | 0 <= j < |m| ensures Terms(m)[j] == 0.0 {
      if j > 0 {
        DetZeroColumn(Minor(m, j));
      }
    }
    SumZero(Terms(m));
  }

  lemma {:induction false} DetTriangular(m: Matrix)
    requires UpperTriangular(m)
    ensures Det(m) == DiagonalProduct(m, |m|)
    decreases |m|
  {
    hide Sum, Terms;
    if m != [] {
      forall j | 0 < j < |m| ensures Terms(m)[j] == 0.0 {
        DetZeroColumn(Minor(m, j));
        TermAt(m, j);
      }
      SumSingle(Terms(m), 0);
      DetTriangular(Minor(m, 0));
      DiagonalShift(m, |m|);
      TermAt(m, 0);
    }
  }

  lemma {:induction false} DiagonalShift(m: Matrix, k: nat)
    requires Square(m) && 0 < k <= |m|
    ensures DiagonalProduct(m, k) == m[0][0] * DiagonalProduct(Minor(m, 0), k - 1)
  {
    if k > 1 {
      DiagonalShift(m, k - 1);
      assert Minor(m, 0)[k - 2][k - 2] == m[k - 1][k - 1];
    } else {
      assert DiagonalProduct(m, 1) == DiagonalProduct(m, 0) * m[0][0];
    }
  }

  lemma DiagonalNonZero(m: Matrix, k: nat)
    requires Square(m) && k <= |m| && forall i :: 0 <= i < k ==> m[i][i] != 0.0
    ensures DiagonalProduct(m, k) != 0.0
  {
  }
}
