/** Gauss-Jordan elimination and inversion of the augmented matrix [A | I], as functions on
    matrix values, with the proof that the result is a two-sided inverse. */
module Inversion {
  import opened Options
  import opened Vectors
  import opened Determinant
  import opened Elimination

  /** Row c divided by its pivot. */
  function Normalise(m: Matrix, c: nat): (r: Matrix)
    requires c < |m| && c < |m[c]| && m[c][c] != 0.0
    ensures |r| == |m| && |r[c]| == |m[c]| && forall x :: 0 <= x < |m| && x != c ==> r[x] == m[x]
  {
    m[c := Lin(1.0 / m[c][c], m[c], 0.0, m[c])]
  }

  /** Row i without its share of row c, whose pivot is 1. */
  function ClearWith(m: Matrix, c: nat, i: nat): (r: Matrix)
    requires c < |m| && i < |m| && |m[i]| == |m[c]| && c < |m[c]|
    ensures |r| == |m| && |r[i]| == |m[i]| && forall x :: 0 <= x < |m| && x != i ==> r[x] == m[x]
  {
    m[i := Lin(1.0, m[i], -m[i][c], m[c])]
  }

  /** Column c cleared in all rows before hi except row c. */
  function ClearOthers(m: Matrix, c: nat, hi: nat, cols: nat): (r: Matrix)
    requires IsMatrix(m, |m|, cols) && c < |m| && c < cols && hi <= |m|
    ensures IsMatrix(r, |m|, cols) && r[c] == m[c]
    ensures forall i :: hi <= i < |m| ==> r[i] == m[i]
    decreases hi
  {
    if hi == 0 then m
    else
      var m1 := ClearOthers(m, c, hi - 1, cols);
      if hi - 1 == c then m1 else ClearWith(m1, c, hi - 1)
  }

  function JordanStep(m: Matrix, c: nat, cols: nat): (r: Matrix)
    requires IsMatrix(m, |m|, cols) && c < |m| && c < cols
    ensures IsMatrix(r, |m|, cols)
  {
    if m[c][c] == 0.0 then m else ClearOthers(Normalise(m, c), c, |m|, cols)
  }

  /** Back substitution of the columns k - 1, ..., 0. */
  function JordanFrom(m: Matrix, k: nat, cols: nat): (r: Matrix)
    requires IsMatrix(m, |m|, cols) && k <= |m| && k <= cols
    ensures IsMatrix(r, |m|, cols)
    decreases k
  {
    if k == 0 then m else JordanFrom(JordanStep(m, k - 1, cols), k - 1, cols)
  }

  function GaussJordan(tol: real, m: Matrix, cols: nat): (r: Echelon)
    requires IsMatrix(m, |m|, cols) && tol >= 0.0
    ensures IsMatrix(r.m, |m|, cols)
  {
    match Gauss(tol, m, cols)
    case Singular(u) => Singular(u)
    case Reduced(u, swaps) => Reduced(JordanFrom(u, Min(|m|, cols), cols), swaps)
  }

  /** [m | I] */
  function Augment(m: Matrix): (r: Matrix)
    requires Square(m)
    ensures IsMatrix(r, |m|, 2 * |m|)
    ensures forall i :: 0 <= i < |m| ==> r[i] == m[i] + Unit(|m|, i)
  {
    seq(|m|, i requires 0 <= i < |m| => m[i] + Unit(|m|, i))
  }

  function Inverse(tol: real, m: Matrix): (r: Option<Matrix>)
    requires Square(m) && tol >= 0.0
    ensures r.Some? ==> IsMatrix(r.value, |m|, |m|)
  {
    match GaussJordan(tol, Augment(m), 2 * |m|)
    case Singular(_) => None
    case Reduced(u, _) => Some(Slice(u, |m|, 2 * |m|))
  }

  // ---------- back substitution produces the identity ----------

  /** Columns k and later of the left block are columns of the identity. */
  ghost predicate UnitColumns(m: Matrix, k: nat) {
    (forall i :: 0 <= i < |m| ==> |m| <= |m[i]|) &&
    forall i, j :: 0 <= i < |m| && k <= j < |m| ==> m[i][j] == if i == j then 1.0 else 0.0
  }

  ghost predicate NonZeroPivots(m: Matrix, k: nat) {
    k <= |m| && forall i :: 0 <= i < k ==> i < |m[i]| && m[i][i] != 0.0
  }

  /** What a back-substitution step must leave alone: the zeros below the diagonal and the
      pivots before column c. */
  ghost predicate BackInvariant(m: Matrix, c: nat, cols: nat) {
    IsMatrix(m, |m|, cols) && |m| <= cols && c <= |m| &&
    LowerZero(m, |m|) && NonZeroPivots(m, c) && UnitColumns(m, c)
  }

  lemma NormaliseEntry(p: real, x: real)
    requires p != 0.0
    ensures Mix(1.0 / p, p, 0.0, p) == 1.0
    ensures Mix(1.0 / p, 0.0, 0.0, 0.0) == 0.0
    ensures Mix(1.0 / p, x, 0.0, x) == x / p
  {
    QuotientIsProduct(x, p);
  }

  lemma QuotientIsProduct(x: real, p: real)
    requires p != 0.0
    ensures (1.0 / p) * x == x / p
  {
    var q := x / p;
    assert q * p == x;
    assert (1.0 / p) * p == 1.0;
    assert (1.0 / p) * (q * p) == q * ((1.0 / p) * p);
  }

  lemma NormaliseKeeps(m: Matrix, c: nat, cols: nat)
    requires BackInvariant(m, c + 1, cols)
    ensures var r := Normalise(m, c);
            IsMatrix(r, |m|, cols) && LowerZero(r, |m|) && NonZeroPivots(r, c) && UnitColumns(r, c + 1)
              && r[c][c] == 1.0
  {
    hide Mix;
    var r := Normalise(m, c);
    forall j | 0 <= j < cols ensures r[c][j] == Mix(1.0 / m[c][c], m[c][j], 0.0, m[c][j]) {
    }
    NormaliseEntry(m[c][c], 0.0);
  }

  lemma ClearWithKeeps(m: Matrix, c: nat, i: nat, cols: nat)
    requires IsMatrix(m, |m|, cols) && |m| <= cols && c < |m| && i < |m| && i != c
    requires LowerZero(m, |m|) && NonZeroPivots(m, c) && UnitColumns(m, c + 1) && m[c][c] == 1.0
    ensures var r := ClearWith(m, c, i);
            IsMatrix(r, |m|, cols) && LowerZero(r, |m|) && NonZeroPivots(r, c) && UnitColumns(r, c + 1)
              && r[c][c] == 1.0
    ensures ClearWith(m, c, i)[i][c] == 0.0
  {
    hide Mix;
    var row := ClearWith(m, c, i)[i];
    var f := -m[i][c];
    forall j | 0 <= j < |m| && j != c ensures row[j] == m[i][j] {
      assert m[c][j] == 0.0;
      MixKeeps(m[i][j], f);
    }
    MixCancels(m[i][c]);
  }

  lemma MixKeeps(x: real, f: real)
    ensures Mix(1.0, x, f, 0.0) == x
  {
  }

  lemma MixCancels(x: real)
    ensures Mix(1.0, x, -x, 1.0) == 0.0
  {
  }

  lemma {:induction false} ClearOthersKeeps(m: Matrix, c: nat, hi: nat, cols: nat)
    requires IsMatrix(m, |m|, cols) && |m| <= cols && c < |m| && hi <= |m|
    requires LowerZero(m, |m|) && NonZeroPivots(m, c) && UnitColumns(m, c + 1) && m[c][c] == 1.0
    ensures var r := ClearOthers(m, c, hi, cols);
            && LowerZero(r, |m|) && NonZeroPivots(r, c) && UnitColumns(r, c + 1) && r[c][c] == 1.0
            && forall i :: 0 <= i < hi && i != c ==> r[i][c] == 0.0
    decreases hi
  {
    hide Mix, ClearWith;
    if hi > 0 {
      ClearOthersKeeps(m, c, hi - 1, cols);
      if hi - 1 != c {
        ClearWithKeeps(ClearOthers(m, c, hi - 1, cols), c, hi - 1, cols);
      }
    }
  }

  lemma JordanStepKeeps(m: Matrix, c: nat, cols: nat)
    requires BackInvariant(m, c + 1, cols)
    ensures BackInvariant(JordanStep(m, c, cols), c, cols)
  {
    NormaliseKeeps(m, c, cols);
    ClearOthersKeeps(Normalise(m, c), c, |m|, cols);
  }

  lemma {:induction false} JordanIdentity(m: Matrix, k: nat, cols: nat)
    requires BackInvariant(m, k, cols)
    ensures UnitColumns(JordanFrom(m, k, cols), 0)
    decreases k
  {
    hide LowerZero, NonZeroPivots, JordanStep;
    if k > 0 {
      JordanStepKeeps(m, k - 1, cols);
      JordanIdentity(JordanStep(m, k - 1, cols), k - 1, cols);
    }
  }

  // ---------- the link between the augmented matrix and A ----------

  ghost predicate InSpan(v: Vec, m: Matrix, cols: nat) {
    IsMatrix(m, |m|, cols) && exists c: Vec | |c| == |m| :: Combine(c, m, cols) == v
  }

  /** Every row [l | r] satisfies r * a == l, and every row of the original [a | I] is still a
      combination of the current rows. */
  ghost predicate Linked(m: Matrix, a: Matrix) {
    && Square(a) && IsMatrix(m, |a|, 2 * |a|)
    && (forall i :: 0 <= i < |a| ==> Combine(m[i][|a|..], a, |a|) == m[i][..|a|])
    && (forall i :: 0 <= i < |a| ==> InSpan(Augment(a)[i], m, 2 * |a|))
  }

  lemma RowInSpan(m: Matrix, i: nat, cols: nat)
    requires IsMatrix(m, |m|, cols) && i < |m|
    ensures InSpan(m[i], m, cols)
  {
    CombineSingle(Unit(|m|, i), i, m, cols);
    assert Lin(1.0, m[i], 0.0, m[i]) == m[i];
    assert Combine(Unit(|m|, i), m, cols) == m[i];
  }

  lemma LinInSpan(a: real, u: Vec, b: real, v: Vec, m: Matrix, cols: nat)
    requires InSpan(u, m, cols) && InSpan(v, m, cols) && |u| == |v|
    ensures InSpan(Lin(a, u, b, v), m, cols)
  {
    hide Mix;
    var c: Vec :| |c| == |m| && Combine(c, m, cols) == u;
    var d: Vec :| |d| == |m| && Combine(d, m, cols) == v;
    CombineLin(a, c, b, d, m, cols);
    assert |Lin(a, c, b, d)| == |m|;
  }

  lemma {:induction false} CombineInSpan(c: Vec, m: Matrix, target: Matrix, cols: nat)
    requires IsMatrix(m, |c|, cols) && IsMatrix(target, |target|, cols)
    requires forall i :: 0 <= i < |m| ==> InSpan(m[i], target, cols)
    ensures InSpan(Combine(c, m, cols), target, cols)
    decreases |c|
  {
    hide Mix;
    if c == [] {
      CombineZero(Zeros(|target|), target, cols);
      assert |Zeros(|target|)| == |target|;
    } else {
      var n := |c| - 1;
      CombineInSpan(c[..n], m[..n], target, cols);
      LinInSpan(1.0, Combine(c[..n], m[..n], cols), c[n], m[n], target, cols);
    }
  }

  lemma SpanTransitive(v: Vec, m: Matrix, target: Matrix, cols: nat)
    requires InSpan(v, m, cols) && IsMatrix(target, |target|, cols)
    requires forall i :: 0 <= i < |m| ==> InSpan(m[i], target, cols)
    ensures InSpan(v, target, cols)
  {
    var c: Vec :| |c| == |m| && Combine(c, m, cols) == v;
    CombineInSpan(c, m, target, cols);
  }

  lemma InverseMix(a: real, x: real, b: real, y: real)
    requires a != 0.0
    ensures Mix(1.0 / a, Mix(a, x, b, y), -((1.0 / a) * b), y) == x
  {
    var r := 1.0 / a;
    assert r * a == 1.0;
    assert r * (a * x + b * y) - (r * b) * y == (r * a) * x;
  }

  /** Replacing row i by a * row i + b * row k can be undone. */
  lemma UpdateKeepsSpan(m: Matrix, i: nat, a: real, b: real, k: nat, cols: nat)
    requires IsMatrix(m, |m|, cols) && i < |m| && k < |m| && a != 0.0 && (i != k || b == 0.0)
    ensures var r := m[i := Lin(a, m[i], b, m[k])];
            IsMatrix(r, |m|, cols) && forall x :: 0 <= x < |m| ==> InSpan(m[x], r, cols)
  {
    hide Mix;
    var r := m[i := Lin(a, m[i], b, m[k])];
    forall x | 0 <= x < |m| ensures InSpan(m[x], r, cols) {
      RowInSpan(r, x, cols);
      if x == i {
        RowInSpan(r, k, cols);
        LinInSpan(1.0 / a, r[i], -((1.0 / a) * b), r[k], r, cols);
        UndoneRow(m, i, a, b, k, cols);
      }
    }
  }

  lemma UndoneRow(m: Matrix, i: nat, a: real, b: real, k: nat, cols: nat)
    requires IsMatrix(m, |m|, cols) && i < |m| && k < |m| && a != 0.0 && (i != k || b == 0.0)
    ensures var r := m[i := Lin(a, m[i], b, m[k])];
            Lin(1.0 / a, r[i], -((1.0 / a) * b), r[k]) == m[i]
  {
    hide Mix;
    var r := m[i := Lin(a, m[i], b, m[k])];
    var back := Lin(1.0 / a, r[i], -((1.0 / a) * b), r[k]);
    forall j | 0 <= j < cols ensures back[j] == m[i][j] {
      InverseMix(a, m[i][j], b, m[k][j]);
      if i == k {
        MixZeroFactor(1.0 / a, r[i][j], -((1.0 / a) * b), r[k][j], m[k][j]);
      }
    }
  }

  lemma MixZeroFactor(a: real, x: real, f: real, y: real, y': real)
    requires f == 0.0
    ensures Mix(a, x, f, y) == Mix(a, x, f, y')
  {
  }

  lemma UpdateLinked(m: Matrix, a: Matrix, i: nat, p: real, q: real, k: nat)
    requires Linked(m, a) && i < |m| && k < |m| && p != 0.0 && (i != k || q == 0.0)
    ensures Linked(m[i := Lin(p, m[i], q, m[k])], a)
  {
    hide Mix, Combine;
    var n := |a|;
    var w := Lin(p, m[i], q, m[k]);
    var r := m[i := w];
    CombineLin(p, m[i][n..], q, m[k][n..], a, n);
    assert w[n..] == Lin(p, m[i][n..], q, m[k][n..]);
    assert w[..n] == Lin(p, m[i][..n], q, m[k][..n]);
    UpdateKeepsSpan(m, i, p, q, k, 2 * n);
    forall x | 0 <= x < n ensures InSpan(Augment(a)[x], r, 2 * n) {
      SpanTransitive(Augment(a)[x], m, r, 2 * n);
    }
  }

  lemma SwapLinked(m: Matrix, a: Matrix, x: nat, y: nat)
    requires Linked(m, a) && x < |m| && y < |m|
    ensures Linked(SwapRows(m, x, y), a)
  {
    hide Combine;
    var r, cols := SwapRows(m, x, y), 2 * |a|;
    forall i | 0 <= i < |m| ensures InSpan(m[i], r, cols) {
      RowInSpan(r, if i == x then y else if i == y then x else i, cols);
    }
    forall i | 0 <= i < |a| ensures InSpan(Augment(a)[i], r, cols) {
      SpanTransitive(Augment(a)[i], m, r, cols);
    }
  }

  lemma {:induction false} ClearBelowLinked(m: Matrix, a: Matrix, k: nat, hi: nat)
    requires Linked(m, a) && k < hi <= |m| && m[k][k] != 0.0
    ensures Linked(ClearBelow(m, k, hi, 2 * |a|), a)
    decreases hi
  {
    hide InSpan, Combine, Mix;
    if hi > k + 1 {
      var m1 := ClearBelow(m, k, hi - 1, 2 * |a|);
      ClearBelowLinked(m, a, k, hi - 1);
      UpdateLinked(m1, a, hi - 1, 1.0, -(m1[hi - 1][k] / m1[k][k]), k);
    }
  }

  lemma {:induction false} GaussLinked(tol: real, m: Matrix, a: Matrix, k: nat, swaps: nat)
    requires Linked(m, a) && k <= |a| && tol >= 0.0
    ensures Linked(GaussFrom(tol, m, k, |a|, 2 * |a|, swaps).m, a)
    decreases |a| - k
  {
    hide InSpan, Combine, Mix;
    if k < |a| {
      var p := PivotRow(m, k, |m|);
      if Abs(m[p][k]) > tol {
        SwapLinked(m, a, k, p);
        ClearBelowLinked(SwapRows(m, k, p), a, k, |m|);
        GaussLinked(tol, PivotStep(m, k, p, 2 * |a|), a, k + 1, CountSwap(k, p, swaps));
      }
    }
  }

  lemma {:induction false} ClearOthersLinked(m: Matrix, a: Matrix, c: nat, hi: nat)
    requires Linked(m, a) && c < |m| && hi <= |m|
    ensures Linked(ClearOthers(m, c, hi, 2 * |a|), a)
    decreases hi
  {
    hide InSpan, Combine, Mix;
    if hi > 0 {
      var m1 := ClearOthers(m, c, hi - 1, 2 * |a|);
      ClearOthersLinked(m, a, c, hi - 1);
      if hi - 1 != c {
        UpdateLinked(m1, a, hi - 1, 1.0, -m1[hi - 1][c], c);
      }
    }
  }

  lemma {:induction false} JordanLinked(m: Matrix, a: Matrix, k: nat)
    requires Linked(m, a) && k <= |m|
    ensures Linked(JordanFrom(m, k, 2 * |a|), a)
    decreases k
  {
    hide InSpan, Combine, Mix;
    if k > 0 {
      var c := k - 1;
      if m[c][c] != 0.0 {
        UpdateLinked(m, a, c, 1.0 / m[c][c], 0.0, c);
        ClearOthersLinked(Normalise(m, c), a, c, |m|);
      }
      JordanLinked(JordanStep(m, c, 2 * |a|), a, c);
    }
  }

  lemma AugmentLinked(a: Matrix)
    requires Square(a)
    ensures Linked(Augment(a), a)
  {
    var m, n := Augment(a), |a|;
    forall i | 0 <= i < n ensures Combine(m[i][n..], a, n) == m[i][..n] {
      CombineSingle(Unit(n, i), i, a, n);
      assert m[i][n..] == Unit(n, i) && m[i][..n] == a[i];
      assert Lin(1.0, a[i], 0.0, a[i]) == a[i];
    }
    forall i | 0 <= i < n ensures InSpan(m[i], m, 2 * n) {
      RowInSpan(m, i, 2 * n);
    }
  }

  // ---------- the inverse ----------

  /** A linked matrix [I | b] has both products equal to the identity. */
  lemma LinkedIdentity(m: Matrix, a: Matrix)
    requires Linked(m, a) && UnitColumns(m, 0)
    ensures var b := Slice(m, |a|, 2 * |a|);
            Mul(b, a, |a|) == Identity(|a|) && Mul(a, b, |a|) == Identity(|a|)
  {
    hide Combine;
    var n := |a|;
    var b := Slice(m, n, 2 * n);
    forall i | 0 <= i < n ensures Mul(b, a, n)[i] == Unit(n, i) {
      assert m[i][n..2 * n] == m[i][n..];
      assert m[i][..n] == Unit(n, i);
    }
    forall i | 0 <= i < n ensures Slice(m, 0, n)[i] == Unit(n, i) {
    }
    assert Slice(m, 0, n) == Identity(n);
    forall i | 0 <= i < n ensures Mul(a, b, n)[i] == Unit(n, i) {
      RightInverseRow(m, a, i);
    }
  }

  lemma RightInverseRow(m: Matrix, a: Matrix, i: nat)
    requires Linked(m, a) && UnitColumns(m, 0) && i < |a|
    requires Slice(m, 0, |a|) == Identity(|a|)
    ensures Combine(a[i], Slice(m, |a|, 2 * |a|), |a|) == Unit(|a|, i)
  {
    hide Combine;
    var n := |a|;
    assert InSpan(Augment(a)[i], m, 2 * n);
    var c: Vec :| |c| == |m| && Combine(c, m, 2 * n) == Augment(a)[i];
    CombineSlice(c, m, 0, n, 2 * n);
    CombineSlice(c, m, n, 2 * n, 2 * n);
    CombineIdentity(c);
    assert (a[i] + Unit(n, i))[0..n] == a[i] && (a[i] + Unit(n, i))[n..2 * n] == Unit(n, i);
  }

  /** Whenever inversion succeeds, the result is a two-sided inverse. */
  lemma InverseCorrect(tol: real, a: Matrix)
    requires Square(a) && tol >= 0.0 && Inverse(tol, a).Some?
    ensures var b := Inverse(tol, a).value;
            Mul(b, a, |a|) == Identity(|a|) && Mul(a, b, |a|) == Identity(|a|)
  {
    hide GaussFrom, JordanFrom, Linked;
    var n, m := |a|, Augment(a);
    AugmentLinked(a);
    GaussLinked(tol, m, a, 0, 0);
    GaussShape(tol, m, 0, n, 2 * n, 0);
    var u := GaussFrom(tol, m, 0, n, 2 * n, 0).m;
    assert BackInvariant(u, n, 2 * n);
    JordanIdentity(u, n, 2 * n);
    JordanLinked(u, a, n);
    LinkedIdentity(JordanFrom(u, n, 2 * n), a);
  }

  // ---------- when inversion succeeds ----------

  function LeftBlock(m: Matrix, n: nat): (r: Matrix)
    requires IsMatrix(m, |m|, 2 * n)
    ensures IsMatrix(r, |m|, n)
  {
    Slice(m, 0, n)
  }

  lemma ClearEntryLeft(m: Matrix, n: nat, k: nat, i: nat)
    requires IsMatrix(m, n, 2 * n) && k < n && i < n && m[k][k] != 0.0
    ensures IsMatrix(ClearEntry(m, k, i), n, 2 * n)
    ensures LeftBlock(ClearEntry(m, k, i), n) == ClearEntry(LeftBlock(m, n), k, i)
  {
    hide Mix;
    var l, f := LeftBlock(m, n), -(m[i][k] / m[k][k]);
    assert Lin(1.0, m[i], f, m[k])[0..n] == Lin(1.0, l[i], f, l[k]);
    assert l[i][k] == m[i][k] && l[k][k] == m[k][k];
  }

  lemma {:induction false} ClearBelowLeft(m: Matrix, n: nat, k: nat, hi: nat)
    requires IsMatrix(m, n, 2 * n) && k < hi <= n && m[k][k] != 0.0
    ensures LeftBlock(ClearBelow(m, k, hi, 2 * n), n) == ClearBelow(LeftBlock(m, n), k, hi, n)
    decreases hi
  {
    hide ClearEntry;
    if hi > k + 1 {
      ClearBelowLeft(m, n, k, hi - 1);
      ClearEntryLeft(ClearBelow(m, k, hi - 1, 2 * n), n, k, hi - 1);
    }
  }

  lemma PivotStepLeft(m: Matrix, n: nat, k: nat, p: nat)
    requires IsMatrix(m, n, 2 * n) && k <= p < n && m[p][k] != 0.0
    ensures LeftBlock(m, n)[p][k] == m[p][k]
    ensures LeftBlock(PivotStep(m, k, p, 2 * n), n) == PivotStep(LeftBlock(m, n), k, p, n)
  {
    hide ClearBelow;
    assert LeftBlock(SwapRows(m, k, p), n) == SwapRows(LeftBlock(m, n), k, p);
    ClearBelowLeft(SwapRows(m, k, p), n, k, n);
  }

  lemma {:induction false} PivotRowLeft(m: Matrix, n: nat, k: nat, hi: nat)
    requires IsMatrix(m, n, 2 * n) && k < hi <= n
    ensures PivotRow(LeftBlock(m, n), k, hi) == PivotRow(m, k, hi)
    ensures forall i :: 0 <= i < n ==> LeftBlock(m, n)[i][k] == m[i][k]
    decreases hi
  {
    if hi > k + 1 {
      PivotRowLeft(m, n, k, hi - 1);
    }
  }

  lemma {:induction false} GaussLeft(tol: real, m: Matrix, n: nat, k: nat, swaps: nat)
    requires IsMatrix(m, n, 2 * n) && k <= n && tol >= 0.0
    ensures GaussFrom(tol, m, k, n, 2 * n, swaps).Reduced?
       <==> GaussFrom(tol, LeftBlock(m, n), k, n, n, swaps).Reduced?
    decreases n - k
  {
    hide PivotStep, PivotRow, LeftBlock;
    if k < n {
      var p := PivotRow(m, k, n);
      PivotRowLeft(m, n, k, n);
      if Abs(m[p][k]) > tol {
        PivotStepLeft(m, n, k, p);
        GaussLeft(tol, PivotStep(m, k, p, 2 * n), n, k + 1, CountSwap(k, p, swaps));
      }
    }
  }

  /** Inversion succeeds exactly when elimination of the matrix itself does; it never succeeds
      on a matrix with determinant zero; and with an exact zero test in place of the tolerance
      it succeeds on all others. */
  lemma InvertibleExactly(tol: real, a: Matrix)
    requires Square(a) && a != [] && tol >= 0.0
    ensures Inverse(tol, a).Some? <==> Gauss(tol, a, |a|).Reduced?
    ensures Inverse(tol, a).Some? ==> Det(a) != 0.0
    ensures tol == 0.0 ==> (Inverse(tol, a).Some? <==> Det(a) != 0.0)
  {
    hide Det, GaussFrom;
    GaussLeft(tol, Augment(a), |a|, 0, 0);
    forall i | 0 <= i < |a| ensures LeftBlock(Augment(a), |a|)[i] == a[i] {
    }
    assert LeftBlock(Augment(a), |a|) == a;
    ExactGaussAlwaysAgrees(a);
    if Gauss(tol, a, |a|).Reduced? {
      ReducedNonZero(tol, a);
    }
  }

  lemma ReducedNonZero(tol: real, a: Matrix)
    requires Square(a) && a != [] && tol >= 0.0 && Gauss(tol, a, |a|).Reduced?
    ensures Det(a) != 0.0
  {
    hide Det;
    if |a| == 1 {
      DetOneByOne(a);
    } else {
      GaussAgreesWithLaplace(tol, a);
    }
  }
}
