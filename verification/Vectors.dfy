/** Finite sums, linear combinations of rows, and matrices as sequences of rows.
    This is the value-level vocabulary in which the in-place matrix algorithms are specified. */
module Vectors {

  type Vec = seq<real>
  type Matrix = seq<Vec>

  ghost predicate IsMatrix(m: Matrix, rows: nat, cols: nat) {
    |m| == rows && forall i :: 0 <= i < rows ==> |m[i]| == cols
  }

  ghost predicate Square(m: Matrix) {
    IsMatrix(m, |m|, |m|)
  }

  function Sum(s: Vec): real {
    if s == [] then 0.0 else Sum(s[..|s| - 1]) + s[|s| - 1]
  }

  function Mix(a: real, x: real, b: real, y: real): real {
    a * x + b * y
  }

  /** a * u + b * v, entry by entry. */
  function Lin(a: real, u: Vec, b: real, v: Vec): (w: Vec)
    requires |u| == |v|
    ensures |w| == |u|
    ensures forall i :: 0 <= i < |u| ==> w[i] == Mix(a, u[i], b, v[i])
  {
    seq(|u|, i requires 0 <= i < |u| => Mix(a, u[i], b, v[i]))
  }

  lemma MixExchange(a: real, p: real, x: real, b: real, q: real, y: real, r: real)
    ensures Mix(1.0, Mix(a, p, b, q), Mix(a, x, b, y), r) == Mix(a, Mix(1.0, p, x, r), b, Mix(1.0, q, y, r))
  {
  }

  function Zeros(n: nat): (z: Vec)
    ensures |z| == n && forall i :: 0 <= i < n ==> z[i] == 0.0
  {
    seq(n, i => 0.0)
  }

  function RemoveAt(s: Vec, j: nat): (r: Vec)
    requires j < |s|
    ensures |r| == |s| - 1
    ensures forall i :: 0 <= i < j ==> r[i] == s[i]
    ensures forall i :: j <= i < |r| ==> r[i] == s[i + 1]
  {
    s[..j] + s[j + 1..]
  }

  function Column(m: Matrix, j: nat): (c: Vec)
    requires forall i :: 0 <= i < |m| ==> j < |m[i]|
    ensures |c| == |m| && forall i :: 0 <= i < |m| ==> c[i] == m[i][j]
  {
    seq(|m|, i requires 0 <= i < |m| => m[i][j])
  }

  function SwapRows(m: Matrix, a: nat, b: nat): (r: Matrix)
    requires a < |m| && b < |m|
    ensures |r| == |m| && r[a] == m[b] && r[b] == m[a]
    ensures forall i :: 0 <= i < |m| && i != a && i != b ==> r[i] == m[i]
  {
    m[a := m[b]][b := m[a]]
  }

  lemma SumSnoc(s: Vec, x: real)
    ensures Sum(s + [x]) == Sum(s) + x
  {
    assert (s + [x])[..|s|] == s;
  }

  lemma {:induction false} SumLin(a: real, u: Vec, b: real, v: Vec)
    requires |u| == |v|
    ensures Sum(Lin(a, u, b, v)) == Mix(a, Sum(u), b, Sum(v))
  {
    if u != [] {
      var n := |u| - 1;
      SumLin(a, u[..n], b, v[..n]);
      assert Lin(a, u, b, v)[..n] == Lin(a, u[..n], b, v[..n]);
    }
  }

  lemma {:induction false} SumZero(s: Vec)
    requires forall i :: 0 <= i < |s| ==> s[i] == 0.0
    ensures Sum(s) == 0.0
  {
    if s != [] {
      SumZero(s[..|s| - 1]);
    }
  }

  lemma SumScaled(a: real, u: Vec, w: Vec)
    requires |u| == |w| && forall i :: 0 <= i < |u| ==> w[i] == a * u[i]
    ensures Sum(w) == a * Sum(u)
  {
    SumLin(a, u, 0.0, u);
    assert w == Lin(a, u, 0.0, u);
  }

  lemma {:induction false} SumNegate(u: Vec, w: Vec)
    requires |u| == |w| && forall i :: 0 <= i < |u| ==> w[i] == -u[i]
    ensures Sum(w) == -Sum(u)
  {
    if u != [] {
      SumNegate(u[..|u| - 1], w[..|u| - 1]);
    }
  }

  /** Taking one entry out of a sum. */
  lemma {:induction false} SumRemove(s: Vec, j: nat)
    requires j < |s|
    ensures Sum(s) == Sum(RemoveAt(s, j)) + s[j]
  {
    var n := |s| - 1;
    if j == n {
      assert RemoveAt(s, j) == s[..n];
    } else {
      SumRemove(s[..n], j);
      assert RemoveAt(s, j) == RemoveAt(s[..n], j) + [s[n]];
      SumSnoc(RemoveAt(s[..n], j), s[n]);
    }
  }

  /** A sum with at most one non-zero entry. */
  lemma SumSingle(s: Vec, j: nat)
    requires j < |s| && forall i :: 0 <= i < |s| && i != j ==> s[i] == 0.0
    ensures Sum(s) == s[j]
  {
    SumRemove(s, j);
    SumZero(RemoveAt(s, j));
  }

  function RowSums(g: Matrix): (r: Vec)
    ensures |r| == |g| && forall i :: 0 <= i < |g| ==> r[i] == Sum(g[i])
  {
    seq(|g|, i requires 0 <= i < |g| => Sum(g[i]))
  }

  function ColumnSums(g: Matrix, cols: nat): (r: Vec)
    requires forall i :: 0 <= i < |g| ==> |g[i]| == cols
    ensures |r| == cols && forall j :: 0 <= j < cols ==> r[j] == Sum(Column(g, j))
  {
    seq(cols, j requires 0 <= j < cols => Sum(Column(g, j)))
  }

  lemma EmptyColumnSums(g: Matrix, cols: nat)
    requires g == []
    ensures Sum(ColumnSums(g, cols)) == 0.0
  {
    forall j | 0 <= j < cols ensures ColumnSums(g, cols)[j] == 0.0 {
      assert Column(g, j) == [];
    }
    SumZero(ColumnSums(g, cols));
  }

  lemma ColumnSumsSnoc(g: Matrix, row: Vec, cols: nat)
    requires IsMatrix(g, |g|, cols) && |row| == cols
    ensures IsMatrix(g + [row], |g| + 1, cols)
    ensures Sum(ColumnSums(g + [row], cols)) == Sum(ColumnSums(g, cols)) + Sum(row)
  {
    hide Sum;
    forall j | 0 <= j < cols
      ensures ColumnSums(g + [row], cols)[j] == ColumnSums(g, cols)[j] + row[j]
    {
      assert Column(g + [row], j) == Column(g, j) + [row[j]];
      SumSnoc(Column(g, j), row[j]);
    }
    SumLin(1.0, ColumnSums(g, cols), 1.0, row);
    assert ColumnSums(g + [row], cols) == Lin(1.0, ColumnSums(g, cols), 1.0, row);
  }

  /** Exchanging the order of a double sum. */
  lemma {:induction false} SumExchange(g: Matrix, cols: nat)
    requires IsMatrix(g, |g|, cols)
    ensures Sum(RowSums(g)) == Sum(ColumnSums(g, cols))
  {
    hide Sum, Column;
    if g == [] {
      SumZero(RowSums(g));
      EmptyColumnSums(g, cols);
    } else {
      var n := |g| - 1;
      SumExchange(g[..n], cols);
      ColumnSumsSnoc(g[..n], g[n], cols);
      SumSnoc(RowSums(g[..n]), Sum(g[n]));
      assert RowSums(g) == RowSums(g[..n]) + [Sum(g[n])];
      assert g == g[..n] + [g[n]];
    }
  }

  /** The row vector c * m: the combination of the rows of m with coefficients c. */
  function Combine(c: Vec, m: Matrix, cols: nat): (r: Vec)
    requires IsMatrix(m, |c|, cols)
    ensures |r| == cols
    decreases |c|
  {
    if c == [] then Zeros(cols)
    else Lin(1.0, Combine(c[..|c| - 1], m[..|c| - 1], cols), c[|c| - 1], m[|c| - 1])
  }

  lemma {:induction false} CombineZero(c: Vec, m: Matrix, cols: nat)
    requires IsMatrix(m, |c|, cols) && forall i :: 0 <= i < |c| ==> c[i] == 0.0
    ensures Combine(c, m, cols) == Zeros(cols)
  {
    if c != [] {
      CombineZero(c[..|c| - 1], m[..|c| - 1], cols);
    }
  }

  /** Linearity in the coefficients. */
  lemma {:induction false} CombineLin(a: real, c: Vec, b: real, d: Vec, m: Matrix, cols: nat)
    requires |c| == |d| && IsMatrix(m, |c|, cols)
    ensures Combine(Lin(a, c, b, d), m, cols) == Lin(a, Combine(c, m, cols), b, Combine(d, m, cols))
  {
    if c != [] {
      var n := |c| - 1;
      CombineLin(a, c[..n], b, d[..n], m[..n], cols);
      assert Lin(a, c, b, d)[..n] == Lin(a, c[..n], b, d[..n]);
      var left, right := Combine(Lin(a, c, b, d), m, cols), Lin(a, Combine(c, m, cols), b, Combine(d, m, cols));
      forall j | 0 <= j < cols ensures left[j] == right[j] {
        MixExchange(a, Combine(c[..n], m[..n], cols)[j], c[n], b, Combine(d[..n], m[..n], cols)[j], d[n], m[n][j]);
      }
    }
  }

  /** A single non-zero coefficient selects (a multiple of) one row. */
  lemma {:induction false} CombineSingle(c: Vec, k: nat, m: Matrix, cols: nat)
    requires IsMatrix(m, |c|, cols) && k < |c|
    requires forall i :: 0 <= i < |c| && i != k ==> c[i] == 0.0
    ensures Combine(c, m, cols) == Lin(c[k], m[k], 0.0, m[k])
  {
    var n := |c| - 1;
    if k == n {
      CombineZero(c[..n], m[..n], cols);
    } else {
      CombineSingle(c[..n], k, m[..n], cols);
      var left, right := Combine(c, m, cols), Lin(c[k], m[k], 0.0, m[k]);
      forall j | 0 <= j < cols ensures left[j] == right[j] {
        assert Combine(c[..n], m[..n], cols)[j] == right[j];
        assert left[j] == Mix(1.0, right[j], c[n], m[n][j]) && c[n] == 0.0;
      }
    }
  }

  /** Replacing one row of m shifts the combination by that row's coefficient. */
  lemma {:induction false} CombineUpdate(c: Vec, m: Matrix, k: nat, v: Vec, cols: nat)
    requires IsMatrix(m, |c|, cols) && k < |c| && |v| == cols
    ensures IsMatrix(m[k := v], |c|, cols)
    ensures Combine(c, m[k := v], cols) ==
            Lin(1.0, Combine(c, m, cols), c[k], Lin(1.0, v, -1.0, m[k]))
  {
    var n := |c| - 1;
    if k == n {
      assert m[k := v][..n] == m[..n];
      var left := Combine(c, m[k := v], cols);
      var right := Lin(1.0, Combine(c, m, cols), c[k], Lin(1.0, v, -1.0, m[k]));
      forall j | 0 <= j < cols ensures left[j] == right[j] {
        var old_ := Combine(c[..n], m[..n], cols)[j];
        assert left[j] == Mix(1.0, old_, c[n], v[j]);
        assert right[j] == Mix(1.0, Mix(1.0, old_, c[n], m[n][j]), c[n], Mix(1.0, v[j], -1.0, m[k][j]));
      }
    } else {
      CombineUpdate(c[..n], m[..n], k, v, cols);
      assert m[k := v][..n] == m[..n][k := v];
      var left := Combine(c, m[k := v], cols);
      var right := Lin(1.0, Combine(c, m, cols), c[k], Lin(1.0, v, -1.0, m[k]));
      forall j | 0 <= j < cols ensures left[j] == right[j] {
        var old_, change := Combine(c[..n], m[..n], cols)[j], Mix(1.0, v[j], -1.0, m[k][j]);
        assert left[j] == Mix(1.0, Mix(1.0, old_, c[k], change), c[n], m[n][j]);
        assert right[j] == Mix(1.0, Mix(1.0, old_, c[n], m[n][j]), c[k], change);
      }
    }
  }

  /** Combining only the left or right part of the columns. */
  lemma {:induction false} CombineSlice(c: Vec, m: Matrix, lo: nat, hi: nat, cols: nat)
    requires IsMatrix(m, |c|, cols) && lo <= hi <= cols
    ensures IsMatrix(Slice(m, lo, hi), |c|, hi - lo)
    ensures Combine(c, m, cols)[lo..hi] == Combine(c, Slice(m, lo, hi), hi - lo)
  {
    if c != [] {
      var n := |c| - 1;
      CombineSlice(c[..n], m[..n], lo, hi, cols);
      assert Slice(m, lo, hi)[..n] == Slice(m[..n], lo, hi);
    }
  }

  function Slice(m: Matrix, lo: nat, hi: nat): (r: Matrix)
    requires lo <= hi && forall i :: 0 <= i < |m| ==> hi <= |m[i]|
    ensures |r| == |m| && forall i :: 0 <= i < |m| ==> r[i] == m[i][lo..hi]
  {
    seq(|m|, i requires 0 <= i < |m| => m[i][lo..hi])
  }

  function Unit(n: nat, k: nat): (r: Vec)
    requires k < n
    ensures |r| == n && r[k] == 1.0 && forall i :: 0 <= i < n && i != k ==> r[i] == 0.0
  {
    seq(n, i => if i == k then 1.0 else 0.0)
  }

  function Identity(n: nat): (r: Matrix)
    ensures |r| == n && forall i :: 0 <= i < n ==> r[i] == Unit(n, i)
  {
    seq(n, i requires 0 <= i < n => Unit(n, i))
  }

  /** Matrix product, row by row. */
  function Mul(a: Matrix, b: Matrix, cols: nat): (r: Matrix)
    requires IsMatrix(a, |a|, |b|) && IsMatrix(b, |b|, cols)
    ensures IsMatrix(r, |a|, cols) && forall i :: 0 <= i < |a| ==> r[i] == Combine(a[i], b, cols)
  {
    seq(|a|, i requires 0 <= i < |a| => Combine(a[i], b, cols))
  }

  /** c * I == c. */
  lemma CombineIdentity(c: Vec)
    ensures IsMatrix(Identity(|c|), |c|, |c|)
    ensures Combine(c, Identity(|c|), |c|) == c
  {
    CombinePrefixIdentity(c, |c|);
    assert c[..|c|] == c && Identity(|c|)[..|c|] == Identity(|c|);
  }

  lemma {:induction false} CombinePrefixIdentity(c: Vec, k: nat)
    requires k <= |c|
    ensures Combine(c[..k], Identity(|c|)[..k], |c|) == seq(|c|, i requires 0 <= i < |c| => if i < k then c[i] else 0.0)
    decreases k
  {
    if k > 0 {
      CombinePrefixIdentity(c, k - 1);
      assert c[..k][..k - 1] == c[..k - 1];
      assert Identity(|c|)[..k][..k - 1] == Identity(|c|)[..k - 1];
      var p := Combine(c[..k - 1], Identity(|c|)[..k - 1], |c|);
      assert Combine(c[..k], Identity(|c|)[..k], |c|) == Lin(1.0, p, c[k - 1], Unit(|c|, k - 1));
    }
  }
}
