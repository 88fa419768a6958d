/** The matrix class itself: a fixed block of cells that the algorithms update in place.
    Every method is tied to a function on the matrix value, and through the lemmas about those
    functions to what the algorithm is for. */
module DenseMatrix {
  import opened Vectors
  import opened Determinant
  import opened Elimination
  import opened Inversion
  import opened LuDecomposition

  /** The value the elimination returns for a singular matrix (largest 32-bit unsigned). */
  const SINGULAR: nat := 0xFFFF_FFFF

  class Dense {
    const data: array2<real>

    constructor (rows: nat, cols: nat)
      ensures fresh(data) && data.Length0 == rows && data.Length1 == cols
      ensures forall i, j :: 0 <= i < rows && 0 <= j < cols ==> data[i, j] == 0.0
    {
      data := new real[rows, cols]((i, j) => 0.0);
    }

    ghost function Rows(): (m: Matrix)
      reads data
      ensures IsMatrix(m, data.Length0, data.Length1)
      ensures forall i, j :: 0 <= i < data.Length0 && 0 <= j < data.Length1 ==> m[i][j] == data[i, j]
    {
      seq(data.Length0, i requires 0 <= i < data.Length0 reads data =>
        seq(data.Length1, j requires 0 <= j < data.Length1 reads data => data[i, j]))
    }

    /** The cells hold the matrix value m. */
    ghost predicate Holds(m: Matrix)
      reads data
    {
      IsMatrix(m, data.Length0, data.Length1) &&
      forall i, j :: 0 <= i < data.Length0 && 0 <= j < data.Length1 ==> data[i, j] == m[i][j]
    }

    lemma HoldsRows(m: Matrix)
      requires Holds(m)
      ensures Rows() == m
    {
      forall i | 0 <= i < |m| ensures Rows()[i] == m[i] {
      }
    }

    method SwapRowsInPlace(a: nat, b: nat)
      requires a < data.Length0 && b < data.Length0
      modifies data
      ensures Rows() == SwapRows(old(Rows()), a, b)
    {
      ghost var m := Rows();
      for j := 0 to data.Length1
        invariant forall x, y :: 0 <= x < data.Length0 && 0 <= y < data.Length1 ==>
                    data[x, y] == if y < j then SwapRows(m, a, b)[x][y] else m[x][y]
      {
        data[a, j], data[b, j] := data[b, j], data[a, j];
      }
      HoldsRows(SwapRows(m, a, b));
    }

    /** The search for the largest entry of column k from row k on. */
    method FindPivot(k: nat) returns (pivotRow: nat, maxVal: real)
      requires k < data.Length0 && k < data.Length1
      ensures pivotRow == PivotRow(Rows(), k, data.Length0) && maxVal == Abs(data[pivotRow, k])
    {
      pivotRow, maxVal := k, Abs(data[k, k]);
      for i := k + 1 to data.Length0
        invariant pivotRow == PivotRow(Rows(), k, i) && maxVal == Abs(data[pivotRow, k])
      {
        var absVal := Abs(data[i, k]);
        if absVal > maxVal {
          maxVal, pivotRow := absVal, i;
        }
      }
    }

    /** Row k subtracted from row i, from column k on: the columns before k are zero in both. */
    method ClearRow(i: nat, k: nat)
      requires k < i < data.Length0 && k < data.Length1 && data[k, k] != 0.0
      requires LowerZero(Rows(), k)
      modifies data
      ensures Rows() == ClearEntry(old(Rows()), k, i)
    {
      ghost var m := Rows();
      var factor := data[i, k] / data[k, k];
      ghost var target := ClearEntry(m, k, i);
      for j := k to data.Length1
        invariant forall x, y :: 0 <= x < data.Length0 && 0 <= y < data.Length1 ==>
                    data[x, y] == if x == i && k <= y < j then target[x][y] else m[x][y]
      {
        data[i, j] := data[i, j] - factor * data[k, j];
        assert target[i][j] == Mix(1.0, m[i][j], -factor, m[k][j]);
      }
      ghost var row := target[i];
      forall y | 0 <= y < k ensures row[y] == 0.0 {
        assert row[y] == Mix(1.0, m[i][y], -factor, m[k][y]);
      }
      assert forall y :: 0 <= y < k ==> m[i][y] == 0.0 == target[i][y];
      HoldsRows(target);
    }

    /** Elimination with partial pivoting, in place; returns the number of row swaps, or
        SINGULAR. The dimensions are 32-bit unsigned, so the count cannot be mistaken for it. */
    method GaussElimination() returns (rowSwaps: nat)
      requires data.Length0 <= SINGULAR && data.Length1 <= SINGULAR
      modifies data
      ensures var r := Gauss(TOLERANCE, old(Rows()), data.Length1);
              && Rows() == r.m
              && (r.Reduced? ==> rowSwaps == r.swaps < SINGULAR)
              && (r.Singular? ==> rowSwaps == SINGULAR)
    {
      hide ClearBelow, PivotRow, LowerZero, LargePivots, GaussFrom;
      rowSwaps := 0;
      StartShape(Rows());
      var minDim := if data.Length0 < data.Length1 then data.Length0 else data.Length1;
      ghost var m, cols := Rows(), data.Length1;
      for k := 0 to minDim
        invariant Gauss(TOLERANCE, m, cols) == GaussFrom(TOLERANCE, Rows(), k, minDim, cols, rowSwaps)
        invariant LowerZero(Rows(), k) && LargePivots(TOLERANCE, Rows(), k)
      {
        ghost var before := Rows();
        GaussUnfold(TOLERANCE, before, k, minDim, cols, rowSwaps);
        var pivotRow, maxVal := FindPivot(k);
        if maxVal <= TOLERANCE {
          return SINGULAR;
        }
        PivotStepShape(TOLERANCE, before, k, cols, pivotRow);
        SwapKeepsShape(TOLERANCE, before, k, pivotRow);
        ghost var counted := CountSwap(k, pivotRow, rowSwaps);
        if pivotRow != k {
          SwapRowsInPlace(k, pivotRow);
          rowSwaps := rowSwaps + 1;
        }
        ghost var swapped := SwapRows(before, k, pivotRow);
        assert Rows() == swapped && LowerZero(swapped, k) && rowSwaps == counted;
        ClearColumn(k);
      }
      GaussShape(TOLERANCE, m, 0, minDim, cols, 0);
      assert GaussFrom(TOLERANCE, Rows(), minDim, minDim, cols, rowSwaps) == Reduced(Rows(), rowSwaps) by {
        GaussDone(TOLERANCE, Rows(), minDim, cols, rowSwaps);
      }
    }

    static lemma GaussDone(tol: real, m: Matrix, dim: nat, cols: nat, swaps: nat)
      requires IsMatrix(m, |m|, cols) && dim <= cols && dim <= |m| && tol >= 0.0
      ensures GaussFrom(tol, m, dim, dim, cols, swaps) == Reduced(m, swaps)
    {
    }

    static lemma StartShape(m: Matrix)
      ensures LowerZero(m, 0) && LargePivots(TOLERANCE, m, 0)
    {
    }

    /** Column k cleared below the diagonal. */
    method ClearColumn(k: nat)
      requires k < data.Length0 && k < data.Length1 && data[k, k] != 0.0
      requires LowerZero(Rows(), k)
      modifies data
      ensures Rows() == ClearBelow(old(Rows()), k, data.Length0, data.Length1)
    {
      hide LowerZero, ClearEntry;
      ghost var m, cols := Rows(), data.Length1;
      for i := k + 1 to data.Length0
        invariant Rows() == ClearBelow(m, k, i, cols)
        invariant LowerZero(Rows(), k) && data[k, k] == m[k][k]
      {
        ClearBelowShape(m, k, i, cols);
        ClearBelowShape(m, k, i + 1, cols);
        ClearRow(i, k);
      }
    }

    // ---------- Gauss-Jordan and inversion ----------

    method NormaliseRow(k: nat)
      requires k < data.Length0 && k < data.Length1 && data[k, k] != 0.0
      modifies data
      ensures Rows() == Normalise(old(Rows()), k)
    {
      ghost var m, target := Rows(), Normalise(Rows(), k);
      var pivot := data[k, k];
      for j := 0 to data.Length1
        invariant forall x, y :: 0 <= x < data.Length0 && 0 <= y < data.Length1 ==>
                    data[x, y] == if x == k && y < j then target[x][y] else m[x][y]
      {
        data[k, j] := data[k, j] / pivot;
        assert target[k][j] == Mix(1.0 / pivot, m[k][j], 0.0, m[k][j]);
        NormaliseEntry(pivot, m[k][j]);
      }
      HoldsRows(target);
    }

    method ClearRowWith(i: nat, k: nat)
      requires i < data.Length0 && k < data.Length0 && k < data.Length1 && i != k
      modifies data
      ensures Rows() == ClearWith(old(Rows()), k, i)
    {
      ghost var m, target := Rows(), ClearWith(Rows(), k, i);
      var factor := data[i, k];
      for j := 0 to data.Length1
        invariant forall x, y :: 0 <= x < data.Length0 && 0 <= y < data.Length1 ==>
                    data[x, y] == if x == i && y < j then target[x][y] else m[x][y]
      {
        data[i, j] := data[i, j] - factor * data[k, j];
        assert target[i][j] == Mix(1.0, m[i][j], -factor, m[k][j]);
      }
      HoldsRows(target);
    }

    /** One round of back substitution. */
    method BackSubstitute(k: nat)
      requires k < data.Length0 && k < data.Length1
      modifies data
      ensures Rows() == JordanStep(old(Rows()), k, data.Length1)
    {
      hide Normalise, ClearWith;
      if data[k, k] == 0.0 {
        return;
      }
      NormaliseRow(k);
      ghost var m := Rows();
      for i := 0 to data.Length0
        invariant Rows() == ClearOthers(m, k, i, data.Length1)
      {
        if i != k {
          ClearRowWith(i, k);
        }
      }
    }

    /** Elimination to the reduced echelon form. The loop counter is a signed 32-bit number. */
    method GaussJordanElimination() returns (rowSwaps: nat)
      requires data.Length0 < 0x8000_0000 && data.Length1 <= SINGULAR
      modifies data
      ensures var r := GaussJordan(TOLERANCE, old(Rows()), data.Length1);
              && Rows() == r.m
              && (r.Reduced? ==> rowSwaps == r.swaps < SINGULAR)
              && (r.Singular? ==> rowSwaps == SINGULAR)
    {
      hide Gauss, JordanStep;
      rowSwaps := GaussElimination();
      if rowSwaps == SINGULAR {
        return;
      }
      var minDim := if data.Length0 < data.Length1 then data.Length0 else data.Length1;
      ghost var u := Rows();
      for k := minDim downto 0
        invariant JordanFrom(u, minDim, data.Length1) == JordanFrom(Rows(), k, data.Length1)
      {
        BackSubstitute(k);
      }
    }

    /** Inversion in place through the augmented matrix; a singular matrix is left unchanged. */
    method Invert() returns (ok: bool)
      requires data.Length0 == data.Length1 && data.Length0 < 0x8000_0000
      modifies data
      ensures ok <==> Inverse(TOLERANCE, old(Rows())).Some?
      ensures Rows() == if ok then Inverse(TOLERANCE, old(Rows())).value else old(Rows())
      ensures ok ==> Mul(Rows(), old(Rows()), data.Length0) == Identity(data.Length0)
      ensures ok ==> Mul(old(Rows()), Rows(), data.Length0) == Identity(data.Length0)
    {
      hide GaussJordan, Combine, Mul, Identity, Augment;
      ghost var m := Rows();
      var n := data.Length0;
      var augmented := AugmentedCopy();
      var rowSwaps := augmented.GaussJordanElimination();
      if rowSwaps == SINGULAR {
        return false;
      }
      ghost var u, result := augmented.Rows(), Inverse(TOLERANCE, m).value;
      assert result == Slice(u, n, 2 * n);
      for i := 0 to n
        invariant augmented.Rows() == u
        invariant forall x, y :: 0 <= x < n && 0 <= y < n ==> data[x, y] == if x < i then result[x][y] else m[x][y]
      {
        for j := 0 to n
          invariant augmented.Rows() == u
          invariant forall x, y :: 0 <= x < n && 0 <= y < n ==>
                      data[x, y] == if x < i || (x == i && y < j) then result[x][y] else m[x][y]
        {
          assert result[i] == u[i][n..2 * n] && u[i][j + n] == augmented.data[i, j + n];
          data[i, j] := augmented.data[i, j + n];
        }
      }
      HoldsRows(result);
      InverseCorrect(TOLERANCE, m);
      ok := true;
    }

    method AugmentedCopy() returns (augmented: Dense)
      requires data.Length0 == data.Length1
      ensures fresh(augmented) && fresh(augmented.data)
      ensures augmented.data.Length0 == data.Length0 && augmented.data.Length1 == 2 * data.Length0
      ensures augmented.Rows() == Augment(Rows())
    {
      var n := data.Length0;
      augmented := new Dense(n, 2 * n);
      for i := 0 to n
        invariant forall x, y :: 0 <= x < i && 0 <= y < n ==> augmented.data[x, y] == data[x, y]
        invariant forall x, y :: 0 <= x < n && (i <= x || n <= y) && 0 <= y < 2 * n ==> augmented.data[x, y] == 0.0
      {
        for j := 0 to n
          invariant forall x, y :: 0 <= x < n && 0 <= y < n && (x < i || (x == i && y < j)) ==>
                    augmented.data[x, y] == data[x, y]
          invariant forall x, y :: 0 <= x < n && 0 <= y < 2 * n && (i < x || (x == i && j <= y) || n <= y) ==>
                    augmented.data[x, y] == 0.0
        {
          augmented.data[i, j] := data[i, j];
        }
      }
      for i := 0 to n
        invariant forall x, y :: 0 <= x < n && 0 <= y < n ==> augmented.data[x, y] == data[x, y]
        invariant forall x, y :: 0 <= x < i && n <= y < 2 * n ==> augmented.data[x, y] == Unit(n, x)[y - n]
      {
        for j := 0 to n
          invariant forall x, y :: 0 <= x < n && 0 <= y < n ==> augmented.data[x, y] == data[x, y]
          invariant forall x, y :: 0 <= x < i && n <= y < 2 * n ==> augmented.data[x, y] == Unit(n, x)[y - n]
          invariant forall y :: n <= y < n + j ==> augmented.data[i, y] == 0.0
        {
          augmented.data[i, j + n] := 0.0;
        }
        augmented.data[i, i + n] := 1.0;
      }
      ghost var target := Augment(Rows());
      forall x, y | 0 <= x < n && 0 <= y < 2 * n ensures augmented.data[x, y] == target[x][y] {
        assert target[x] == Rows()[x] + Unit(n, x);
      }
      augmented.HoldsRows(target);
    }

    // ---------- determinants ----------

    /** The matrix without row `row` and column `col`. */
    method ToSubmatrix(row: nat, col: nat) returns (r: Dense)
      requires 1 < data.Length0 && 1 < data.Length1
      ensures fresh(r) && fresh(r.data) && r.data.Length0 == data.Length0 - 1 && r.data.Length1 == data.Length1 - 1
      ensures forall i, j :: 0 <= i < r.data.Length0 && 0 <= j < r.data.Length1 ==>
                r.data[i, j] == data[if i >= row then i + 1 else i, if j >= col then j + 1 else j]
    {
      r := new Dense(data.Length0 - 1, data.Length1 - 1);
      for i := 0 to data.Length0 - 1
        invariant forall x, y :: 0 <= x < i && 0 <= y < r.data.Length1 ==>
                    r.data[x, y] == data[if x >= row then x + 1 else x, if y >= col then y + 1 else y]
      {
        for j := 0 to data.Length1 - 1
          invariant forall x, y :: 0 <= x < i && 0 <= y < r.data.Length1 ==>
                      r.data[x, y] == data[if x >= row then x + 1 else x, if y >= col then y + 1 else y]
          invariant forall y :: 0 <= y < j ==>
                      r.data[i, y] == data[if i >= row then i + 1 else i, if y >= col then y + 1 else y]
        {
          r.data[i, j] := data[if i >= row then i + 1 else i, if j >= col then j + 1 else j];
        }
      }
    }

    /** Cofactor expansion along row 0. */
    method DeterminantLaplace() returns (det: real)
      requires data.Length0 == data.Length1 > 0
      ensures det == Det(Rows())
      decreases data.Length0
    {
      hide Det, Terms, Sum;
      ghost var m := Rows();
      if data.Length0 == 1 {
        DetOneByOne(m);
        return data[0, 0];
      }
      det := 0.0;
      EmptySum();
      for j := 0 to data.Length1
        invariant det == Sum(Terms(m)[..j])
      {
        var sub := ToSubmatrix(0, j);
        sub.HoldsRows(Minor(m, j));
        var d := sub.DeterminantLaplace();
        det := det + (if j % 2 == 0 then 1.0 else -1.0) * data[0, j] * d;
        TermAt(m, j);
        SumSnoc(Terms(m)[..j], Terms(m)[j]);
        assert Terms(m)[..j] + [Terms(m)[j]] == Terms(m)[..j + 1];
      }
      assert Terms(m)[..data.Length1] == Terms(m);
      DetExpansion(m);
    }

    static lemma EmptySum()
      ensures forall s: Vec :: s == [] ==> Sum(s) == 0.0
    {
    }

    method Copy() returns (r: Dense)
      ensures fresh(r) && fresh(r.data) && r.data.Length0 == data.Length0 && r.data.Length1 == data.Length1
      ensures r.Rows() == Rows()
    {
      r := new Dense(data.Length0, data.Length1);
      for i := 0 to data.Length0
        invariant forall x, y :: 0 <= x < i && 0 <= y < data.Length1 ==> r.data[x, y] == data[x, y]
      {
        for j := 0 to data.Length1
          invariant forall x, y :: 0 <= x < i && 0 <= y < data.Length1 ==> r.data[x, y] == data[x, y]
          invariant forall y :: 0 <= y < j ==> r.data[i, y] == data[i, y]
        {
          r.data[i, j] := data[i, j];
        }
      }
      r.HoldsRows(Rows());
    }

    /** Determinant by elimination of a copy. */
    method DeterminantGauss() returns (det: real)
      requires 0 < data.Length0 == data.Length1 <= SINGULAR
      ensures det == DetGauss(TOLERANCE, Rows())
    {
      hide Gauss;
      if data.Length0 == 1 {
        return data[0, 0];
      }
      var temp := Copy();
      var rowSwaps := temp.GaussElimination();
      if rowSwaps == SINGULAR {
        return 0.0;
      }
      det := DeterminantLu(temp, rowSwaps);
    }

    /** Parity of the swaps times the product of the diagonal. */
    static method DeterminantLu(u: Dense, rowSwaps: nat) returns (det: real)
      requires u.data.Length0 == u.data.Length1
      ensures det == Signed(rowSwaps, DiagonalProduct(u.Rows(), u.data.Length0))
    {
      det := if rowSwaps % 2 == 0 then 1.0 else -1.0;
      for i := 0 to u.data.Length0
        invariant det == Signed(rowSwaps, DiagonalProduct(u.Rows(), i))
      {
        SignedTimes(rowSwaps, DiagonalProduct(u.Rows(), i), u.data[i, i]);
        det := det * u.data[i, i];
      }
    }

    static lemma SignedTimes(swaps: nat, x: real, y: real)
      ensures Signed(swaps, x) * y == Signed(swaps, x * y)
    {
    }

    /** The default determinant: closed forms up to dimension three, elimination beyond. */
    method Determinant() returns (det: real)
      requires 0 < data.Length0 == data.Length1 <= SINGULAR
      ensures data.Length0 <= 3 ==> det == Det(Rows())
      ensures data.Length0 > 3 ==> det == DetGauss(TOLERANCE, Rows())
    {
      hide Det, DetGauss;
      ghost var m := Rows();
      if data.Length0 == 1 {
        DetOneByOne(m);
        det := data[0, 0];
      } else if data.Length0 == 2 {
        DetTwoByTwo(m);
        det := data[0, 0] * data[1, 1] - data[0, 1] * data[1, 0];
      } else if data.Length0 == 3 {
        DetThreeByThree(m);
        det := data[0, 0] * (data[1, 1] * data[2, 2] - data[1, 2] * data[2, 1])
             - data[0, 1] * (data[1, 0] * data[2, 2] - data[1, 2] * data[2, 0])
             + data[0, 2] * (data[1, 0] * data[2, 1] - data[1, 1] * data[2, 0]);
      } else {
        det := DeterminantGauss();
      }
    }

    // ---------- LU ----------

    method SetPivotMatrix(order: seq<nat>)
      requires data.Length0 == data.Length1 == |order| && forall i :: 0 <= i < |order| ==> order[i] < |order|
      modifies data
      ensures Rows() == PivotMatrix(order)
    {
      SetZero();
      for i := 0 to data.Length0
        invariant forall x, y :: 0 <= x < data.Length0 && 0 <= y < data.Length1 ==>
                    data[x, y] == if x < i && y == order[x] then 1.0 else 0.0
      {
        data[i, order[i]] := 1.0;
      }
      HoldsRows(PivotMatrix(order));
    }

    method SetZero()
      modifies data
      ensures forall i, j :: 0 <= i < data.Length0 && 0 <= j < data.Length1 ==> data[i, j] == 0.0
    {
      for i := 0 to data.Length0
        invariant forall x, y :: 0 <= x < i && 0 <= y < data.Length1 ==> data[x, y] == 0.0
      {
        for j := 0 to data.Length1
          invariant forall x, y :: 0 <= x < i && 0 <= y < data.Length1 ==> data[x, y] == 0.0
          invariant forall y :: 0 <= y < j ==> data[i, y] == 0.0
        {
          data[i, j] := 0.0;
        }
      }
    }

    /** The first k cells of rows x and y exchanged. */
    method SwapPrefixInPlace(k: nat, x: nat, y: nat)
      requires data.Length0 == data.Length1 && k <= data.Length1 && x < data.Length0 && y < data.Length0
      modifies data
      ensures Rows() == SwapPrefix(old(Rows()), k, x, y)
    {
      ghost var m, target := Rows(), SwapPrefix(Rows(), k, x, y);
      for j := 0 to k
        invariant forall a, b :: 0 <= a < data.Length0 && 0 <= b < data.Length1 ==>
                    data[a, b] == if b < j then target[a][b] else m[a][b]
      {
        data[x, j], data[y, j] := data[y, j], data[x, j];
      }
      HoldsRows(target);
    }

    method StoreCell(i: nat, k: nat, factor: real, ghost l0: Matrix, ghost u0: Matrix)
      requires IsMatrix(l0, data.Length0, data.Length0) && IsMatrix(u0, data.Length0, data.Length0)
      requires data.Length0 == data.Length1 && k < i < data.Length0 && u0[k][k] != 0.0
      requires Rows() == StoreFactors(l0, u0, k, i) && factor == u0[i][k] / u0[k][k]
      modifies data
      ensures Rows() == StoreFactors(l0, u0, k, i + 1)
    {
      data[i, k] := factor;
      HoldsRows(StoreFactors(l0, u0, k, i + 1));
    }

    /** The elimination of column k of u, its multipliers stored in this matrix. */
    method StoreAndClear(u: Dense, k: nat)
      requires data.Length0 == data.Length1 == u.data.Length0 == u.data.Length1 && k < data.Length0
      requires u.data != data && u.data[k, k] != 0.0 && LowerZero(u.Rows(), k)
      modifies data, u.data
      ensures Rows() == StoreFactors(old(Rows()), old(u.Rows()), k, data.Length0)
      ensures u.Rows() == ClearBelow(old(u.Rows()), k, data.Length0, data.Length0)
    {
      hide LowerZero, ClearEntry, ClearBelow, StoreFactors;
      FirstRound(Rows(), u.Rows(), k);
      ghost var l0, u0, n := Rows(), u.Rows(), data.Length0;
      for i := k + 1 to data.Length0
        invariant Rows() == StoreFactors(l0, u0, k, i)
        invariant u.Rows() == ClearBelow(u0, k, i, n)
        invariant LowerZero(u.Rows(), k) && u.data[k, k] == u0[k][k]
      {
        ClearBelowShape(u0, k, i + 1, n);
        ClearBelowUnfold(u0, k, i, n);
        var factor := u.data[i, k] / u.data[k, k];
        assert factor == u0[i][k] / u0[k][k];
        StoreCell(i, k, factor, l0, u0);
        u.ClearRow(i, k);
      }
    }

    static lemma FirstRound(l: Matrix, u: Matrix, k: nat)
      requires Square(l) && IsMatrix(u, |l|, |l|) && k < |l| && u[k][k] != 0.0
      ensures StoreFactors(l, u, k, k + 1) == l && ClearBelow(u, k, k + 1, |l|) == u
    {
    }

    /** The row exchange of one round, in U, in the finished part of L and in the row order. */
    method SwapRound(u: Dense, order: seq<nat>, k: nat, pivotRow: nat, rowSwaps: nat) returns (newOrder: seq<nat>,
                     newSwaps: nat)
      requires data.Length0 == data.Length1 == u.data.Length0 == u.data.Length1 == |order|
      requires u.data != data && k <= pivotRow < |order|
      modifies data, u.data
      ensures Lu(newOrder, Rows(), u.Rows(), newSwaps) ==
              LuSwap(Lu(order, old(Rows()), old(u.Rows()), rowSwaps), |order|, k, pivotRow)
    {
      newOrder, newSwaps := order, rowSwaps;
      LuSwapIs(Lu(order, Rows(), u.Rows(), rowSwaps), |order|, k, pivotRow);
      if pivotRow != k {
        newSwaps := newSwaps + 1;
        u.SwapRowsInPlace(k, pivotRow);
        SwapPrefixInPlace(k, k, pivotRow);
        newOrder := SwapOrder(newOrder, k, pivotRow);
      }
    }

    /** LU decomposition with partial pivoting; ok is false where the source throws. */
    method ToLuDecomposition() returns (ok: bool, order: seq<nat>, l: Dense, u: Dense, rowSwaps: nat)
      requires data.Length0 == data.Length1 > 0
      ensures fresh(l) && fresh(l.data) && fresh(u) && fresh(u.data)
      ensures ok <==> Decompose(TOLERANCE, Rows()).Some?
      ensures ok ==> Lu(order, l.Rows(), u.Rows(), rowSwaps) == Decompose(TOLERANCE, Rows()).value
    {
      hide LuClear, LuSwap, PivotRow, LowerZero, ClearBelow, StoreFactors, LuFrom;
      var n := data.Length0;
      ghost var m := Rows();
      l := IdentityMatrix(n);
      u := Copy();
      order, rowSwaps, ok := seq(n, i requires 0 <= i < n => i), 0, false;
      LuStartShape(m);
      for k := 0 to n - 1
        invariant fresh(l) && fresh(l.data) && fresh(u) && fresh(u.data) && l.data != u.data
        invariant l.data.Length0 == l.data.Length1 == u.data.Length0 == u.data.Length1 == n
        invariant |order| == n && LowerZero(u.Rows(), k)
        invariant Decompose(TOLERANCE, m) == LuFrom(TOLERANCE, Lu(order, l.Rows(), u.Rows(), rowSwaps), n, k)
      {
        ghost var s := Lu(order, l.Rows(), u.Rows(), rowSwaps);
        LuUnfold(TOLERANCE, s, n, k);
        var pivotRow, maxVal := u.FindPivot(k);
        if maxVal <= TOLERANCE {
          return;
        }
        LuRoundShape(s, n, k, pivotRow);
        order, rowSwaps := l.SwapRound(u, order, k, pivotRow, rowSwaps);
        ghost var t := LuSwap(s, n, k, pivotRow);
        l.StoreAndClear(u, k);
        LuClearIs(t, n, k);
      }
      LuUnfold(TOLERANCE, Lu(order, l.Rows(), u.Rows(), rowSwaps), n, n - 1);
      ok := true;
    }

    static method IdentityMatrix(n: nat) returns (r: Dense)
      ensures fresh(r) && fresh(r.data) && r.data.Length0 == r.data.Length1 == n && r.Rows() == Identity(n)
    {
      r := new Dense(n, n);
      r.SetPivotMatrix(seq(n, i requires 0 <= i < n => i));
      r.HoldsRows(Identity(n));
    }

    // ---------- product ----------

    method Times(b: Dense) returns (r: Dense)
      requires data.Length1 == b.data.Length0
      ensures fresh(r) && fresh(r.data)
      ensures r.data.Length0 == data.Length0 && r.data.Length1 == b.data.Length1
      ensures r.Rows() == Mul(Rows(), b.Rows(), b.data.Length1)
    {
      hide Combine;
      ghost var ma, mb, cols := Rows(), b.Rows(), b.data.Length1;
      r := new Dense(data.Length0, b.data.Length1);
      for i := 0 to data.Length0
        invariant forall x, y :: 0 <= x < i && 0 <= y < cols ==> r.data[x, y] == Combine(ma[x], mb, cols)[y]
        invariant forall x, y :: i <= x < data.Length0 && 0 <= y < cols ==> r.data[x, y] == 0.0
      {
        CombineNothing(ma[i][..0], mb[..0], cols);
        for k := 0 to data.Length1
          invariant forall x, y :: 0 <= x < i && 0 <= y < cols ==> r.data[x, y] == Combine(ma[x], mb, cols)[y]
          invariant forall x, y :: i < x < data.Length0 && 0 <= y < cols ==> r.data[x, y] == 0.0
          invariant forall y :: 0 <= y < cols ==> r.data[i, y] == Combine(ma[i][..k], mb[..k], cols)[y]
        {
          r.AddScaledRow(i, data[i, k], b, k);
          CombineStep(ma[i], mb, k, cols);
        }
        assert ma[i][..data.Length1] == ma[i] && mb[..data.Length1] == mb;
      }
      r.HoldsRows(Mul(ma, mb, cols));
    }

    static lemma CombineNothing(c: Vec, m: Matrix, cols: nat)
      requires c == [] && m == []
      ensures Combine(c, m, cols) == Zeros(cols)
    {
    }

    static lemma CombineStep(c: Vec, m: Matrix, k: nat, cols: nat)
      requires IsMatrix(m, |c|, cols) && k < |c|
      ensures forall y :: 0 <= y < cols ==>
                Combine(c[..k + 1], m[..k + 1], cols)[y] == Combine(c[..k], m[..k], cols)[y] + c[k] * m[k][y]
    {
      assert c[..k + 1][..k] == c[..k] && m[..k + 1][..k] == m[..k];
      forall y | 0 <= y < cols
        ensures Combine(c[..k + 1], m[..k + 1], cols)[y] == Combine(c[..k], m[..k], cols)[y] + c[k] * m[k][y]
      {
        assert Combine(c[..k + 1], m[..k + 1], cols)[y] == Mix(1.0, Combine(c[..k], m[..k], cols)[y], c[k], m[k][y]);
      }
    }

    method AddScaledRow(i: nat, v: real, b: Dense, k: nat)
      requires i < data.Length0 && k < b.data.Length0 && data.Length1 == b.data.Length1 && b.data != data
      modifies data
      ensures forall x, y :: 0 <= x < data.Length0 && 0 <= y < data.Length1 ==>
                data[x, y] == if x == i then old(data[x, y]) + v * b.data[k, y] else old(data[x, y])
    {
      for j := 0 to data.Length1
        invariant forall x, y :: 0 <= x < data.Length0 && 0 <= y < data.Length1 ==>
                    data[x, y] == if x == i && y < j then old(data[x, y]) + v * b.data[k, y] else old(data[x, y])
      {
        data[i, j] := data[i, j] + v * b.data[k, j];
      }
    }
  }
}
