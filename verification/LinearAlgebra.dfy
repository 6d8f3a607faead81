/** Row reduction over GF(2) with the transforms that it applies. */
module LinearAlgebra {
  import opened Bits
  import opened AffineMaps

  /** The sum of the rows that `c` selects. */
  function Combo(rows: seq<Bits>, c: Bits, width: nat): Bits {
    SelectedSum(rows, c, width, |rows|)
  }

  ghost predicate Rectangular(rows: seq<Bits>, width: nat) {
    forall j :: 0 <= j < |rows| ==> |rows[j]| == width
  }

  // ----- sums of rows

  lemma {:induction false} SumXor(rows: seq<Bits>, a: Bits, b: Bits, width: nat, k: nat)
    requires k <= |rows| && Rectangular(rows, width)
    ensures SelectedSum(rows, Xor(a, b), width, k) == Xor(SelectedSum(rows, a, width, k), SelectedSum(rows, b, width, k))
  {
    if k == 0 {
      XorSelf(Zeros(width));
    } else {
      SumXor(rows, a, b, width, k - 1);
      SelectedSumSize(rows, a, width, k - 1);
      SelectedSumSize(rows, b, width, k - 1);
      SelectedSumSize(rows, Xor(a, b), width, k);
      Same(SelectedSum(rows, Xor(a, b), width, k), Xor(SelectedSum(rows, a, width, k), SelectedSum(rows, b, width, k)));
    }
  }

  lemma {:induction false} SumUnit(rows: seq<Bits>, m: nat, i: nat, width: nat, k: nat)
    requires k <= |rows| && Rectangular(rows, width) && i < m && i < |rows|
    ensures SelectedSum(rows, Unit(m, i), width, k) == if i < k then rows[i] else Zeros(width)
  {
    if k > 0 {
      SumUnit(rows, m, i, width, k - 1);
      XorZeros(rows[i], width);
    }
  }

  lemma {:induction false} SumOfZero(rows: seq<Bits>, c: Bits, width: nat, k: nat)
    requires k <= |rows| && IsZero(c)
    ensures SelectedSum(rows, c, width, k) == Zeros(width)
  {
    if k > 0 {
      SumOfZero(rows, c, width, k - 1);
    }
  }

  /** Coefficients may differ past the rows that count. */
  lemma {:induction false} SumAgrees(rows: seq<Bits>, rows': seq<Bits>, a: Bits, b: Bits, width: nat, k: nat)
    requires k <= |rows| && k <= |rows'|
    requires forall j: nat :: j < k ==> At(a, j) == At(b, j) && rows[j] == rows'[j]
    ensures SelectedSum(rows, a, width, k) == SelectedSum(rows', b, width, k)
  {
    if k > 0 {
      SumAgrees(rows, rows', a, b, width, k - 1);
    }
  }

  /** Combining combinations: the matrix product is associative with the vector. */
  lemma {:induction false} ComboOfProduct(t: seq<Bits>, rows: seq<Bits>, c: Bits, width: nat, k: nat)
    requires k <= |t| && Rectangular(rows, width) && Rectangular(t, |rows|)
    ensures Combo(rows, SelectedSum(t, c, |rows|, k), width) == SelectedSum(MatrixProduct(t, rows, width), c, width, k)
  {
    if k == 0 {
      SumOfZero(rows, Zeros(|rows|), width, |rows|);
    } else {
      ComboOfProduct(t, rows, c, width, k - 1);
      SumXor(rows, SelectedSum(t, c, |rows|, k - 1), t[k - 1], width, |rows|);
    }
  }

  /** One bit of a combination. */
  lemma {:induction false} SumAt(rows: seq<Bits>, c: Bits, width: nat, k: nat, column: nat)
    requires k <= |rows|
    ensures At(SelectedSum(rows, c, width, k), column) == DotTo(c, Column(rows, column), k)
  {
    if k > 0 {
      SumAt(rows, c, width, k - 1, column);
    }
  }

  // ----- row additions

  function AddRow(rows: seq<Bits>, to: nat, from: nat): seq<Bits>
    requires to < |rows| && from < |rows|
  {
    rows[to := Xor(rows[to], rows[from])]
  }

  function SwapRows(rows: seq<Bits>, a: nat, b: nat): seq<Bits>
    requires a < |rows| && b < |rows|
  {
    rows[a := rows[b]][b := rows[a]]
  }

  /** Swapping is three additions. */
  lemma SwapIsAdditions(rows: seq<Bits>, a: nat, b: nat, width: nat)
    requires a < |rows| && b < |rows| && a != b && Rectangular(rows, width)
    ensures SwapRows(rows, a, b) == AddRow(AddRow(AddRow(rows, a, b), b, a), a, b)
  {
    XorCancel(rows[a], rows[b]);
    XorCancel(rows[b], rows[a]);
    XorComm(rows[a], rows[b]);
  }

  lemma XorCancel(x: Bits, y: Bits)
    requires |x| == |y|
    ensures Xor(x, Xor(x, y)) == y && Xor(Xor(x, y), y) == x
  {
    Same(Xor(x, Xor(x, y)), y);
    Same(Xor(Xor(x, y), y), x);
  }

  lemma {:induction false} SumOfAdded(rows: seq<Bits>, to: nat, row: Bits, c: Bits, width: nat, k: nat)
    requires k <= |rows| && to < |rows| && Rectangular(rows, width) && |row| == width
    ensures SelectedSum(rows[to := Xor(rows[to], row)], c, width, k)
         == if to < k && At(c, to) then Xor(SelectedSum(rows, c, width, k), row) else SelectedSum(rows, c, width, k)
  {
    if k > 0 {
      var added := rows[to := Xor(rows[to], row)];
      SumOfAdded(rows, to, row, c, width, k - 1);
      var s := SelectedSum(rows, c, width, k - 1);
      SelectedSumSize(rows, c, width, k - 1);
      if At(c, k - 1) {
        XorAssoc(s, rows[k - 1], row);
        XorAssoc(s, row, rows[k - 1]);
        XorComm(rows[k - 1], row);
      }
    }
  }

  /** Adding row `from` to row `to`, and adding coefficient `to` to coefficient `from`, keeps the combination. */
  lemma AddRowKeepsCombo(rows: seq<Bits>, c: Bits, to: nat, from: nat, width: nat)
    requires to < |rows| && from < |rows| && to != from && Rectangular(rows, width) && |c| == |rows|
    ensures Combo(AddRow(rows, to, from), c[from := c[from] != c[to]], width) == Combo(rows, c, width)
  {
    var m := |rows|;
    var c' := c[from := c[from] != c[to]];
    SumOfAdded(rows, to, rows[from], c', width, m);
    if c[to] {
      Same(c', Xor(c, Unit(m, from)));
      SumXor(rows, c, Unit(m, from), width, m);
      SumUnit(rows, m, from, width, m);
      SelectedSumSize(rows, c, width, m);
      XorCancel(Combo(rows, c, width), rows[from]);
    } else {
      assert c' == c;
    }
  }

  // ----- reduced matrices

  /** Reduced row echelon form: the pivot columns are unit columns, rows are zero before their pivot, the rest is zero. */
  ghost predicate IsReduced(rows: seq<Bits>, pivots: seq<nat>, width: nat) {
    && Rectangular(rows, width) && |pivots| <= |rows|
    && (forall i, j :: 0 <= i < j < |pivots| ==> pivots[i] < pivots[j])
    && (forall i :: 0 <= i < |pivots| ==> pivots[i] < width)
    && (forall i, j :: 0 <= i < |pivots| && 0 <= j < |rows| ==> At(rows[j], pivots[i]) == (i == j))
    && (forall i, c: nat :: 0 <= i < |pivots| && c < pivots[i] ==> !At(rows[i], c))
    && (forall j :: |pivots| <= j < |rows| ==> IsZero(rows[j]))
  }

  /** A vector that the rows generate. */
  ghost predicate InSpan(rows: seq<Bits>, width: nat, v: Bits) {
    exists c :: ComboIs(rows, c, width, v)
  }

  ghost predicate ComboIs(rows: seq<Bits>, c: Bits, width: nat, v: Bits) {
    |c| == |rows| && Combo(rows, c, width) == v
  }

  /** The coefficients of a combination of reduced rows can be read at the pivots. */
  lemma PivotCoefficient(rows: seq<Bits>, pivots: seq<nat>, width: nat, c: Bits, i: nat)
    requires IsReduced(rows, pivots, width) && i < |pivots|
    ensures At(Combo(rows, c, width), pivots[i]) == At(c, i)
  {
    SumAt(rows, c, width, |rows|, pivots[i]);
    Same(Column(rows, pivots[i]), Unit(|rows|, i));
    DotToStable(c, Unit(|rows|, i), |rows|);
    DotUnit(c, |rows|, i);
  }

  // ----- the reduction

  /** The reduced matrix, the transform T with T * original = matrix, and the inverse of T, transposed. */
  datatype EchelonForm = EchelonForm(matrix: seq<Bits>, transform: seq<Bits>, inverse: seq<Bits>, pivots: seq<nat>)

  ghost predicate Transforms(original: seq<Bits>, e: EchelonForm, width: nat) {
    var m := |original|;
    && |e.matrix| == |e.transform| == |e.inverse| == m
    && Rectangular(original, width) && Rectangular(e.matrix, width)
    && Rectangular(e.transform, m) && Rectangular(e.inverse, m)
    && (forall j :: 0 <= j < m ==> e.matrix[j] == Combo(original, e.transform[j], width))
    && (forall i: nat :: i < m ==> Combo(e.transform, Column(e.inverse, i), m) == Unit(m, i))
  }

  ghost predicate IsEchelon(original: seq<Bits>, e: EchelonForm, width: nat) {
    Transforms(original, e, width) && IsReduced(e.matrix, e.pivots, width)
  }

  /** The first rows are reduced, the others are still zero below `column`. */
  ghost predicate PartlyReduced(rows: seq<Bits>, pivots: seq<nat>, width: nat, column: nat) {
    && Rectangular(rows, width) && |pivots| <= |rows| && column <= width
    && (forall i, j :: 0 <= i < j < |pivots| ==> pivots[i] < pivots[j])
    && (forall i :: 0 <= i < |pivots| ==> pivots[i] < column)
    && (forall i, j :: 0 <= i < |pivots| && 0 <= j < |rows| ==> At(rows[j], pivots[i]) == (i == j))
    && (forall i, c: nat :: 0 <= i < |pivots| && c < pivots[i] ==> !At(rows[i], c))
    && (forall j, c: nat :: |pivots| <= j < |rows| && c < column ==> !At(rows[j], c))
  }

  lemma IdentityTransforms(original: seq<Bits>, width: nat)
    requires Rectangular(original, width)
    ensures var one := IdentityMatrix(|original|);
      Transforms(original, EchelonForm(original, one, one, []), width)
  {
    var m := |original|;
    var one := IdentityMatrix(m);
    forall j: nat | j < m ensures Combo(original, one[j], width) == original[j] && Combo(one, Column(one, j), m) == Unit(m, j) {
      SumUnit(original, m, j, width, m);
      Same(Column(one, j), Unit(m, j));
      SumUnit(one, m, j, m, m);
    }
  }

  lemma AddKeepsTransforms(original: seq<Bits>, e: EchelonForm, width: nat, to: nat, from: nat)
    requires Transforms(original, e, width) && to < |original| && from < |original| && to != from
    ensures Transforms(original, e.(matrix := AddRow(e.matrix, to, from), transform := AddRow(e.transform, to, from),
                                    inverse := AddRow(e.inverse, from, to)), width)
  {
    var m := |original|;
    var e' := e.(matrix := AddRow(e.matrix, to, from), transform := AddRow(e.transform, to, from),
                 inverse := AddRow(e.inverse, from, to));
    SumXor(original, e.transform[to], e.transform[from], width, m);
    forall i: nat | i < m ensures Combo(e'.transform, Column(e'.inverse, i), m) == Unit(m, i) {
      var c := Column(e.inverse, i);
      Same(Column(e'.inverse, i), c[from := c[from] != c[to]]);
      AddRowKeepsCombo(e.transform, c, to, from, m);
    }
    hide SelectedSum;
  }

  lemma SwapKeepsTransforms(original: seq<Bits>, e: EchelonForm, width: nat, a: nat, b: nat)
    requires Transforms(original, e, width) && a < |original| && b < |original|
    ensures Transforms(original, e.(matrix := SwapRows(e.matrix, a, b), transform := SwapRows(e.transform, a, b),
                                    inverse := SwapRows(e.inverse, a, b)), width)
  {
    if a == b {
      assert SwapRows(e.matrix, a, b) == e.matrix && SwapRows(e.transform, a, b) == e.transform;
      assert SwapRows(e.inverse, a, b) == e.inverse;
    } else {
      SwapIsAdditions(e.matrix, a, b, width);
      SwapIsAdditions(e.transform, a, b, |original|);
      SwapIsAdditions(e.inverse, b, a, |original|);
      assert SwapRows(e.inverse, a, b) == SwapRows(e.inverse, b, a);
      hide Transforms, AddRow, SwapRows;
      var e1 := e.(matrix := AddRow(e.matrix, a, b), transform := AddRow(e.transform, a, b), inverse := AddRow(e.inverse, b, a));
      var e2 := e1.(matrix := AddRow(e1.matrix, b, a), transform := AddRow(e1.transform, b, a), inverse := AddRow(e1.inverse, a, b));
      AddKeepsTransforms(original, e, width, a, b);
      AddKeepsTransforms(original, e1, width, b, a);
      AddKeepsTransforms(original, e2, width, a, b);
    }
  }

  /** Everything before the found position is zero; the position is past the last column when nothing is left. */
  ghost predicate Searched(rows: seq<Bits>, row0: nat, column0: nat, width: nat, row: nat, column: nat) {
    && column0 <= column
    && (row0 < |rows| && column0 <= width ==> column <= width)
    && (row0 < |rows| && column < width ==> row0 <= row < |rows| && At(rows[row], column))
    && (forall j, c: nat :: row0 <= j < |rows| && column0 <= c < column ==> !At(rows[j], c))
  }

  lemma SearchedColumns(rows: seq<Bits>, pivots: seq<nat>, width: nat, clean: nat, row: nat, column: nat)
    requires PartlyReduced(rows, pivots, width, clean) && |pivots| < |rows|
    requires Searched(rows, |pivots|, clean, width, row, column)
    ensures column <= width && PartlyReduced(rows, pivots, width, column)
    ensures column < width ==> |pivots| <= row < |rows| && At(rows[row], column)
  {
    FurtherColumns(rows, pivots, width, clean, column);
  }

  /** The next pivot, column by column and in each column from `row0` down. */
  method PivotOf(rows: seq<Bits>, width: nat, row0: nat, column0: nat) returns (row: nat, column: nat)
    requires Rectangular(rows, width)
    ensures row0 >= |rows| || column0 >= width ==> (row, column) == (row0, column0)
    ensures Searched(rows, row0, column0, width, row, column)
  {
    row, column := row0, column0;
    if row >= |rows| || column >= width {
      return;
    }
    while !rows[row][column]
      invariant row0 <= row < |rows| && column0 <= column < width
      invariant forall j, c: nat :: row0 <= j < |rows| && column0 <= c < column ==> !At(rows[j], c)
      invariant forall j :: row0 <= j < row ==> !At(rows[j], column)
      decreases width - column, |rows| - row
    {
      row := row + 1;
      if row == |rows| {
        column := column + 1;
        row := row0;
        if column == width {
          break;
        }
      }
    }
  }

  /** Clears the pivot column in every other row. */
  method ReduceWithTransforms(e: EchelonForm, original: seq<Bits>, width: nat, row: nat, column: nat)
    returns (e': EchelonForm)
    requires Transforms(original, e, width) && row < |original| && column < width && row == |e.pivots|
    requires PartlyReduced(e.matrix, e.pivots, width, column) && At(e.matrix[row], column)
    ensures Transforms(original, e', width) && e'.pivots == e.pivots
    ensures PartlyReduced(e'.matrix, e.pivots, width, column)
    ensures forall j :: 0 <= j < |original| ==> At(e'.matrix[j], column) == (j == row)
  {
    e' := e;
    for j := 0 to |original|
      invariant Transforms(original, e', width) && e'.pivots == e.pivots
      invariant PartlyReduced(e'.matrix, e.pivots, width, column)
      invariant e'.matrix[row] == e.matrix[row]
      invariant forall k :: 0 <= k < j && k != row ==> !At(e'.matrix[k], column)
    {
      if j != row && e'.matrix[j][column] {
        AddKeepsTransforms(original, e', width, j, row);
        AddKeepsPartlyReduced(e'.matrix, e.pivots, width, column, j, row);
        e' := e'.(matrix := AddRow(e'.matrix, j, row), transform := AddRow(e'.transform, j, row),
                  inverse := AddRow(e'.inverse, row, j));
      }
    }
  }

  lemma AddKeepsPartlyReduced(rows: seq<Bits>, pivots: seq<nat>, width: nat, column: nat, to: nat, from: nat)
    requires PartlyReduced(rows, pivots, width, column) && to < |rows| && |pivots| <= from < |rows| && to != from
    ensures PartlyReduced(AddRow(rows, to, from), pivots, width, column)
  {
  }

  lemma SwapKeepsPartlyReduced(rows: seq<Bits>, pivots: seq<nat>, width: nat, column: nat, a: nat, b: nat)
    requires PartlyReduced(rows, pivots, width, column) && |pivots| <= a < |rows| && |pivots| <= b < |rows|
    ensures PartlyReduced(SwapRows(rows, a, b), pivots, width, column)
  {
  }

  lemma FurtherColumns(rows: seq<Bits>, pivots: seq<nat>, width: nat, column: nat, column': nat)
    requires PartlyReduced(rows, pivots, width, column) && column <= column' <= width
    requires forall j, c: nat :: |pivots| <= j < |rows| && column <= c < column' ==> !At(rows[j], c)
    ensures PartlyReduced(rows, pivots, width, column')
  {
  }

  lemma NextPivot(rows: seq<Bits>, pivots: seq<nat>, width: nat, column: nat)
    requires PartlyReduced(rows, pivots, width, column) && column < width && |pivots| < |rows|
    requires forall j :: 0 <= j < |rows| ==> At(rows[j], column) == (j == |pivots|)
    ensures PartlyReduced(rows, pivots + [column], width, column + 1)
  {
  }

  lemma FullyReduced(rows: seq<Bits>, pivots: seq<nat>, width: nat, column: nat)
    requires PartlyReduced(rows, pivots, width, column) && (column == width || |pivots| == |rows|)
    ensures IsReduced(rows, pivots, width)
  {
    forall j | |pivots| <= j < |rows| ensures IsZero(rows[j]) {
      forall c: nat | c < |rows[j]| ensures !rows[j][c] {
        assert !At(rows[j], c);
      }
    }
  }

  /** One step: the pivot row is swapped into place and its column cleared everywhere else. */
  method TakePivot(e: EchelonForm, original: seq<Bits>, width: nat, row: nat, column: nat) returns (e': EchelonForm)
    requires Transforms(original, e, width) && |e.pivots| <= row < |original| && column < width
    requires PartlyReduced(e.matrix, e.pivots, width, column) && At(e.matrix[row], column)
    ensures Transforms(original, e', width) && e'.pivots == e.pivots + [column]
    ensures PartlyReduced(e'.matrix, e'.pivots, width, column + 1)
  {
    var index := |e.pivots|;
    SwapKeepsTransforms(original, e, width, row, index);
    SwapKeepsPartlyReduced(e.matrix, e.pivots, width, column, row, index);
    SwapAt(e.matrix, row, index);
    e' := e.(matrix := SwapRows(e.matrix, row, index), transform := SwapRows(e.transform, row, index),
             inverse := SwapRows(e.inverse, row, index));
    e' := ReduceWithTransforms(e', original, width, index, column);
    NextPivot(e'.matrix, e'.pivots, width, column);
    PivotsAreFree(original, e', e'.pivots + [column], width);
    e' := e'.(pivots := e'.pivots + [column]);
    hide Transforms, PartlyReduced, SwapRows;
  }

  /** The reduced row echelon form with its transforms. */
  method Echelonize(original: seq<Bits>, width: nat) returns (e: EchelonForm)
    requires Rectangular(original, width)
    ensures IsEchelon(original, e, width)
  {
    e := EchelonForm(original, IdentityMatrix(|original|), IdentityMatrix(|original|), []);
    IdentityTransforms(original, width);
    FurtherColumns(e.matrix, [], width, 0, 0);
    var row, column := PivotOf(e.matrix, width, 0, 0);
    ghost var clean: nat := 0;
    hide Transforms, PartlyReduced, At, Rectangular;
    while |e.pivots| < |original| && column < width
      invariant Transforms(original, e, width) && |e.matrix| == |original|
      invariant PartlyReduced(e.matrix, e.pivots, width, clean)
      invariant |e.pivots| <= |original| && clean <= width
      invariant |e.pivots| < |original| ==> Searched(e.matrix, |e.pivots|, clean, width, row, column)
      decreases |original| - |e.pivots|
    {
      SearchedColumns(e.matrix, e.pivots, width, clean, row, column);
      e := TakePivot(e, original, width, row, column);
      TransformSizes(original, e, width);
      clean := column + 1;
      row, column := PivotOf(e.matrix, width, |e.pivots|, column + 1);
      hide Searched;
    }
    if |e.pivots| < |original| {
      SearchedColumns(e.matrix, e.pivots, width, clean, row, column);
      clean := width;
    }
    FullyReduced(e.matrix, e.pivots, width, clean);
  }

  lemma SwapAt(rows: seq<Bits>, a: nat, b: nat)
    requires a < |rows| && b < |rows|
    ensures SwapRows(rows, a, b)[b] == rows[a]
  {
  }

  lemma TransformSizes(original: seq<Bits>, e: EchelonForm, width: nat)
    requires Transforms(original, e, width)
    ensures |e.matrix| == |original| && Rectangular(e.matrix, width)
  {
  }

  /** The pivots play no part in the transforms. */
  lemma PivotsAreFree(original: seq<Bits>, e: EchelonForm, pivots: seq<nat>, width: nat)
    requires Transforms(original, e.(pivots := []), width) || Transforms(original, e, width)
    ensures Transforms(original, e.(pivots := pivots), width)
  {
  }
}
