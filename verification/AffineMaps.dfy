/** Affine maps over GF(2): f(x) = A x + b. */
module AffineMaps {
  import opened Bits

  datatype AffineMap = AffineMap(matrix: seq<Bits>, columns: nat, shift: Bits)

  function InputDimension(f: AffineMap): nat {
    f.columns
  }

  function OutputDimension(f: AffineMap): nat {
    |f.matrix|
  }

  /** As many rows as shift bits, all rows as long as the input. */
  ghost predicate Shaped(f: AffineMap) {
    |f.matrix| == |f.shift| && forall k :: 0 <= k < |f.matrix| ==> |f.matrix[k]| == f.columns
  }

  function MatrixVector(rows: seq<Bits>, x: Bits): (y: Bits)
    ensures |y| == |rows|
  {
    seq(|rows|, k requires 0 <= k < |rows| => Dot(rows[k], x))
  }

  /** The sum of the rows below `k` that `bits` selects, as a vector of `columns` bits. */
  function SelectedSum(rows: seq<Bits>, bits: Bits, columns: nat, k: nat): Bits
    requires k <= |rows|
  {
    if k == 0 then Zeros(columns)
    else if At(bits, k - 1) then Xor(SelectedSum(rows, bits, columns, k - 1), rows[k - 1])
    else SelectedSum(rows, bits, columns, k - 1)
  }

  function MatrixProduct(a: seq<Bits>, b: seq<Bits>, columns: nat): seq<Bits> {
    seq(|a|, k requires 0 <= k < |a| => SelectedSum(b, a[k], columns, |b|))
  }

  function IdentityMatrix(n: nat): seq<Bits> {
    seq(n, k requires 0 <= k => Unit(n, k))
  }

  function Linear(matrix: seq<Bits>, columns: nat): AffineMap {
    AffineMap(matrix, columns, Zeros(|matrix|))
  }

  function Translation(shift: Bits): AffineMap {
    AffineMap(IdentityMatrix(|shift|), |shift|, shift)
  }

  function ZeroMap(inputs: nat, outputs: nat): AffineMap {
    AffineMap(seq(outputs, k => Zeros(inputs)), inputs, Zeros(outputs))
  }

  function Apply(f: AffineMap, x: Bits): Bits {
    Xor(MatrixVector(f.matrix, x), f.shift)
  }

  /** The map called `dot`: first `g`, then `f`. */
  function Compose(f: AffineMap, g: AffineMap): AffineMap
    requires InputDimension(f) == OutputDimension(g)
  {
    AffineMap(MatrixProduct(f.matrix, g.matrix, g.columns), g.columns, Xor(MatrixVector(f.matrix, g.shift), f.shift))
  }

  lemma {:induction false} SelectedSumDot(rows: seq<Bits>, bits: Bits, columns: nat, x: Bits, k: nat)
    requires k <= |rows|
    ensures Dot(SelectedSum(rows, bits, columns, k), x) == DotTo(bits, MatrixVector(rows, x), k)
  {
    if k == 0 {
      DotZero(x, Zeros(columns));
    } else {
      SelectedSumDot(rows, bits, columns, x, k - 1);
      DotXor(SelectedSum(rows, bits, columns, k - 1), rows[k - 1], x);
      hide Dot, Xor;
    }
  }

  lemma {:induction false} SelectedSumSize(rows: seq<Bits>, bits: Bits, columns: nat, k: nat)
    requires k <= |rows| && forall j :: 0 <= j < |rows| ==> |rows[j]| == columns
    ensures |SelectedSum(rows, bits, columns, k)| == columns
  {
    if k > 0 {
      SelectedSumSize(rows, bits, columns, k - 1);
    }
  }

  /** Composition is evaluation one after the other, for every input. */
  lemma ComposeApplies(f: AffineMap, g: AffineMap, x: Bits)
    requires Shaped(f) && Shaped(g) && InputDimension(f) == OutputDimension(g)
    ensures Shaped(Compose(f, g))
    ensures Apply(Compose(f, g), x) == Apply(f, Apply(g, x))
  {
    forall k: nat | k < |f.matrix|
      ensures |Compose(f, g).matrix[k]| == g.columns
      ensures At(Apply(Compose(f, g), x), k) == At(Apply(f, Apply(g, x)), k)
    {
      var row := f.matrix[k];
      SelectedSumSize(g.matrix, row, g.columns, |g.matrix|);
      SelectedSumDot(g.matrix, row, g.columns, x, |g.matrix|);
      DotToStable(row, MatrixVector(g.matrix, x), |g.matrix|);
      DotXor(MatrixVector(g.matrix, x), g.shift, row);
    }
    hide Dot, SelectedSum;
    Same(Apply(Compose(f, g), x), Apply(f, Apply(g, x)));
  }

  lemma TranslationApplies(shift: Bits, x: Bits)
    requires |x| == |shift|
    ensures Shaped(Translation(shift)) && Apply(Translation(shift), x) == Xor(x, shift)
  {
    forall k: nat | k < |shift| ensures At(Apply(Translation(shift), x), k) == At(Xor(x, shift), k) {
      DotUnit(x, |shift|, k);
    }
    Same(Apply(Translation(shift), x), Xor(x, shift));
  }

  lemma ZeroMapApplies(inputs: nat, outputs: nat, x: Bits)
    ensures Shaped(ZeroMap(inputs, outputs)) && Apply(ZeroMap(inputs, outputs), x) == Zeros(outputs)
  {
    forall k: nat | k < outputs ensures !At(Apply(ZeroMap(inputs, outputs), x), k) {
      DotZero(x, Zeros(inputs));
    }
    Same(Apply(ZeroMap(inputs, outputs), x), Zeros(outputs));
  }

  /** A map is determined by its values: maps of the same shape that agree on every input are equal. */
  lemma SameValues(f: AffineMap, g: AffineMap)
    requires Shaped(f) && Shaped(g) && f.columns == g.columns && |f.matrix| == |g.matrix|
    requires forall x: Bits :: |x| == f.columns ==> Apply(f, x) == Apply(g, x)
    ensures f == g
  {
    var zero := Zeros(f.columns);
    assert Apply(f, zero) == Apply(g, zero);
    forall k: nat | k < |f.shift| ensures At(f.shift, k) == At(g.shift, k) {
      AtOrigin(f, k);
      AtOrigin(g, k);
    }
    Same(f.shift, g.shift);
    forall k: nat | k < |f.matrix| ensures f.matrix[k] == g.matrix[k] {
      forall j: nat | j < f.columns ensures At(f.matrix[k], j) == At(g.matrix[k], j) {
        var unit := Unit(f.columns, j);
        assert Apply(f, unit) == Apply(g, unit);
        AtUnit(f, k, j);
        AtUnit(g, k, j);
      }
      Same(f.matrix[k], g.matrix[k]);
    }
    hide Apply;
  }

  lemma AtOrigin(f: AffineMap, k: nat)
    requires Shaped(f) && k < |f.matrix|
    ensures At(Apply(f, Zeros(f.columns)), k) == At(f.shift, k)
  {
    DotZero(f.matrix[k], Zeros(f.columns));
  }

  lemma AtUnit(f: AffineMap, k: nat, j: nat)
    requires Shaped(f) && k < |f.matrix| && j < f.columns
    ensures At(Apply(f, Unit(f.columns, j)), k) == (At(f.matrix[k], j) != At(f.shift, k))
  {
    DotUnit(f.matrix[k], f.columns, j);
  }
}
