/** Row spaces over GF(2): reduced row echelon form is unique, and solving is exact. */
module Spans {
  import opened Bits
  import opened AffineMaps
  import opened LinearAlgebra

  /** Every vector that `a` generates is generated by `b`. */
  ghost predicate SpanWithin(a: seq<Bits>, b: seq<Bits>, width: nat) {
    forall v {:trigger InSpan(b, width, v)} :: InSpan(a, width, v) ==> InSpan(b, width, v)
  }

  lemma ComboInSpan(rows: seq<Bits>, c: Bits, width: nat)
    requires |c| == |rows|
    ensures InSpan(rows, width, Combo(rows, c, width))
  {
    assert ComboIs(rows, c, width, Combo(rows, c, width));
  }

  lemma RowInSpan(rows: seq<Bits>, i: nat, width: nat)
    requires Rectangular(rows, width) && i < |rows|
    ensures InSpan(rows, width, rows[i])
  {
    SumUnit(rows, |rows|, i, width, |rows|);
    ComboInSpan(rows, Unit(|rows|, i), width);
  }

  /** Rows that are combinations of other rows generate no more than those. */
  lemma CombinedRowsWithin(x: seq<Bits>, rows: seq<Bits>, width: nat)
    requires Rectangular(rows, width) && Rectangular(x, |rows|)
    ensures SpanWithin(MatrixProduct(x, rows, width), rows, width)
  {
    var product := MatrixProduct(x, rows, width);
    forall v | InSpan(product, width, v) ensures InSpan(rows, width, v) {
      var c :| ComboIs(product, c, width, v);
      ComboOfProduct(x, rows, c, width, |x|);
      SelectedSumSize(x, c, |rows|, |x|);
      ComboInSpan(rows, Combo(x, c, |rows|), width);
    }
  }

  function InverseRows(e: EchelonForm): seq<Bits> {
    seq(|e.inverse|, i requires 0 <= i => Column(e.inverse, i))
  }

  /** The original rows out of the reduced ones. */
  lemma OriginalRow(original: seq<Bits>, e: EchelonForm, width: nat, i: nat)
    requires Transforms(original, e, width) && i < |original|
    ensures Combo(e.matrix, Column(e.inverse, i), width) == original[i]
  {
    var m := |original|;
    assert e.matrix == MatrixProduct(e.transform, original, width);
    ComboOfProduct(e.transform, original, Column(e.inverse, i), width, m);
    SumUnit(original, m, i, width, m);
  }

  lemma ReductionKeepsSpan(original: seq<Bits>, e: EchelonForm, width: nat)
    requires Transforms(original, e, width)
    ensures SpanWithin(original, e.matrix, width) && SpanWithin(e.matrix, original, width)
  {
    assert e.matrix == MatrixProduct(e.transform, original, width);
    CombinedRowsWithin(e.transform, original, width);
    forall i: nat | i < |original| ensures Combo(e.matrix, InverseRows(e)[i], width) == original[i] {
      OriginalRow(original, e, width, i);
    }
    assert original == MatrixProduct(InverseRows(e), e.matrix, width);
    CombinedRowsWithin(InverseRows(e), e.matrix, width);
  }

  // ----- vectors of a reduced span are determined at the pivots

  lemma {:induction false} ZeroRowsAddNothing(rows: seq<Bits>, c: Bits, width: nat, from: nat, k: nat)
    requires from <= k <= |rows| && Rectangular(rows, width)
    requires forall j :: from <= j < |rows| ==> IsZero(rows[j])
    ensures SelectedSum(rows, c, width, k) == SelectedSum(rows, c, width, from)
  {
    if from < k {
      ZeroRowsAddNothing(rows, c, width, from, k - 1);
      SelectedSumSize(rows, c, width, k - 1);
      Same(rows[k - 1], Zeros(width));
      XorZeros(SelectedSum(rows, c, width, k - 1), width);
    }
  }

  lemma PivotsDetermine(rows: seq<Bits>, pivots: seq<nat>, width: nat, u: Bits, v: Bits)
    requires IsReduced(rows, pivots, width) && InSpan(rows, width, u) && InSpan(rows, width, v)
    requires forall i :: 0 <= i < |pivots| ==> At(u, pivots[i]) == At(v, pivots[i])
    ensures u == v
  {
    var a :| ComboIs(rows, a, width, u);
    var b :| ComboIs(rows, b, width, v);
    forall i: nat | i < |pivots| ensures At(a, i) == At(b, i) {
      PivotCoefficient(rows, pivots, width, a, i);
      PivotCoefficient(rows, pivots, width, b, i);
    }
    ZeroRowsAddNothing(rows, a, width, |pivots|, |rows|);
    ZeroRowsAddNothing(rows, b, width, |pivots|, |rows|);
    SumAgrees(rows, rows, a, b, width, |pivots|);
  }

  lemma DotWitness(a: Bits, b: Bits, k: nat) returns (j: nat)
    requires DotTo(a, b, k)
    ensures j < k && At(a, j) && At(b, j)
  {
    if At(a, k - 1) && At(b, k - 1) {
      j := k - 1;
    } else {
      j := DotWitness(a, b, k - 1);
    }
  }

  /** The pivots of a subspace are pivots of the space. */
  lemma PivotIsPivot(a: seq<Bits>, p: seq<nat>, b: seq<Bits>, q: seq<nat>, width: nat, i: nat) returns (k: nat)
    requires IsReduced(a, p, width) && IsReduced(b, q, width) && SpanWithin(a, b, width) && i < |p|
    ensures k < |q| && q[k] == p[i]
  {
    RowInSpan(a, i, width);
    assert InSpan(b, width, a[i]);
    var c :| ComboIs(b, c, width, a[i]);
    SumAt(b, c, width, |b|, p[i]);
    k := DotWitness(c, Column(b, p[i]), |b|);
    assert At(b[k], p[i]);
    assert k < |q|;
    PivotCoefficient(b, q, width, c, k);
  }

  predicate Increasing(s: seq<nat>) {
    forall i, j :: 0 <= i < j < |s| ==> s[i] < s[j]
  }

  /** An increasing list inside another one of the same length is that list. */
  lemma {:induction false} IncreasingInside(a: seq<nat>, b: seq<nat>)
    requires Increasing(a) && Increasing(b) && forall x :: x in a ==> x in b
    ensures |a| <= |b| && (|a| == |b| ==> a == b)
  {
    if a != [] {
      var last := a[|a| - 1];
      assert last in b;
      var k :| 0 <= k < |b| && b[k] == last;
      var front := a[..|a| - 1];
      forall x | x in front ensures x in b[..k] {
        assert x in a && x < last;
        var j :| 0 <= j < |b| && b[j] == x;
        assert j < k;
        assert b[..k][j] == x;
      }
      IncreasingInside(front, b[..k]);
      if |a| == |b| {
        assert b == b[..k] + [last];
        assert a == front + [last];
      }
    }
  }

  lemma PivotsInside(a: seq<Bits>, p: seq<nat>, b: seq<Bits>, q: seq<nat>, width: nat)
    requires IsReduced(a, p, width) && IsReduced(b, q, width) && SpanWithin(a, b, width)
    ensures |p| <= |q| && (|p| == |q| ==> p == q)
  {
    forall x | x in p ensures x in q {
      var i :| 0 <= i < |p| && p[i] == x;
      var k := PivotIsPivot(a, p, b, q, width, i);
    }
    IncreasingInside(p, q);
  }

  /** The combination of reduced rows with prescribed bits at the pivots. */
  lemma WithPivotBits(rows: seq<Bits>, pivots: seq<nat>, width: nat, v: Bits) returns (w: Bits)
    requires IsReduced(rows, pivots, width)
    ensures InSpan(rows, width, w)
    ensures forall i :: 0 <= i < |pivots| ==> At(w, pivots[i]) == At(v, pivots[i])
  {
    var c := seq(|rows|, i requires 0 <= i => i < |pivots| && At(v, pivots[i]));
    w := Combo(rows, c, width);
    ComboInSpan(rows, c, width);
    forall i: nat | i < |pivots| ensures At(w, pivots[i]) == At(v, pivots[i]) {
      PivotCoefficient(rows, pivots, width, c, i);
    }
  }

  /** A subspace of the same rank is the whole space. */
  lemma SameRankSameSpan(a: seq<Bits>, p: seq<nat>, b: seq<Bits>, q: seq<nat>, width: nat)
    requires IsReduced(a, p, width) && IsReduced(b, q, width) && SpanWithin(a, b, width) && |p| == |q|
    ensures SpanWithin(b, a, width)
  {
    PivotsInside(a, p, b, q, width);
    forall v | InSpan(b, width, v) ensures InSpan(a, width, v) {
      var w := WithPivotBits(a, p, width, v);
      assert InSpan(b, width, w);
      PivotsDetermine(b, q, width, v, w);
    }
  }

  /** Reduced row echelon form is determined by the row space. */
  lemma ReducedFormIsUnique(a: seq<Bits>, p: seq<nat>, b: seq<Bits>, q: seq<nat>, width: nat)
    requires IsReduced(a, p, width) && IsReduced(b, q, width)
    requires SpanWithin(a, b, width) && SpanWithin(b, a, width)
    ensures p == q && a[..|p|] == b[..|q|]
  {
    PivotsInside(a, p, b, q, width);
    PivotsInside(b, q, a, p, width);
    forall i | 0 <= i < |p| ensures a[i] == b[i] {
      RowInSpan(a, i, width);
      RowInSpan(b, i, width);
      assert InSpan(b, width, a[i]);
      PivotsDetermine(b, q, width, a[i], b[i]);
    }
  }

  // ----- solving

  datatype Option<T> = None | Some(value: T)

  /** The coefficients of a combination of reduced rows: reads the pivots one after the other. */
  method SolveReduced(rows: seq<Bits>, pivots: seq<nat>, width: nat, target: Bits) returns (solution: Option<Bits>)
    requires IsReduced(rows, pivots, width) && |target| == width
    ensures solution.Some? ==> ComboIs(rows, solution.value, width, target)
    ensures solution.None? ==> !InSpan(rows, width, target)
  {
    var residual := target;
    var c := Zeros(|rows|);
    SumOfZero(rows, c, width, |rows|);
    XorZeros(target, width);
    for i := 0 to |pivots|
      invariant |c| == |rows| && |residual| == width
      invariant residual == Xor(target, Combo(rows, c, width))
      invariant forall j :: 0 <= j < |pivots| ==> At(residual, pivots[j]) == (j >= i && At(target, pivots[j]))
    {
      if residual[pivots[i]] {
        SelectedSumSize(rows, c, width, |rows|);
        SumXor(rows, c, Unit(|rows|, i), width, |rows|);
        SumUnit(rows, |rows|, i, width, |rows|);
        XorAssoc(target, Combo(rows, c, width), rows[i]);
        residual := Xor(residual, rows[i]);
        c := Xor(c, Unit(|rows|, i));
      }
    }
    SelectedSumSize(rows, c, width, |rows|);
    if IsZero(residual) {
      Same(Combo(rows, c, width), target);
      solution := Some(c);
    } else {
      solution := None;
      if InSpan(rows, width, target) {
        ComboInSpan(rows, c, width);
        PivotsDetermine(rows, pivots, width, target, Combo(rows, c, width));
        XorSelf(target);
      }
    }
  }

  /** The coefficients with respect to the original rows. */
  method TransposeSolve(ghost original: seq<Bits>, e: EchelonForm, width: nat, target: Bits)
    returns (solution: Option<Bits>)
    requires IsEchelon(original, e, width) && |target| == width
    ensures solution.Some? ==> ComboIs(original, solution.value, width, target)
    ensures solution.None? ==> !InSpan(original, width, target)
  {
    solution := SolveReduced(e.matrix, e.pivots, width, target);
    ReductionKeepsSpan(original, e, width);
    if solution.Some? {
      var c := solution.value;
      assert e.matrix == MatrixProduct(e.transform, original, width);
      ComboOfProduct(e.transform, original, c, width, |original|);
      SelectedSumSize(e.transform, c, |original|, |original|);
      solution := Some(SelectedSum(e.transform, c, |e.transform|, |e.transform|));
    }
  }
}
