/**
 * The outcome-complete simulation as a state machine over values: all branches at once. The encoder follows the
 * branch with all random bits zero; `signs` says how the other branches differ, and `outcomeMatrix` and `shift` give
 * every outcome as an affine function of the random bits.
 */
module CompleteModel {
  import opened Bits
  import opened Paulis
  import opened Tableaus
  import opened Measurement
  import opened Gates
  import opened PauliGates
  import opened Circuits
  import opened SpecificModel

  datatype Complete = Complete(
    encoder: Tableau,
    signs: seq<Bits>,
    outcomeMatrix: seq<Bits>,
    shift: seq<bool>,
    introduces: seq<bool>,
    branchBits: nat)

  function InitialComplete(n: nat): Complete {
    Complete(IdentityTableau(n), seq(n, q => []), [], [], [], 0)
  }

  /** The value of a linear function of the random bits. */
  function EvalTo(a: Bits, r: BitSource, k: nat): bool {
    if k == 0 then false else EvalTo(a, r, k - 1) != (At(a, k - 1) && r(k - 1))
  }

  function Eval(a: Bits, r: BitSource): bool {
    EvalTo(a, r, |a|)
  }

  /** The sum of the rows below `k` that `bits` selects. */
  function RowSumTo(rows: seq<Bits>, bits: Bits, k: nat): Bits
    requires k <= |rows|
  {
    if k == 0 then []
    else if At(bits, k - 1) then Xor(RowSumTo(rows, bits, k - 1), rows[k - 1])
    else RowSumTo(rows, bits, k - 1)
  }

  function RowSum(rows: seq<Bits>, bits: Bits): Bits {
    RowSumTo(rows, bits, |rows|)
  }

  /** The sum of the rows listed in `ids` below position `k`. */
  function ListedRowSum(rows: seq<Bits>, ids: seq<nat>, k: nat): Bits
    requires k <= |ids| && forall j :: 0 <= j < |ids| ==> ids[j] < |rows|
  {
    if k == 0 then [] else Xor(ListedRowSum(rows, ids, k - 1), rows[ids[k - 1]])
  }

  /** Adds `indicator` to the sign rows that `bits` selects. */
  function AddToRows(signs: seq<Bits>, bits: Bits, indicator: Bits): seq<Bits> {
    seq(|signs|, q requires 0 <= q < |signs| => if At(bits, q) then Xor(signs[q], indicator) else signs[q])
  }

  function AllocateBranchBit(c: Complete): Complete {
    c.(outcomeMatrix := c.outcomeMatrix + [SetBit([], c.branchBits, true)],
       shift := c.shift + [false],
       introduces := c.introduces + [true],
       branchBits := c.branchBits + 1)
  }

  function MeasureStep'(c: Complete, p: Pauli): Complete
    requires |c.signs| == |c.encoder.x| && TableauOn(c.encoder, |c.encoder.x|)
  {
    var preimage := Preimage(c.encoder, p);
    PreimageOn(c.encoder, p, |c.encoder.x|);
    if IsZero(preimage.x) then
      c.(outcomeMatrix := c.outcomeMatrix + [RowSum(c.signs, preimage.z)],
         shift := c.shift + [preimage.phase == 2],
         introduces := c.introduces + [false])
    else
      var pivot := FirstOne(preimage.x);
      var indicator := SetBit(c.signs[pivot], c.branchBits, true);
      AllocateBranchBit(c).(
        signs := AddToRows(c.signs, preimage.x, indicator),
        encoder := AfterRandomOutcome(c.encoder, p, Unit(|c.encoder.x|, pivot), false))
  }

  function MeasureWithHintStep'(c: Complete, p: Pauli, hint: Pauli): Complete
    requires |c.signs| == |c.encoder.x| && TableauOn(c.encoder, |c.encoder.x|)
  {
    var preimage := Preimage(c.encoder, hint);
    if !IsZero(preimage.x) then MeasureStep'(c, p)
    else
      var after := LeftMulPauliExp(c.encoder, HintExponent(c.encoder, p, hint));
      var indicator := SetBit(RowSum(c.signs, preimage.z), c.branchBits, true);
      AllocateBranchBit(c).(
        signs := AddToRows(c.signs, Preimage(after, hint).x, indicator),
        encoder := after)
  }

  function ConditionalStep(c: Complete, p: Pauli, ids: seq<nat>, parity: bool): Complete
    requires forall j :: 0 <= j < |ids| ==> ids[j] < |c.outcomeMatrix|
  {
    var mask := ListedRowSum(c.outcomeMatrix, ids, |ids|);
    var after := if TotalParity(c.shift, ids) == parity then LeftMulPauli(c.encoder, p) else c.encoder;
    c.(encoder := after, signs := AddToRows(c.signs, Preimage(after, p).x, mask))
  }

  ghost function CompleteStep(c: Complete, i: Instruction, n: nat): Complete
    requires WellFormed(i, n, |c.outcomeMatrix|) && TableauOn(c.encoder, n) && |c.signs| == n
  {
    match i
    case Measure(p, _) => MeasureStep'(c, p)
    case MeasureWithHint(p, hint, _) => MeasureWithHintStep'(c, p, hint)
    case AllocateRandomBit(_) => AllocateBranchBit(c)
    case ConditionalPauli(p, outcomes, parity) => ConditionalStep(c, p, outcomes, parity)
    case Noise(_) => c
    case _ => c.(encoder := ApplyUnitary(c.encoder, i, n, |c.outcomeMatrix|))
  }

  /** No bit at or past `k`. */
  ghost predicate Bounded(a: Bits, k: nat) {
    forall j: nat :: At(a, j) ==> j < k
  }

  ghost predicate CompleteValid(c: Complete, n: nat) {
    && Valid(c.encoder, n)
    && |c.signs| == n
    && |c.outcomeMatrix| == |c.shift| == |c.introduces|
    && c.branchBits == CountTrue(c.introduces)
    && (forall q :: 0 <= q < n ==> Bounded(c.signs[q], c.branchBits))
    && (forall k :: 0 <= k < |c.outcomeMatrix| ==> OutcomeRowValid(c.outcomeMatrix, c.shift, c.introduces, k))
  }

  /**
   * An outcome depends only on branch bits introduced no later than itself, and an outcome that introduces a branch
   * bit is that bit.
   */
  ghost predicate OutcomeRowValid(rows: seq<Bits>, shift: seq<bool>, introduces: seq<bool>, k: nat)
    requires k < |rows| == |shift| == |introduces|
  {
    && Bounded(rows[k], CountTrue(introduces[..k + 1]))
    && (introduces[k] ==> rows[k] == SetBit([], CountTrue(introduces[..k]), true) && !shift[k])
  }

  // ----- linear functions of the random bits

  lemma EvalToStable(a: Bits, r: BitSource, k: nat)
    requires |a| <= k
    ensures EvalTo(a, r, k) == Eval(a, r)
  {
  }

  lemma EvalToXor(a: Bits, b: Bits, r: BitSource, k: nat)
    ensures EvalTo(Xor(a, b), r, k) == (EvalTo(a, r, k) != EvalTo(b, r, k))
  {
  }

  lemma EvalXor(a: Bits, b: Bits, r: BitSource)
    ensures Eval(Xor(a, b), r) == (Eval(a, r) != Eval(b, r))
  {
    var k := Max(|a|, |b|);
    EvalToStable(a, r, k);
    EvalToStable(b, r, k);
    EvalToXor(a, b, r, k);
  }

  lemma EvalToSetBit(a: Bits, j: nat, r: BitSource, k: nat)
    requires !At(a, j)
    ensures EvalTo(SetBit(a, j, true), r, k) == (EvalTo(a, r, k) != (j < k && r(j)))
  {
  }

  lemma EvalSetBit(a: Bits, j: nat, r: BitSource)
    requires !At(a, j)
    ensures Eval(SetBit(a, j, true), r) == (Eval(a, r) != r(j))
  {
    var k := Max(|a|, j + 1);
    EvalToStable(a, r, k);
    EvalToSetBit(a, j, r, k);
  }

  /** The vector of the values of the rows. */
  function Values(rows: seq<Bits>, r: BitSource): Bits {
    seq(|rows|, q requires 0 <= q < |rows| => Eval(rows[q], r))
  }

  lemma RowSumEval(rows: seq<Bits>, bits: Bits, r: BitSource, k: nat)
    requires k <= |rows|
    ensures Eval(RowSumTo(rows, bits, k), r) == DotTo(bits, Values(rows, r), k)
  {
    if k > 0 {
      EvalXor(RowSumTo(rows, bits, k - 1), rows[k - 1], r);
    }
  }

  lemma AddToRowsValues(signs: seq<Bits>, bits: Bits, indicator: Bits, r: BitSource)
    requires |bits| == |signs|
    ensures Values(AddToRows(signs, bits, indicator), r)
         == Xor(Values(signs, r), if Eval(indicator, r) then bits else Zeros(|bits|))
  {
    forall q: nat | q < |signs|
      ensures At(Values(AddToRows(signs, bits, indicator), r), q)
           == (At(Values(signs, r), q) != (Eval(indicator, r) && At(bits, q)))
    {
      EvalXor(signs[q], indicator, r);
    }
    Same(Values(AddToRows(signs, bits, indicator), r),
         Xor(Values(signs, r), if Eval(indicator, r) then bits else Zeros(|bits|)));
  }

  /** A linear function that vanishes on every assignment is zero. */
  lemma EvalZero(a: Bits, j: nat)
    requires j < |a| && a[j]
    ensures Eval(a, k => k == j)
  {
    EvalUnit(a, j, k => k == j, |a|);
  }

  lemma EvalUnit(a: Bits, j: nat, r: BitSource, k: nat)
    requires forall m: nat :: r(m) == (m == j)
    ensures EvalTo(a, r, k) == (j < k && At(a, j))
  {
  }

  lemma EvalOfZero(a: Bits, r: BitSource)
    requires IsZero(a)
    ensures !Eval(a, r)
  {
    EvalToOfZero(a, r, |a|);
  }

  lemma EvalToOfZero(a: Bits, r: BitSource, k: nat)
    requires IsZero(a)
    ensures !EvalTo(a, r, k)
  {
  }

  // ----- every step keeps the state valid

  lemma CountPrefix(a: seq<bool>, k: nat)
    requires k <= |a|
    ensures CountTrue(a[..k]) <= CountTrue(a)
  {
    if k < |a| {
      CountPrefix(a[..|a| - 1], k);
      assert a[..|a| - 1][..k] == a[..k];
    } else {
      assert a[..k] == a;
    }
  }

  lemma OutcomeRowKept(c: Complete, c': Complete, row: Bits, b: bool, m: bool, k: nat)
    requires |c.outcomeMatrix| == |c.shift| == |c.introduces| && k < |c.outcomeMatrix|
    requires OutcomeRowValid(c.outcomeMatrix, c.shift, c.introduces, k)
    requires c'.outcomeMatrix == c.outcomeMatrix + [row] && c'.shift == c.shift + [b]
    requires c'.introduces == c.introduces + [m]
    ensures OutcomeRowValid(c'.outcomeMatrix, c'.shift, c'.introduces, k)
  {
    assert c'.introduces[..k + 1] == c.introduces[..k + 1];
    assert c'.introduces[..k] == c.introduces[..k];
  }

  /** Recording one more outcome keeps every earlier one. */
  lemma RecordKeepsRows(c: Complete, c': Complete, row: Bits, b: bool, m: bool, n: nat)
    requires CompleteValid(c, n)
    requires c'.outcomeMatrix == c.outcomeMatrix + [row] && c'.shift == c.shift + [b]
    requires c'.introduces == c.introduces + [m] && c'.branchBits == c.branchBits + (if m then 1 else 0)
    requires Bounded(row, c'.branchBits) && (m ==> row == SetBit([], c.branchBits, true) && !b)
    ensures |c'.outcomeMatrix| == |c'.shift| == |c'.introduces|
    ensures c'.branchBits == CountTrue(c'.introduces)
    ensures forall k :: 0 <= k < |c'.outcomeMatrix| ==> OutcomeRowValid(c'.outcomeMatrix, c'.shift, c'.introduces, k)
  {
    CountAppend(c.introduces, m);
    var last := |c.introduces|;
    assert c'.introduces[..last] == c.introduces && c'.introduces[..last + 1] == c'.introduces;
    forall k | 0 <= k < |c'.outcomeMatrix|
      ensures OutcomeRowValid(c'.outcomeMatrix, c'.shift, c'.introduces, k)
    {
      if k < last {
        OutcomeRowKept(c, c', row, b, m, k);
      }
    }
  }

  lemma RowSumBounded(rows: seq<Bits>, bits: Bits, k: nat, bound: nat)
    requires k <= |rows| && forall q :: 0 <= q < |rows| ==> Bounded(rows[q], bound)
    ensures Bounded(RowSumTo(rows, bits, k), bound)
  {
  }

  lemma ListedRowSumBounded(c: Complete, ids: seq<nat>, k: nat, n: nat)
    requires CompleteValid(c, n) && k <= |ids| && forall j :: 0 <= j < |ids| ==> ids[j] < |c.outcomeMatrix|
    ensures Bounded(ListedRowSum(c.outcomeMatrix, ids, k), c.branchBits)
  {
    if k > 0 {
      ListedRowSumBounded(c, ids, k - 1, n);
      assert OutcomeRowValid(c.outcomeMatrix, c.shift, c.introduces, ids[k - 1]);
      CountPrefix(c.introduces, ids[k - 1] + 1);
    }
  }

  lemma AddToRowsBounded(signs: seq<Bits>, bits: Bits, indicator: Bits, bound: nat)
    requires Bounded(indicator, bound) && forall q :: 0 <= q < |signs| ==> Bounded(signs[q], bound)
    ensures forall q :: 0 <= q < |signs| ==> Bounded(AddToRows(signs, bits, indicator)[q], bound)
  {
  }

  lemma BoundedMore(signs: seq<Bits>, bound: nat)
    requires forall q :: 0 <= q < |signs| ==> Bounded(signs[q], bound)
    ensures forall q :: 0 <= q < |signs| ==> Bounded(signs[q], bound + 1)
  {
  }

  lemma AllocateValid(c: Complete, n: nat)
    requires CompleteValid(c, n)
    ensures CompleteValid(AllocateBranchBit(c), n)
  {
    BoundedMore(c.signs, c.branchBits);
    RecordKeepsRows(c, AllocateBranchBit(c), SetBit([], c.branchBits, true), false, true, n);
    hide Valid;
  }

  lemma RandomValid(c: Complete, p: Pauli, v: Bits, bits: Bits, row: Bits, n: nat)
    requires CompleteValid(c, n) && On(p, n) && IsOrderTwo(p) && |v| == n
    requires Dot(Preimage(c.encoder, p).x, v) && Bounded(row, c.branchBits)
    ensures CompleteValid(AllocateBranchBit(c).(
        signs := AddToRows(c.signs, bits, SetBit(row, c.branchBits, true)),
        encoder := AfterRandomOutcome(c.encoder, p, v, false)), n)
  {
    hide Valid, Preimage, AfterRandomOutcome, Dot;
    AllocateValid(c, n);
    AfterRandomOutcomePreimage(c.encoder, p, v, false, n);
    BoundedMore(c.signs, c.branchBits);
    AddToRowsBounded(c.signs, bits, SetBit(row, c.branchBits, true), c.branchBits + 1);
  }

  lemma MeasureValid(c: Complete, p: Pauli, n: nat)
    requires CompleteValid(c, n) && On(p, n) && IsOrderTwo(p)
    ensures TableauOn(c.encoder, n) && |c.encoder.x| == n && CompleteValid(MeasureStep'(c, p), n)
  {
    ValidOn(c.encoder, n);
    var pre := Preimage(c.encoder, p);
    if IsZero(pre.x) {
      RowSumBounded(c.signs, pre.z, n, c.branchBits);
      RecordKeepsRows(c, MeasureStep'(c, p), RowSum(c.signs, pre.z), pre.phase == 2, false, n);
    } else {
      PivotReplaces(c.encoder, p, n);
      RandomValid(c, p, Unit(n, FirstOne(pre.x)), pre.x, c.signs[FirstOne(pre.x)], n);
    }
    hide Valid, Preimage, AfterRandomOutcome, Dot;
  }

  /** After measuring with a true hint, the preimage of the hint has the X part of the measured observable. */
  lemma HintPreimageAfter(t: Tableau, p: Pauli, hint: Pauli, n: nat)
    requires Valid(t, n) && On(p, n) && IsOrderTwo(p) && On(hint, n) && Anti(p, hint)
    requires IsZero(Preimage(t, hint).x)
    ensures LeftMulPauliExp(t, HintExponent(t, p, hint)) == AfterRandomOutcome(t, p, Preimage(t, hint).z, false)
    ensures Preimage(LeftMulPauliExp(t, HintExponent(t, p, hint)), hint).x == Preimage(t, p).x
  {
    hide Preimage, AfterRandomOutcome, HintExponent, LeftMulPauliExp, Anti, Dot, Valid;
    var h := Preimage(t, hint);
    ValidOn(t, n);
    HintIsUpdate(t, p, hint, false, n);
    HintReplaces(t, p, hint, n);
    AfterRandomOutcomePreimage(t, p, h.z, false, n);
    FactorProperties(t, p, h.z, n);
    PreimageOn(t, hint, n);
    PreimageOn(t, p, n);
    AntiSym(p, hint);
    DotOfZero(h.x, h.z);
    assert Anti(h, MeasurementFactor(t, p, h.z)) == (Anti(hint, p) != Dot(h.x, h.z));
    Same(h.x, Zeros(n));
    XorZeros(Preimage(t, p).x, n);
  }

  lemma HintValid(c: Complete, p: Pauli, hint: Pauli, n: nat)
    requires CompleteValid(c, n) && On(p, n) && IsOrderTwo(p) && On(hint, n) && Anti(p, hint)
    ensures TableauOn(c.encoder, n) && |c.encoder.x| == n && CompleteValid(MeasureWithHintStep'(c, p, hint), n)
  {
    ValidOn(c.encoder, n);
    MeasureValid(c, p, n);
    var h := Preimage(c.encoder, hint);
    if IsZero(h.x) {
      HintPreimageAfter(c.encoder, p, hint, n);
      HintReplaces(c.encoder, p, hint, n);
      RowSumBounded(c.signs, h.z, n, c.branchBits);
      RandomValid(c, p, h.z, Preimage(c.encoder, p).x, RowSum(c.signs, h.z), n);
    }
    hide Valid, Preimage, AfterRandomOutcome, Dot, MeasureStep', LeftMulPauliExp, HintExponent, Anti, On, IsOrderTwo;
  }

  lemma ConditionalValid(c: Complete, p: Pauli, ids: seq<nat>, parity: bool, n: nat)
    requires CompleteValid(c, n) && On(p, n) && forall j :: 0 <= j < |ids| ==> ids[j] < |c.outcomeMatrix|
    ensures CompleteValid(ConditionalStep(c, p, ids, parity), n)
  {
    hide Valid, Preimage, LeftMulPauli, OutcomeRowValid;
    StepPauli(c.encoder, p, n);
    ListedRowSumBounded(c, ids, |ids|, n);
    var after := ConditionalStep(c, p, ids, parity).encoder;
    AddToRowsBounded(c.signs, Preimage(after, p).x, ListedRowSum(c.outcomeMatrix, ids, |ids|), c.branchBits);
  }

  /** Every instruction keeps the state valid, so each outcome depends only on earlier branch bits. */
  lemma CompleteStepValid(c: Complete, i: Instruction, n: nat)
    requires CompleteValid(c, n) && WellFormed(i, n, |c.outcomeMatrix|)
    ensures TableauOn(c.encoder, n)
    ensures CompleteValid(CompleteStep(c, i, n), n)
    ensures |CompleteStep(c, i, n).outcomeMatrix| == OutcomesAfter(i, |c.outcomeMatrix|)
  {
    ValidOn(c.encoder, n);
    match i
    case Measure(p, _) => MeasureValid(c, p, n);
    case MeasureWithHint(p, hint, _) => HintValid(c, p, hint, n);
    case AllocateRandomBit(_) => AllocateValid(c, n);
    case ConditionalPauli(p, outcomes, parity) => ConditionalValid(c, p, outcomes, parity, n);
    case Noise(_) =>
    case _ => UnitaryStep(c.encoder, i, n, |c.outcomeMatrix|);
  }

  ghost function RunComplete(circuit: seq<Instruction>, n: nat): (c: Complete)
    requires WellFormedCircuit(circuit, n)
    ensures CompleteValid(c, n) && |c.outcomeMatrix| == OutcomeCount(circuit)
  {
    if circuit == [] then
      IdentityTableauValid(n);
      InitialComplete(n)
    else
      WellFormedPrefix(circuit, n);
      var before := RunComplete(circuit[..|circuit| - 1], n);
      CompleteStepValid(before, circuit[|circuit| - 1], n);
      CompleteStep(before, circuit[|circuit| - 1], n)
  }
}
