/** Every branch of the outcome-complete simulation is the outcome-specific simulation of that branch. */
module Branches {
  import opened Bits
  import opened Paulis
  import opened Tableaus
  import opened Measurement
  import opened Gates
  import opened PauliGates
  import opened Circuits
  import opened SpecificModel
  import opened CompleteModel

  // ----- changing the signs of an encoder by a Pauli on the preimage side

  function TwistRows(rows: seq<Pauli>, d: Projective): seq<Pauli> {
    seq(|rows|, q requires 0 <= q < |rows| => Sign(AntiBits(rows[q].bits, d), rows[q]))
  }

  /** The encoder followed, on the preimage side, by conjugation with `d`. */
  function Twist(t: Tableau, d: Projective): Tableau {
    Tableau(TwistRows(t.x, d), TwistRows(t.z, d))
  }

  lemma {:induction false} TwistProduct(rows: seq<Pauli>, d: Projective, bits: Bits, k: nat, n: nat)
    requires k <= |rows|
    ensures Product(TwistRows(rows, d), bits, k, n)
         == Sign(AntiBits(Product(rows, bits, k, n).bits, d), Product(rows, bits, k, n))
  {
    if k == 0 {
      AntiIdentity(Pauli(d, 0), n);
      SignFalse(Identity(n));
    } else {
      TwistProduct(rows, d, bits, k - 1, n);
      var before, row := Product(rows, bits, k - 1, n), rows[k - 1];
      SignMul(AntiBits(before.bits, d), AntiBits(row.bits, d), before, row);
      AntiBitsSum(before.bits, row.bits, d);
      MulBits(before, row);
      assert TwistRows(rows, d)[k - 1] == Sign(AntiBits(row.bits, d), row);
      hide AntiBits, Mul, Sign, Sum, TwistRows;
    }
  }

  /** Twisting changes the preimage of every operator by the sign of its commutation with `d`. */
  lemma TwistPreimage(t: Tableau, d: Projective, p: Pauli)
    ensures Preimage(Twist(t, d), p) == Sign(AntiBits(Preimage(t, p).bits, d), Preimage(t, p))
  {
    var n := |t.x|;
    TwistProduct(t.x, d, p.x, |t.x|, n);
    TwistProduct(t.z, d, p.z, |t.z|, n);
    var a, b := Product(t.x, p.x, |t.x|, n), Product(t.z, p.z, |t.z|, n);
    SignMul(AntiBits(a.bits, d), AntiBits(b.bits, d), a, b);
    AntiBitsSum(a.bits, b.bits, d);
  }

  lemma TwistValid(t: Tableau, d: Projective, n: nat)
    requires Valid(t, n)
    ensures Valid(Twist(t, d), n)
  {
    forall b, p, q ensures Anti(Sign(b, p), q) == Anti(p, q) && Anti(q, Sign(b, p)) == Anti(q, p) {
    }
    forall b, p ensures IsOrderTwo(Sign(b, p)) == IsOrderTwo(p) && (On(p, n) ==> On(Sign(b, p), n)) {
    }
    hide Anti, On, IsOrderTwo, Sign;
  }

  lemma TwistTwice(t: Tableau, d: Projective, e: Projective)
    ensures Twist(Twist(t, d), e) == Twist(t, Sum(d, e))
  {
    forall r: Projective ensures AntiBits(r, Sum(d, e)) == (AntiBits(r, d) != AntiBits(r, e)) {
      AntiBitsSum(d, e, r);
    }
    hide AntiBits;
  }

  /** Gates act the same way on every branch. */
  lemma TwistCompose(t: Tableau, g: Tableau, d: Projective)
    ensures Compose(Twist(t, d), g) == Twist(Compose(t, g), d)
  {
    forall p: Pauli ensures Preimage(Twist(t, d), p) == Sign(AntiBits(Preimage(t, p).bits, d), Preimage(t, p)) {
      TwistPreimage(t, d, p);
    }
    hide Preimage, AntiBits, Twist;
    assert forall rows: seq<Pauli> :: |TwistRows(rows, d)| == |rows|;
    TwistUnfold(t, d);
    TwistUnfold(Compose(t, g), d);
  }

  lemma TwistUnfold(t: Tableau, d: Projective)
    ensures Twist(t, d) == Tableau(TwistRows(t.x, d), TwistRows(t.z, d))
  {
  }

  /** A Pauli correction is a twist by its preimage. */
  lemma PauliIsTwist(t: Tableau, p: Pauli, n: nat)
    requires Valid(t, n) && On(p, n)
    ensures LeftMulPauli(t, p) == Twist(t, Preimage(t, p).bits)
  {
    Sizes(t, n);
    forall q: nat | q < n
      ensures AntiBits(t.x[q].bits, Preimage(t, p).bits) == At(p.z, q)
      ensures AntiBits(t.z[q].bits, Preimage(t, p).bits) == At(p.x, q)
    {
      AntiUnits(p, n, q);
      UnitsOn(n, q);
      PreimageGenerator(t, q, n);
      PreimageAnti(t, PauliX(n, q), p, n);
      PreimageAnti(t, PauliZ(n, q), p, n);
    }
    hide Preimage, AntiBits, Sign;
  }

  // ----- one measurement in two branches

  /** How the twist changes when outcome `b` is measured in a branch and outcome zero in the reference branch. */
  function NextTwist(d: Projective, f: Projective, v: Bits, b: bool): Projective {
    var e := if b then Sum(d, Projective(Zeros(|v|), v)) else d;
    if Dot(d.x, v) != b then Sum(e, f) else e
  }

  lemma AntiNextTwist(r: Projective, d: Projective, f: Projective, v: Bits, b: bool)
    ensures AntiBits(r, NextTwist(d, f, v, b))
         == ((AntiBits(r, d) != (b && Dot(r.x, v))) != ((Dot(d.x, v) != b) && AntiBits(r, f)))
  {
    var z := Projective(Zeros(|v|), v);
    AntiBitsSum(d, z, r);
    AntiBitsSum(if b then Sum(d, z) else d, f, r);
    DotZero(r.z, Zeros(|v|));
  }

  /** One row, measured in the reference branch and then twisted, or twisted and then measured. */
  lemma TwistRowUpdate(r: Pauli, r0: Pauli, d: Projective, v: Bits, b: bool, e: bool)
    requires Dot(r0.x, v) && |r0.x| == |v|
    requires e == Anti(r, Mul(r0, ZPower(v)))
    ensures var f := Mul(r0, ZPower(v));
      var s := AntiBits(r0.bits, d);
      var after := UpdateRow(r, f, e, v, false);
      UpdateRow(Sign(AntiBits(r.bits, d), r), Mul(Sign(s, r0), ZPower(v)), e, v, b)
      == Sign(AntiBits(after.bits, NextTwist(d, f.bits, v, b)), after)
  {
    var f := Mul(r0, ZPower(v));
    var s, a := AntiBits(r0.bits, d), AntiBits(r.bits, d);
    RotateMul(Half(s), r0, ZPower(v));
    TimesZPower(r0, v);
    AntiBitsSum(r0.bits, ZPower(v).bits, d);
    DotZero(d.z, Zeros(|v|));
    DotSym(v, d.x);
    assert AntiBits(f.bits, d) == (s != Dot(d.x, v));
    AntiNextTwist(r.bits, d, f.bits, v, b);
    AntiNextTwist(f.bits, d, f.bits, v, b);
    AntiSelf(f);
    AntiBitsSum(r.bits, f.bits, NextTwist(d, f.bits, v, b));
    SignMul(a, s, r, f);
    SignFalse(r);
    SignFalse(Mul(r, f));
    hide NextTwist, AntiBits, Dot, ZPower, Half;
  }

  /** Measuring every row of a twisted encoder gives the measured reference encoder, twisted again. */
  lemma TwistMeasurement(t: Tableau, p: Pauli, v: Bits, b: bool, d: Projective, n: nat)
    requires Valid(t, n) && On(p, n) && |v| == n && IsOrderTwo(p)
    requires Dot(Preimage(t, p).x, v)
    ensures AfterRandomOutcome(Twist(t, d), p, v, b)
         == Twist(AfterRandomOutcome(t, p, v, false), NextTwist(d, MeasurementFactor(t, p, v).bits, v, b))
  {
    Sizes(t, n);
    forall q: nat | q < n
      ensures AfterRandomOutcome(Twist(t, d), p, v, b).x[q]
           == Twist(AfterRandomOutcome(t, p, v, false), NextTwist(d, MeasurementFactor(t, p, v).bits, v, b)).x[q]
      ensures AfterRandomOutcome(Twist(t, d), p, v, b).z[q]
           == Twist(AfterRandomOutcome(t, p, v, false), NextTwist(d, MeasurementFactor(t, p, v).bits, v, b)).z[q]
    {
      TwistMeasurementRow(t, p, v, b, d, q, n);
    }
    hide Preimage, Valid, UpdateRow, NextTwist, AntiBits, Dot, Mul;
  }

  lemma SignedRow(t: Tableau, d: Projective, q: nat)
    requires q < |t.x| == |t.z|
    ensures |Twist(t, d).x| == |Twist(t, d).z| == |t.x|
    ensures Twist(t, d).x[q] == Sign(AntiBits(t.x[q].bits, d), t.x[q]) && Twist(t, d).x[q].x == t.x[q].x
    ensures Twist(t, d).z[q] == Sign(AntiBits(t.z[q].bits, d), t.z[q]) && Twist(t, d).z[q].x == t.z[q].x
  {
  }

  lemma MeasuredRow(t: Tableau, p: Pauli, v: Bits, b: bool, q: nat)
    requires q < |t.x| == |t.z|
    ensures var after, f := AfterRandomOutcome(t, p, v, b), Mul(Preimage(t, p), ZPower(v));
      && |after.x| == |after.z| == |t.x| && f == MeasurementFactor(t, p, v)
      && after.x[q] == UpdateRow(t.x[q], f, At(p.z, q) != Dot(t.x[q].x, v), v, b)
      && after.z[q] == UpdateRow(t.z[q], f, At(p.x, q) != Dot(t.z[q].x, v), v, b)
  {
  }

  lemma TwistMeasurementRow(t: Tableau, p: Pauli, v: Bits, b: bool, d: Projective, q: nat, n: nat)
    requires Valid(t, n) && On(p, n) && |v| == n && IsOrderTwo(p) && q < n
    requires Dot(Preimage(t, p).x, v)
    ensures |t.x| == |t.z| == n
    ensures AfterRandomOutcome(Twist(t, d), p, v, b).x[q]
         == Twist(AfterRandomOutcome(t, p, v, false), NextTwist(d, MeasurementFactor(t, p, v).bits, v, b)).x[q]
    ensures AfterRandomOutcome(Twist(t, d), p, v, b).z[q]
         == Twist(AfterRandomOutcome(t, p, v, false), NextTwist(d, MeasurementFactor(t, p, v).bits, v, b)).z[q]
  {
    PreimageOn(t, p, n);
    TwistPreimage(t, d, p);
    FactorProperties(t, p, v, n);
    UnitsOn(n, q);
    AntiUnits(p, n, q);
    PreimageGenerator(t, q, n);
    hide Preimage, Valid, UpdateRow, NextTwist, AntiBits, Dot, Mul, On, PauliX, PauliZ, Anti, IsOrderTwo, Sign, At;
    assert Anti(Preimage(t, PauliX(n, q)), MeasurementFactor(t, p, v))
        == (Anti(PauliX(n, q), p) != Dot(Preimage(t, PauliX(n, q)).x, v));
    assert Anti(Preimage(t, PauliZ(n, q)), MeasurementFactor(t, p, v))
        == (Anti(PauliZ(n, q), p) != Dot(Preimage(t, PauliZ(n, q)).x, v));
    SignedRow(t, d, q);
    MeasuredRow(t, p, v, false, q);
    MeasuredRow(Twist(t, d), p, v, b, q);
    SignedRow(AfterRandomOutcome(t, p, v, false), NextTwist(d, MeasurementFactor(t, p, v).bits, v, b), q);
    hide Twist, AfterRandomOutcome, MeasurementFactor;
    TwistRowUpdate(t.x[q], Preimage(t, p), d, v, b, At(p.z, q) != Dot(t.x[q].x, v));
    TwistRowUpdate(t.z[q], Preimage(t, p), d, v, b, At(p.x, q) != Dot(t.z[q].x, v));
  }

  // ----- the state of one branch

  /** The Pauli that separates a branch from the reference branch; the simulator stores only its X part. */
  function BranchTwist(c: Complete, r: BitSource, z: Bits): Projective {
    Projective(Values(c.signs, r), z)
  }

  function BranchOutcomes(c: Complete, r: BitSource): seq<bool>
    requires |c.shift| == |c.outcomeMatrix|
  {
    seq(|c.shift|, k requires 0 <= k < |c.shift| => c.shift[k] != Eval(c.outcomeMatrix[k], r))
  }

  /** The branch of a complete state selected by the bits `r`. */
  function Branch(c: Complete, r: BitSource, z: Bits): Specific
    requires |c.shift| == |c.outcomeMatrix|
  {
    Specific(Twist(c.encoder, BranchTwist(c, r, z)), BranchOutcomes(c, r), c.introduces, c.branchBits)
  }

  /** The stored signs have no bit yet for the next branch bit, and the branch sizes agree. */
  lemma BranchSizes(c: Complete, n: nat, r: BitSource, z: Bits)
    requires CompleteValid(c, n)
    ensures TableauOn(c.encoder, n) && Valid(c.encoder, n) && |c.encoder.x| == |c.encoder.z| == n
    ensures |BranchTwist(c, r, z).x| == n
    ensures |Branch(c, r, z).outcomes| == |c.outcomeMatrix|
    ensures SpecificValid(Branch(c, r, z), n)
  {
    TwistValid(c.encoder, BranchTwist(c, r, z), n);
  }

  // ----- deterministic measurements

  /** A deterministic outcome in a branch is the reference outcome shifted by the signs of its Z factors. */
  lemma DeterministicOutcome(c: Complete, p: Pauli, n: nat, r: BitSource, z: Bits)
    requires CompleteValid(c, n) && On(p, n) && IsOrderTwo(p) && |z| == n
    requires IsZero(Preimage(c.encoder, p).x)
    ensures (Preimage(Branch(c, r, z).encoder, p).phase == 2)
         == ((Preimage(c.encoder, p).phase == 2) != Eval(RowSum(c.signs, Preimage(c.encoder, p).z), r))
  {
    var pre := Preimage(c.encoder, p);
    var d := BranchTwist(c, r, z);
    BranchSizes(c, n, r, z);
    PreimageOn(c.encoder, p, n);
    TwistPreimage(c.encoder, d, p);
    UpToSign(c.encoder, p, n);
    RowSumEval(c.signs, pre.z, r, n);
    DotToStable(pre.z, d.x, n);
    DotZero(d.z, pre.x);
    hide Preimage, Valid, Twist, Eval, RowSumTo, DotTo;
  }

  lemma SameUpToSign(t: Tableau, d: Projective, p: Pauli)
    ensures Preimage(Twist(t, d), p).bits == Preimage(t, p).bits
  {
    TwistPreimage(t, d, p);
    hide Preimage;
  }

  lemma BranchOutcomesAppend(c: Complete, c': Complete, r: BitSource, row: Bits, b: bool)
    requires |c.shift| == |c.outcomeMatrix|
    requires c'.outcomeMatrix == c.outcomeMatrix + [row] && c'.shift == c.shift + [b]
    ensures BranchOutcomes(c', r) == BranchOutcomes(c, r) + [b != Eval(row, r)]
  {
    hide Eval;
  }

  lemma NewBitValue(j: nat, r: BitSource)
    ensures Eval(SetBit([], j, true), r) == r(j)
  {
    EvalSetBit([], j, r);
    EvalOfZero([], r);
  }

  // ----- random measurements

  /** The update of the sign rows is the X part of the new twist. */
  lemma SignsUpdate(c: Complete, bits: Bits, row: Bits, v: Bits, f: Projective, n: nat, r: BitSource, z: Bits)
    requires CompleteValid(c, n) && |bits| == n && |v| == n && |z| == n
    requires Bounded(row, c.branchBits) && Eval(row, r) == Dot(BranchTwist(c, r, z).x, v)
    requires f.x == bits
    ensures Values(AddToRows(c.signs, bits, SetBit(row, c.branchBits, true)), r)
         == NextTwist(BranchTwist(c, r, z), f, v, r(c.branchBits)).x
  {
    EvalSetBit(row, c.branchBits, r);
    AddToRowsValues(c.signs, bits, SetBit(row, c.branchBits, true), r);
    XorZeros(Values(c.signs, r), n);
    XorZeros(bits, n);
    hide Dot, Eval, AddToRows, Values, CompleteValid;
  }

  /** A random measurement with any choice of replaced stabilizer Z^v, in the branch and in the complete state. */
  lemma RandomBranch(c: Complete, p: Pauli, v: Bits, row: Bits, n: nat, r: BitSource, z: Bits) returns (z': Bits)
    requires CompleteValid(c, n) && On(p, n) && IsOrderTwo(p) && |v| == n && |z| == n
    requires Dot(Preimage(c.encoder, p).x, v)
    requires Bounded(row, c.branchBits) && Eval(row, r) == Dot(BranchTwist(c, r, z).x, v)
    ensures |z'| == n
    ensures var s := Branch(c, r, z);
      var indicator := SetBit(row, c.branchBits, true);
      var c' := AllocateBranchBit(c).(
        signs := AddToRows(c.signs, Preimage(c.encoder, p).x, indicator),
        encoder := AfterRandomOutcome(c.encoder, p, v, false));
      Branch(c', r, z') == RecordRandom(s, r(c.branchBits)).(
        encoder := AfterRandomOutcome(s.encoder, p, v, r(c.branchBits)))
  {
    var d := BranchTwist(c, r, z);
    var f := MeasurementFactor(c.encoder, p, v).bits;
    BranchSizes(c, n, r, z);
    PreimageOn(c.encoder, p, n);
    FactorProperties(c.encoder, p, v, n);
    TwistMeasurement(c.encoder, p, v, r(c.branchBits), d, n);
    SignsUpdate(c, Preimage(c.encoder, p).x, row, v, f, n, r, z);
    NewBitValue(c.branchBits, r);
    z' := NextTwist(d, f, v, r(c.branchBits)).z;
    var c' := AllocateBranchBit(c).(
        signs := AddToRows(c.signs, Preimage(c.encoder, p).x, SetBit(row, c.branchBits, true)),
        encoder := AfterRandomOutcome(c.encoder, p, v, false));
    BranchOutcomesAppend(c, c', r, SetBit([], c.branchBits, true), false);
    hide Preimage, Valid, AfterRandomOutcome, Twist, NextTwist, Values, AddToRows, Eval, Dot, CompleteValid;
  }

  lemma MeasureBranch(c: Complete, p: Pauli, n: nat, r: BitSource, z: Bits) returns (z': Bits)
    requires CompleteValid(c, n) && On(p, n) && IsOrderTwo(p) && |z| == n
    ensures |z'| == n && TableauOn(c.encoder, n) && |c.encoder.x| == n
    ensures CompleteValid(MeasureStep'(c, p), n)
    ensures Branch(MeasureStep'(c, p), r, z') == MeasureStep(Branch(c, r, z), p, r)
  {
    hide Preimage, Valid, AfterRandomOutcome, Twist, Eval, Dot, IsOrderTwo, Values;
    var d := BranchTwist(c, r, z);
    var pre := Preimage(c.encoder, p);
    MeasureValid(c, p, n);
    BranchSizes(c, n, r, z);
    SameUpToSign(c.encoder, d, p);
    z' := z;
    if IsZero(pre.x) {
      DeterministicOutcome(c, p, n, r, z);
      BranchOutcomesAppend(c, MeasureStep'(c, p), r, RowSum(c.signs, pre.z), pre.phase == 2);
    } else {
      var pivot := FirstOne(pre.x);
      PivotReplaces(c.encoder, p, n);
      ValuesAt(c.signs, r, pivot);
      DotUnit(d.x, n, pivot);
      z' := RandomBranch(c, p, Unit(n, pivot), c.signs[pivot], n, r, z);
      TwistSize(c.encoder, d);
    }
  }

  lemma ValuesAt(rows: seq<Bits>, r: BitSource, q: nat)
    requires q < |rows|
    ensures At(Values(rows, r), q) == Eval(rows[q], r)
  {
  }

  lemma TwistSize(t: Tableau, d: Projective)
    ensures |Twist(t, d).x| == |t.x| && |Twist(t, d).z| == |t.z|
  {
  }

  lemma HintBranch(c: Complete, p: Pauli, hint: Pauli, n: nat, r: BitSource, z: Bits) returns (z': Bits)
    requires CompleteValid(c, n) && On(p, n) && IsOrderTwo(p) && |z| == n && On(hint, n) && Anti(p, hint)
    ensures |z'| == n && TableauOn(c.encoder, n) && |c.encoder.x| == n
    ensures Branch(MeasureWithHintStep'(c, p, hint), r, z') == MeasureWithHintStep(Branch(c, r, z), p, hint, r)
  {
    hide Preimage, Valid, AfterRandomOutcome, Twist, Eval, Dot, IsOrderTwo, Values, HintUpdate,
         LeftMulPauliExp, HintExponent, MeasureStep, MeasureStep', Anti, On;
    var d := BranchTwist(c, r, z);
    var h := Preimage(c.encoder, hint);
    HintValid(c, p, hint, n);
    BranchSizes(c, n, r, z);
    SameUpToSign(c.encoder, d, hint);
    if !IsZero(h.x) {
      z' := MeasureBranch(c, p, n, r, z);
    } else {
      HintReplaces(c.encoder, p, hint, n);
      HintPreimageAfter(c.encoder, p, hint, n);
      TwistValid(c.encoder, d, n);
      HintIsUpdate(Twist(c.encoder, d), p, hint, r(c.branchBits), n);
      RowSumBounded(c.signs, h.z, n, c.branchBits);
      RowSumEval(c.signs, h.z, r, n);
      DotToStable(h.z, d.x, n);
      DotSym(h.z, d.x);
      z' := RandomBranch(c, p, h.z, RowSum(c.signs, h.z), n, r, z);
    }
  }

  // ----- conditional corrections

  lemma ListedRowSumEval(c: Complete, ids: seq<nat>, k: nat, r: BitSource)
    requires |c.shift| == |c.outcomeMatrix|
    requires k <= |ids| && forall j :: 0 <= j < |ids| ==> ids[j] < |c.outcomeMatrix|
    ensures ParityTo(BranchOutcomes(c, r), ids, k)
         == (ParityTo(c.shift, ids, k) != Eval(ListedRowSum(c.outcomeMatrix, ids, k), r))
  {
    if k == 0 {
      EvalOfZero([], r);
    } else {
      ListedRowSumEval(c, ids, k - 1, r);
      EvalXor(ListedRowSum(c.outcomeMatrix, ids, k - 1), c.outcomeMatrix[ids[k - 1]], r);
    }
    hide Eval;
  }

  lemma SumCancel(d: Projective, e: Projective, n: nat)
    requires ProjectiveOn(d, n) && ProjectiveOn(e, n)
    ensures Sum(e, Sum(d, e)) == d
  {
    XorComm(d.x, e.x);
    XorComm(d.z, e.z);
    XorAssoc(e.x, e.x, d.x);
    XorAssoc(e.z, e.z, d.z);
    XorSelf(e.x);
    XorSelf(e.z);
    XorZeros(d.x, n);
    XorZeros(d.z, n);
  }

  lemma ConditionalBranch(c: Complete, p: Pauli, ids: seq<nat>, parity: bool, n: nat, r: BitSource, z: Bits)
    returns (z': Bits)
    requires CompleteValid(c, n) && On(p, n) && |z| == n
    requires forall j :: 0 <= j < |ids| ==> ids[j] < |c.outcomeMatrix|
    ensures |z'| == n
    ensures var s := Branch(c, r, z);
      Branch(ConditionalStep(c, p, ids, parity), r, z')
      == if TotalParity(s.outcomes, ids) == parity then s.(encoder := LeftMulPauli(s.encoder, p)) else s
  {
    hide Preimage, Valid, Twist, Eval, LeftMulPauli, Values, AddToRows, Sum, ListedRowSum, ParityTo;
    var d := BranchTwist(c, r, z);
    var mask := ListedRowSum(c.outcomeMatrix, ids, |ids|);
    var c' := ConditionalStep(c, p, ids, parity);
    var e := Preimage(c.encoder, p).bits;
    BranchSizes(c, n, r, z);
    PreimageOn(c.encoder, p, n);
    ListedRowSumEval(c, ids, |ids|, r);
    PauliIsTwist(c.encoder, p, n);
    SameUpToSign(c.encoder, e, p);
    AddToRowsValues(c.signs, e.x, mask, r);
    TwistValid(c.encoder, d, n);
    PauliIsTwist(Twist(c.encoder, d), p, n);
    SameUpToSign(c.encoder, d, p);
    TwistTwice(c.encoder, d, e);
    TwistTwice(c.encoder, e, d);
    TwistTwice(c.encoder, e, Sum(d, e));
    SumCancel(d, e, n);
    SumComm(d, e);
    XorZeros(d.x, n);
    assert BranchOutcomes(c', r) == BranchOutcomes(c, r);
    if Eval(mask, r) {
      z' := Xor(z, e.z);
      SumUnfold(d, e);
    } else {
      z' := z;
    }
  }

  lemma SumUnfold(d: Projective, e: Projective)
    ensures Sum(d, e) == Projective(Xor(d.x, e.x), Xor(d.z, e.z))
  {
  }

  // ----- whole runs

  /** One instruction on the complete state is that instruction on every branch. */
  lemma BranchStep(c: Complete, i: Instruction, n: nat, r: BitSource, z: Bits) returns (z': Bits)
    requires CompleteValid(c, n) && WellFormed(i, n, |c.outcomeMatrix|) && |z| == n
    ensures |z'| == n
    ensures TableauOn(c.encoder, n) && |Branch(c, r, z).outcomes| == |c.outcomeMatrix|
    ensures SpecificValid(Branch(c, r, z), n) && |Branch(c, r, z).encoder.x| == |Branch(c, r, z).encoder.z| == n
    ensures CompleteValid(CompleteStep(c, i, n), n)
    ensures Branch(CompleteStep(c, i, n), r, z') == SpecificStep(Branch(c, r, z), i, n, r)
  {
    BranchSizes(c, n, r, z);
    CompleteStepValid(c, i, n);
    TwistSize(c.encoder, BranchTwist(c, r, z));
    hide Valid, Twist, CompleteValid, SpecificValid, BranchTwist, MeasureStep, MeasureStep', MeasureWithHintStep,
         MeasureWithHintStep', ConditionalStep, LeftMulPauli;
    z' := z;
    match i
    case Measure(p, _) => z' := MeasureBranch(c, p, n, r, z);
    case MeasureWithHint(p, hint, _) => z' := HintBranch(c, p, hint, n, r, z);
    case AllocateRandomBit(_) => AllocateBranch(c, r, z);
    case ConditionalPauli(p, outcomes, parity) => z' := ConditionalBranch(c, p, outcomes, parity, n, r, z);
    case Noise(_) =>
    case _ => UnitaryBranch(c, i, n, r, z);
  }

  lemma AllocateBranch(c: Complete, r: BitSource, z: Bits)
    requires |c.shift| == |c.outcomeMatrix|
    ensures Branch(AllocateBranchBit(c), r, z) == RecordRandom(Branch(c, r, z), r(c.branchBits))
  {
    BranchOutcomesAppend(c, AllocateBranchBit(c), r, SetBit([], c.branchBits, true), false);
    NewBitValue(c.branchBits, r);
    hide Eval, Twist;
  }

  lemma UnitaryBranch(c: Complete, i: Instruction, n: nat, r: BitSource, z: Bits)
    requires CompleteValid(c, n) && IsUnitary(i) && WellFormed(i, n, |c.outcomeMatrix|)
    ensures |c.encoder.x| == |c.encoder.z| == n && |Branch(c, r, z).outcomes| == |c.outcomeMatrix|
    ensures |Branch(c, r, z).encoder.x| == |Branch(c, r, z).encoder.z| == n
    ensures var c' := c.(encoder := ApplyUnitary(c.encoder, i, n, |c.outcomeMatrix|));
      var s := Branch(c, r, z);
      Branch(c', r, z) == s.(encoder := ApplyUnitary(s.encoder, i, n, |s.outcomes|))
  {
    var d := BranchTwist(c, r, z);
    BranchSizes(c, n, r, z);
    TwistSize(c.encoder, d);
    hide Valid, Twist, CompleteValid, SpecificValid, ApplyUnitary, Compose, GateOf, WellFormed;
    TwistValid(c.encoder, d, n);
    UnitaryStep(c.encoder, i, n, |c.outcomeMatrix|);
    UnitaryStep(Twist(c.encoder, d), i, n, |c.outcomeMatrix|);
    TwistCompose(c.encoder, GateOf(i, n, |c.outcomeMatrix|), d);
  }

  lemma InitialBranch(n: nat, r: BitSource)
    ensures |InitialComplete(n).shift| == |InitialComplete(n).outcomeMatrix|
    ensures Branch(InitialComplete(n), r, Zeros(n)) == InitialSpecific(n)
  {
    var c := InitialComplete(n);
    EvalOfZero([], r);
    Same(Values(c.signs, r), Zeros(n));
    TwistNothing(IdentityTableau(n), n);
  }

  lemma TwistNothing(t: Tableau, n: nat)
    ensures Twist(t, IdentityBits(n)) == t
  {
    forall p: Pauli ensures Sign(AntiBits(p.bits, IdentityBits(n)), p) == p {
      AntiIdentity(p, n);
      SignFalse(p);
    }
    hide AntiBits, Sign;
  }

  /**
   * For every circuit and every assignment `r` of the random bits, the specific run fed with `r` is the branch `r` of
   * the complete run: outcomes M r + v0, the same preimage of every operator up to the sign of its commutation with a
   * Pauli whose X part is A r, and the same outcomes introduce branch bits.
   */
  lemma {:induction false} CompleteRunIsEverySpecificRun(circuit: seq<Instruction>, n: nat, r: BitSource)
    returns (z: Bits)
    requires WellFormedCircuit(circuit, n)
    ensures |z| == n
    ensures |RunComplete(circuit, n).shift| == |RunComplete(circuit, n).outcomeMatrix|
    ensures RunSpecific(circuit, n, r) == Branch(RunComplete(circuit, n), r, z)
  {
    if circuit == [] {
      z := Zeros(n);
      InitialBranch(n, r);
    } else {
      WellFormedPrefix(circuit, n);
      var front, last := circuit[..|circuit| - 1], circuit[|circuit| - 1];
      var z0 := CompleteRunIsEverySpecificRun(front, n, r);
      z := BranchStep(RunComplete(front, n), last, n, r, z0);
    }
  }

  /** The outcome vector of the specific run is M r + v0. */
  lemma OutcomesAreAffine(circuit: seq<Instruction>, n: nat, r: BitSource)
    requires WellFormedCircuit(circuit, n)
    ensures var c, s := RunComplete(circuit, n), RunSpecific(circuit, n, r);
      && |s.outcomes| == |c.shift| == |c.outcomeMatrix|
      && s.introduces == c.introduces && s.branchBits == c.branchBits
      && forall k :: 0 <= k < |s.outcomes| ==> s.outcomes[k] == (Eval(c.outcomeMatrix[k], r) != c.shift[k])
  {
    var z := CompleteRunIsEverySpecificRun(circuit, n, r);
  }

  /** Every preimage in the specific run is the complete one up to the sign of a Pauli with X part A r. */
  lemma PreimagesAgreeUpToSigns(circuit: seq<Instruction>, n: nat, r: BitSource) returns (d: Projective)
    requires WellFormedCircuit(circuit, n)
    ensures ProjectiveOn(d, n) && d.x == Values(RunComplete(circuit, n).signs, r)
    ensures forall p ::
      var q := Preimage(RunComplete(circuit, n).encoder, p);
      Preimage(RunSpecific(circuit, n, r).encoder, p) == Sign(AntiBits(q.bits, d), q)
  {
    var z := CompleteRunIsEverySpecificRun(circuit, n, r);
    d := BranchTwist(RunComplete(circuit, n), r, z);
    forall p
      ensures var q := Preimage(RunComplete(circuit, n).encoder, p);
        Preimage(RunSpecific(circuit, n, r).encoder, p) == Sign(AntiBits(q.bits, d), q)
    {
      TwistPreimage(RunComplete(circuit, n).encoder, d, p);
    }
  }
}
