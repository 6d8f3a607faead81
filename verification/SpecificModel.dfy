/** The outcome-specific simulation as a state machine over values: one branch, chosen by a source of bits. */
module SpecificModel {
  import opened Bits
  import opened Paulis
  import opened Tableaus
  import opened Measurement
  import opened Gates
  import opened PauliGates
  import opened Circuits

  /** The i-th bit that the source delivers. */
  type BitSource = nat -> bool

  datatype Specific = Specific(encoder: Tableau, outcomes: seq<bool>, introduces: seq<bool>, branchBits: nat)

  function InitialSpecific(n: nat): Specific {
    Specific(IdentityTableau(n), [], [], 0)
  }

  function RecordRandom(s: Specific, b: bool): Specific {
    s.(outcomes := s.outcomes + [b], introduces := s.introduces + [true], branchBits := s.branchBits + 1)
  }

  function RecordDeterministic(s: Specific, b: bool): Specific {
    s.(outcomes := s.outcomes + [b], introduces := s.introduces + [false])
  }

  function MeasureStep(s: Specific, p: Pauli, r: BitSource): Specific {
    var preimage := Preimage(s.encoder, p);
    if IsZero(preimage.x) then RecordDeterministic(s, preimage.phase == 2)
    else
      var b := r(s.branchBits);
      RecordRandom(s, b).(encoder :=
        AfterRandomOutcome(s.encoder, p, Unit(|s.encoder.x|, FirstOne(preimage.x)), b))
  }

  /** The exponential that turns the hint into the measured observable, with the sign that makes it exact. */
  function HintExponent(t: Tableau, p: Pauli, hint: Pauli): Pauli {
    Rotate(3 - Preimage(t, hint).phase, Mul(p, hint))
  }

  function HintUpdate(t: Tableau, p: Pauli, hint: Pauli, b: bool): Tableau {
    var u := LeftMulPauliExp(t, HintExponent(t, p, hint));
    if b then LeftMulPauli(u, hint) else u
  }

  function MeasureWithHintStep(s: Specific, p: Pauli, hint: Pauli, r: BitSource): Specific {
    if !IsZero(Preimage(s.encoder, hint).x) then MeasureStep(s, p, r)
    else
      var b := r(s.branchBits);
      RecordRandom(s, b).(encoder := HintUpdate(s.encoder, p, hint, b))
  }

  /** The exclusive or of the outcomes listed in `ids` below position `k`. */
  function ParityTo(outcomes: seq<bool>, ids: seq<nat>, k: nat): bool
    requires k <= |ids|
  {
    if k == 0 then false else ParityTo(outcomes, ids, k - 1) != At(outcomes, ids[k - 1])
  }

  function TotalParity(outcomes: seq<bool>, ids: seq<nat>): bool {
    ParityTo(outcomes, ids, |ids|)
  }

  ghost function SpecificStep(s: Specific, i: Instruction, n: nat, r: BitSource): Specific
    requires WellFormed(i, n, |s.outcomes|) && |s.encoder.x| == |s.encoder.z| == n
  {
    match i
    case Measure(p, _) => MeasureStep(s, p, r)
    case MeasureWithHint(p, hint, _) => MeasureWithHintStep(s, p, hint, r)
    case AllocateRandomBit(_) => RecordRandom(s, r(s.branchBits))
    case ConditionalPauli(p, outcomes, parity) =>
      if TotalParity(s.outcomes, outcomes) == parity then s.(encoder := LeftMulPauli(s.encoder, p)) else s
    case Noise(_) => s
    case _ => s.(encoder := ApplyUnitary(s.encoder, i, n, |s.outcomes|))
  }

  function CountTrue(a: seq<bool>): nat {
    if a == [] then 0 else CountTrue(a[..|a| - 1]) + (if a[|a| - 1] then 1 else 0)
  }

  ghost predicate SpecificValid(s: Specific, n: nat) {
    Valid(s.encoder, n) && |s.outcomes| == |s.introduces| && s.branchBits == CountTrue(s.introduces)
  }

  // ----- the hint is another choice of the replaced stabilizer

  /** When the hint is a stabilizer up to phase, it is the stabilizer that the measurement replaces. */
  lemma HintReplaces(t: Tableau, p: Pauli, hint: Pauli, n: nat)
    requires Valid(t, n) && On(p, n) && On(hint, n) && Anti(p, hint)
    requires IsZero(Preimage(t, hint).x)
    ensures |Preimage(t, hint).z| == n && Dot(Preimage(t, p).x, Preimage(t, hint).z)
    ensures forall q :: On(q, n) ==> Dot(Preimage(t, q).x, Preimage(t, hint).z) == Anti(q, hint)
  {
    PreimageOn(t, hint, n);
    forall q | On(q, n) ensures Dot(Preimage(t, q).x, Preimage(t, hint).z) == Anti(q, hint) {
      PreimageAnti(t, q, hint, n);
      DotZero(Preimage(t, q).z, Preimage(t, hint).x);
    }
  }

  /** The exponential multiplies by exactly the factor of the measurement update. */
  lemma HintFactor(t: Tableau, p: Pauli, hint: Pauli, n: nat)
    requires Valid(t, n) && On(p, n) && On(hint, n) && IsZero(Preimage(t, hint).x)
    ensures Rotate(1, Preimage(t, HintExponent(t, p, hint))) == MeasurementFactor(t, p, Preimage(t, hint).z)
  {
    var h := Preimage(t, hint);
    PreimageOn(t, hint, n);
    Same(h.x, Zeros(n));
    assert h == Rotate(h.phase, ZPower(h.z));
    PreimageMul(t, p, hint, n);
    PreimageRotate(t, 3 - h.phase, Mul(p, hint));
    RotateMul(h.phase, Preimage(t, p), ZPower(h.z));
    hide Mul, Preimage;
  }

  lemma HintRow(t: Tableau, p: Pauli, hint: Pauli, b: bool, q: nat, n: nat)
    requires Valid(t, n) && On(p, n) && On(hint, n) && Anti(p, hint) && IsZero(Preimage(t, hint).x) && q < n
    ensures |t.x| == |t.z| == n
    ensures HintUpdate(t, p, hint, b).x[q] == AfterRandomOutcome(t, p, Preimage(t, hint).z, b).x[q]
    ensures HintUpdate(t, p, hint, b).z[q] == AfterRandomOutcome(t, p, Preimage(t, hint).z, b).z[q]
  {
    HintFactor(t, p, hint, n);
    HintReplaces(t, p, hint, n);
    UnitsOn(n, q);
    PreimageGenerator(t, q, n);
    AntiUnits(hint, n, q);
    assert Dot(Preimage(t, PauliX(n, q)).x, Preimage(t, hint).z) == Anti(PauliX(n, q), hint);
    assert Dot(Preimage(t, PauliZ(n, q)).x, Preimage(t, hint).z) == Anti(PauliZ(n, q), hint);
    SignFalse(t.x[q]);
    SignFalse(t.z[q]);
    var w := HintExponent(t, p, hint);
    assert At(w.z, q) == (At(p.z, q) != At(hint.z, q));
    assert At(w.x, q) == (At(p.x, q) != At(hint.x, q));
    hide Preimage, Dot, Mul, Anti, HintExponent, PauliX, PauliZ, On, Valid, MeasurementFactor;
  }

  /** Measuring with a true hint is the same update as measuring with the hint as the replaced stabilizer. */
  lemma HintIsUpdate(t: Tableau, p: Pauli, hint: Pauli, b: bool, n: nat)
    requires Valid(t, n) && On(p, n) && On(hint, n) && Anti(p, hint) && IsZero(Preimage(t, hint).x)
    ensures HintUpdate(t, p, hint, b) == AfterRandomOutcome(t, p, Preimage(t, hint).z, b)
  {
    Sizes(t, n);
    forall q: nat | q < n
      ensures HintUpdate(t, p, hint, b).x[q] == AfterRandomOutcome(t, p, Preimage(t, hint).z, b).x[q]
      ensures HintUpdate(t, p, hint, b).z[q] == AfterRandomOutcome(t, p, Preimage(t, hint).z, b).z[q]
    {
      HintRow(t, p, hint, b, q, n);
    }
    hide Preimage, Mul, On, Valid, Anti, UpdateRow;
  }

  lemma PivotReplaces(t: Tableau, p: Pauli, n: nat)
    requires TableauOn(t, n) && !IsZero(Preimage(t, p).x)
    ensures FirstOne(Preimage(t, p).x) < n
    ensures Dot(Preimage(t, p).x, Unit(n, FirstOne(Preimage(t, p).x)))
  {
    PreimageOn(t, p, n);
    DotUnit(Preimage(t, p).x, n, FirstOne(Preimage(t, p).x));
  }

  // ----- every step keeps the state valid

  lemma CountAppend(a: seq<bool>, b: bool)
    ensures CountTrue(a + [b]) == CountTrue(a) + (if b then 1 else 0)
  {
    assert (a + [b])[..|a|] == a;
  }

  lemma MeasureKeepsValid(s: Specific, p: Pauli, n: nat, r: BitSource)
    requires SpecificValid(s, n) && On(p, n) && IsOrderTwo(p)
    ensures SpecificValid(MeasureStep(s, p, r), n)
  {
    CountAppend(s.introduces, true);
    CountAppend(s.introduces, false);
    ValidOn(s.encoder, n);
    if !IsZero(Preimage(s.encoder, p).x) {
      PivotReplaces(s.encoder, p, n);
      AfterRandomOutcomePreimage(s.encoder, p, Unit(n, FirstOne(Preimage(s.encoder, p).x)), r(s.branchBits), n);
    }
    hide Valid, Preimage, AfterRandomOutcome;
  }

  lemma HintKeepsValid(s: Specific, p: Pauli, hint: Pauli, n: nat, r: BitSource)
    requires SpecificValid(s, n) && On(p, n) && IsOrderTwo(p) && On(hint, n) && Anti(p, hint)
    ensures SpecificValid(MeasureWithHintStep(s, p, hint, r), n)
  {
    hide Valid, Preimage, AfterRandomOutcome, HintUpdate, Anti, MeasureStep, On, IsOrderTwo, Dot;
    MeasureKeepsValid(s, p, n, r);
    CountAppend(s.introduces, true);
    if IsZero(Preimage(s.encoder, hint).x) {
      HintReplaces(s.encoder, p, hint, n);
      HintIsUpdate(s.encoder, p, hint, r(s.branchBits), n);
      AfterRandomOutcomePreimage(s.encoder, p, Preimage(s.encoder, hint).z, r(s.branchBits), n);
    }
  }

  /** Every instruction keeps the encoder valid and the outcome bookkeeping consistent. */
  lemma SpecificStepValid(s: Specific, i: Instruction, n: nat, r: BitSource)
    requires SpecificValid(s, n) && WellFormed(i, n, |s.outcomes|)
    ensures |s.encoder.x| == |s.encoder.z| == n
    ensures SpecificValid(SpecificStep(s, i, n, r), n)
    ensures |SpecificStep(s, i, n, r).outcomes| == OutcomesAfter(i, |s.outcomes|)
  {
    Sizes(s.encoder, n);
    CountAppend(s.introduces, true);
    match i
    case Measure(p, _) => MeasureKeepsValid(s, p, n, r);
    case MeasureWithHint(p, hint, _) => HintKeepsValid(s, p, hint, n, r);
    case AllocateRandomBit(_) =>
    case ConditionalPauli(p, _, _) => StepPauli(s.encoder, p, n);
    case Noise(_) =>
    case _ => UnitaryStep(s.encoder, i, n, |s.outcomes|);
  }

  // ----- runs

  ghost function RunSpecific(circuit: seq<Instruction>, n: nat, r: BitSource): (s: Specific)
    requires WellFormedCircuit(circuit, n)
    ensures SpecificValid(s, n) && |s.outcomes| == OutcomeCount(circuit)
  {
    if circuit == [] then
      IdentityTableauValid(n);
      InitialSpecific(n)
    else
      WellFormedPrefix(circuit, n);
      var before := RunSpecific(circuit[..|circuit| - 1], n, r);
      SpecificStepValid(before, circuit[|circuit| - 1], n, r);
      SpecificStep(before, circuit[|circuit| - 1], n, r)
  }
}
