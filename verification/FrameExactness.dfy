/** Frame propagation is exact: flipping clean outcomes by the frame's deltas is really running the faulty circuit. */
module FrameExactness {
  import opened Bits
  import opened Paulis
  import opened Tableaus
  import opened Measurement
  import opened Gates
  import opened PauliGates
  import opened SupportGates
  import opened Circuits
  import opened SpecificModel
  import opened FrameModel

  // ----- the faulty circuit

  /** What really happens in one shot: noise becomes a Pauli gate, and the recorded measurement carries no hint. */
  function Faulty(i: Instruction, shot: nat, n: nat): Instruction {
    match i
    case Noise(faults) => PauliGate(if shot < |faults| then faults[shot] else Identity(n))
    case MeasureWithHint(p, _, id) => Measure(p, id)
    case _ => i
  }

  function FaultyCircuit(circuit: seq<Instruction>, shot: nat, n: nat): seq<Instruction> {
    seq(|circuit|, k requires 0 <= k < |circuit| => Faulty(circuit[k], shot, n))
  }

  ghost predicate FramesApply(i: Instruction) {
    i.Permute? ==> IsInvolution(i.permutation)
  }

  // ----- stabilizers that differ by an error

  /** An operator stabilizes the faulty state exactly when, with the sign of the error, it stabilizes the clean state. */
  ghost predicate DifferBy(clean: Tableau, faulty: Tableau, e: Projective, n: nat) {
    forall q {:trigger DifferAt(clean, faulty, e, q)} :: On(q, n) ==> DifferAt(clean, faulty, e, q)
  }

  ghost predicate DifferAt(clean: Tableau, faulty: Tableau, e: Projective, q: Pauli) {
    IsStabilizer(faulty, q) <==> IsStabilizer(clean, Sign(AntiBits(q.bits, e), q))
  }

  /** The measurement rule as a relation between the states before and after outcome `b`. */
  ghost predicate Measured(t: Tableau, p: Pauli, b: bool, t': Tableau, n: nat) {
    forall q {:trigger MeasuredAt(t, p, b, t', q)} :: On(q, n) ==> MeasuredAt(t, p, b, t', q)
  }

  ghost predicate MeasuredAt(t: Tableau, p: Pauli, b: bool, t': Tableau, q: Pauli) {
    IsStabilizer(t', q) <==> !Anti(q, p) && (IsStabilizer(t, q) || IsStabilizer(t, Sign(b, Mul(p, q))))
  }

  lemma SignSign(a: bool, b: bool, p: Pauli)
    ensures Sign(a, Sign(b, p)) == Sign(a != b, p)
    ensures Sign(b, p).bits == p.bits
  {
  }

  lemma DifferAfterMeasurement(c: Tableau, f: Tableau, e: Projective, p: Pauli, b: bool, c': Tableau, f': Tableau,
                               q: Pauli, n: nat)
    requires DifferBy(c, f, e, n) && On(p, n) && On(q, n)
    requires Measured(c, p, b, c', n) && Measured(f, p, b != AntiBits(p.bits, e), f', n)
    ensures DifferAt(c', f', e, q)
  {
    OnRules(n);
    MulBits(p, q);
    hide IsStabilizer, Mul, AntiBits, On, Sum;
    var a := AntiBits(q.bits, e);
    var b' := b != AntiBits(p.bits, e);
    var q' := Sign(a, q);
    var pq := Sign(b', Mul(p, q));
    SignSign(a, a, q);
    assert MeasuredAt(f, p, b', f', q);
    assert MeasuredAt(c, p, b, c', q');
    assert DifferAt(c, f, e, q) && DifferAt(c, f, e, pq);
    AntiBitsSum(p.bits, q.bits, e);
    SignSign(AntiBits(pq.bits, e), b', Mul(p, q));
    RotateMul(Half(a), p, q);
    SignSign(b, a, Mul(p, q));
    assert Sign(AntiBits(pq.bits, e), pq) == Sign(b, Mul(p, q'));
  }

  /** A measurement with the flipped outcome keeps the two states separated by the same error. */
  lemma MeasurementKeepsError(c: Tableau, f: Tableau, e: Projective, p: Pauli, b: bool, c': Tableau, f': Tableau, n: nat)
    requires DifferBy(c, f, e, n) && On(p, n)
    requires Measured(c, p, b, c', n) && Measured(f, p, b != AntiBits(p.bits, e), f', n)
    ensures DifferBy(c', f', e, n)
  {
    forall q | On(q, n) ensures DifferAt(c', f', e, q) {
      DifferAfterMeasurement(c, f, e, p, b, c', f', q, n);
    }
  }

  lemma RandomIsMeasured(t: Tableau, p: Pauli, v: Bits, b: bool, n: nat)
    requires Valid(t, n) && On(p, n) && |v| == n && IsOrderTwo(p) && Dot(Preimage(t, p).x, v)
    ensures Measured(t, p, b, AfterRandomOutcome(t, p, v, b), n)
  {
    forall q | On(q, n) ensures MeasuredAt(t, p, b, AfterRandomOutcome(t, p, v, b), q) {
      MeasurementRule(t, p, v, b, q, n);
    }
  }

  /** Both states agree on which measurements are random, and on deterministic outcomes up to the error. */
  lemma SameRandomness(c: Tableau, f: Tableau, e: Projective, p: Pauli, n: nat)
    requires Valid(c, n) && Valid(f, n) && DifferBy(c, f, e, n) && On(p, n) && IsOrderTwo(p)
    ensures IsZero(Preimage(c, p).x) == IsZero(Preimage(f, p).x)
    ensures IsZero(Preimage(c, p).x) ==>
      (Preimage(f, p).phase == 2) == ((Preimage(c, p).phase == 2) != AntiBits(p.bits, e))
  {
    var a := AntiBits(p.bits, e);
    UpToSign(c, p, n);
    UpToSign(f, p, n);
    OnRules(n);
    assert DifferAt(c, f, e, p) && DifferAt(c, f, e, Sign(true, p));
    SignSign(true, true, p);
    SignSign(a, true, p);
    SignFalse(p);
    PreimageRotate(c, Half(true), p);
    PreimageRotate(f, Half(true), p);
    hide Preimage, AntiBits, On, IsOrderTwo;
  }

  lemma PauliStabilizers(t: Tableau, p: Pauli, q: Pauli, n: nat)
    requires Valid(t, n) && On(p, n) && On(q, n)
    ensures IsStabilizer(LeftMulPauli(t, p), q) <==> IsStabilizer(t, Sign(Anti(q, p), q))
  {
    StepPauli(t, p, n);
    ComposePreimage(t, LeftMulPauli(IdentityTableau(n), p), n);
    assert Preimage(LeftMulPauli(t, p), q) == Preimage(t, Preimage(LeftMulPauli(IdentityTableau(n), p), q));
    hide Preimage, Valid, LeftMulPauli;
  }

  /** Applying a Pauli to the faulty state only multiplies the error by it. */
  lemma FaultMultipliesError(c: Tableau, f: Tableau, e: Projective, p: Pauli, n: nat)
    requires Valid(c, n) && Valid(f, n) && DifferBy(c, f, e, n) && On(p, n) && ProjectiveOn(e, n)
    ensures DifferBy(c, LeftMulPauli(f, p), Sum(e, p.bits), n)
    ensures DifferBy(LeftMulPauli(c, p), f, Sum(e, p.bits), n)
    ensures DifferBy(LeftMulPauli(c, p), LeftMulPauli(f, p), e, n)
  {
    forall q | On(q, n)
      ensures DifferAt(c, LeftMulPauli(f, p), Sum(e, p.bits), q)
      ensures DifferAt(LeftMulPauli(c, p), f, Sum(e, p.bits), q)
      ensures DifferAt(LeftMulPauli(c, p), LeftMulPauli(f, p), e, q)
    {
      FaultAt(c, f, e, p, q, n);
    }
  }

  lemma FaultAt(c: Tableau, f: Tableau, e: Projective, p: Pauli, q: Pauli, n: nat)
    requires Valid(c, n) && Valid(f, n) && DifferBy(c, f, e, n) && On(p, n) && ProjectiveOn(e, n) && On(q, n)
    ensures DifferAt(c, LeftMulPauli(f, p), Sum(e, p.bits), q)
    ensures DifferAt(LeftMulPauli(c, p), f, Sum(e, p.bits), q)
    ensures DifferAt(LeftMulPauli(c, p), LeftMulPauli(f, p), e, q)
  {
    var a, s := AntiBits(q.bits, e), Anti(q, p);
    AntiBitsSum(e, p.bits, q.bits);
    OnRules(n);
    var q0, q1, q2 := Sign(s, q), Sign(a, q), Sign(a != s, q);
    PauliStabilizers(f, p, q, n);
    PauliStabilizers(c, p, q1, n);
    PauliStabilizers(c, p, q2, n);
    assert DifferAt(c, f, e, q0) && DifferAt(c, f, e, q);
    SignSign(a, s, q);
    SignSign(s, a, q);
    SignSign(s, a != s, q);
    hide IsStabilizer, AntiBits, On, LeftMulPauli, Valid, Sum, DifferBy;
  }

  /** A gate on both states moves the error to its image. */
  lemma GateMovesError(c: Tableau, f: Tableau, e: Projective, g: Tableau, n: nat)
    requires Valid(c, n) && Valid(f, n) && Valid(g, n) && DifferBy(c, f, e, n)
    ensures DifferBy(Compose(c, g), Compose(f, g), Image(g, e), n)
  {
    forall q | On(q, n) ensures DifferAt(Compose(c, g), Compose(f, g), Image(g, e), q) {
      GateMovesErrorAt(c, f, e, g, q, n);
    }
  }

  lemma GateMovesErrorAt(c: Tableau, f: Tableau, e: Projective, g: Tableau, q: Pauli, n: nat)
    requires Valid(c, n) && Valid(f, n) && Valid(g, n) && DifferBy(c, f, e, n) && On(q, n)
    ensures DifferAt(Compose(c, g), Compose(f, g), Image(g, e), q)
  {
    OnRules(n);
    hide Preimage, Image, AntiBits, On, Valid, Compose, TableauOn;
    var q' := Preimage(g, q);
    var a := AntiBits(q'.bits, e);
    ComposePreimage(c, g, n);
    ComposePreimage(f, g, n);
    ValidOn(g, n);
    PreimageOn(g, q, n);
    ImageAnti(g, e, q, n);
    PreimageRotate(g, Half(a), q);
    assert DifferAt(c, f, e, q');
    assert Preimage(Compose(c, g), Sign(a, q)) == Preimage(c, Preimage(g, Sign(a, q)));
  }

  // ----- the runs

  /** The delta of the outcome that introduced branch bit `j`. */
  function BranchDelta(introduces: seq<bool>, deltas: seq<bool>, j: nat): bool {
    if introduces == [] then false
    else
      var last := |introduces| - 1;
      if introduces[last] && CountTrue(introduces[..last]) == j then At(deltas, last)
      else BranchDelta(introduces[..last], deltas, j)
  }

  /** The source of random bits of the faulty run: clean bits flipped by the deltas of the random outcomes. */
  function FaultySource(introduces: seq<bool>, deltas: seq<bool>, r: BitSource): BitSource {
    (j: nat) => r(j) != BranchDelta(introduces, deltas, j)
  }

  /** Clean state, faulty state and frame belong together. */
  ghost predicate Related(c: Specific, s: Specific, f: Frame, n: nat) {
    && SpecificValid(c, n) && SpecificValid(s, n) && ProjectiveOn(f.error, n)
    && DifferBy(c.encoder, s.encoder, f.error, n)
    && |c.outcomes| == |f.deltas|
    && s.outcomes == FlippedOutcomes(c.outcomes, f.deltas)
    && s.introduces == c.introduces && s.branchBits == c.branchBits
  }

  /** Clean outcomes with the deltas added. */
  function FlippedOutcomes(outcomes: seq<bool>, deltas: seq<bool>): seq<bool> {
    seq(|outcomes|, k requires 0 <= k < |outcomes| => outcomes[k] != At(deltas, k))
  }

  lemma FlippedAppend(outcomes: seq<bool>, deltas: seq<bool>, b: bool, d: bool)
    requires |outcomes| == |deltas|
    ensures FlippedOutcomes(outcomes + [b], deltas + [d]) == FlippedOutcomes(outcomes, deltas) + [b != d]
  {
  }

  lemma FlippedParity(outcomes: seq<bool>, deltas: seq<bool>, ids: seq<nat>, k: nat)
    requires |outcomes| == |deltas| && k <= |ids|
    ensures ParityTo(FlippedOutcomes(outcomes, deltas), ids, k)
         == (ParityTo(outcomes, ids, k) != ParityTo(deltas, ids, k))
  {
  }

  /** The condition on the two bit sources: a new random bit is flipped exactly when the new delta is set. */
  ghost predicate SourcesMatch(i: Instruction, c: Specific, f: Frame, n: nat, r: BitSource, r': BitSource)
    requires WellFormed(i, n, |c.outcomes|) && |c.encoder.x| == |c.encoder.z| == n
    requires |f.deltas| == |c.outcomes| && ProjectiveOn(f.error, n)
  {
    var introduces, deltas := SpecificStep(c, i, n, r).introduces, FrameStep(f, i, n, 0).deltas;
    MakesOutcome(i) && introduces[|introduces| - 1] ==>
      r'(c.branchBits) == (r(c.branchBits) != deltas[|deltas| - 1])
  }

  /** What any way of measuring `p` does to a state: record a deterministic outcome or collapse to outcome `b`. */
  ghost predicate MeasuresAs(s: Specific, p: Pauli, b: bool, s': Specific, n: nat) {
    && SpecificValid(s', n)
    && if IsZero(Preimage(s.encoder, p).x) then
         s' == RecordDeterministic(s, Preimage(s.encoder, p).phase == 2)
       else
         && Measured(s.encoder, p, b, s'.encoder, n)
         && s' == RecordRandom(s, b).(encoder := s'.encoder)
  }

  lemma MeasureMeasures(s: Specific, p: Pauli, r: BitSource, n: nat)
    requires SpecificValid(s, n) && On(p, n) && IsOrderTwo(p)
    ensures MeasuresAs(s, p, r(s.branchBits), MeasureStep(s, p, r), n)
  {
    MeasureKeepsValid(s, p, n, r);
    ValidOn(s.encoder, n);
    if !IsZero(Preimage(s.encoder, p).x) {
      PivotReplaces(s.encoder, p, n);
      RandomIsMeasured(s.encoder, p, Unit(n, FirstOne(Preimage(s.encoder, p).x)), r(s.branchBits), n);
    }
    hide Valid, Preimage, Measured, AfterRandomOutcome;
  }

  lemma HintMeasures(s: Specific, p: Pauli, hint: Pauli, r: BitSource, n: nat)
    requires SpecificValid(s, n) && On(p, n) && IsOrderTwo(p) && On(hint, n) && Anti(p, hint)
    ensures MeasuresAs(s, p, r(s.branchBits), MeasureWithHintStep(s, p, hint, r), n)
  {
    hide Valid, Preimage, Measured, AfterRandomOutcome, HintUpdate, MeasureStep, Anti, On, IsOrderTwo, Dot;
    HintKeepsValid(s, p, hint, n, r);
    MeasureMeasures(s, p, r, n);
    var h := Preimage(s.encoder, hint);
    if IsZero(h.x) {
      HintReplaces(s.encoder, p, hint, n);
      HintIsUpdate(s.encoder, p, hint, r(s.branchBits), n);
      RandomIsMeasured(s.encoder, p, h.z, r(s.branchBits), n);
      if IsZero(Preimage(s.encoder, p).x) {
        DotOfZero(Preimage(s.encoder, p).x, h.z);
      }
    }
  }

  lemma DeterministicMeasures(s: Specific, p: Pauli, b: bool, b': bool, s': Specific, n: nat)
    requires MeasuresAs(s, p, b, s', n) && (IsZero(Preimage(s.encoder, p).x) || b == b')
    ensures MeasuresAs(s, p, b', s', n)
  {
  }

  lemma MeasureIntroduces(s: Specific, p: Pauli, b: bool, s': Specific, n: nat)
    requires MeasuresAs(s, p, b, s', n)
    ensures s'.introduces == s.introduces + [!IsZero(Preimage(s.encoder, p).x)]
  {
    hide Preimage;
  }

  lemma RelatedMeasurement(c: Specific, s: Specific, f: Frame, p: Pauli, b: bool, c': Specific, s': Specific, n: nat)
    requires Related(c, s, f, n) && On(p, n) && IsOrderTwo(p)
    requires MeasuresAs(c, p, b, c', n) && MeasuresAs(s, p, b != AntiBits(p.bits, f.error), s', n)
    ensures Related(c', s', f.(deltas := f.deltas + [AntiBits(p.bits, f.error)]), n)
  {
    hide Valid, Preimage, Measured, DifferBy, AntiBits, On, IsOrderTwo;
    SameRandomness(c.encoder, s.encoder, f.error, p, n);
    FlippedAppend(c.outcomes, f.deltas, b, AntiBits(p.bits, f.error));
    FlippedAppend(c.outcomes, f.deltas, Preimage(c.encoder, p).phase == 2, AntiBits(p.bits, f.error));
    if !IsZero(Preimage(c.encoder, p).x) {
      MeasurementKeepsError(c.encoder, s.encoder, f.error, p, b, c'.encoder, s'.encoder, n);
    }
  }

  lemma RelatedUnitary(c: Specific, s: Specific, f: Frame, i: Instruction, n: nat, r: BitSource, r': BitSource)
    requires Related(c, s, f, n) && IsUnitary(i) && WellFormed(i, n, |c.outcomes|) && FramesApply(i)
    ensures |c.encoder.x| == |c.encoder.z| == n && |s.encoder.x| == |s.encoder.z| == n
    ensures |s.outcomes| == |c.outcomes| == |f.deltas|
    ensures Related(SpecificStep(c, i, n, r), SpecificStep(s, i, n, r'), FrameStep(f, i, n, 0), n)
  {
    Sizes(c.encoder, n);
    Sizes(s.encoder, n);
    hide Valid, WellFormed, ApplyUnitary, FrameUnitary, DifferBy, GateOf, Compose;
    var count := |c.outcomes|;
    UnitaryStep(c.encoder, i, n, count);
    UnitaryStep(s.encoder, i, n, count);
    GateMovesError(c.encoder, s.encoder, f.error, GateOf(i, n, count), n);
    FrameUnitaryIsImage(f.error, i, n, count);
    ImageSize(GateOf(i, n, count), f.error, n);
  }

  lemma ImageSize(g: Tableau, e: Projective, n: nat)
    requires Valid(g, n)
    ensures ProjectiveOn(Image(g, e), n)
  {
  }

  lemma RelatedConditional(c: Specific, s: Specific, f: Frame, p: Pauli, ids: seq<nat>, parity: bool, n: nat)
    requires Related(c, s, f, n) && On(p, n)
    ensures var c' := if TotalParity(c.outcomes, ids) == parity then c.(encoder := LeftMulPauli(c.encoder, p)) else c;
      var s' := if TotalParity(s.outcomes, ids) == parity then s.(encoder := LeftMulPauli(s.encoder, p)) else s;
      Related(c', s', f.(error := AddIf(f.error, TotalParity(f.deltas, ids), p.bits)), n)
  {
    StepPauli(c.encoder, p, n);
    StepPauli(s.encoder, p, n);
    FlippedParity(c.outcomes, f.deltas, ids, |ids|);
    FaultMultipliesError(c.encoder, s.encoder, f.error, p, n);
    assert ProjectiveOn(Sum(f.error, p.bits), n);
    hide Valid, LeftMulPauli, DifferBy, Sum, ParityTo, Preimage;
  }

  lemma RelatedFault(c: Specific, s: Specific, f: Frame, p: Pauli, n: nat)
    requires Related(c, s, f, n) && On(p, n)
    ensures Related(c, s.(encoder := LeftMulPauli(s.encoder, p)), f.(error := Sum(f.error, p.bits)), n)
  {
    StepPauli(s.encoder, p, n);
    FaultMultipliesError(c.encoder, s.encoder, f.error, p, n);
    assert ProjectiveOn(Sum(f.error, p.bits), n);
    hide Valid, LeftMulPauli, DifferBy, Sum, Preimage;
  }

  lemma FaultyWellFormed(i: Instruction, shot: nat, n: nat, count: nat)
    requires WellFormed(i, n, count)
    ensures WellFormed(Faulty(i, shot, n), n, count)
    ensures MakesOutcome(Faulty(i, shot, n)) == MakesOutcome(i)
  {
  }

  lemma RelatedPair(c: Specific, s: Specific, f: Frame, p: Pauli, c': Specific, n: nat, r: BitSource, r': BitSource)
    requires Related(c, s, f, n) && On(p, n) && IsOrderTwo(p)
    requires MeasuresAs(c, p, r(c.branchBits), c', n)
    requires c'.introduces != [] && c'.introduces[|c'.introduces| - 1] ==>
      r'(c.branchBits) == (r(c.branchBits) != AntiBits(p.bits, f.error))
    ensures Related(c', MeasureStep(s, p, r'), f.(deltas := f.deltas + [AntiBits(p.bits, f.error)]), n)
  {
    hide Valid, DifferBy, MeasuresAs, MeasureStep, AntiBits, Preimage, IsOrderTwo, On;
    MeasureIntroduces(c, p, r(c.branchBits), c', n);
    MeasureMeasures(s, p, r', n);
    SameRandomness(c.encoder, s.encoder, f.error, p, n);
    DeterministicMeasures(s, p, r'(c.branchBits), r(c.branchBits) != AntiBits(p.bits, f.error), MeasureStep(s, p, r'), n);
    RelatedMeasurement(c, s, f, p, r(c.branchBits), c', MeasureStep(s, p, r'), n);
  }

  lemma RelatedAllocation(c: Specific, s: Specific, f: Frame, b: bool, n: nat)
    requires Related(c, s, f, n)
    ensures Related(RecordRandom(c, b), RecordRandom(s, b), f.(deltas := f.deltas + [false]), n)
  {
    FlippedAppend(c.outcomes, f.deltas, b, false);
    CountAppend(c.introduces, true);
    hide Valid, DifferBy;
  }

  /** One instruction keeps the clean state, the faulty state and the frame together. */
  lemma RelatedStep(c: Specific, s: Specific, f: Frame, i: Instruction, shot: nat, n: nat, r: BitSource, r': BitSource)
    requires Related(c, s, f, n) && WellFormed(i, n, |c.outcomes|) && FramesApply(i)
    requires |c.encoder.x| == |c.encoder.z| == n && |s.encoder.x| == |s.encoder.z| == n
    requires SourcesMatch(i, c, f, n, r, r')
    ensures WellFormed(Faulty(i, shot, n), n, |s.outcomes|)
    ensures Related(SpecificStep(c, i, n, r), SpecificStep(s, Faulty(i, shot, n), n, r'), FrameStep(f, i, n, shot), n)
  {
    FaultyWellFormed(i, shot, n, |c.outcomes|);
    hide Valid, DifferBy, MeasuresAs, MeasureStep, MeasureWithHintStep, LeftMulPauli, AntiBits, Preimage, IsOrderTwo,
         On, ParityTo, AddIf, FlippedOutcomes, CountTrue, SpecificValid, ApplyUnitary, FrameUnitary;
    match i
    case Measure(p, _) =>
      MeasureMeasures(c, p, r, n);
      RelatedPair(c, s, f, p, MeasureStep(c, p, r), n, r, r');
    case MeasureWithHint(p, hint, _) =>
      HintMeasures(c, p, hint, r, n);
      RelatedPair(c, s, f, p, MeasureWithHintStep(c, p, hint, r), n, r, r');
    case AllocateRandomBit(_) => RelatedAllocation(c, s, f, r(c.branchBits), n);
    case ConditionalPauli(p, outcomes, parity) => RelatedConditional(c, s, f, p, outcomes, parity, n);
    case Noise(faults) => RelatedNoise(c, s, f, faults, shot, n, r');
    case _ => RelatedUnitary(c, s, f, i, n, r, r');
  }

  lemma RelatedNoise(c: Specific, s: Specific, f: Frame, faults: seq<Pauli>, shot: nat, n: nat, r': BitSource)
    requires Related(c, s, f, n) && forall k :: 0 <= k < |faults| ==> On(faults[k], n)
    ensures |s.encoder.x| == |s.encoder.z| == n
    ensures var fault := if shot < |faults| then faults[shot] else Identity(n);
      Related(c, s.(encoder := LeftMulPauli(s.encoder, fault)), FrameStep(f, Noise(faults), n, shot), n)
  {
    Sizes(s.encoder, n);
    if shot < |faults| {
      RelatedFault(c, s, f, faults[shot], n);
    } else {
      RelatedFault(c, s, f, Identity(n), n);
      XorZeros(f.error.x, n);
      XorZeros(f.error.z, n);
    }
    hide Valid, DifferBy, LeftMulPauli;
  }

  ghost function RunFrame(circuit: seq<Instruction>, n: nat, shot: nat): (f: Frame)
    requires WellFormedCircuit(circuit, n)
    ensures ProjectiveOn(f.error, n) && |f.deltas| == OutcomeCount(circuit)
  {
    if circuit == [] then InitialFrame(n)
    else
      WellFormedPrefix(circuit, n);
      var before := RunFrame(circuit[..|circuit| - 1], n, shot);
      FrameStepSizes(before, circuit[|circuit| - 1], n, shot);
      FrameStep(before, circuit[|circuit| - 1], n, shot)
  }

  lemma FrameStepSizes(f: Frame, i: Instruction, n: nat, shot: nat)
    requires WellFormed(i, n, |f.deltas|) && ProjectiveOn(f.error, n)
    ensures ProjectiveOn(FrameStep(f, i, n, shot).error, n)
    ensures |FrameStep(f, i, n, shot).deltas| == OutcomesAfter(i, |f.deltas|)
  {
    hide AntiBits;
  }

  lemma {:induction false} FaultyCircuitPrefix(circuit: seq<Instruction>, shot: nat, n: nat)
    ensures OutcomeCount(FaultyCircuit(circuit, shot, n)) == OutcomeCount(circuit)
    ensures circuit != [] ==>
      var last := |circuit| - 1;
      && FaultyCircuit(circuit, shot, n)[..last] == FaultyCircuit(circuit[..last], shot, n)
      && FaultyCircuit(circuit, shot, n)[last] == Faulty(circuit[last], shot, n)
  {
    if circuit != [] {
      var last := |circuit| - 1;
      FaultyKind(circuit[last], shot, n);
      hide Faulty, MakesOutcome;
      assert FaultyCircuit(circuit, shot, n)[..last] == FaultyCircuit(circuit[..last], shot, n);
      FaultyCircuitPrefix(circuit[..last], shot, n);
    }
  }

  lemma FaultyKind(i: Instruction, shot: nat, n: nat)
    ensures MakesOutcome(Faulty(i, shot, n)) == MakesOutcome(i)
  {
  }

  lemma FaultyCircuitWellFormed(circuit: seq<Instruction>, shot: nat, n: nat)
    requires WellFormedCircuit(circuit, n)
    ensures WellFormedCircuit(FaultyCircuit(circuit, shot, n), n)
  {
    var faulty := FaultyCircuit(circuit, shot, n);
    forall k | 0 <= k < |faulty| ensures WellFormed(faulty[k], n, OutcomeCount(faulty[..k])) {
      assert faulty[..k] == FaultyCircuit(circuit[..k], shot, n);
      FaultyCircuitPrefix(circuit[..k], shot, n);
      FaultyWellFormed(circuit[k], shot, n, OutcomeCount(circuit[..k]));
    }
  }

  // ----- the source of the faulty run, read off the finished run

  /** A source that flips the clean bits by the deltas of the outcomes that introduced them. */
  ghost predicate FlipsBy(r: BitSource, r': BitSource, introduces: seq<bool>, deltas: seq<bool>) {
    forall j: nat :: j < CountTrue(introduces) ==> r'(j) == (r(j) != BranchDelta(introduces, deltas, j))
  }

  lemma BranchDeltaAppend(introduces: seq<bool>, deltas: seq<bool>, m: bool, d: bool, j: nat)
    requires |introduces| == |deltas|
    ensures j < CountTrue(introduces) ==>
      BranchDelta(introduces + [m], deltas + [d], j) == BranchDelta(introduces, deltas, j)
    ensures m && j == CountTrue(introduces) ==> BranchDelta(introduces + [m], deltas + [d], j) == d
  {
    assert (introduces + [m])[..|introduces|] == introduces;
    BranchDeltaAgree(introduces, deltas + [d], deltas, j);
  }

  lemma BranchDeltaAgree(introduces: seq<bool>, deltas: seq<bool>, deltas': seq<bool>, j: nat)
    requires forall k: nat :: k < |introduces| ==> At(deltas, k) == At(deltas', k)
    ensures BranchDelta(introduces, deltas, j) == BranchDelta(introduces, deltas', j)
  {
  }

  lemma FlipsByPrefix(r: BitSource, r': BitSource, introduces: seq<bool>, deltas: seq<bool>, m: bool, d: bool)
    requires |introduces| == |deltas|
    requires FlipsBy(r, r', introduces + [m], deltas + [d])
    ensures FlipsBy(r, r', introduces, deltas)
    ensures m ==> r'(CountTrue(introduces)) == (r(CountTrue(introduces)) != d)
  {
    CountAppend(introduces, m);
    forall j: nat | j < CountTrue(introduces)
      ensures r'(j) == (r(j) != BranchDelta(introduces, deltas, j))
    {
      BranchDeltaAppend(introduces, deltas, m, d, j);
    }
    if m {
      BranchDeltaAppend(introduces, deltas, m, d, CountTrue(introduces));
    }
  }

  /** The outcomes listed by a step extend the earlier ones. */
  lemma StepAppends(c: Specific, f: Frame, i: Instruction, n: nat, shot: nat, r: BitSource)
    requires WellFormed(i, n, |c.outcomes|) && |c.encoder.x| == |c.encoder.z| == n
    requires |f.deltas| == |c.outcomes| && ProjectiveOn(f.error, n)
    ensures var introduces, deltas := SpecificStep(c, i, n, r).introduces, FrameStep(f, i, n, shot).deltas;
      if MakesOutcome(i) then
        && |introduces| > 0 && introduces[..|introduces| - 1] == c.introduces
        && |deltas| > 0 && deltas[..|deltas| - 1] == f.deltas
        && deltas == FrameStep(f, i, n, 0).deltas
      else introduces == c.introduces && deltas == f.deltas
  {
    hide Preimage, AntiBits, AfterRandomOutcome, HintUpdate, ApplyUnitary, FrameUnitary;
  }

  /**
   * The faulty run follows the clean run for every source of bits that flips the clean bits by the deltas: same
   * randomness, and outcomes that differ exactly by the deltas of the frame.
   */
  lemma {:induction false} FaultyRunFollows(circuit: seq<Instruction>, n: nat, shot: nat, r: BitSource, r': BitSource)
    requires WellFormedCircuit(circuit, n) && forall k :: 0 <= k < |circuit| ==> FramesApply(circuit[k])
    requires FlipsBy(r, r', RunSpecific(circuit, n, r).introduces, RunFrame(circuit, n, shot).deltas)
    ensures WellFormedCircuit(FaultyCircuit(circuit, shot, n), n)
    ensures Related(RunSpecific(circuit, n, r), RunSpecific(FaultyCircuit(circuit, shot, n), n, r'),
                    RunFrame(circuit, n, shot), n)
  {
    hide *;
    FaultyCircuitWellFormed(circuit, shot, n);
    if circuit == [] {
      EmptyRelated(n, shot, r, r');
    } else {
      FaultyCircuitSize(circuit, shot, n);
      WellFormedPrefix(circuit, n);
      WellFormedPrefix(FaultyCircuit(circuit, shot, n), n);
      FaultyCircuitPrefix(circuit, shot, n);
      RunUnfolds(circuit, n, shot, r);
      RunUnfolds(FaultyCircuit(circuit, shot, n), n, shot, r');
      var front, last := circuit[..|circuit| - 1], circuit[|circuit| - 1];
      var c, f := RunSpecific(front, n, r), RunFrame(front, n, shot);
      StepFlips(c, f, last, n, shot, r, r');
      FaultyRunFollows(front, n, shot, r, r');
      var s := RunSpecific(FaultyCircuit(front, shot, n), n, r');
      RelatedSizes(c, s, f, n);
      RelatedStep(c, s, f, last, shot, n, r, r');
    }
  }

  lemma FaultyCircuitSize(circuit: seq<Instruction>, shot: nat, n: nat)
    ensures |FaultyCircuit(circuit, shot, n)| == |circuit|
  {
  }

  lemma EmptyRelated(n: nat, shot: nat, r: BitSource, r': BitSource)
    ensures FaultyCircuit([], shot, n) == []
    ensures Related(RunSpecific([], n, r), RunSpecific([], n, r'), RunFrame([], n, shot), n)
  {
    InitialRelated(n);
    hide Related;
  }

  lemma StepFlips(c: Specific, f: Frame, i: Instruction, n: nat, shot: nat, r: BitSource, r': BitSource)
    requires SpecificValid(c, n) && WellFormed(i, n, |c.outcomes|) && |c.encoder.x| == |c.encoder.z| == n
    requires |f.deltas| == |c.outcomes| && ProjectiveOn(f.error, n)
    requires FlipsBy(r, r', SpecificStep(c, i, n, r).introduces, FrameStep(f, i, n, shot).deltas)
    ensures FlipsBy(r, r', c.introduces, f.deltas) && SourcesMatch(i, c, f, n, r, r')
  {
    StepAppends(c, f, i, n, shot, r);
    hide WellFormed, FrameStep, SpecificStep, FlipsBy, MakesOutcome, Valid;
    var c', f' := SpecificStep(c, i, n, r), FrameStep(f, i, n, shot);
    if MakesOutcome(i) {
      var m, d := c'.introduces[|c'.introduces| - 1], f'.deltas[|f'.deltas| - 1];
      assert c'.introduces == c.introduces + [m] && f'.deltas == f.deltas + [d];
      FlipsByPrefix(r, r', c.introduces, f.deltas, m, d);
    }
  }

  /** A run ends with the step of its last instruction. */
  lemma RunUnfolds(circuit: seq<Instruction>, n: nat, shot: nat, r: BitSource)
    requires circuit != [] && WellFormedCircuit(circuit, n)
    ensures var front, last := circuit[..|circuit| - 1], circuit[|circuit| - 1];
      && WellFormedCircuit(front, n) && WellFormed(last, n, OutcomeCount(front))
      && SpecificValid(RunSpecific(front, n, r), n)
      && |RunSpecific(front, n, r).outcomes| == |RunFrame(front, n, shot).deltas| == OutcomeCount(front)
      && |RunSpecific(front, n, r).encoder.x| == |RunSpecific(front, n, r).encoder.z| == n
      && ProjectiveOn(RunFrame(front, n, shot).error, n)
      && RunSpecific(circuit, n, r) == SpecificStep(RunSpecific(front, n, r), last, n, r)
      && RunFrame(circuit, n, shot) == FrameStep(RunFrame(front, n, shot), last, n, shot)
  {
    WellFormedPrefix(circuit, n);
    var front := circuit[..|circuit| - 1];
    ValidOn(RunSpecific(front, n, r).encoder, n);
    hide WellFormed, FrameStep, SpecificStep, Valid;
  }

  lemma RelatedSizes(c: Specific, s: Specific, f: Frame, n: nat)
    requires Related(c, s, f, n)
    ensures |c.encoder.x| == |c.encoder.z| == n && |s.encoder.x| == |s.encoder.z| == n
  {
  }

  lemma InitialRelated(n: nat)
    ensures Related(InitialSpecific(n), InitialSpecific(n), InitialFrame(n), n)
  {
    var t := IdentityTableau(n);
    IdentityTableauValid(n);
    forall q | On(q, n) ensures DifferAt(t, t, IdentityBits(n), q) {
      AntiIdentity(q, n);
      SignFalse(q);
    }
  }

  /**
   * Frame propagation is exact. For every circuit (controlled Paulis with commuting operands, permutations that are
   * involutions) and every placement of Pauli faults, the clean outcomes with the frame's deltas added are the outcomes
   * of really running the faulty circuit, with the random bits flipped by the deltas of the outcomes they produce.
   */
  lemma FramePropagationIsExact(circuit: seq<Instruction>, n: nat, shot: nat, r: BitSource)
    requires WellFormedCircuit(circuit, n) && forall k :: 0 <= k < |circuit| ==> FramesApply(circuit[k])
    ensures WellFormedCircuit(FaultyCircuit(circuit, shot, n), n)
    ensures var clean := RunSpecific(circuit, n, r);
      var deltas := RunFrame(circuit, n, shot).deltas;
      var faulty := RunSpecific(FaultyCircuit(circuit, shot, n), n, FaultySource(clean.introduces, deltas, r));
      && faulty.introduces == clean.introduces
      && |faulty.outcomes| == |clean.outcomes| == |deltas|
      && forall k :: 0 <= k < |deltas| ==> faulty.outcomes[k] == (clean.outcomes[k] != deltas[k])
  {
    var clean := RunSpecific(circuit, n, r);
    var deltas := RunFrame(circuit, n, shot).deltas;
    FaultyRunFollows(circuit, n, shot, r, FaultySource(clean.introduces, deltas, r));
    hide RunSpecific, RunFrame, SpecificValid, DifferBy, WellFormedCircuit;
  }

  // ----- hints

  /** The instruction as a circuit records it: hints are dropped. */
  function Unhinted(i: Instruction): Instruction {
    match i
    case MeasureWithHint(p, _, id) => Measure(p, id)
    case _ => i
  }

  function UnhintedCircuit(circuit: seq<Instruction>): seq<Instruction> {
    seq(|circuit|, k requires 0 <= k < |circuit| => Unhinted(circuit[k]))
  }

  /** Two states with the same stabilizers, signs included, and the same outcomes so far. */
  ghost predicate SameState(c: Specific, s: Specific, n: nat) {
    && SpecificValid(c, n) && SpecificValid(s, n)
    && DifferBy(c.encoder, s.encoder, IdentityBits(n), n)
    && s.outcomes == c.outcomes && s.introduces == c.introduces && s.branchBits == c.branchBits
  }

  lemma NoError(p: Projective, n: nat)
    ensures !AntiBits(p, IdentityBits(n))
  {
    AntiIdentity(Pauli(p, 0), n);
  }

  lemma SameStateMeasured(c: Specific, s: Specific, p: Pauli, c': Specific, r: BitSource, n: nat)
    requires SameState(c, s, n) && On(p, n) && IsOrderTwo(p) && MeasuresAs(c, p, r(c.branchBits), c', n)
    ensures SameState(c', MeasureStep(s, p, r), n)
  {
    hide Valid, DifferBy, MeasureStep, AntiBits, Preimage, IsOrderTwo, On, Measured;
    var b := r(c.branchBits);
    MeasureMeasures(s, p, r, n);
    NoError(p.bits, n);
    SameRandomness(c.encoder, s.encoder, IdentityBits(n), p, n);
    if !IsZero(Preimage(c.encoder, p).x) {
      MeasurementKeepsError(c.encoder, s.encoder, IdentityBits(n), p, b, c'.encoder, MeasureStep(s, p, r).encoder, n);
    }
  }

  lemma SameStateUnitary(c: Specific, s: Specific, i: Instruction, n: nat, r: BitSource)
    requires SameState(c, s, n) && IsUnitary(i) && WellFormed(i, n, |c.outcomes|)
    ensures |c.encoder.x| == |c.encoder.z| == n && |s.encoder.x| == |s.encoder.z| == n
    ensures SameState(SpecificStep(c, i, n, r), SpecificStep(s, i, n, r), n)
  {
    Sizes(c.encoder, n);
    Sizes(s.encoder, n);
    hide Valid, WellFormed, ApplyUnitary, DifferBy, GateOf, Compose;
    var count := |c.outcomes|;
    UnitaryStep(c.encoder, i, n, count);
    UnitaryStep(s.encoder, i, n, count);
    GateMovesError(c.encoder, s.encoder, IdentityBits(n), GateOf(i, n, count), n);
    ImageOfNoError(GateOf(i, n, count), n);
  }

  lemma ImageOfNoError(g: Tableau, n: nat)
    requires Valid(g, n)
    ensures Image(g, IdentityBits(n)) == IdentityBits(n)
  {
    forall q: nat | q < n
      ensures !At(Image(g, IdentityBits(n)).x, q) && !At(Image(g, IdentityBits(n)).z, q)
    {
      NoError(g.z[q].bits, n);
      NoError(g.x[q].bits, n);
    }
    SameBitsOf(Image(g, IdentityBits(n)), IdentityBits(n), n);
  }

  lemma UnhintedWellFormed(i: Instruction, n: nat, count: nat)
    requires WellFormed(i, n, count)
    ensures WellFormed(Unhinted(i), n, count) && MakesOutcome(Unhinted(i)) == MakesOutcome(i)
  {
  }

  lemma SameStateStep(c: Specific, s: Specific, i: Instruction, n: nat, r: BitSource)
    requires SameState(c, s, n) && WellFormed(i, n, |c.outcomes|)
    requires |c.encoder.x| == |c.encoder.z| == n && |s.encoder.x| == |s.encoder.z| == n
    ensures WellFormed(Unhinted(i), n, |s.outcomes|)
    ensures SameState(SpecificStep(c, i, n, r), SpecificStep(s, Unhinted(i), n, r), n)
  {
    UnhintedWellFormed(i, n, |c.outcomes|);
    hide Valid, DifferBy, MeasuresAs, MeasureStep, MeasureWithHintStep, LeftMulPauli, AntiBits, Preimage;
    match i
    case Measure(p, _) =>
      MeasureMeasures(c, p, r, n);
      SameStateMeasured(c, s, p, MeasureStep(c, p, r), r, n);
    case MeasureWithHint(p, hint, _) =>
      HintMeasures(c, p, hint, r, n);
      SameStateMeasured(c, s, p, MeasureWithHintStep(c, p, hint, r), r, n);
    case AllocateRandomBit(_) => CountAppend(c.introduces, true);
    case ConditionalPauli(p, outcomes, parity) =>
      StepPauli(c.encoder, p, n);
      StepPauli(s.encoder, p, n);
      FaultMultipliesError(c.encoder, s.encoder, IdentityBits(n), p, n);
    case Noise(_) =>
    case _ => SameStateUnitary(c, s, i, n, r);
  }

  lemma {:induction false} UnhintedPrefix(circuit: seq<Instruction>)
    ensures OutcomeCount(UnhintedCircuit(circuit)) == OutcomeCount(circuit)
    ensures circuit != [] ==>
      var last := |circuit| - 1;
      && UnhintedCircuit(circuit)[..last] == UnhintedCircuit(circuit[..last])
      && UnhintedCircuit(circuit)[last] == Unhinted(circuit[last])
  {
    if circuit != [] {
      var last := |circuit| - 1;
      assert MakesOutcome(Unhinted(circuit[last])) == MakesOutcome(circuit[last]);
      hide Unhinted, MakesOutcome;
      assert UnhintedCircuit(circuit)[..last] == UnhintedCircuit(circuit[..last]);
      UnhintedPrefix(circuit[..last]);
    }
  }

  lemma UnhintedCircuitWellFormed(circuit: seq<Instruction>, n: nat)
    requires WellFormedCircuit(circuit, n)
    ensures WellFormedCircuit(UnhintedCircuit(circuit), n)
  {
    var plain := UnhintedCircuit(circuit);
    forall k | 0 <= k < |plain| ensures WellFormed(plain[k], n, OutcomeCount(plain[..k])) {
      assert plain[..k] == UnhintedCircuit(circuit[..k]);
      UnhintedPrefix(circuit[..k]);
      UnhintedWellFormed(circuit[k], n, OutcomeCount(circuit[..k]));
    }
  }

  lemma {:induction false} UnhintedRunFollows(circuit: seq<Instruction>, n: nat, r: BitSource)
    requires WellFormedCircuit(circuit, n)
    ensures WellFormedCircuit(UnhintedCircuit(circuit), n)
    ensures SameState(RunSpecific(circuit, n, r), RunSpecific(UnhintedCircuit(circuit), n, r), n)
  {
    UnhintedCircuitWellFormed(circuit, n);
    if circuit == [] {
      InitialRelated(n);
    } else {
      WellFormedPrefix(circuit, n);
      WellFormedPrefix(UnhintedCircuit(circuit), n);
      UnhintedPrefix(circuit);
      hide WellFormed, SpecificStep, SameState, Unhinted, MakesOutcome, Valid;
      var front := circuit[..|circuit| - 1];
      UnhintedRunFollows(front, n, r);
      var c, s := RunSpecific(front, n, r), RunSpecific(UnhintedCircuit(front), n, r);
      Sizes(c.encoder, n);
      Sizes(s.encoder, n);
      SameStateStep(c, s, circuit[|circuit| - 1], n, r);
    }
  }

  /**
   * Measuring with hints agrees with measuring without them: dropping every hint from a circuit changes no outcome, no
   * randomness and no stabilizer, signs included, on the same random bits.
   */
  lemma HintsDoNotMatter(circuit: seq<Instruction>, n: nat, r: BitSource)
    requires WellFormedCircuit(circuit, n)
    ensures WellFormedCircuit(UnhintedCircuit(circuit), n)
    ensures var hinted, plain := RunSpecific(circuit, n, r), RunSpecific(UnhintedCircuit(circuit), n, r);
      && plain.outcomes == hinted.outcomes && plain.introduces == hinted.introduces
      && forall q :: On(q, n) ==> (IsStabilizer(plain.encoder, q) <==> IsStabilizer(hinted.encoder, q))
  {
    UnhintedRunFollows(circuit, n, r);
    var hinted, plain := RunSpecific(circuit, n, r), RunSpecific(UnhintedCircuit(circuit), n, r);
    forall q | On(q, n) ensures IsStabilizer(plain.encoder, q) <==> IsStabilizer(hinted.encoder, q) {
      assert DifferAt(hinted.encoder, plain.encoder, IdentityBits(n), q);
      NoError(q.bits, n);
      SignFalse(q);
    }
    hide RunSpecific, Preimage, DifferBy, On;
  }
}
