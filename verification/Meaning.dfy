/**
 * What each instruction does to a stabilizer state and to the list of outcomes, said without encoders, and a proof that
 * this is what the specific simulation does, and what the complete simulation does in every branch.
 */
module Meaning {
  import opened Bits
  import opened Paulis
  import opened Tableaus
  import opened Measurement
  import opened Gates
  import opened GateActions
  import opened PauliGates
  import opened SupportGates
  import opened SupportActions
  import opened Circuits
  import opened SpecificModel
  import opened CompleteModel
  import opened Branches
  import opened Queries

  /** The signed stabilizers, the outcomes so far, and which of them were random. */
  datatype Observed = Observed(stabilizes: Pauli -> bool, outcomes: seq<bool>, introduces: seq<bool>)

  function Observe(s: Specific): Observed {
    Observed(q => IsStabilizer(s.encoder, q), s.outcomes, s.introduces)
  }

  /** The operator fixes branch `r`. */
  function StabilizesBranch(c: Complete, p: Pauli, r: BitSource): bool {
    var q := Preimage(c.encoder, p);
    IsZero(q.x) && q.phase & 1 == 0 && Eval(RowSum(c.signs, q.z), r) == (q.phase == 2)
  }

  /** Branch `r` of the complete state. */
  function ObserveBranch(c: Complete, r: BitSource): Observed
    requires |c.shift| == |c.outcomeMatrix|
  {
    Observed(q => StabilizesBranch(c, q, r), BranchOutcomes(c, r), c.introduces)
  }

  // ----- the meaning of the instructions

  ghost predicate FixesSame(o: Observed, o': Observed, n: nat) {
    forall q {:trigger o.stabilizes(q)} {:trigger o'.stabilizes(q)} :: On(q, n) ==> o'.stabilizes(q) == o.stabilizes(q)
  }

  ghost predicate SameObserved(o: Observed, o': Observed, n: nat) {
    FixesSame(o, o', n) && o'.outcomes == o.outcomes && o'.introduces == o.introduces
  }

  /** Neither the observable nor its negative stabilizes the state. */
  predicate IsRandom(o: Observed, p: Pauli) {
    !o.stabilizes(p) && !o.stabilizes(Sign(true, p))
  }

  /** The next random bit, or one exactly when minus the observable stabilizes the state. */
  function OutcomeOf(o: Observed, p: Pauli, r: BitSource): bool {
    if IsRandom(o, p) then r(CountTrue(o.introduces)) else o.stabilizes(Sign(true, p))
  }

  /** The projective rule: what commutes and was a stabilizer, alone or times (-1)^b p. */
  ghost predicate Projects(o: Observed, o': Observed, p: Pauli, b: bool, n: nat) {
    forall q {:trigger o'.stabilizes(q)} :: On(q, n) ==>
      o'.stabilizes(q) == (!Anti(q, p) && (o.stabilizes(q) || o.stabilizes(Sign(b, Mul(p, q)))))
  }

  ghost predicate Measures(o: Observed, o': Observed, p: Pauli, n: nat, r: BitSource) {
    var b := OutcomeOf(o, p, r);
    && o'.outcomes == o.outcomes + [b]
    && o'.introduces == o.introduces + [IsRandom(o, p)]
    && if IsRandom(o, p) then Projects(o, o', p, b, n) else FixesSame(o, o', n)
  }

  /** The positions of the list at which the outcome is one. */
  function OnePositions(outcomes: seq<bool>, ids: seq<nat>): set<nat> {
    set k: nat | k < |ids| && At(outcomes, ids[k]) :: k
  }

  predicate OddlyMany(outcomes: seq<bool>, ids: seq<nat>) {
    |OnePositions(outcomes, ids)| % 2 == 1
  }

  /** The correction is applied iff the number of ones among the listed outcomes is odd, or even, as asked. */
  ghost predicate Corrects(o: Observed, o': Observed, p: Pauli, ids: seq<nat>, parity: bool, n: nat) {
    && o'.outcomes == o.outcomes && o'.introduces == o.introduces
    && forall q {:trigger o'.stabilizes(q)} :: On(q, n) ==>
      o'.stabilizes(q) == o.stabilizes(if OddlyMany(o.outcomes, ids) == parity then Sign(Anti(q, p), q) else q)
  }

  /** The operator that a unitary instruction sends to `q`. */
  ghost function Undone(i: Instruction, q: Pauli, n: nat, count: nat): Pauli
    requires IsUnitary(i) && WellFormed(i, n, count)
  {
    match i
    case Unitary(op, qubits) => Preimage(GateTableau(op, qubits, n), q)
    case Clifford(gate, qubits) => Preimage(Embedded(gate, qubits, n), q)
    case PauliGate(p) => Sign(Anti(q, p), q)
    case PauliExp(p) => Transvection(q, Rotate(1, p))
    case Permute(perm, qubits) => OnSupport(q, Sources(perm, qubits, n), n)
    case ControlledPauli(c, d) => Controlled(q, c, d)
  }

  ghost predicate Transforms(o: Observed, o': Observed, i: Instruction, n: nat)
    requires IsUnitary(i) && WellFormed(i, n, |o.outcomes|)
  {
    && o'.outcomes == o.outcomes && o'.introduces == o.introduces
    && forall q {:trigger o'.stabilizes(q)} :: On(q, n) ==>
      o'.stabilizes(q) == o.stabilizes(Undone(i, q, n, |o.outcomes|))
  }

  /** The meaning of one instruction. */
  ghost predicate Means(o: Observed, i: Instruction, o': Observed, n: nat, r: BitSource)
    requires WellFormed(i, n, |o.outcomes|)
  {
    match i
    case Measure(p, _) => Measures(o, o', p, n, r)
    case MeasureWithHint(p, _, _) => Measures(o, o', p, n, r)
    case AllocateRandomBit(_) =>
      && o'.outcomes == o.outcomes + [r(CountTrue(o.introduces))]
      && o'.introduces == o.introduces + [true]
      && FixesSame(o, o', n)
    case ConditionalPauli(p, ids, parity) => Corrects(o, o', p, ids, parity, n)
    case Noise(_) => SameObserved(o, o', n)
    case _ => Transforms(o, o', i, n)
  }

  // ----- the specific simulation

  /** The accumulated parity is odd exactly when the number of ones is. */
  lemma {:induction false} ParityCounts(outcomes: seq<bool>, ids: seq<nat>, k: nat)
    requires k <= |ids|
    ensures ParityTo(outcomes, ids, k) == (|OnePositions(outcomes, ids[..k])| % 2 == 1)
  {
    if k > 0 {
      ParityCounts(outcomes, ids, k - 1);
      var before := OnePositions(outcomes, ids[..k - 1]);
      assert OnePositions(outcomes, ids[..k])
          == if At(outcomes, ids[k - 1]) then before + {k - 1} else before;
    }
  }

  lemma TotalParityCounts(outcomes: seq<bool>, ids: seq<nat>)
    ensures TotalParity(outcomes, ids) == OddlyMany(outcomes, ids)
  {
    ParityCounts(outcomes, ids, |ids|);
    assert ids[..|ids|] == ids;
  }

  lemma RandomIsXPart(s: Specific, p: Pauli, n: nat)
    requires Valid(s.encoder, n) && On(p, n) && IsOrderTwo(p)
    ensures IsRandom(Observe(s), p) == !IsZero(Preimage(s.encoder, p).x)
    ensures IsZero(Preimage(s.encoder, p).x) ==>
      (Preimage(s.encoder, p).phase == 2) == IsStabilizer(s.encoder, Sign(true, p))
  {
    UpToSign(s.encoder, p, n);
    PreimageRotate(s.encoder, Half(true), p);
    hide Preimage, Valid, On, IsOrderTwo;
  }

  lemma RandomProjects(s: Specific, p: Pauli, v: Bits, b: bool, s': Specific, n: nat)
    requires Valid(s.encoder, n) && On(p, n) && IsOrderTwo(p) && |v| == n && Dot(Preimage(s.encoder, p).x, v)
    requires s'.encoder == AfterRandomOutcome(s.encoder, p, v, b)
    ensures Projects(Observe(s), Observe(s'), p, b, n)
  {
    hide IsStabilizer, On, Anti, Mul, AfterRandomOutcome, Valid, Preimage, Dot, IsOrderTwo, Sign;
    forall q | On(q, n)
      ensures IsStabilizer(s'.encoder, q)
          == (!Anti(q, p) && (IsStabilizer(s.encoder, q) || IsStabilizer(s.encoder, Sign(b, Mul(p, q)))))
    {
      MeasurementRule(s.encoder, p, v, b, q, n);
    }
  }

  lemma MeasureMeans(s: Specific, p: Pauli, n: nat, r: BitSource)
    requires SpecificValid(s, n) && On(p, n) && IsOrderTwo(p)
    ensures Measures(Observe(s), Observe(MeasureStep(s, p, r)), p, n, r)
  {
    Sizes(s.encoder, n);
    RandomIsXPart(s, p, n);
    ValidOn(s.encoder, n);
    var x := Preimage(s.encoder, p).x;
    if !IsZero(x) {
      PivotReplaces(s.encoder, p, n);
      RandomProjects(s, p, Unit(n, FirstOne(x)), r(s.branchBits), MeasureStep(s, p, r), n);
    }
    hide Preimage, IsStabilizer, AfterRandomOutcome, Valid, Projects, Anti, Dot, IsOrderTwo;
  }

  lemma HintMeans(s: Specific, p: Pauli, hint: Pauli, n: nat, r: BitSource)
    requires SpecificValid(s, n) && On(p, n) && IsOrderTwo(p) && On(hint, n) && Anti(p, hint)
    ensures Measures(Observe(s), Observe(MeasureWithHintStep(s, p, hint, r)), p, n, r)
  {
    hide Preimage, IsStabilizer, AfterRandomOutcome, HintUpdate, Valid, Projects, Anti, Dot, IsOrderTwo, MeasureStep, On,
         Sign, Mul;
    var h := Preimage(s.encoder, hint);
    if IsZero(h.x) {
      HintReplaces(s.encoder, p, hint, n);
      HintIsUpdate(s.encoder, p, hint, r(s.branchBits), n);
      RandomIsXPart(s, p, n);
      NotZeroOf(Preimage(s.encoder, p).x, h.z);
      RandomProjects(s, p, h.z, r(s.branchBits), MeasureWithHintStep(s, p, hint, r), n);
    } else {
      MeasureMeans(s, p, n, r);
    }
  }

  lemma NotZeroOf(a: Bits, v: Bits)
    ensures Dot(a, v) ==> !IsZero(a)
  {
    if IsZero(a) {
      DotOfZero(a, v);
    }
  }

  lemma CorrectionMeans(s: Specific, i: Instruction, n: nat, r: BitSource)
    requires SpecificValid(s, n) && WellFormed(i, n, |s.outcomes|) && i.ConditionalPauli?
    ensures |s.encoder.x| == |s.encoder.z| == n
    ensures Corrects(Observe(s), Observe(SpecificStep(s, i, n, r)), i.pauli, i.outcomes, i.parity, n)
  {
    hide IsStabilizer, OddlyMany, ParityTo, LeftMulPauli, Anti, On, Valid, Sign, Preimage;
    var p := i.pauli;
    Sizes(s.encoder, n);
    TotalParityCounts(s.outcomes, i.outcomes);
    forall q | On(q, n)
      ensures IsStabilizer(LeftMulPauli(s.encoder, p), q) == IsStabilizer(s.encoder, Sign(Anti(q, p), q))
    {
      PauliStabilizers(s.encoder, p, q, n);
    }
  }

  lemma PauliPreimage(t: Tableau, p: Pauli, q: Pauli, n: nat)
    requires Valid(t, n) && On(p, n) && On(q, n)
    ensures Preimage(LeftMulPauli(t, p), q) == Preimage(t, Sign(Anti(q, p), q))
  {
    StepPauli(t, p, n);
    ComposePreimage(t, LeftMulPauli(IdentityTableau(n), p), n);
    hide Preimage, Valid, LeftMulPauli, Compose, Anti, On;
  }

  /** The encoder after a unitary instruction, on every operator. */
  lemma UnitaryPreimage(t: Tableau, i: Instruction, q: Pauli, n: nat, count: nat)
    requires Valid(t, n) && IsUnitary(i) && WellFormed(i, n, count) && On(q, n)
    ensures |t.x| == |t.z| == n
    ensures Preimage(ApplyUnitary(t, i, n, count), q) == Preimage(t, Undone(i, q, n, count))
  {
    UnitaryStep(t, i, n, count);
    ComposePreimage(t, GateOf(i, n, count), n);
    GatePreimage(i, q, n, count);
    hide Preimage, Valid, ApplyUnitary, GateOf, Compose, Undone, On, WellFormed;
  }

  lemma GatePreimage(i: Instruction, q: Pauli, n: nat, count: nat)
    requires IsUnitary(i) && WellFormed(i, n, count) && On(q, n)
    ensures Preimage(GateOf(i, n, count), q) == Undone(i, q, n, count)
  {
    var one := IdentityTableau(n);
    IdentityTableauValid(n);
    hide Preimage, Valid, LeftMulPauli, LeftMulPauliExp, LeftMulControlledPauli, LeftMulPermutation, LeftMul,
         LeftMulClifford, Embedded, Transvection, Controlled, OnSupport, Step, IdentityTableau;
    match i
    case Unitary(_, _) =>
    case Clifford(gate, qubits) => EmbeddedIsGate(gate, qubits, n);
    case PauliGate(p) => StepPauli(one, p, n);
    case PauliExp(p) => StepPauliExp(one, p, n);
    case Permute(perm, qubits) => PermutationRelabels(perm, qubits, q, n);
    case ControlledPauli(c, d) => StepControlledPauli(one, c, d, n);
  }

  lemma UnitaryMeans(s: Specific, i: Instruction, n: nat, r: BitSource)
    requires SpecificValid(s, n) && WellFormed(i, n, |s.outcomes|) && IsUnitary(i)
    ensures |s.encoder.x| == |s.encoder.z| == n
    ensures Transforms(Observe(s), Observe(SpecificStep(s, i, n, r)), i, n)
  {
    Sizes(s.encoder, n);
    forall q | On(q, n)
      ensures IsStabilizer(ApplyUnitary(s.encoder, i, n, |s.outcomes|), q)
          == IsStabilizer(s.encoder, Undone(i, q, n, |s.outcomes|))
    {
      UnitaryPreimage(s.encoder, i, q, n, |s.outcomes|);
    }
    hide IsStabilizer, ApplyUnitary, Undone, WellFormed, Valid, On;
  }

  /** Every step of the specific simulation does what its instruction means. */
  lemma StepMeans(s: Specific, i: Instruction, n: nat, r: BitSource)
    requires SpecificValid(s, n) && WellFormed(i, n, |s.outcomes|)
    ensures |s.encoder.x| == |s.encoder.z| == n
    ensures Means(Observe(s), i, Observe(SpecificStep(s, i, n, r)), n, r)
  {
    Sizes(s.encoder, n);
    hide Valid, Preimage, IsStabilizer, MeasureStep, MeasureWithHintStep, Measures, Corrects, Transforms;
    match i
    case Measure(p, _) => MeasureMeans(s, p, n, r);
    case MeasureWithHint(p, hint, _) => HintMeans(s, p, hint, n, r);
    case AllocateRandomBit(_) =>
    case ConditionalPauli(_, _, _) => CorrectionMeans(s, i, n, r);
    case Noise(_) =>
    case _ => UnitaryMeans(s, i, n, r);
  }

  /** Before the first instruction the state is stabilized by the products of Z, without sign, and nothing else. */
  lemma InitialMeans(n: nat, r: BitSource, q: Pauli)
    requires On(q, n)
    ensures var o := Observe(RunSpecific([], n, r));
      o.outcomes == o.introduces == [] && (o.stabilizes(q) <==> IsZero(q.x) && q.phase == 0)
  {
    IdentityTableauValid(n);
    hide Preimage, IdentityTableau, Valid;
    assert Preimage(IdentityTableau(n), q) == q;
  }

  /** For every run, the last instruction did to the stabilizers and outcomes what it means. */
  lemma RunMeans(history: seq<Instruction>, i: Instruction, n: nat, r: BitSource)
    requires WellFormedCircuit(history, n) && WellFormed(i, n, OutcomeCount(history))
    ensures WellFormedCircuit(history + [i], n)
    ensures Means(Observe(RunSpecific(history, n, r)), i, Observe(RunSpecific(history + [i], n, r)), n, r)
  {
    WellFormedAppend(history, i, n);
    StepMeans(RunSpecific(history, n, r), i, n, r);
    hide WellFormed, SpecificStep, Means, Valid;
    assert history + [i] != [] && (history + [i])[|history|] == i;
  }

  // ----- the meaning determines the run

  lemma UndoneOn(i: Instruction, q: Pauli, n: nat, count: nat)
    requires IsUnitary(i) && WellFormed(i, n, count) && On(q, n)
    ensures On(Undone(i, q, n, count), n)
  {
    var one := IdentityTableau(n);
    IdentityTableauValid(n);
    UnitaryStep(one, i, n, count);
    GatePreimage(i, q, n, count);
    ValidOn(GateOf(i, n, count), n);
    PreimageOn(GateOf(i, n, count), q, n);
    hide Preimage, Valid, ApplyUnitary, GateOf, Compose, Undone, WellFormed, IdentityTableau, TableauOn;
  }

  lemma MeasuresSame(o: Observed, o': Observed, u: Observed, u': Observed, p: Pauli, n: nat, r: BitSource)
    requires On(p, n) && SameObserved(o, u, n) && Measures(o, o', p, n, r)
    ensures SameObserved(o', u', n) ==> Measures(u, u', p, n, r)
    ensures Measures(u, u', p, n, r) ==> SameObserved(o', u', n)
  {
    OnRules(n);
    assert On(Sign(true, p), n);
    hide Anti, Mul, On, Sign;
    forall q, b: bool | On(q, n) ensures u.stabilizes(q) == o.stabilizes(q)
      ensures u.stabilizes(Sign(b, Mul(p, q))) == o.stabilizes(Sign(b, Mul(p, q)))
    {
      SignOn(b, Mul(p, q), n);
    }
  }

  lemma SignOn(b: bool, p: Pauli, n: nat)
    requires On(p, n)
    ensures On(Sign(b, p), n)
  {
  }

  lemma CorrectsSame(o: Observed, o': Observed, u: Observed, u': Observed, p: Pauli, ids: seq<nat>, parity: bool, n: nat)
    requires SameObserved(o, u, n) && Corrects(o, o', p, ids, parity, n)
    ensures SameObserved(o', u', n) ==> Corrects(u, u', p, ids, parity, n)
    ensures Corrects(u, u', p, ids, parity, n) ==> SameObserved(o', u', n)
  {
    forall q, b: bool | On(q, n) ensures u.stabilizes(q) == o.stabilizes(q)
      ensures u.stabilizes(Sign(b, q)) == o.stabilizes(Sign(b, q))
    {
      SignOn(b, q, n);
    }
    hide Anti, On, Sign, OddlyMany;
  }

  lemma TransformsSame(o: Observed, o': Observed, u: Observed, u': Observed, i: Instruction, n: nat)
    requires IsUnitary(i) && WellFormed(i, n, |o.outcomes|) && SameObserved(o, u, n) && Transforms(o, o', i, n)
    ensures SameObserved(o', u', n) ==> Transforms(u, u', i, n)
    ensures Transforms(u, u', i, n) ==> SameObserved(o', u', n)
  {
    forall q | On(q, n)
      ensures u.stabilizes(Undone(i, q, n, |o.outcomes|)) == o.stabilizes(Undone(i, q, n, |o.outcomes|))
    {
      UndoneOn(i, q, n, |o.outcomes|);
    }
    hide On, Undone, WellFormed;
  }

  /** From one state an instruction can lead to one state only, and what it means depends only on what is observed. */
  lemma MeaningDetermines(o: Observed, o': Observed, u: Observed, u': Observed, i: Instruction, n: nat, r: BitSource)
    requires WellFormed(i, n, |o.outcomes|) && SameObserved(o, u, n) && Means(o, i, o', n, r)
    ensures SameObserved(o', u', n) <==> Means(u, i, u', n, r)
  {
    hide Measures, Corrects, Transforms;
    match i
    case Measure(p, _) => MeasuresSame(o, o', u, u', p, n, r);
    case MeasureWithHint(p, _, _) => MeasuresSame(o, o', u, u', p, n, r);
    case AllocateRandomBit(_) =>
    case ConditionalPauli(p, ids, parity) => CorrectsSame(o, o', u, u', p, ids, parity, n);
    case Noise(_) =>
    case _ => TransformsSame(o, o', u, u', i, n);
  }

  // ----- every branch of the complete simulation

  /** A branch of the complete run is the specific run of its random bits. */
  lemma BranchIsObserved(circuit: seq<Instruction>, n: nat, r: BitSource)
    requires WellFormedCircuit(circuit, n)
    ensures |RunComplete(circuit, n).shift| == |RunComplete(circuit, n).outcomeMatrix|
    ensures SameObserved(Observe(RunSpecific(circuit, n, r)), ObserveBranch(RunComplete(circuit, n), r), n)
  {
    var c := RunComplete(circuit, n);
    var z := CompleteRunIsEverySpecificRun(circuit, n, r);
    forall q | On(q, n)
      ensures IsStabilizer(RunSpecific(circuit, n, r).encoder, q) == StabilizesBranch(c, q, r)
    {
      StabilizerInOneBranch(circuit, n, q, r);
    }
    hide IsStabilizer, StabilizesBranch, RunComplete, RunSpecific, Twist, On, SpecificValid, CompleteValid;
  }

  /** For every run and every branch, the last instruction did to that branch what it means. */
  lemma BranchMeans(history: seq<Instruction>, i: Instruction, n: nat, r: BitSource)
    requires WellFormedCircuit(history, n) && WellFormed(i, n, OutcomeCount(history))
    ensures WellFormedCircuit(history + [i], n)
    ensures var c, c' := RunComplete(history, n), RunComplete(history + [i], n);
      && |c.shift| == |c.outcomeMatrix| == OutcomeCount(history) && |c'.shift| == |c'.outcomeMatrix|
      && Means(ObserveBranch(c, r), i, ObserveBranch(c', r), n, r)
  {
    RunMeans(history, i, n, r);
    BranchIsObserved(history, n, r);
    BranchIsObserved(history + [i], n, r);
    hide *;
    var c, c' := RunComplete(history, n), RunComplete(history + [i], n);
    var s, s' := RunSpecific(history, n, r), RunSpecific(history + [i], n, r);
    ObservedCount(s);
    MeaningDetermines(Observe(s), Observe(s'), ObserveBranch(c, r), ObserveBranch(c', r), i, n, r);
    SameCount(Observe(s), ObserveBranch(c, r), n);
  }

  lemma ObservedCount(s: Specific)
    ensures |Observe(s).outcomes| == |s.outcomes|
  {
  }

  lemma SameCount(o: Observed, u: Observed, n: nat)
    requires SameObserved(o, u, n)
    ensures |o.outcomes| == |u.outcomes|
  {
  }

  // ----- controlled Paulis on eigenstates of the control

  /** Multiplying by a stabilizer changes nothing, and what anticommutes with one is not a stabilizer. */
  lemma TimesStabilizer(t: Tableau, p: Pauli, q: Pauli, n: nat)
    requires Valid(t, n) && On(p, n) && On(q, n) && IsOrderTwo(p) && IsStabilizer(t, p)
    ensures IsStabilizer(t, Mul(p, q)) == IsStabilizer(t, q)
    ensures IsStabilizer(t, q) ==> !Anti(q, p)
  {
    OnRules(n);
    TwiceIsNothing(q, p, n);
    AntiSym(p, q);
    if IsStabilizer(t, q) {
      StabilizerMul(t, p, q, n);
    }
    if IsStabilizer(t, Mul(p, q)) {
      StabilizerMul(t, p, Mul(p, q), n);
    }
    hide IsStabilizer, Mul, Anti, IsOrderTwo, On, Valid;
  }

  lemma ControlledKeepsControl(q: Pauli, c: Pauli, d: Pauli, n: nat)
    requires !Anti(c, d)
    ensures Anti(Controlled(q, c, d), c) == Anti(q, c)
    ensures !Anti(q, c) ==> Controlled(q, c, d) == if Anti(q, d) then Mul(c, q) else q
  {
    AntiSelf(c);
    AntiSym(c, d);
    AntiRules();
    hide Mul, Anti;
  }

  lemma SignRules(c: Pauli, q: Pauli, n: nat)
    requires On(c, n) && On(q, n)
    ensures On(Sign(true, c), n) && IsOrderTwo(Sign(true, c)) == IsOrderTwo(c) && Anti(q, Sign(true, c)) == Anti(q, c)
    ensures Sign(true, Mul(c, q)) == Mul(Sign(true, c), q) && Mul(c, q) == Mul(Sign(true, c), Sign(true, q))
    ensures On(Sign(true, q), n) && Sign(false, q) == q
  {
    SignMul(true, true, c, q);
    SignFalse(Mul(c, q));
    SignFalse(q);
    RotateMul(2, c, q);
  }

  /**
   * A controlled Pauli does nothing to a state stabilized by its control, and applies its target to a state stabilized
   * by minus its control.
   */
  lemma ControlledOnEigenstates(t: Tableau, c: Pauli, d: Pauli, q: Pauli, n: nat)
    requires Valid(t, n) && On(c, n) && On(d, n) && IsOrderTwo(c) && IsOrderTwo(d) && !Anti(c, d) && On(q, n)
    ensures IsStabilizer(t, c) ==>
      IsStabilizer(LeftMulControlledPauli(t, c, d), q) == IsStabilizer(t, q)
    ensures IsStabilizer(t, Sign(true, c)) ==>
      IsStabilizer(LeftMulControlledPauli(t, c, d), q) == IsStabilizer(LeftMulPauli(t, d), q)
  {
    var w := Controlled(q, c, d);
    ControlledKeepsControl(q, c, d, n);
    ControlledStabilizers(t, c, d, q, n);
    PauliStabilizers(t, d, q, n);
    SignRules(c, q, n);
    SignRules(c, w, n);
    if IsStabilizer(t, c) {
      TimesStabilizer(t, c, q, n);
      TimesStabilizer(t, c, w, n);
    }
    if IsStabilizer(t, Sign(true, c)) {
      TimesStabilizer(t, Sign(true, c), w, n);
      TimesStabilizer(t, Sign(true, c), q, n);
      TimesStabilizer(t, Sign(true, c), Sign(true, q), n);
      AntiOfSigned(q, c);
    }
    hide *;
    assert Sign(Anti(q, d), q) == if Anti(q, d) then Sign(true, q) else q;
  }

  ghost predicate SameEncodedState(t: Tableau, u: Tableau, n: nat) {
    forall q {:trigger IsStabilizer(t, q)} {:trigger IsStabilizer(u, q)} ::
      On(q, n) ==> IsStabilizer(t, q) == IsStabilizer(u, q)
  }

  ghost predicate CommutesWithState(t: Tableau, d: Pauli, n: nat) {
    forall q {:trigger IsStabilizer(t, q)} :: On(q, n) && IsStabilizer(t, q) ==> !Anti(q, d)
  }

  lemma PlusEigenstateAt(t: Tableau, c: Pauli, d: Pauli, q: Pauli, n: nat)
    requires Valid(t, n) && On(c, n) && On(d, n) && IsOrderTwo(c) && IsOrderTwo(d) && !Anti(c, d) && On(q, n)
    requires IsStabilizer(t, c)
    ensures On(Sign(true, q), n) && Anti(Sign(true, q), d) == Anti(q, d)
    ensures IsStabilizer(LeftMulControlledPauli(t, c, d), q) == IsStabilizer(t, q)
    ensures IsStabilizer(LeftMulPauli(t, d), q) == IsStabilizer(t, if Anti(q, d) then Sign(true, q) else q)
    ensures IsStabilizer(t, q) ==> !IsStabilizer(t, Sign(true, q))
  {
    ControlledOnEigenstates(t, c, d, q, n);
    PauliStabilizers(t, d, q, n);
    SignRules(q, q, n);
    if IsStabilizer(t, q) {
      StabilizerMul(t, q, q, n);
    }
    hide IsStabilizer, On, Valid, IsOrderTwo, LeftMulPauli, LeftMulControlledPauli, Sign;
  }

  /**
   * The target is documented to be applied where the control is +1. On such a state that is what happens exactly when
   * the target commutes with every stabilizer, so that applying it or not makes no difference.
   */
  lemma PlusEigenstatePromise(t: Tableau, c: Pauli, d: Pauli, n: nat)
    requires Valid(t, n) && On(c, n) && On(d, n) && IsOrderTwo(c) && IsOrderTwo(d) && !Anti(c, d)
    requires IsStabilizer(t, c)
    ensures SameEncodedState(LeftMulControlledPauli(t, c, d), LeftMulPauli(t, d), n) <==> CommutesWithState(t, d, n)
  {
    hide IsStabilizer, On, Valid, IsOrderTwo, LeftMulPauli, LeftMulControlledPauli, Sign, Anti;
    if SameEncodedState(LeftMulControlledPauli(t, c, d), LeftMulPauli(t, d), n) {
      forall q | On(q, n) && IsStabilizer(t, q) ensures !Anti(q, d) {
        PlusEigenstateAt(t, c, d, q, n);
      }
    }
    if CommutesWithState(t, d, n) {
      forall q | On(q, n)
        ensures IsStabilizer(LeftMulControlledPauli(t, c, d), q) == IsStabilizer(LeftMulPauli(t, d), q)
      {
        PlusEigenstateAt(t, c, d, q, n);
      }
    }
  }

  /** On |00> a control Z and a target X on the other qubit leave the second qubit in |0>, though the control is +1. */
  lemma PlusEigenstateExample()
    ensures var u := LeftMulControlledPauli(IdentityTableau(2), PauliZ(2, 0), PauliX(2, 1));
      && IsStabilizer(IdentityTableau(2), PauliZ(2, 0))
      && IsStabilizer(u, PauliZ(2, 1)) && !IsStabilizer(LeftMulPauli(IdentityTableau(2), PauliX(2, 1)), PauliZ(2, 1))
  {
    var t, c, d, q := IdentityTableau(2), PauliZ(2, 0), PauliX(2, 1), PauliZ(2, 1);
    IdentityTableauValid(2);
    assert Preimage(t, c) == c && Preimage(t, q) == q;
    UnitsAnti(2, 1, 0);
    UnitsAnti(2, 1, 1);
    UnitsAnti(2, 0, 0);
    AntiSym(c, d);
    AntiSym(q, d);
    hide Preimage, LeftMulPauli, LeftMulControlledPauli, Valid, Anti, IsOrderTwo;
    ControlledOnEigenstates(t, c, d, q, 2);
    PauliStabilizers(t, d, q, 2);
    StabilizerMul(t, q, q, 2);
  }

  lemma AntiOfSigned(q: Pauli, c: Pauli)
    ensures Anti(Sign(true, q), Sign(true, c)) == Anti(q, c)
  {
  }

  lemma ControlledStabilizers(t: Tableau, c: Pauli, d: Pauli, q: Pauli, n: nat)
    requires Valid(t, n) && On(c, n) && On(d, n) && IsOrderTwo(c) && IsOrderTwo(d) && !Anti(c, d) && On(q, n)
    ensures On(Controlled(q, c, d), n)
    ensures IsStabilizer(LeftMulControlledPauli(t, c, d), q) == IsStabilizer(t, Controlled(q, c, d))
  {
    OnRules(n);
    StepControlledPauli(t, c, d, n);
    ComposePreimage(t, LeftMulControlledPauli(IdentityTableau(n), c, d), n);
    hide Preimage, LeftMulControlledPauli, Mul, Anti, IsOrderTwo, On, Valid, Compose;
  }

  lemma PauliStabilizers(t: Tableau, p: Pauli, q: Pauli, n: nat)
    requires Valid(t, n) && On(p, n) && On(q, n)
    ensures IsStabilizer(LeftMulPauli(t, p), q) == IsStabilizer(t, Sign(Anti(q, p), q))
  {
    PauliPreimage(t, p, q, n);
    hide Preimage, LeftMulPauli, Anti, On, Valid;
  }

  // ----- what the methods of the simulators promise

  /** A step of the specific simulation does what the instruction means. */
  ghost predicate StepMeaning(s: Specific, i: Instruction, s': Specific, n: nat, r: BitSource) {
    WellFormed(i, n, |s.outcomes|) && Means(Observe(s), i, Observe(s'), n, r)
  }

  lemma RecordedStepMeans(history: seq<Instruction>, i: Instruction, n: nat, r: BitSource)
    requires WellFormedCircuit(history, n) && WellFormed(i, n, OutcomeCount(history))
    ensures WellFormedCircuit(history + [i], n)
    ensures StepMeaning(RunSpecific(history, n, r), i, RunSpecific(history + [i], n, r), n, r)
  {
    RunMeans(history, i, n, r);
    hide Means, WellFormed, RunSpecific, SpecificValid;
  }

  /** A step of the complete simulation does in every branch what the instruction means. */
  ghost predicate EveryBranchMeaning(c: Complete, i: Instruction, c': Complete, n: nat) {
    && WellFormed(i, n, |c.shift|) && |c.shift| == |c.outcomeMatrix| && |c'.shift| == |c'.outcomeMatrix|
    && forall r: BitSource :: Means(ObserveBranch(c, r), i, ObserveBranch(c', r), n, r)
  }

  lemma RecordedBranchesMean(history: seq<Instruction>, i: Instruction, n: nat)
    requires WellFormedCircuit(history, n) && WellFormed(i, n, OutcomeCount(history))
    ensures WellFormedCircuit(history + [i], n)
    ensures EveryBranchMeaning(RunComplete(history, n), i, RunComplete(history + [i], n), n)
  {
    WellFormedAppend(history, i, n);
    var c, c' := RunComplete(history, n), RunComplete(history + [i], n);
    BranchMeans(history, i, n, k => false);
    forall r: BitSource ensures Means(ObserveBranch(c, r), i, ObserveBranch(c', r), n, r) {
      BranchMeans(history, i, n, r);
    }
    hide Means, WellFormed, RunComplete, CompleteValid, BranchOutcomes;
  }

  // ----- conditional signs

  /** A conditional sign holds iff the operator, negated for an odd number of ones, stabilizes the state. */
  lemma ConditionalSignMeans(s: Specific, p: Pauli, ids: seq<nat>)
    ensures SpecificHasConditionalSign(s, p, ids) <==> IsStabilizer(s.encoder, Sign(OddlyMany(s.outcomes, ids), p))
  {
    TotalParityCounts(s.outcomes, ids);
    PreimageRotate(s.encoder, Half(OddlyMany(s.outcomes, ids)), p);
    hide Preimage, TotalParity, OddlyMany;
  }
}
