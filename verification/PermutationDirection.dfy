/**
 * Frames move permuted errors in the direction opposite to the encoder. A circuit that faults one qubit, permutes and
 * measures shows it, unless the permutation is an involution.
 */
module PermutationDirection {
  import opened Bits
  import opened Paulis
  import opened Tableaus
  import opened Measurement
  import opened Gates
  import opened PauliGates
  import opened SupportGates
  import opened Circuits
  import opened SpecificModel
  import opened FrameModel
  import opened FrameExactness

  ghost predicate Permutes(perm: seq<nat>, support: seq<nat>, n: nat) {
    |perm| == |support| && IsPermutation(perm) && Distinct(support) && Below(support, n)
  }

  /** An X fault on the qubit at position `a` in shot 0, the permutation, and Z measured where the frame moves the fault. */
  function ProbeCircuit(perm: seq<nat>, support: seq<nat>, a: nat, n: nat): seq<Instruction>
    requires a < |perm| == |support| && Below(perm, |support|)
  {
    [Noise([PauliX(n, support[a])]), Permute(perm, support), Measure(PauliZ(n, support[perm[a]]), 0)]
  }

  lemma ProbeWellFormed(perm: seq<nat>, support: seq<nat>, a: nat, n: nat)
    requires Permutes(perm, support, n) && a < |perm|
    ensures WellFormedCircuit(ProbeCircuit(perm, support, a, n), n)
  {
    UnitsAnti(n, support[perm[a]], support[perm[a]]);
    UnitsOn(n, support[a]);
    UnitsOn(n, support[perm[a]]);
    hide Permutes, On, IsOrderTwo, PauliX, PauliZ;
  }

  /** The measurement reads the row that was on the qubit twice along the permutation. */
  lemma PermuteThenMeasure(s: Specific, perm: seq<nat>, support: seq<nat>, a: nat, n: nat, r: BitSource)
    requires Permutes(perm, support, n) && a < |perm|
    requires Valid(s.encoder, n) && |s.encoder.x| == |s.encoder.z| == n && s.outcomes == []
    requires IsZero(s.encoder.z[support[perm[perm[a]]]].x)
    ensures var after := s.(encoder := LeftMulPermutation(s.encoder, perm, support));
      MeasureStep(after, PauliZ(n, support[perm[a]]), r).outcomes == [s.encoder.z[support[perm[perm[a]]]].phase == 2]
  {
    var q := support[perm[a]];
    PositionOf(support, perm[a]);
    assert Source(perm, support, q) == support[perm[perm[a]]];
    StepPermutation(s.encoder, perm, support, n);
    var u := LeftMulPermutation(s.encoder, perm, support);
    ValidOn(u, n);
    PreimageGenerator(u, q, n);
    assert u.z[q] == s.encoder.z[support[perm[perm[a]]]];
    hide Valid, Preimage, AfterRandomOutcome, Position, Permutes, IsPermutation;
  }

  lemma ProbeRun(first: Instruction, perm: seq<nat>, support: seq<nat>, a: nat, n: nat, r: BitSource)
    requires Permutes(perm, support, n) && a < |perm|
    requires !MakesOutcome(first) && WellFormed(first, n, 0)
    requires var circuit := [first, Permute(perm, support), Measure(PauliZ(n, support[perm[a]]), 0)];
      WellFormedCircuit(circuit, n)
    ensures |InitialSpecific(n).encoder.x| == |InitialSpecific(n).encoder.z| == n
    ensures var circuit := [first, Permute(perm, support), Measure(PauliZ(n, support[perm[a]]), 0)];
      var s := SpecificStep(InitialSpecific(n), first, n, r);
      |s.encoder.z| == n && (IsZero(s.encoder.z[support[perm[perm[a]]]].x) ==>
        RunSpecific(circuit, n, r).outcomes == [s.encoder.z[support[perm[perm[a]]]].phase == 2])
  {
    var circuit := [first, Permute(perm, support), Measure(PauliZ(n, support[perm[a]]), 0)];
    hide WellFormed, WellFormedCircuit, IsPermutation, LeftMulPermutation, MeasureStep, Valid, RunFrame;
    RunUnfolds(circuit, n, 0, r);
    assert circuit[..2] == [first, Permute(perm, support)];
    RunUnfolds(circuit[..2], n, 0, r);
    assert circuit[..2][..1] == [first];
    RunUnfolds([first], n, 0, r);
    assert [first][..0] == [];
    var s := RunSpecific([first], n, r);
    if IsZero(s.encoder.z[support[perm[perm[a]]]].x) {
      PermuteThenMeasure(s, perm, support, a, n, r);
    }
  }

  lemma FaultedRow(n: nat, f: nat, q: nat, r: BitSource)
    requires f < n && q < n
    ensures On(PauliX(n, f), n) && |InitialSpecific(n).encoder.x| == |InitialSpecific(n).encoder.z| == n
    ensures var s := SpecificStep(InitialSpecific(n), PauliGate(PauliX(n, f)), n, r);
      |s.encoder.z| == n && IsZero(s.encoder.z[q].x) && (s.encoder.z[q].phase == 2 <==> q == f)
    ensures var s := InitialSpecific(n);
      IsZero(s.encoder.z[q].x) && s.encoder.z[q].phase == 0
  {
  }

  /** The clean outcome of the probe is zero; the faulty one is one exactly when the permutation leads back in two steps. */
  lemma ProbeOutcomes(perm: seq<nat>, support: seq<nat>, a: nat, n: nat, r: BitSource)
    requires Permutes(perm, support, n) && a < |perm|
    ensures var circuit := ProbeCircuit(perm, support, a, n);
      && WellFormedCircuit(circuit, n) && WellFormedCircuit(FaultyCircuit(circuit, 0, n), n)
      && RunSpecific(circuit, n, r).outcomes == [false]
      && RunSpecific(FaultyCircuit(circuit, 0, n), n, r).outcomes == [perm[perm[a]] == a]
  {
    var circuit := ProbeCircuit(perm, support, a, n);
    ProbeWellFormed(perm, support, a, n);
    FaultyCircuitWellFormed(circuit, 0, n);
    var f, q := support[a], support[perm[perm[a]]];
    FaultedRow(n, f, q, r);
    assert q == f <==> perm[perm[a]] == a;
    var fault := PauliGate(PauliX(n, f));
    assert FaultyCircuit(circuit, 0, n) == [fault, Permute(perm, support), Measure(PauliZ(n, support[perm[a]]), 0)];
    hide WellFormedCircuit, RunSpecific, RunFrame, PauliX, PauliZ, Permutes, FaultyCircuit;
    ProbeRun(Noise([PauliX(n, f)]), perm, support, a, n, r);
    ProbeRun(fault, perm, support, a, n, r);
  }

  /** In the frame the fault always ends on the measured qubit. */
  lemma ProbeDelta(perm: seq<nat>, support: seq<nat>, a: nat, n: nat, r: BitSource)
    requires Permutes(perm, support, n) && a < |perm|
    ensures WellFormedCircuit(ProbeCircuit(perm, support, a, n), n)
    ensures RunFrame(ProbeCircuit(perm, support, a, n), n, 0).deltas == [true]
  {
    ProbeWellFormed(perm, support, a, n);
    var circuit := ProbeCircuit(perm, support, a, n);
    FaultMoves(perm, support, a, n);
    hide WellFormed, WellFormedCircuit, SpecificStep, RunSpecific, Permutes, AntiBits, FramePermute, Sum, PauliX, PauliZ,
         IdentityBits;
    RunUnfolds(circuit, n, 0, r);
    assert circuit[..2] == [circuit[0], circuit[1]];
    RunUnfolds(circuit[..2], n, 0, r);
    assert circuit[..2][..1] == [circuit[0]];
    RunUnfolds([circuit[0]], n, 0, r);
    assert [circuit[0]][..0] == [];
  }

  lemma FaultMoves(perm: seq<nat>, support: seq<nat>, a: nat, n: nat)
    requires Permutes(perm, support, n) && a < |perm|
    ensures var e := Sum(IdentityBits(n), PauliX(n, support[a]).bits);
      AntiBits(PauliZ(n, support[perm[a]]).bits, FramePermute(e, perm, support))
  {
    var e := Sum(IdentityBits(n), PauliX(n, support[a]).bits);
    var q := support[perm[a]];
    var moved := FramePermute(e, perm, support);
    UnitBitsAnti(moved, q, n);
    PositionOf(support, perm[a]);
    PositionOf(perm, a);
    assert FrameSource(perm, support, q) == support[a];
  }

  /** The frame predicts the faulty outcomes of a circuit in shot 0, with the random bits of the clean run. */
  ghost predicate PredictsFault(circuit: seq<Instruction>, n: nat, r: BitSource)
    requires WellFormedCircuit(circuit, n) && WellFormedCircuit(FaultyCircuit(circuit, 0, n), n)
  {
    RunSpecific(FaultyCircuit(circuit, 0, n), n, r).outcomes
    == FlippedOutcomes(RunSpecific(circuit, n, r).outcomes, RunFrame(circuit, n, 0).deltas)
  }

  ghost predicate ProbePredicted(perm: seq<nat>, support: seq<nat>, a: nat, n: nat, r: BitSource)
    requires a < |perm| == |support| && Below(perm, |support|)
  {
    && WellFormedCircuit(ProbeCircuit(perm, support, a, n), n)
    && WellFormedCircuit(FaultyCircuit(ProbeCircuit(perm, support, a, n), 0, n), n)
    && PredictsFault(ProbeCircuit(perm, support, a, n), n, r)
  }

  /** Frames predict every probe of a permutation exactly when it is an involution. */
  lemma PermutationExactIffInvolution(perm: seq<nat>, support: seq<nat>, n: nat, r: BitSource)
    requires Permutes(perm, support, n)
    ensures (forall a: nat :: a < |perm| ==> ProbePredicted(perm, support, a, n, r)) <==> IsInvolution(perm)
  {
    hide ProbePredicted;
    forall a: nat | a < |perm| ensures ProbePredicted(perm, support, a, n, r) <==> perm[perm[a]] == a {
      ProbePrediction(perm, support, a, n, r);
    }
  }

  lemma ProbePrediction(perm: seq<nat>, support: seq<nat>, a: nat, n: nat, r: BitSource)
    requires Permutes(perm, support, n) && a < |perm|
    ensures ProbePredicted(perm, support, a, n, r) <==> perm[perm[a]] == a
  {
    ProbeOutcomes(perm, support, a, n, r);
    ProbeDelta(perm, support, a, n, r);
    assert FlippedOutcomes([false], [true]) == [true];
    hide WellFormedCircuit, RunSpecific, RunFrame, FaultyCircuit, ProbeCircuit, Permutes, FlippedOutcomes;
  }

  /** A cyclic permutation of three qubits: the predicted flip does not happen. */
  lemma ThreeCycleIsMispredicted(r: BitSource)
    ensures IsPermutation([1, 2, 0]) && WellFormedCircuit(ProbeCircuit([1, 2, 0], [0, 1, 2], 0, 3), 3)
    ensures !ProbePredicted([1, 2, 0], [0, 1, 2], 0, 3, r)
  {
    assert Permutes([1, 2, 0], [0, 1, 2], 3);
    ProbeWellFormed([1, 2, 0], [0, 1, 2], 0, 3);
    ProbePrediction([1, 2, 0], [0, 1, 2], 0, 3, r);
  }
}
