/** Recording circuits, and noisy sampling: clean samples flipped by the deltas of the propagated frames. */
module FaultySampling {
  import opened Bits
  import opened Paulis
  import opened Tableaus
  import SupportGates
  import opened Circuits
  import opened SpecificModel
  import opened CompleteModel
  import Branches
  import opened FrameModel
  import opened FrameExactness
  import opened CompleteSimulation
  import opened FramePropagation

  // ----- recorded circuits

  lemma WellNumberedAppend(circuit: seq<Instruction>, i: Instruction)
    requires WellNumbered(circuit, 0) && (MakesOutcome(i) ==> i.outcomeId == OutcomeCount(circuit))
    ensures WellNumbered(circuit + [i], 0)
  {
    var after := circuit + [i];
    forall k | 0 <= k < |after| && MakesOutcome(after[k]) ensures after[k].outcomeId == OutcomeCount(after[..k]) {
      if k < |circuit| {
        assert after[..k] == circuit[..k];
      } else {
        assert after[..k] == circuit;
      }
    }
  }

  /** Running a correctly numbered circuit from the start never fails and repeats every call. */
  lemma RecordedCircuitReplays(circuit: seq<Instruction>, result: SimulationResult, after: seq<Instruction>)
    requires WellNumbered(circuit, 0) && SimulatesTo([], circuit, result, after)
    ensures result == Done && after == circuit
  {
  }

  class CircuitBuilder {
    var circuit: seq<Instruction>
    var outcomeCount: nat

    /** Outcomes are numbered in order, so that the recorded circuit can be replayed. */
    ghost predicate Valid()
      reads this
    {
      outcomeCount == OutcomeCount(circuit) && WellNumbered(circuit, 0)
    }

    constructor ()
      ensures Valid() && circuit == [] && outcomeCount == 0
    {
      circuit, outcomeCount := [], 0;
    }

    /** Records an instruction that already carries its outcome identifier, which must be the next one. */
    method Push(i: Instruction)
      requires Valid() && (MakesOutcome(i) ==> i.outcomeId == outcomeCount)
      modifies this
      ensures Valid() && circuit == old(circuit) + [i]
    {
      WellNumberedAppend(circuit, i);
      OutcomeCountAppend(circuit, i);
      hide OutcomeCount, WellNumbered;
      if MakesOutcome(i) {
        outcomeCount := outcomeCount + 1;
      }
      circuit := circuit + [i];
    }

    method Measure(p: Pauli) returns (id: nat)
      requires Valid()
      modifies this
      ensures Valid() && id == old(outcomeCount) && circuit == old(circuit) + [Instruction.Measure(p, id)]
    {
      id := outcomeCount;
      Push(Instruction.Measure(p, id));
    }

    /** The hint is not recorded. */
    method MeasureWithHint(p: Pauli, hint: Pauli) returns (id: nat)
      requires Valid()
      modifies this
      ensures Valid() && id == old(outcomeCount) && circuit == old(circuit) + [Instruction.Measure(p, id)]
    {
      id := Measure(p);
    }

    method AllocateRandomBit() returns (id: nat)
      requires Valid()
      modifies this
      ensures Valid() && id == old(outcomeCount) && circuit == old(circuit) + [Instruction.AllocateRandomBit(id)]
    {
      id := outcomeCount;
      Push(Instruction.AllocateRandomBit(id));
    }
  }

  // ----- the frames do not see hints

  lemma {:induction false} RunFrameUnhinted(circuit: seq<Instruction>, n: nat, shot: nat)
    requires WellFormedCircuit(circuit, n)
    ensures WellFormedCircuit(UnhintedCircuit(circuit), n)
    ensures RunFrame(UnhintedCircuit(circuit), n, shot) == RunFrame(circuit, n, shot)
  {
    UnhintedCircuitWellFormed(circuit, n);
    if circuit != [] {
      WellFormedPrefix(circuit, n);
      UnhintedPrefix(circuit);
      var front, last := circuit[..|circuit| - 1], circuit[|circuit| - 1];
      RunFrameUnhinted(front, n, shot);
      FrameStepUnhinted(RunFrame(front, n, shot), last, n, shot);
      hide FrameStep, Unhinted, WellFormed;
    }
  }

  lemma FrameStepUnhinted(f: Frame, i: Instruction, n: nat, shot: nat)
    requires WellFormed(i, n, |f.deltas|) && ProjectiveOn(f.error, n)
    ensures WellFormed(Unhinted(i), n, |f.deltas|)
    ensures FrameStep(f, Unhinted(i), n, shot) == FrameStep(f, i, n, shot)
  {
  }

  lemma FaultyUnhinted(circuit: seq<Instruction>, shot: nat, n: nat)
    ensures FaultyCircuit(UnhintedCircuit(circuit), shot, n) == FaultyCircuit(circuit, shot, n)
  {
  }

  lemma UnhintedAppend(circuit: seq<Instruction>, i: Instruction)
    ensures UnhintedCircuit(circuit + [i]) == UnhintedCircuit(circuit) + [Unhinted(i)]
  {
  }

  lemma UnhintedInvolutions(circuit: seq<Instruction>)
    requires forall k :: 0 <= k < |UnhintedCircuit(circuit)| ==> FramesApply(UnhintedCircuit(circuit)[k])
    ensures forall k :: 0 <= k < |circuit| ==> FramesApply(circuit[k])
  {
    forall k | 0 <= k < |circuit| ensures FramesApply(circuit[k]) {
      assert FramesApply(UnhintedCircuit(circuit)[k]);
    }
  }

  /**
   * What a noisy sample of one shot is: the outcomes of really running the recorded circuit with the faults of that
   * shot, on the random bits flipped at the random outcomes.
   */
  ghost predicate IsFaultyRun(circuit: seq<Instruction>, n: nat, shot: nat, introduces: seq<bool>, r: BitSource,
                              outcomes: seq<bool>)
    requires WellFormedCircuit(circuit, n)
  {
    && WellFormedCircuit(FaultyCircuit(circuit, shot, n), n)
    && var source := FaultySource(introduces, RunFrame(circuit, n, shot).deltas, r);
       outcomes == RunSpecific(FaultyCircuit(circuit, shot, n), n, source).outcomes
  }

  /** Flipping the clean outcomes of a run with hints is running the recorded circuit, which has none, with the faults. */
  lemma FlippedSampleIsFaultyRun(history: seq<Instruction>, n: nat, shot: nat, r: BitSource, outcomes: seq<bool>)
    requires WellFormedCircuit(history, n) && forall k :: 0 <= k < |history| ==> FramesApply(history[k])
    requires WellFormedCircuit(UnhintedCircuit(history), n)
    requires outcomes == FlippedOutcomes(RunSpecific(history, n, r).outcomes, RunFrame(UnhintedCircuit(history), n, shot).deltas)
    ensures IsFaultyRun(UnhintedCircuit(history), n, shot, RunComplete(history, n).introduces, r, outcomes)
  {
    RunFrameUnhinted(history, n, shot);
    FaultyUnhinted(history, shot, n);
    SameRandomOutcomes(history, n, r);
    FramePropagationIsExact(history, n, shot, r);
    hide RunSpecific, RunFrame, RunComplete, FaultySource, FaultyCircuit, WellFormedCircuit, FramesApply, UnhintedCircuit;
    var deltas := RunFrame(history, n, shot).deltas;
    var faulty := RunSpecific(FaultyCircuit(history, shot, n), n,
                              FaultySource(RunSpecific(history, n, r).introduces, deltas, r));
    assert outcomes == faulty.outcomes;
  }

  lemma SameRandomOutcomes(circuit: seq<Instruction>, n: nat, r: BitSource)
    requires WellFormedCircuit(circuit, n)
    ensures RunSpecific(circuit, n, r).introduces == RunComplete(circuit, n).introduces
  {
    Branches.OutcomesAreAffine(circuit, n, r);
  }

  class FaultySimulation {
    const builder: CircuitBuilder
    const noiseless: OutcomeCompleteSimulation

    /** The recorded circuit is what the noiseless simulator has run, with the faults and without the hints. */
    ghost predicate Consistent()
      reads builder, noiseless, noiseless.encoder.preimageX, noiseless.encoder.preimageZ, noiseless.signMatrix
    {
      && noiseless.Consistent() && builder.Valid()
      && builder.circuit == UnhintedCircuit(noiseless.history)
    }

    constructor (n: nat)
      ensures Consistent() && builder.circuit == [] && noiseless.qubitCount == n
      ensures fresh(builder) && fresh(noiseless)
      ensures fresh(noiseless.encoder) && fresh(noiseless.encoder.preimageX) && fresh(noiseless.encoder.preimageZ)
      ensures fresh(noiseless.signMatrix)
    {
      builder := new CircuitBuilder();
      noiseless := new OutcomeCompleteSimulation(n);
    }

    lemma InSync()
      requires Consistent()
      ensures builder.outcomeCount == |noiseless.introducesBranchBit| == |noiseless.outcomeMatrix|
    {
      noiseless.Sized();
      UnhintedPrefix(noiseless.history);
    }

    /** Both parts assign the same identifier. */
    method Measure(p: Pauli) returns (id: nat)
      requires Consistent() && On(p, noiseless.qubitCount) && IsOrderTwo(p)
      modifies builder, noiseless, noiseless.encoder.preimageX, noiseless.encoder.preimageZ, noiseless.signMatrix
      ensures Consistent() && id == old(builder.outcomeCount)
      ensures noiseless.history == old(noiseless.history) + [Instruction.Measure(p, id)]
    {
      InSync();
      id := noiseless.Measure(p);
      var id' := builder.Measure(p);
      UnhintedAppend(old(noiseless.history), Instruction.Measure(p, id));
    }

    method MeasureWithHint(p: Pauli, hint: Pauli) returns (id: nat)
      requires Consistent() && On(p, noiseless.qubitCount) && IsOrderTwo(p)
      requires On(hint, noiseless.qubitCount) && Anti(p, hint)
      modifies builder, noiseless, noiseless.encoder.preimageX, noiseless.encoder.preimageZ, noiseless.signMatrix
      ensures Consistent() && id == old(builder.outcomeCount)
      ensures noiseless.history == old(noiseless.history) + [Instruction.MeasureWithHint(p, hint, id)]
    {
      InSync();
      id := noiseless.MeasureWithHint(p, hint);
      var id' := builder.MeasureWithHint(p, hint);
      UnhintedAppend(old(noiseless.history), Instruction.MeasureWithHint(p, hint, id));
    }

    method AllocateRandomBit() returns (id: nat)
      requires Consistent()
      modifies builder, noiseless
      ensures Consistent() && id == old(builder.outcomeCount)
      ensures noiseless.history == old(noiseless.history) + [Instruction.AllocateRandomBit(id)]
    {
      InSync();
      id := noiseless.AllocateRandomBit();
      var id' := builder.AllocateRandomBit();
      UnhintedAppend(old(noiseless.history), Instruction.AllocateRandomBit(id));
    }

    method ConditionalPauli(p: Pauli, ids: seq<nat>, parity: bool)
      requires Consistent() && On(p, noiseless.qubitCount) && SupportGates.Below(ids, builder.outcomeCount)
      modifies builder, noiseless, noiseless.encoder.preimageX, noiseless.encoder.preimageZ, noiseless.signMatrix
      ensures Consistent()
      ensures noiseless.history == old(noiseless.history) + [Instruction.ConditionalPauli(p, ids, parity)]
    {
      InSync();
      noiseless.ConditionalPauli(p, ids, parity);
      builder.Push(Instruction.ConditionalPauli(p, ids, parity));
      UnhintedAppend(old(noiseless.history), Instruction.ConditionalPauli(p, ids, parity));
    }

    method ApplyGate(i: Instruction)
      requires Consistent() && IsUnitary(i) && WellFormed(i, noiseless.qubitCount, builder.outcomeCount)
      modifies builder, noiseless, noiseless.encoder.preimageX, noiseless.encoder.preimageZ
      ensures Consistent() && noiseless.history == old(noiseless.history) + [i]
    {
      InSync();
      noiseless.ApplyGate(i);
      builder.Push(i);
      UnhintedAppend(old(noiseless.history), i);
    }

    /** A fault is recorded in the circuit and does not touch the noiseless simulator. */
    method ApplyFault(faults: seq<Pauli>)
      requires Consistent() && forall k :: 0 <= k < |faults| ==> On(faults[k], noiseless.qubitCount)
      modifies builder, noiseless`history
      ensures Consistent() && noiseless.history == old(noiseless.history) + [Noise(faults)]
    {
      InSync();
      noiseless.RecordNoise(faults);
      builder.Push(Noise(faults));
      UnhintedAppend(old(noiseless.history), Noise(faults));
    }

    /** A new propagator that has executed the circuit. */
    static method Propagate(circuit: seq<Instruction>, n: nat, outcomes: nat, shots: nat)
      returns (propagator: FramePropagator)
      requires WellFormedCircuit(circuit, n) && outcomes == OutcomeCount(circuit)
      ensures fresh(propagator) && propagator.Consistent() && propagator.history == circuit
      ensures propagator.qubitCount == n && propagator.shotCount == shots && propagator.outcomeDeltas.Length == outcomes
    {
      hide *;
      hide FramePropagator.Consistent;
      propagator := new FramePropagator(n, outcomes, shots);
      propagator.AllDeltas();
      for k := 0 to |circuit|
        invariant propagator.Consistent() && propagator.history == circuit[..k]
        invariant propagator.nextOutcomeId == OutcomeCount(circuit[..k])
      {
        WellFormedAt(circuit, k, n);
        propagator.Execute(circuit[k]);
        propagator.AllDeltas();
        assert circuit[..k + 1] == circuit[..k] + [circuit[k]];
      }
      assert circuit[..|circuit|] == circuit;
    }

    /** Propagates the frames of all shots through the recorded circuit. */
    method SimulateCircuit(shots: nat) returns (deltas: seq<Bits>)
      requires Consistent()
      ensures WellFormedCircuit(builder.circuit, noiseless.qubitCount) && |deltas| == builder.outcomeCount
      ensures forall shot: nat :: shot < shots ==>
        Column(deltas, shot) == RunFrame(builder.circuit, noiseless.qubitCount, shot).deltas
    {
      UnhintedCircuitWellFormed(noiseless.history, noiseless.qubitCount);
      hide *;
      hide FramePropagator.Consistent;
      var circuit := builder.circuit;
      var propagator := Propagate(circuit, noiseless.qubitCount, builder.outcomeCount, shots);
      propagator.AllDeltas();
      deltas := propagator.outcomeDeltas[..];
      assert deltas == propagator.outcomeDeltas[..propagator.nextOutcomeId];
    }

    /**
     * Noisy samples, one shot for each row of random bits. When no permutation of the circuit is applied in the wrong
     * direction, each shot is a run of the recorded circuit with the faults of that shot.
     */
    method Sample(random: seq<Bits>) returns (outcomes: seq<seq<bool>>)
      requires Consistent()
      ensures |outcomes| == |random| && WellFormedCircuit(builder.circuit, noiseless.qubitCount)
      ensures forall shot: nat :: shot < |random| ==>
        outcomes[shot] == FlippedOutcomes(
          RunSpecific(noiseless.history, noiseless.qubitCount, SourceOf(random[shot])).outcomes,
          RunFrame(builder.circuit, noiseless.qubitCount, shot).deltas)
      ensures (forall k :: 0 <= k < |builder.circuit| ==> FramesApply(builder.circuit[k])) ==>
        forall shot: nat :: shot < |random| ==>
          IsFaultyRun(builder.circuit, noiseless.qubitCount, shot, noiseless.introducesBranchBit, SourceOf(random[shot]), outcomes[shot])
    {
      InSync();
      ghost var n, history := noiseless.qubitCount, noiseless.history;
      ghost var introduces := noiseless.introducesBranchBit;
      assert introduces == RunComplete(history, n).introduces;
      var clean := noiseless.Sample(random);
      var deltas := SimulateCircuit(|random|);
      hide *;
      outcomes := [];
      for shot := 0 to |random|
        invariant |outcomes| == shot
        invariant forall s: nat :: s < shot ==>
          outcomes[s] == FlippedOutcomes(RunSpecific(history, n, SourceOf(random[s])).outcomes,
                                         RunFrame(builder.circuit, n, s).deltas)
      {
        var row := AddDeltas(clean[shot], deltas, shot);
        outcomes := outcomes + [row];
      }
      if forall k :: 0 <= k < |builder.circuit| ==> FramesApply(builder.circuit[k]) {
        assert builder.circuit == UnhintedCircuit(history) by {
          Unfolded();
        }
        UnhintedInvolutions(history);
        forall shot: nat | shot < |random|
          ensures IsFaultyRun(builder.circuit, n, shot, introduces, SourceOf(random[shot]), outcomes[shot])
        {
          FlippedSampleIsFaultyRun(history, n, shot, SourceOf(random[shot]), outcomes[shot]);
        }
      }
    }

    lemma Unfolded()
      requires Consistent()
      ensures noiseless.Consistent() && builder.Valid() && builder.circuit == UnhintedCircuit(noiseless.history)
      ensures WellFormedCircuit(noiseless.history, noiseless.qubitCount)
      ensures noiseless.introducesBranchBit == RunComplete(noiseless.history, noiseless.qubitCount).introduces
    {
    }
  }

  /** Adds the deltas of one shot to its clean outcomes. */
  method AddDeltas(clean: seq<bool>, deltas: seq<Bits>, shot: nat) returns (row: seq<bool>)
    requires |clean| == |deltas|
    ensures row == FlippedOutcomes(clean, Column(deltas, shot))
  {
    row := [];
    for k := 0 to |clean|
      invariant |row| == k && forall j :: 0 <= j < k ==> row[j] == (clean[j] != At(deltas[j], shot))
    {
      row := row + [clean[k] != At(deltas[k], shot)];
    }
  }

  lemma WellFormedAt(circuit: seq<Instruction>, k: nat, n: nat)
    requires WellFormedCircuit(circuit, n) && k < |circuit|
    ensures WellFormed(circuit[k], n, OutcomeCount(circuit[..k]))
    ensures MakesOutcome(circuit[k]) ==> OutcomeCount(circuit[..k]) < OutcomeCount(circuit)
  {
    hide WellFormed, OutcomeCount;
    OutcomeCountConcat(circuit[..k + 1], circuit[k + 1..]);
    assert circuit == circuit[..k + 1] + circuit[k + 1..];
    assert circuit[..k + 1] == circuit[..k] + [circuit[k]];
    OutcomeCountAppend(circuit[..k], circuit[k]);
  }
}
