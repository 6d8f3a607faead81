/** The outcome-specific simulator: an encoder in place, the outcomes so far, and a source of random bits. */
module SpecificSimulation {
  import opened Bits
  import opened Paulis
  import opened Tableaus
  import opened Measurement
  import opened Gates
  import opened PauliGates
  import opened SupportGates
  import opened Circuits
  import opened SpecificModel
  import opened Encoders
  import opened Queries
  import opened Meaning

  lemma LastParity(outcomes: seq<bool>, b: bool)
    ensures TotalParity(outcomes + [b], [|outcomes|]) == b
  {
    assert ParityTo(outcomes + [b], [|outcomes|], 0) == false;
  }

  class OutcomeSpecificSimulation {
    const encoder: Encoder
    const qubitCount: nat
    const bitSource: BitSource
    var outcomeVector: seq<bool>
    var introducesBranchBit: seq<bool>
    var branchBitCount: nat
    /** The calls made so far, as instructions. */
    ghost var history: seq<Instruction>

    ghost function State(): Specific
      reads this, encoder.preimageX, encoder.preimageZ
    {
      Specific(encoder.Rows(), outcomeVector, introducesBranchBit, branchBitCount)
    }

    /** The fields hold the state that the calls made so far lead to. */
    ghost predicate Consistent()
      reads this, encoder.preimageX, encoder.preimageZ
    {
      && encoder.Shaped(qubitCount)
      && WellFormedCircuit(history, qubitCount)
      && State() == RunSpecific(history, qubitCount, bitSource)
    }

    constructor (n: nat, source: BitSource)
      ensures Consistent() && history == [] && qubitCount == n && bitSource == source
      ensures fresh(encoder) && fresh(encoder.preimageX) && fresh(encoder.preimageZ)
    {
      encoder := new Encoder(n);
      qubitCount, bitSource := n, source;
      outcomeVector, introducesBranchBit, branchBitCount := [], [], 0;
      history := [];
    }

    lemma Sized()
      requires Consistent()
      ensures SpecificValid(State(), qubitCount) && |outcomeVector| == OutcomeCount(history)
      ensures TableauOn(encoder.Rows(), qubitCount) && Valid(encoder.Rows(), qubitCount)
      ensures encoder.preimageX.Length == qubitCount
      ensures |outcomeVector| == |introducesBranchBit|
    {
    }

    /** Records one call, given that the fields have taken the step of its instruction. */
    ghost method Record(i: Instruction, before: Specific)
      requires encoder.Shaped(qubitCount)
      requires WellFormedCircuit(history, qubitCount) && before == RunSpecific(history, qubitCount, bitSource)
      requires WellFormed(i, qubitCount, |before.outcomes|) && |before.encoder.x| == |before.encoder.z| == qubitCount
      requires State() == SpecificStep(before, i, qubitCount, bitSource)
      modifies this`history
      ensures Consistent() && history == old(history) + [i]
      ensures StepMeaning(before, i, State(), qubitCount, bitSource)
    {
      WellFormedAppend(history, i, qubitCount);
      RecordedStepMeans(history, i, qubitCount, bitSource);
      history := history + [i];
      hide StepMeaning;
    }

    // ----- measurements

    /** Takes the next bit of the source as a new outcome. */
    method DrawOutcome() returns (b: bool)
      modifies this`outcomeVector, this`introducesBranchBit, this`branchBitCount
      ensures b == bitSource(old(branchBitCount))
      ensures State() == RecordRandom(old(State()), b)
    {
      b := bitSource(branchBitCount);
      outcomeVector := outcomeVector + [b];
      introducesBranchBit := introducesBranchBit + [true];
      branchBitCount := branchBitCount + 1;
    }

    method MeasureDeterministic(preimage: Pauli)
      modifies this`outcomeVector, this`introducesBranchBit
      ensures State() == RecordDeterministic(old(State()), preimage.phase == 2)
    {
      outcomeVector := outcomeVector + [preimage.phase == 2];
      introducesBranchBit := introducesBranchBit + [false];
    }

    method MeasureUnhinted(p: Pauli)
      requires encoder.Shaped(qubitCount) && TableauOn(encoder.Rows(), qubitCount) && On(p, qubitCount)
      modifies this`outcomeVector, this`introducesBranchBit, this`branchBitCount
      modifies encoder.preimageX, encoder.preimageZ
      ensures State() == MeasureStep(old(State()), p, bitSource)
    {
      var preimage := encoder.AssignPreimage(p);
      PreimageOn(encoder.Rows(), p, qubitCount);
      var pivot := FirstOne(preimage.x);
      if pivot < |preimage.x| {
        var outcome := DrawOutcome();
        encoder.UpdateForRandomOutcome(p, preimage, pivot, outcome);
      } else {
        MeasureDeterministic(preimage);
      }
      hide Preimage, AfterRandomOutcome;
    }

    method Measure(p: Pauli) returns (id: nat)
      requires Consistent() && On(p, qubitCount) && IsOrderTwo(p)
      modifies this, encoder.preimageX, encoder.preimageZ
      ensures id == old(|outcomeVector|) && Consistent() && history == old(history) + [Instruction.Measure(p, id)]
      ensures StepMeaning(old(State()), Instruction.Measure(p, id), State(), qubitCount, bitSource)
    {
      Sized();
      ghost var before := State();
      MeasureUnhinted(p);
      id := |introducesBranchBit| - 1;
      Record(Instruction.Measure(p, id), before);
    }

    /** The hint is a stabilizer up to phase: an exponential, then a correction that depends on the drawn outcome. */
    method MeasureTrueHint(p: Pauli, hint: Pauli, preimage: Pauli)
      requires encoder.Shaped(qubitCount) && TableauOn(encoder.Rows(), qubitCount)
      requires preimage == Preimage(encoder.Rows(), hint)
      modifies this`outcomeVector, this`introducesBranchBit, this`branchBitCount
      modifies encoder.preimageX, encoder.preimageZ
      ensures var b := bitSource(old(branchBitCount));
        State() == RecordRandom(old(State()), b).(encoder := HintUpdate(old(encoder.Rows()), p, hint, b))
    {
      hide Preimage, Mul, LeftMulPauliExp, LeftMulPauli, Rotate;
      var exponent := Rotate(3 - preimage.phase, Mul(p, hint));
      assert exponent == HintExponent(encoder.Rows(), p, hint);
      encoder.MulPauliExp(exponent);
      var outcome := DrawOutcome();
      LastParity(old(outcomeVector), outcome);
      var parity := ComputeParity([|outcomeVector| - 1]);
      if parity == true {
        encoder.MulPauli(hint);
      }
    }

    method MeasureHinted(p: Pauli, hint: Pauli)
      requires encoder.Shaped(qubitCount) && TableauOn(encoder.Rows(), qubitCount)
      requires On(p, qubitCount) && On(hint, qubitCount)
      modifies this`outcomeVector, this`introducesBranchBit, this`branchBitCount
      modifies encoder.preimageX, encoder.preimageZ
      ensures State() == MeasureWithHintStep(old(State()), p, hint, bitSource)
    {
      hide Preimage, MeasureStep, HintUpdate;
      var preimage := encoder.AssignPreimage(hint);
      if FirstOne(preimage.x) < |preimage.x| {
        MeasureUnhinted(p);
      } else {
        MeasureTrueHint(p, hint, preimage);
      }
    }

    method MeasureWithHint(p: Pauli, hint: Pauli) returns (id: nat)
      requires Consistent() && On(p, qubitCount) && IsOrderTwo(p) && On(hint, qubitCount) && Anti(p, hint)
      modifies this, encoder.preimageX, encoder.preimageZ
      ensures id == old(|outcomeVector|) && Consistent()
      ensures history == old(history) + [Instruction.MeasureWithHint(p, hint, id)]
      ensures StepMeaning(old(State()), Instruction.MeasureWithHint(p, hint, id), State(), qubitCount, bitSource)
    {
      Sized();
      ghost var before := State();
      SpecificStepValid(before, Instruction.MeasureWithHint(p, hint, 0), qubitCount, bitSource);
      MeasureHinted(p, hint);
      id := |outcomeVector| - 1;
      Record(Instruction.MeasureWithHint(p, hint, id), before);
    }

    method AllocateRandomBit() returns (id: nat)
      requires Consistent()
      modifies this
      ensures id == old(|outcomeVector|) && Consistent()
      ensures history == old(history) + [Instruction.AllocateRandomBit(id)]
      ensures StepMeaning(old(State()), Instruction.AllocateRandomBit(id), State(), qubitCount, bitSource)
    {
      Sized();
      ghost var before := State();
      var b := DrawOutcome();
      id := |introducesBranchBit| - 1;
      Record(Instruction.AllocateRandomBit(id), before);
    }

    // ----- corrections and gates

    /** The parity of the listed outcomes. */
    method ComputeParity(ids: seq<nat>) returns (res: bool)
      ensures res == TotalParity(outcomeVector, ids)
    {
      res := false;
      for k := 0 to |ids|
        invariant res == ParityTo(outcomeVector, ids, k)
      {
        res := res != At(outcomeVector, ids[k]);
      }
    }

    method ConditionalPauli(p: Pauli, ids: seq<nat>, parity: bool)
      requires Consistent() && On(p, qubitCount) && Below(ids, |outcomeVector|)
      modifies this, encoder.preimageX, encoder.preimageZ
      ensures Consistent() && history == old(history) + [Instruction.ConditionalPauli(p, ids, parity)]
      ensures StepMeaning(old(State()), Instruction.ConditionalPauli(p, ids, parity), State(), qubitCount, bitSource)
    {
      Sized();
      ghost var before := State();
      var total := ComputeParity(ids);
      if total == parity {
        encoder.MulPauli(p);
      }
      Record(Instruction.ConditionalPauli(p, ids, parity), before);
    }

    /** The unitary calls: `UnitaryOp`, `Clifford`, `Pauli`, `PauliExp`, `Permute` and `ControlledPauli`. */
    method ApplyGate(i: Instruction)
      requires Consistent() && IsUnitary(i) && WellFormed(i, qubitCount, |outcomeVector|)
      modifies this, encoder.preimageX, encoder.preimageZ
      ensures Consistent() && history == old(history) + [i]
      ensures StepMeaning(old(State()), i, State(), qubitCount, bitSource)
    {
      Sized();
      ghost var before := State();
      encoder.MulUnitary(i, qubitCount, OutcomeCount(history));
      hide ApplyUnitary;
      Record(i, before);
    }

    // ----- queries

    method IsStabilizerOf(p: Pauli) returns (yes: bool)
      requires Consistent() && On(p, qubitCount)
      ensures yes == IsStabilizer(RunSpecific(history, qubitCount, bitSource).encoder, p)
    {
      Sized();
      var preimage := encoder.AssignPreimage(p);
      yes := IsZero(preimage.x) && preimage.phase == 0;
    }

    method IsStabilizerWithConditionalSign(p: Pauli, ids: seq<nat>) returns (yes: bool)
      requires Consistent() && On(p, qubitCount) && Below(ids, |outcomeVector|)
      ensures yes == SpecificHasConditionalSign(RunSpecific(history, qubitCount, bitSource), p, ids)
    {
      Sized();
      var parity := ComputeParity(ids);
      var preimage := encoder.AssignPreimage(p);
      yes := IsZero(preimage.x) && preimage.phase & 1 == 0 && (preimage.phase == 0) != parity;
    }

    // ----- whole circuits

    /** Runs a recorded circuit; stops at the first instruction whose outcome identifier is not the assigned one. */
    method Simulate(circuit: seq<Instruction>) returns (result: SimulationResult)
      requires Consistent() && Continues(history, circuit, qubitCount)
      modifies this, encoder.preimageX, encoder.preimageZ
      ensures Consistent()
      ensures SimulatesTo(old(history), circuit, result, history)
    {
      ghost var count := OutcomeCount(history);
      hide *;
      hide Consistent;
      StartsNumbered(circuit, count);
      for k := 0 to |circuit|
        invariant Consistent() && history == old(history) + circuit[..k]
        invariant WellNumbered(circuit[..k], count)
      {
        var i := circuit[k];
        Sized();
        ContinuesAt(old(history), circuit, k, qubitCount);
        var id := Execute(i);
        if i.Measure? || i.MeasureWithHint? || i.AllocateRandomBit? {
          if i.outcomeId != id {
            Misnumbered(old(history), circuit, k, id);
            return InvalidInstructionOutcomeId(i.outcomeId, id);
          }
        }
        NumberedAt(circuit, count, k, id);
        assert circuit[..k + 1] == circuit[..k] + [i];
      }
      assert circuit[..|circuit|] == circuit;
      AllNumbered(old(history), circuit);
      result := Done;
    }

    /** One instruction of a circuit; noise instructions are skipped. */
    method Execute(i: Instruction) returns (id: nat)
      requires Consistent() && WellFormed(i, qubitCount, |outcomeVector|)
      modifies this, encoder.preimageX, encoder.preimageZ
      ensures Consistent() && history == old(history) + [Renumbered(i, id)] && id == old(|outcomeVector|)
    {
      id := |outcomeVector|;
      Sized();
      match i {
        case Measure(p, _) => id := Measure(p);
        case MeasureWithHint(p, hint, _) => id := MeasureWithHint(p, hint);
        case AllocateRandomBit(_) => id := AllocateRandomBit();
        case ConditionalPauli(p, ids, parity) => ConditionalPauli(p, ids, parity);
        case Noise(_) => Record(i, State());
        case _ => ApplyGate(i);
      }
    }
  }
}
