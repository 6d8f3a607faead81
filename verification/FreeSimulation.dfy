/** The outcome-free simulator: an encoder modulo phase and which outcomes were random. */
module FreeSimulation {
  import opened Bits
  import opened Paulis
  import opened Tableaus
  import opened Measurement
  import opened Gates
  import opened SupportGates
  import opened Circuits
  import opened FreeModel

  class OutcomeFreeSimulation {
    const qubitCount: nat
    var encoder: ModPauli
    var introducesBranchBit: seq<bool>
    var branchBitCount: nat
    /** The calls made so far, as instructions. */
    ghost var history: seq<Instruction>

    ghost function State(): Free
      reads this
    {
      Free(encoder, introducesBranchBit, branchBitCount)
    }

    ghost predicate Consistent()
      reads this
    {
      WellFormedCircuit(history, qubitCount) && State() == RunFree(history, qubitCount)
    }

    constructor (n: nat)
      ensures Consistent() && history == [] && qubitCount == n
    {
      qubitCount := n;
      encoder := Mod(IdentityTableau(n));
      introducesBranchBit, branchBitCount := [], 0;
      history := [];
    }

    lemma Sized()
      requires Consistent()
      ensures |encoder.x| == |encoder.z| == qubitCount && |introducesBranchBit| == OutcomeCount(history)
    {
    }

    ghost method Record(i: Instruction, before: Free)
      requires WellFormedCircuit(history, qubitCount) && before == RunFree(history, qubitCount)
      requires WellFormed(i, qubitCount, |before.introduces|)
      requires |before.encoder.x| == |before.encoder.z| == qubitCount
      requires State() == FreeStep(before, i, qubitCount)
      modifies this`history
      ensures Consistent() && history == old(history) + [i]
    {
      WellFormedAppend(history, i, qubitCount);
      history := history + [i];
    }

    method Allocate() returns (id: nat)
      modifies this`introducesBranchBit, this`branchBitCount
      ensures State() == FreeAllocate(old(State())) && id == old(|introducesBranchBit|)
    {
      branchBitCount := branchBitCount + 1;
      introducesBranchBit := introducesBranchBit + [true];
      id := |introducesBranchBit| - 1;
    }

    method MeasureProjective(p: Projective) returns (id: nat)
      requires |encoder.x| == qubitCount
      modifies this`encoder, this`introducesBranchBit, this`branchBitCount
      ensures State() == FreeMeasure(old(State()), p) && id == old(|introducesBranchBit|)
    {
      var preimage := ModPreimage(encoder, p);
      var pivot := FirstOne(preimage.x);
      if pivot < |preimage.x| {
        id := Allocate();
        encoder := ModAfterRandomOutcome(encoder, p, Unit(qubitCount, pivot));
      } else {
        introducesBranchBit := introducesBranchBit + [false];
      }
      id := |introducesBranchBit| - 1;
      hide ModPreimage, ModAfterRandomOutcome;
    }

    method Measure(p: Pauli) returns (id: nat)
      requires Consistent() && On(p, qubitCount) && IsOrderTwo(p)
      modifies this
      ensures id == old(|introducesBranchBit|) && Consistent()
      ensures history == old(history) + [Instruction.Measure(p, id)]
    {
      Sized();
      ghost var before := State();
      id := MeasureProjective(p.bits);
      Record(Instruction.Measure(p, id), before);
      hide FreeMeasure;
    }

    method MeasureWithHint(p: Pauli, hint: Pauli) returns (id: nat)
      requires Consistent() && On(p, qubitCount) && IsOrderTwo(p) && On(hint, qubitCount) && Anti(p, hint)
      modifies this
      ensures id == old(|introducesBranchBit|) && Consistent()
      ensures history == old(history) + [Instruction.MeasureWithHint(p, hint, id)]
    {
      Sized();
      hide FreeMeasure, ModPauliExp, ModPreimage;
      ghost var before := State();
      var preimage := ModPreimage(encoder, hint.bits);
      if FirstOne(preimage.x) < |preimage.x| {
        id := MeasureProjective(p.bits);
      } else {
        encoder := ModPauliExp(encoder, Sum(p.bits, hint.bits));
        id := Allocate();
      }
      Record(Instruction.MeasureWithHint(p, hint, id), before);
    }

    method AllocateRandomBit() returns (id: nat)
      requires Consistent()
      modifies this
      ensures id == old(|introducesBranchBit|) && Consistent()
      ensures history == old(history) + [Instruction.AllocateRandomBit(id)]
    {
      Sized();
      ghost var before := State();
      id := Allocate();
      Record(Instruction.AllocateRandomBit(id), before);
    }

    /** Corrections change no preimage modulo phase. */
    method ConditionalPauli(p: Pauli, ids: seq<nat>, parity: bool)
      requires Consistent() && On(p, qubitCount) && Below(ids, |introducesBranchBit|)
      modifies this
      ensures Consistent() && history == old(history) + [Instruction.ConditionalPauli(p, ids, parity)]
      ensures encoder == old(encoder)
    {
      Sized();
      Record(Instruction.ConditionalPauli(p, ids, parity), State());
    }

    method ApplyGate(i: Instruction)
      requires Consistent() && IsUnitary(i) && WellFormed(i, qubitCount, |introducesBranchBit|)
      modifies this
      ensures Consistent() && history == old(history) + [i]
    {
      Sized();
      ghost var before := State();
      hide ModLeftMul, ModClifford, ModPauliExp, ModPermutation, ModControlledPauli, ModPreimage;
      match i {
        case Unitary(op, qubits) => encoder := ModLeftMul(encoder, op, qubits);
        case Clifford(gate, qubits) =>
          Sizes(gate, |qubits|);
          encoder := ModClifford(encoder, gate, qubits);
        case PauliGate(_) =>
        case PauliExp(p) => encoder := ModPauliExp(encoder, p.bits);
        case Permute(perm, qubits) => encoder := ModPermutation(encoder, perm, qubits);
        case ControlledPauli(c, d) => encoder := ModControlledPauli(encoder, c.bits, d.bits);
      }
      Record(i, before);
    }

    method IsStabilizerUpToSign(p: Pauli) returns (yes: bool)
      requires Consistent() && On(p, qubitCount)
      ensures yes == IsZero(ModPreimage(RunFree(history, qubitCount).encoder, p.bits).x)
    {
      yes := IsZero(ModPreimage(encoder, p.bits).x);
    }
  }
}
