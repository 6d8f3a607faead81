/** The instruction language of a run. */
module Circuits {
  import opened Bits
  import opened Paulis
  import opened Tableaus
  import opened Gates
  import opened PauliGates
  import opened SupportGates

  /**
   * `MeasureWithHint` is a call that the simulators accept and that a recorded circuit turns into `Measure`.
   * `Noise` carries the operators that the noise placed, one for each shot.
   */
  datatype Instruction =
    | Unitary(op: UnitaryOp, qubits: seq<nat>)
    | Clifford(gate: Tableau, qubits: seq<nat>)
    | PauliGate(pauli: Pauli)
    | PauliExp(pauli: Pauli)
    | Permute(permutation: seq<nat>, qubits: seq<nat>)
    | ControlledPauli(control: Pauli, target: Pauli)
    | Measure(observable: Pauli, outcomeId: nat)
    | MeasureWithHint(observable: Pauli, hint: Pauli, outcomeId: nat)
    | AllocateRandomBit(outcomeId: nat)
    | ConditionalPauli(pauli: Pauli, outcomes: seq<nat>, parity: bool)
    | Noise(faults: seq<Pauli>)

  predicate IsUnitary(i: Instruction) {
    i.Unitary? || i.Clifford? || i.PauliGate? || i.PauliExp? || i.Permute? || i.ControlledPauli?
  }

  predicate MakesOutcome(i: Instruction) {
    i.Measure? || i.MeasureWithHint? || i.AllocateRandomBit?
  }

  /** Observables square to one, operands of a controlled Pauli commute, a hint anticommutes with the observable. */
  ghost predicate WellFormed(i: Instruction, n: nat, outcomeCount: nat) {
    match i
    case Unitary(op, qubits) => Accepts(op, qubits, n)
    case Clifford(gate, qubits) => Valid(gate, |qubits|) && Distinct(qubits) && Below(qubits, n)
    case PauliGate(p) => On(p, n)
    case PauliExp(p) => On(p, n) && IsOrderTwo(p)
    case Permute(perm, qubits) => |perm| == |qubits| && IsPermutation(perm) && Distinct(qubits) && Below(qubits, n)
    case ControlledPauli(c, d) => On(c, n) && On(d, n) && IsOrderTwo(c) && IsOrderTwo(d) && !Anti(c, d)
    case Measure(p, _) => On(p, n) && IsOrderTwo(p)
    case MeasureWithHint(p, hint, _) => On(p, n) && IsOrderTwo(p) && On(hint, n) && Anti(p, hint)
    case AllocateRandomBit(_) => true
    case ConditionalPauli(p, outcomes, _) => On(p, n) && Below(outcomes, outcomeCount)
    case Noise(faults) => forall k :: 0 <= k < |faults| ==> On(faults[k], n)
  }

  function OutcomesAfter(i: Instruction, count: nat): nat {
    if MakesOutcome(i) then count + 1 else count
  }

  function OutcomeCount(circuit: seq<Instruction>): nat {
    if circuit == [] then 0 else OutcomesAfter(circuit[|circuit| - 1], OutcomeCount(circuit[..|circuit| - 1]))
  }

  ghost predicate WellFormedCircuit(circuit: seq<Instruction>, n: nat) {
    forall k :: 0 <= k < |circuit| ==> WellFormed(circuit[k], n, OutcomeCount(circuit[..k]))
  }

  lemma WellFormedPrefix(circuit: seq<Instruction>, n: nat)
    requires circuit != [] && WellFormedCircuit(circuit, n)
    ensures WellFormedCircuit(circuit[..|circuit| - 1], n)
    ensures WellFormed(circuit[|circuit| - 1], n, OutcomeCount(circuit[..|circuit| - 1]))
  {
    var front := circuit[..|circuit| - 1];
    forall k | 0 <= k < |front| ensures WellFormed(front[k], n, OutcomeCount(front[..k])) {
      assert front[..k] == circuit[..k];
    }
  }

  /** The effect of a unitary instruction on the encoder. */
  ghost function ApplyUnitary(t: Tableau, i: Instruction, n: nat, count: nat): Tableau
    requires IsUnitary(i) && WellFormed(i, n, count) && |t.x| == |t.z| == n
  {
    match i
    case Unitary(op, qubits) => LeftMul(t, op, qubits)
    case Clifford(gate, qubits) => LeftMulClifford(t, gate, qubits)
    case PauliGate(p) => LeftMulPauli(t, p)
    case PauliExp(p) => LeftMulPauliExp(t, p)
    case Permute(perm, qubits) => LeftMulPermutation(t, perm, qubits)
    case ControlledPauli(c, d) => LeftMulControlledPauli(t, c, d)
  }

  /** The gate of a unitary instruction, as the encoder it makes out of the identity. */
  ghost function GateOf(i: Instruction, n: nat, count: nat): Tableau
    requires IsUnitary(i) && WellFormed(i, n, count)
  {
    ApplyUnitary(IdentityTableau(n), i, n, count)
  }

  lemma UnitaryStep(t: Tableau, i: Instruction, n: nat, count: nat)
    requires Valid(t, n) && IsUnitary(i) && WellFormed(i, n, count)
    ensures |t.x| == |t.z| == n
    ensures Step(t, ApplyUnitary(t, i, n, count), GateOf(i, n, count), n)
  {
    Sizes(t, n);
    hide Valid, Step, Preimage;
    match i
    case Unitary(op, qubits) => GateStep(t, op, qubits, n);
    case Clifford(gate, qubits) => CliffordStep(t, gate, qubits, n);
    case PauliGate(p) => StepPauli(t, p, n);
    case PauliExp(p) => StepPauliExp(t, p, n);
    case Permute(perm, qubits) => StepPermutation(t, perm, qubits, n);
    case ControlledPauli(c, d) => StepControlledPauli(t, c, d, n);
  }

  lemma CliffordStep(t: Tableau, g: Tableau, support: seq<nat>, n: nat)
    requires Valid(t, n) && Valid(g, |support|) && Distinct(support) && Below(support, n)
    ensures |g.x| == |g.z| == |support|
    ensures Step(t, LeftMulClifford(t, g, support), LeftMulClifford(IdentityTableau(n), g, support), n)
  {
    StepClifford(t, g, support, n);
    IdentityTableauValid(n);
    EmbeddedIsGate(g, support, n);
  }

  lemma EmbeddedIsGate(g: Tableau, support: seq<nat>, n: nat)
    requires Valid(g, |support|) && Distinct(support) && Below(support, n)
    ensures |g.x| == |g.z| == |support|
    ensures LeftMulClifford(IdentityTableau(n), g, support) == Embedded(g, support, n)
  {
    IdentityTableauValid(n);
    forall e | 0 <= e < |support|
      ensures On(OnSupport(g.x[e], support, n), n) && On(OnSupport(g.z[e], support, n), n)
    {
    }
    hide Preimage, OnSupport, On, PauliX, PauliZ;
  }

  // ----- runs as histories

  datatype SimulationResult = Done | InvalidInstructionOutcomeId(expected: nat, actual: nat)

  /** The outcome identifiers written in a circuit are the ones a simulator with `count` outcomes will assign. */
  predicate WellNumbered(circuit: seq<Instruction>, count: nat) {
    forall k :: 0 <= k < |circuit| && MakesOutcome(circuit[k]) ==>
      circuit[k].outcomeId == count + OutcomeCount(circuit[..k])
  }

  /** The first instruction whose written outcome identifier is wrong. */
  predicate FirstMisnumbered(circuit: seq<Instruction>, count: nat, k: nat) {
    && k < |circuit| && WellNumbered(circuit[..k], count)
    && MakesOutcome(circuit[k]) && circuit[k].outcomeId != count + OutcomeCount(circuit[..k])
  }

  lemma WellNumberedNext(circuit: seq<Instruction>, count: nat, k: nat)
    requires k < |circuit| && WellNumbered(circuit[..k], count)
    ensures WellNumbered(circuit[..k + 1], count) <==>
      (MakesOutcome(circuit[k]) ==> circuit[k].outcomeId == count + OutcomeCount(circuit[..k]))
  {
    hide MakesOutcome, OutcomeCount;
    assert forall j :: 0 <= j <= k ==> circuit[..k + 1][..j] == circuit[..k][..j] == circuit[..j];
    assert circuit[..k][..k] == circuit[..k];
  }

  /** The circuit may follow the history. */
  ghost predicate Continues(history: seq<Instruction>, circuit: seq<Instruction>, n: nat) {
    forall k :: 0 <= k < |circuit| ==> WellFormed(circuit[k], n, OutcomeCount(history) + OutcomeCount(circuit[..k]))
  }

  lemma StartsNumbered(circuit: seq<Instruction>, count: nat)
    ensures WellNumbered(circuit[..0], count)
  {
  }

  /**
   * What running a circuit after `before` leaves: every call recorded, or, at the first instruction whose written
   * outcome identifier is not the assigned one, an error with both identifiers after that instruction has run.
   */
  ghost predicate SimulatesTo(before: seq<Instruction>, circuit: seq<Instruction>, result: SimulationResult,
                              after: seq<Instruction>)
  {
    match result
    case Done => WellNumbered(circuit, OutcomeCount(before)) && after == before + circuit
    case InvalidInstructionOutcomeId(expected, actual) =>
      !WellNumbered(circuit, OutcomeCount(before)) && exists k :: StopsAt(before, circuit, k, expected, actual, after)
  }

  ghost predicate StopsAt(before: seq<Instruction>, circuit: seq<Instruction>, k: nat, expected: nat, actual: nat,
                          after: seq<Instruction>)
  {
    && FirstMisnumbered(circuit, OutcomeCount(before), k)
    && expected == circuit[k].outcomeId
    && actual == OutcomeCount(before) + OutcomeCount(circuit[..k])
    && after == before + circuit[..k] + [Renumbered(circuit[k], actual)]
  }

  lemma Misnumbered(before: seq<Instruction>, circuit: seq<Instruction>, k: nat, id: nat)
    requires k < |circuit| && WellNumbered(circuit[..k], OutcomeCount(before))
    requires circuit[k].Measure? || circuit[k].MeasureWithHint? || circuit[k].AllocateRandomBit?
    requires circuit[k].outcomeId != id == OutcomeCount(before) + OutcomeCount(circuit[..k])
    ensures SimulatesTo(before, circuit, InvalidInstructionOutcomeId(circuit[k].outcomeId, id),
                        before + circuit[..k] + [Renumbered(circuit[k], id)])
  {
    var after := before + circuit[..k] + [Renumbered(circuit[k], id)];
    assert StopsAt(before, circuit, k, circuit[k].outcomeId, id, after);
  }

  lemma AllNumbered(before: seq<Instruction>, circuit: seq<Instruction>)
    requires WellNumbered(circuit, OutcomeCount(before))
    ensures SimulatesTo(before, circuit, Done, before + circuit)
  {
  }

  lemma NumberedAt(circuit: seq<Instruction>, count: nat, k: nat, id: nat)
    requires k < |circuit| && WellNumbered(circuit[..k], count) && id == count + OutcomeCount(circuit[..k])
    requires circuit[k].Measure? || circuit[k].MeasureWithHint? || circuit[k].AllocateRandomBit? ==>
      circuit[k].outcomeId == id
    ensures WellNumbered(circuit[..k + 1], count) && Renumbered(circuit[k], id) == circuit[k]
  {
    WellNumberedNext(circuit, count, k);
  }

  lemma ContinuesAt(history: seq<Instruction>, circuit: seq<Instruction>, k: nat, n: nat)
    requires Continues(history, circuit, n) && k < |circuit|
    ensures OutcomeCount(history + circuit[..k]) == OutcomeCount(history) + OutcomeCount(circuit[..k])
    ensures WellFormed(circuit[k], n, OutcomeCount(history + circuit[..k]))
  {
    OutcomeCountConcat(history, circuit[..k]);
  }

  lemma OutcomeCountAppend(history: seq<Instruction>, i: Instruction)
    ensures OutcomeCount(history + [i]) == OutcomesAfter(i, OutcomeCount(history))
  {
    assert (history + [i])[..|history|] == history;
  }

  lemma OutcomeCountConcat(a: seq<Instruction>, b: seq<Instruction>)
    ensures OutcomeCount(a + b) == OutcomeCount(a) + OutcomeCount(b)
  {
    if b == [] {
      assert a + b == a;
    } else {
      var last := |b| - 1;
      OutcomeCountConcat(a, b[..last]);
      assert (a + b)[..|a + b| - 1] == a + b[..last];
    }
  }

  lemma WellFormedAppend(history: seq<Instruction>, i: Instruction, n: nat)
    requires WellFormedCircuit(history, n) && WellFormed(i, n, OutcomeCount(history))
    ensures WellFormedCircuit(history + [i], n)
    ensures (history + [i])[..|history + [i]| - 1] == history
  {
    var after := history + [i];
    hide WellFormed;
    forall k | 0 <= k < |after| ensures WellFormed(after[k], n, OutcomeCount(after[..k])) {
      if k < |history| {
        assert after[..k] == history[..k];
      } else {
        assert after[..k] == history;
      }
    }
  }

  /** The instruction as a simulator with `count` outcomes records it. */
  function Renumbered(i: Instruction, count: nat): Instruction {
    match i
    case Measure(p, _) => Measure(p, count)
    case MeasureWithHint(p, hint, _) => MeasureWithHint(p, hint, count)
    case AllocateRandomBit(_) => AllocateRandomBit(count)
    case _ => i
  }
}
