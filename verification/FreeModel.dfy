/** The outcome-free simulation as a state machine over values: the same updates on operators modulo phase. */
module FreeModel {
  import opened Bits
  import opened Paulis
  import opened Tableaus
  import opened Measurement
  import opened Gates
  import opened PauliGates
  import opened SupportGates
  import opened Circuits
  import opened SpecificModel
  import opened CompleteModel

  datatype ModPauli = ModPauli(x: seq<Projective>, z: seq<Projective>)

  datatype Free = Free(encoder: ModPauli, introduces: seq<bool>, branchBits: nat)

  function ModProduct(rows: seq<Projective>, bits: Bits, k: nat, n: nat): Projective
    requires k <= |rows|
  {
    if k == 0 then IdentityBits(n)
    else if At(bits, k - 1) then Sum(ModProduct(rows, bits, k - 1, n), rows[k - 1])
    else ModProduct(rows, bits, k - 1, n)
  }

  function ModPreimage(t: ModPauli, p: Projective): Projective {
    Sum(ModProduct(t.x, p.x, |t.x|, |t.x|), ModProduct(t.z, p.z, |t.z|, |t.x|))
  }

  // ----- gates; Pauli factors and phases disappear

  function ModHadamard(t: ModPauli, q: nat): ModPauli
    requires q < |t.x| && q < |t.z|
  {
    ModPauli(t.x[q := t.z[q]], t.z[q := t.x[q]])
  }

  function ModRootZ(t: ModPauli, q: nat): ModPauli
    requires q < |t.x| && q < |t.z|
  {
    t.(x := t.x[q := Sum(t.z[q], t.x[q])])
  }

  function ModRootX(t: ModPauli, q: nat): ModPauli
    requires q < |t.x| && q < |t.z|
  {
    t.(z := t.z[q := Sum(t.x[q], t.z[q])])
  }

  function ModCX(t: ModPauli, c: nat, d: nat): ModPauli
    requires c < |t.x| && c < |t.z| && d < |t.x| && d < |t.z|
  {
    ModPauli(t.x[c := Sum(t.x[d], t.x[c])], t.z[d := Sum(t.z[c], t.z[d])])
  }

  function ModCZ(t: ModPauli, c: nat, d: nat): ModPauli
    requires c != d && c < |t.x| && c < |t.z| && d < |t.x| && d < |t.z|
  {
    t.(x := t.x[c := Sum(t.z[d], t.x[c])][d := Sum(t.z[c], t.x[d])])
  }

  function ModSwap(t: ModPauli, c: nat, d: nat): ModPauli
    requires c < |t.x| && c < |t.z| && d < |t.x| && d < |t.z|
  {
    ModPauli(t.x[c := t.x[d]][d := t.x[c]], t.z[c := t.z[d]][d := t.z[c]])
  }

  function ModLeftMul(t: ModPauli, op: UnitaryOp, qubits: seq<nat>): ModPauli
    requires |t.x| == |t.z| && Accepts(op, qubits, |t.x|)
  {
    match op
    case I | X | Y | Z => t
    case SqrtX | SqrtXInv => ModRootX(t, qubits[0])
    case SqrtY | SqrtYInv | Hadamard => ModHadamard(t, qubits[0])
    case SqrtZ | SqrtZInv => ModRootZ(t, qubits[0])
    case Swap => ModSwap(t, qubits[0], qubits[1])
    case ControlledX => ModCX(t, qubits[0], qubits[1])
    case ControlledZ => ModCZ(t, qubits[0], qubits[1])
    case PrepareBell => ModCX(ModHadamard(t, qubits[0]), qubits[0], qubits[1])
  }

  function ModRow(row: Projective, factor: Projective, multiplied: bool): Projective {
    if multiplied then Sum(row, factor) else row
  }

  function ModPauliExp(t: ModPauli, p: Projective): ModPauli {
    var f := ModPreimage(t, p);
    ModPauli(seq(|t.x|, q requires 0 <= q < |t.x| => ModRow(t.x[q], f, At(p.z, q))),
             seq(|t.z|, q requires 0 <= q < |t.z| => ModRow(t.z[q], f, At(p.x, q))))
  }

  function ModControlledPauli(t: ModPauli, control: Projective, target: Projective): ModPauli {
    var c, d := ModPreimage(t, control), ModPreimage(t, target);
    ModPauli(
      seq(|t.x|, q requires 0 <= q < |t.x| => ModRow(ModRow(t.x[q], d, At(control.z, q)), c, At(target.z, q))),
      seq(|t.z|, q requires 0 <= q < |t.z| => ModRow(ModRow(t.z[q], d, At(control.x, q)), c, At(target.x, q))))
  }

  function ModOnSupport(p: Projective, support: seq<nat>, n: nat): Projective {
    Projective(Scatter(p.x, support, n), Scatter(p.z, support, n))
  }

  function ModClifford(t: ModPauli, g: Tableau, support: seq<nat>): ModPauli
    requires |support| <= |g.x| && |support| <= |g.z|
  {
    var n := |t.x|;
    ModPauli(
      seq(|t.x|, q requires 0 <= q < |t.x| =>
        var e := Position(support, q);
        if e >= 0 then ModPreimage(t, ModOnSupport(g.x[e].bits, support, n)) else t.x[q]),
      seq(|t.z|, q requires 0 <= q < |t.z| =>
        var e := Position(support, q);
        if e >= 0 then ModPreimage(t, ModOnSupport(g.z[e].bits, support, n)) else t.z[q]))
  }

  function ModPermutation(t: ModPauli, perm: seq<nat>, support: seq<nat>): ModPauli
    requires |t.x| == |t.z| && |perm| == |support| && IsPermutation(perm) && Below(support, |t.x|)
  {
    ModPauli(
      seq(|t.x|, q requires 0 <= q < |t.x| => SourceBelow(perm, support, q, |t.x|); t.x[Source(perm, support, q)]),
      seq(|t.z|, q requires 0 <= q < |t.z| => SourceBelow(perm, support, q, |t.z|); t.z[Source(perm, support, q)]))
  }

  ghost function ModUnitary(t: ModPauli, i: Instruction, n: nat, count: nat): ModPauli
    requires IsUnitary(i) && WellFormed(i, n, count) && |t.x| == |t.z| == n
  {
    match i
    case Unitary(op, qubits) => ModLeftMul(t, op, qubits)
    case Clifford(gate, qubits) => ModClifford(t, gate, qubits)
    case PauliGate(_) => t
    case PauliExp(p) => ModPauliExp(t, p.bits)
    case Permute(perm, qubits) => ModPermutation(t, perm, qubits)
    case ControlledPauli(c, d) => ModControlledPauli(t, c.bits, d.bits)
  }

  // ----- measurements

  /** The update for a random outcome; without phases the outcome does not matter. */
  function ModAfterRandomOutcome(t: ModPauli, p: Projective, v: Bits): ModPauli {
    var f := Sum(ModPreimage(t, p), Projective(Zeros(|v|), v));
    ModPauli(seq(|t.x|, q requires 0 <= q < |t.x| => ModRow(t.x[q], f, At(p.z, q) != Dot(t.x[q].x, v))),
             seq(|t.z|, q requires 0 <= q < |t.z| => ModRow(t.z[q], f, At(p.x, q) != Dot(t.z[q].x, v))))
  }

  function FreeAllocate(s: Free): Free {
    s.(introduces := s.introduces + [true], branchBits := s.branchBits + 1)
  }

  function FreeMeasure(s: Free, p: Projective): Free {
    var preimage := ModPreimage(s.encoder, p);
    if IsZero(preimage.x) then s.(introduces := s.introduces + [false])
    else FreeAllocate(s).(encoder :=
      ModAfterRandomOutcome(s.encoder, p, Unit(|s.encoder.x|, FirstOne(preimage.x))))
  }

  function FreeMeasureWithHint(s: Free, p: Projective, hint: Projective): Free {
    if !IsZero(ModPreimage(s.encoder, hint).x) then FreeMeasure(s, p)
    else FreeAllocate(s).(encoder := ModPauliExp(s.encoder, Sum(p, hint)))
  }

  ghost function FreeStep(s: Free, i: Instruction, n: nat): Free
    requires WellFormed(i, n, |s.introduces|) && |s.encoder.x| == |s.encoder.z| == n
  {
    match i
    case Measure(p, _) => FreeMeasure(s, p.bits)
    case MeasureWithHint(p, hint, _) => FreeMeasureWithHint(s, p.bits, hint.bits)
    case AllocateRandomBit(_) => FreeAllocate(s)
    case ConditionalPauli(_, _, _) => s
    case Noise(_) => s
    case _ => s.(encoder := ModUnitary(s.encoder, i, n, |s.introduces|))
  }

  // ----- forgetting phases

  function ModRows(rows: seq<Pauli>): seq<Projective> {
    seq(|rows|, q requires 0 <= q < |rows| => rows[q].bits)
  }

  function Mod(t: Tableau): ModPauli {
    ModPauli(ModRows(t.x), ModRows(t.z))
  }

  function Forget(s: Specific): Free {
    Free(Mod(s.encoder), s.introduces, s.branchBits)
  }

  lemma ProductMod(rows: seq<Pauli>, bits: Bits, k: nat, n: nat)
    requires k <= |rows|
    ensures ModProduct(ModRows(rows), bits, k, n) == Product(rows, bits, k, n).bits
  {
  }

  lemma PreimageMod(t: Tableau, p: Pauli)
    ensures ModPreimage(Mod(t), p.bits) == Preimage(t, p).bits
  {
    ProductMod(t.x, p.x, |t.x|, |t.x|);
    ProductMod(t.z, p.z, |t.z|, |t.x|);
  }

  lemma BitsRules()
    ensures forall p, q :: Mul(p, q).bits == Sum(p.bits, q.bits)
    ensures forall k, p :: Rotate(k, p).bits == p.bits
    ensures forall b, p :: Sign(b, p).bits == p.bits
  {
  }

  lemma LeftMulMod(t: Tableau, op: UnitaryOp, qubits: seq<nat>)
    requires |t.x| == |t.z| && Accepts(op, qubits, |t.x|)
    ensures ModLeftMul(Mod(t), op, qubits) == Mod(LeftMul(t, op, qubits))
  {
    BitsRules();
    hide Mul, Rotate, Sum;
  }

  lemma UnitaryMod(t: Tableau, i: Instruction, n: nat, count: nat)
    requires IsUnitary(i) && WellFormed(i, n, count) && |t.x| == |t.z| == n
    ensures ModUnitary(Mod(t), i, n, count) == Mod(ApplyUnitary(t, i, n, count))
  {
    BitsRules();
    forall p: Pauli ensures ModPreimage(Mod(t), p.bits) == Preimage(t, p).bits {
      PreimageMod(t, p);
    }
    match i
    case Unitary(op, qubits) => LeftMulMod(t, op, qubits);
    case Clifford(gate, qubits) => CliffordMod(t, gate, qubits);
    case PauliGate(_) =>
    case PauliExp(p) =>
      hide Mul, Rotate, Sum, Preimage, ModPreimage;
    case Permute(_, _) =>
    case ControlledPauli(c, d) =>
      ControlledMod(t, c, d);
  }

  lemma CliffordMod(t: Tableau, g: Tableau, support: seq<nat>)
    requires |support| <= |g.x| && |support| <= |g.z|
    ensures ModClifford(Mod(t), g, support) == Mod(LeftMulClifford(t, g, support))
  {
    var n := |t.x|;
    forall p: Pauli ensures ModPreimage(Mod(t), OnSupport(p, support, n).bits) == Preimage(t, OnSupport(p, support, n)).bits {
      PreimageMod(t, OnSupport(p, support, n));
    }
    hide Preimage, ModPreimage, Scatter;
  }

  lemma ControlledMod(t: Tableau, c: Pauli, d: Pauli)
    ensures ModControlledPauli(Mod(t), c.bits, d.bits) == Mod(LeftMulControlledPauli(t, c, d))
  {
    PreimageMod(t, c);
    PreimageMod(t, d);
    BitsRules();
    forall p, q ensures Sum(p, q) == Sum(q, p) {
      SumComm(p, q);
    }
    hide Preimage, ModPreimage, Sum, Mul;
  }

  lemma RandomMod(t: Tableau, p: Pauli, v: Bits, b: bool)
    ensures ModAfterRandomOutcome(Mod(t), p.bits, v) == Mod(AfterRandomOutcome(t, p, v, b))
  {
    PreimageMod(t, p);
    BitsRules();
    hide Preimage, ModPreimage, Mul, Rotate, Dot;
  }

  lemma HintMod(t: Tableau, p: Pauli, hint: Pauli, b: bool)
    ensures ModPauliExp(Mod(t), Sum(p.bits, hint.bits)) == Mod(HintUpdate(t, p, hint, b))
  {
    PreimageMod(t, HintExponent(t, p, hint));
    BitsRules();
    hide Preimage, ModPreimage, Mul, Rotate, Sum;
  }

  lemma MeasureMod(s: Specific, p: Pauli, r: BitSource)
    ensures FreeMeasure(Forget(s), p.bits) == Forget(MeasureStep(s, p, r))
  {
    PreimageMod(s.encoder, p);
    if !IsZero(Preimage(s.encoder, p).x) {
      RandomMod(s.encoder, p, Unit(|s.encoder.x|, FirstOne(Preimage(s.encoder, p).x)), r(s.branchBits));
    }
    hide Preimage, ModPreimage, AfterRandomOutcome, ModAfterRandomOutcome;
  }

  /** Forgetting phases commutes with every instruction, whatever the random bits and the outcomes so far. */
  lemma ForgetStep(s: Specific, i: Instruction, n: nat, r: BitSource)
    requires WellFormed(i, n, |s.outcomes|) && |s.outcomes| == |s.introduces|
    requires |s.encoder.x| == |s.encoder.z| == n
    ensures FreeStep(Forget(s), i, n) == Forget(SpecificStep(s, i, n, r))
  {
    match i
    case Measure(p, _) => MeasureMod(s, p, r);
    case MeasureWithHint(p, hint, _) =>
      MeasureMod(s, p, r);
      PreimageMod(s.encoder, hint);
      HintMod(s.encoder, p, hint, r(s.branchBits));
      hide Preimage, ModPreimage, HintUpdate, ModPauliExp, FreeMeasure, MeasureStep;
    case AllocateRandomBit(_) =>
    case ConditionalPauli(p, _, _) => BitsRules();
    case Noise(_) =>
    case _ => UnitaryMod(s.encoder, i, n, |s.outcomes|);
  }

  ghost function RunFree(circuit: seq<Instruction>, n: nat): (s: Free)
    requires WellFormedCircuit(circuit, n)
    ensures |s.encoder.x| == |s.encoder.z| == n && |s.introduces| == OutcomeCount(circuit)
  {
    if circuit == [] then Free(Mod(IdentityTableau(n)), [], 0)
    else
      WellFormedPrefix(circuit, n);
      var before := RunFree(circuit[..|circuit| - 1], n);
      FreeStepSizes(before, circuit[|circuit| - 1], n);
      FreeStep(before, circuit[|circuit| - 1], n)
  }

  lemma FreeStepSizes(s: Free, i: Instruction, n: nat)
    requires WellFormed(i, n, |s.introduces|) && |s.encoder.x| == |s.encoder.z| == n
    ensures var s' := FreeStep(s, i, n);
      |s'.encoder.x| == |s'.encoder.z| == n && |s'.introduces| == OutcomesAfter(i, |s.introduces|)
  {
    hide ModPreimage, Dot;
  }

  /**
   * The outcome-free run is the phase-forgetting projection of the specific run for every source of random bits: the
   * same preimages modulo phase and the same random outcomes, so randomness never depends on outcome values.
   */
  lemma {:induction false} FreeRunIsProjection(circuit: seq<Instruction>, n: nat, r: BitSource)
    requires WellFormedCircuit(circuit, n)
    ensures RunFree(circuit, n) == Forget(RunSpecific(circuit, n, r))
  {
    if circuit != [] {
      WellFormedPrefix(circuit, n);
      var front := circuit[..|circuit| - 1];
      FreeRunIsProjection(front, n, r);
      var s := RunSpecific(front, n, r);
      Sizes(s.encoder, n);
      ForgetStep(s, circuit[|circuit| - 1], n, r);
      hide FreeStep, SpecificStep, Forget, WellFormed;
    }
  }
}
