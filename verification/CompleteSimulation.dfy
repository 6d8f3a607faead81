/** The outcome-complete simulator: one encoder for all branches, with the sign and outcome matrices updated in place. */
module CompleteSimulation {
  import opened Bits
  import opened Paulis
  import opened Tableaus
  import opened Measurement
  import opened Gates
  import opened PauliGates
  import opened SupportGates
  import opened Circuits
  import opened SpecificModel
  import opened CompleteModel
  import opened Branches
  import opened Encoders
  import opened Queries
  import opened Meaning

  /** The sum of the rows listed by index. */
  method SumRows(rows: seq<Bits>, ids: seq<nat>) returns (sum: Bits)
    requires forall j :: 0 <= j < |ids| ==> ids[j] < |rows|
    ensures sum == ListedRowSum(rows, ids, |ids|)
  {
    sum := [];
    for k := 0 to |ids|
      invariant sum == ListedRowSum(rows, ids, k)
    {
      sum := Xor(sum, rows[ids[k]]);
    }
  }

  lemma {:induction false} ListedPrefix(rows: seq<Bits>, ids: seq<nat>, last: nat, k: nat)
    requires k <= |ids| && (forall j :: 0 <= j < |ids| ==> ids[j] < |rows|) && last < |rows|
    ensures forall j :: 0 <= j < |ids + [last]| ==> (ids + [last])[j] < |rows|
    ensures ListedRowSum(rows, ids + [last], k) == ListedRowSum(rows, ids, k)
  {
    hide Xor;
    if k > 0 {
      ListedPrefix(rows, ids, last, k - 1);
      assert (ids + [last])[k - 1] == ids[k - 1];
    }
  }

  lemma ListedAppend(rows: seq<Bits>, ids: seq<nat>, last: nat)
    requires (forall j :: 0 <= j < |ids| ==> ids[j] < |rows|) && last < |rows|
    ensures forall j :: 0 <= j < |ids + [last]| ==> (ids + [last])[j] < |rows|
    ensures ListedRowSum(rows, ids + [last], |ids + [last]|) == Xor(ListedRowSum(rows, ids, |ids|), rows[last])
  {
    hide Xor;
    ListedPrefix(rows, ids, last, |ids|);
    assert (ids + [last])[|ids|] == last;
  }

  ghost predicate ListsSum(rows: seq<Bits>, bits: Bits, k: nat, ids: seq<nat>)
    requires k <= |rows|
  {
    && (forall j :: 0 <= j < |ids| ==> ids[j] < |rows|)
    && ListedRowSum(rows, ids, |ids|) == RowSumTo(rows, bits, k)
  }

  lemma ListsSumStep(rows: seq<Bits>, bits: Bits, k: nat, ids: seq<nat>)
    requires 0 < k <= |rows| && ListsSum(rows, bits, k - 1, ids)
    ensures ListsSum(rows, bits, k, if At(bits, k - 1) then ids + [k - 1] else ids)
  {
    if At(bits, k - 1) {
      ListedAppend(rows, ids, k - 1);
    }
    hide Xor, ListedRowSum;
  }

  /** Summing the rows at the ones of a vector is the matrix product with that vector. */
  lemma {:induction false} SupportRowSum(rows: seq<Bits>, bits: Bits, k: nat)
    requires k <= |rows|
    ensures ListsSum(rows, bits, k, SupportTo(bits, k))
  {
    if k == 0 {
      assert ListsSum(rows, bits, 0, []);
      assert SupportTo(bits, k) == [];
      hide *;
    } else {
      SupportRowSum(rows, bits, k - 1);
      SupportStep(bits, k);
      hide *;
      ListsSumStep(rows, bits, k, SupportTo(bits, k - 1));
    }
  }

  lemma SingleRowSum(rows: seq<Bits>, k: nat)
    requires k < |rows|
    ensures ListedRowSum(rows, [k], 1) == rows[k]
  {
    assert ListedRowSum(rows, [k], 0) == [];
    assert Zeros(0) == [];
    XorZeros(rows[k], 0);
  }

  /** The source of bits that a row of random bits stands for. */
  function SourceOf(bits: Bits): BitSource {
    (j: nat) => At(bits, j)
  }

  lemma EvalToIsDotTo(a: Bits, bits: Bits, k: nat)
    ensures EvalTo(a, SourceOf(bits), k) == DotTo(a, bits, k)
  {
  }

  lemma EvalIsDot(a: Bits, bits: Bits)
    ensures Eval(a, SourceOf(bits)) == Dot(a, bits)
  {
    EvalToIsDotTo(a, bits, |a|);
    DotToStable(a, bits, |a|);
  }

  lemma ShotIsRun(circuit: seq<Instruction>, n: nat, bits: Bits, row: seq<bool>)
    requires WellFormedCircuit(circuit, n)
    requires |row| == |RunComplete(circuit, n).outcomeMatrix| == |RunComplete(circuit, n).shift|
    requires forall k :: 0 <= k < |row| ==>
      row[k] == (Dot(RunComplete(circuit, n).outcomeMatrix[k], bits) != RunComplete(circuit, n).shift[k])
    ensures row == RunSpecific(circuit, n, SourceOf(bits)).outcomes
  {
    hide RunSpecific, RunComplete, Eval, Dot, SourceOf;
    OutcomesAreAffine(circuit, n, SourceOf(bits));
    forall k | 0 <= k < |row| ensures row[k] == RunSpecific(circuit, n, SourceOf(bits)).outcomes[k] {
      EvalIsDot(RunComplete(circuit, n).outcomeMatrix[k], bits);
    }
  }

  /** The product of a matrix with a vector. */
  method MultiplyBits(rows: seq<Bits>, bits: Bits) returns (product: seq<bool>)
    ensures |product| == |rows| && forall k :: 0 <= k < |rows| ==> product[k] == Dot(rows[k], bits)
  {
    product := [];
    for k := 0 to |rows|
      invariant |product| == k && forall j :: 0 <= j < k ==> product[j] == Dot(rows[j], bits)
    {
      product := product + [Dot(rows[k], bits)];
    }
  }

  method AddShift(row: seq<bool>, shift: seq<bool>) returns (sum: seq<bool>)
    requires |row| == |shift|
    ensures |sum| == |row| && forall k :: 0 <= k < |row| ==> sum[k] == (row[k] != shift[k])
  {
    sum := [];
    for k := 0 to |row|
      invariant |sum| == k && forall j :: 0 <= j < k ==> sum[j] == (row[j] != shift[j])
    {
      sum := sum + [row[k] != shift[k]];
    }
  }

  class OutcomeCompleteSimulation {
    const encoder: Encoder
    const signMatrix: array<Bits>
    const qubitCount: nat
    var outcomeMatrix: seq<Bits>
    var outcomeShift: seq<bool>
    var introducesBranchBit: seq<bool>
    var branchBitCount: nat
    /** The calls made so far, as instructions. */
    ghost var history: seq<Instruction>

    ghost function State(): Complete
      reads this, encoder.preimageX, encoder.preimageZ, signMatrix
    {
      Complete(encoder.Rows(), signMatrix[..], outcomeMatrix, outcomeShift, introducesBranchBit, branchBitCount)
    }

    ghost predicate Shaped()
    {
      encoder.Shaped(qubitCount) && signMatrix.Length == qubitCount
    }

    /** The fields hold the state that the calls made so far lead to. */
    ghost predicate Consistent()
      reads this, encoder.preimageX, encoder.preimageZ, signMatrix
    {
      && Shaped()
      && WellFormedCircuit(history, qubitCount)
      && State() == RunComplete(history, qubitCount)
    }

    constructor (n: nat)
      ensures Consistent() && history == [] && qubitCount == n
      ensures fresh(encoder) && fresh(encoder.preimageX) && fresh(encoder.preimageZ) && fresh(signMatrix)
    {
      encoder := new Encoder(n);
      signMatrix := new Bits[n](q => []);
      qubitCount := n;
      outcomeMatrix, outcomeShift, introducesBranchBit, branchBitCount := [], [], [], 0;
      history := [];
      new;
      assert signMatrix[..] == seq(n, q => []);
    }

    lemma Sized()
      requires Consistent()
      ensures Shaped() && CompleteValid(State(), qubitCount) && |outcomeMatrix| == OutcomeCount(history)
      ensures TableauOn(encoder.Rows(), qubitCount) && Valid(encoder.Rows(), qubitCount)
      ensures |outcomeMatrix| == |outcomeShift| == |introducesBranchBit|
    {
    }

    /** Records one call, given that the fields have taken the step of its instruction. */
    ghost method Record(i: Instruction, before: Complete)
      requires Shaped()
      requires WellFormedCircuit(history, qubitCount) && before == RunComplete(history, qubitCount)
      requires WellFormed(i, qubitCount, |before.outcomeMatrix|)
      requires TableauOn(before.encoder, qubitCount) && |before.signs| == qubitCount
      requires State() == CompleteStep(before, i, qubitCount)
      modifies this`history
      ensures Consistent() && history == old(history) + [i]
      ensures EveryBranchMeaning(before, i, State(), qubitCount)
    {
      WellFormedAppend(history, i, qubitCount);
      RecordedBranchesMean(history, i, qubitCount);
      history := history + [i];
      hide EveryBranchMeaning;
    }

    // ----- the branch bookkeeping

    method AllocateBranch() returns (id: nat, bit: nat)
      requires |outcomeMatrix| == |introducesBranchBit|
      modifies this`outcomeMatrix, this`outcomeShift, this`introducesBranchBit, this`branchBitCount
      ensures State() == AllocateBranchBit(old(State()))
      ensures id == old(|introducesBranchBit|) && bit == old(branchBitCount)
    {
      id, bit := |introducesBranchBit|, branchBitCount;
      outcomeMatrix := outcomeMatrix + [SetBit([], bit, true)];
      outcomeShift := outcomeShift + [false];
      introducesBranchBit := introducesBranchBit + [true];
      branchBitCount := branchBitCount + 1;
    }

    /** Adds the indicator to the sign rows selected by `bits`. */
    method XorSignRows(bits: Bits, indicator: Bits)
      modifies signMatrix
      ensures signMatrix[..] == AddToRows(old(signMatrix[..]), bits, indicator)
    {
      for q := 0 to signMatrix.Length
        invariant forall j :: 0 <= j < signMatrix.Length ==>
          signMatrix[j] == if j < q && At(bits, j) then Xor(old(signMatrix[j]), indicator) else old(signMatrix[j])
      {
        if At(bits, q) {
          signMatrix[q] := Xor(signMatrix[q], indicator);
        }
      }
    }

    /** Conjugates by `p` in the branches where the linear function `indicator` is one. */
    method ApplyPauliConditionedOnBranchBits(p: Pauli, indicator: Bits)
      requires Shaped() && TableauOn(encoder.Rows(), qubitCount)
      modifies signMatrix
      ensures signMatrix[..] == AddToRows(old(signMatrix[..]), Preimage(encoder.Rows(), p).x, indicator)
    {
      var preimage := encoder.AssignPreimage(p);
      XorSignRows(preimage.x, indicator);
    }

    /** The parity of the listed outcomes as an affine function of the branch bits. */
    method OutcomeParity(ids: seq<nat>) returns (mask: Bits, constant: bool)
      requires Below(ids, |outcomeMatrix|)
      ensures mask == ListedRowSum(outcomeMatrix, ids, |ids|) && constant == TotalParity(outcomeShift, ids)
    {
      mask := SumRows(outcomeMatrix, ids);
      constant := false;
      for k := 0 to |ids|
        invariant constant == ParityTo(outcomeShift, ids, k)
      {
        constant := constant != At(outcomeShift, ids[k]);
      }
    }

    /** The sum of the sign rows at the ones of `bits`. */
    method SignRowSum(bits: Bits) returns (sum: Bits)
      requires |bits| == signMatrix.Length
      ensures sum == RowSum(signMatrix[..], bits)
    {
      sum := SumRows(signMatrix[..], Support(bits));
      SupportRowSum(signMatrix[..], bits, signMatrix.Length);
    }

    /** Noise is no step of the noiseless simulation; only the record of calls grows. */
    ghost method RecordNoise(faults: seq<Pauli>)
      requires Consistent() && forall k :: 0 <= k < |faults| ==> On(faults[k], qubitCount)
      modifies this`history
      ensures Consistent() && history == old(history) + [Noise(faults)]
    {
      Sized();
      Record(Noise(faults), State());
    }

    // ----- measurements

    method MeasureDeterministic(preimage: Pauli)
      requires |preimage.z| == signMatrix.Length
      modifies this`outcomeMatrix, this`outcomeShift, this`introducesBranchBit
      ensures var c := old(State());
        State() == c.(outcomeMatrix := c.outcomeMatrix + [RowSum(c.signs, preimage.z)],
                      shift := c.shift + [preimage.phase == 2],
                      introduces := c.introduces + [false])
    {
      var row := SignRowSum(preimage.z);
      outcomeMatrix := outcomeMatrix + [row];
      outcomeShift := outcomeShift + [preimage.phase == 2];
      introducesBranchBit := introducesBranchBit + [false];
    }

    method MeasureRandom(p: Pauli, preimage: Pauli, pivot: nat)
      requires Shaped() && |outcomeMatrix| == |introducesBranchBit|
      requires preimage == Preimage(encoder.Rows(), p) && pivot < qubitCount
      modifies this`outcomeMatrix, this`outcomeShift, this`introducesBranchBit, this`branchBitCount
      modifies encoder.preimageX, encoder.preimageZ, signMatrix
      ensures var c := old(State());
        State() == AllocateBranchBit(c).(
          signs := AddToRows(c.signs, preimage.x, SetBit(c.signs[pivot], c.branchBits, true)),
          encoder := AfterRandomOutcome(c.encoder, p, Unit(qubitCount, pivot), false))
    {
      hide Preimage, AfterRandomOutcome, AddToRows, SetBit;
      var id, bit := AllocateBranch();
      var indicator := SumRows(signMatrix[..], [pivot]);
      SingleRowSum(signMatrix[..], pivot);
      indicator := SetBit(indicator, bit, true);
      XorSignRows(preimage.x, indicator);
      encoder.UpdateForRandomOutcome(p, preimage, pivot, false);
    }

    method MeasureUnhinted(p: Pauli)
      requires Shaped() && TableauOn(encoder.Rows(), qubitCount) && On(p, qubitCount)
      requires |outcomeMatrix| == |introducesBranchBit|
      modifies this`outcomeMatrix, this`outcomeShift, this`introducesBranchBit, this`branchBitCount
      modifies encoder.preimageX, encoder.preimageZ, signMatrix
      ensures State() == MeasureStep'(old(State()), p)
    {
      hide Preimage, AfterRandomOutcome, AddToRows, SetBit, AllocateBranchBit;
      PreimageOn(encoder.Rows(), p, qubitCount);
      var preimage := encoder.AssignPreimage(p);
      var pivot := FirstOne(preimage.x);
      if pivot < |preimage.x| {
        MeasureRandom(p, preimage, pivot);
      } else {
        MeasureDeterministic(preimage);
      }
    }

    method Measure(p: Pauli) returns (id: nat)
      requires Consistent() && On(p, qubitCount) && IsOrderTwo(p)
      modifies this, encoder.preimageX, encoder.preimageZ, signMatrix
      ensures id == old(|introducesBranchBit|) && Consistent()
      ensures history == old(history) + [Instruction.Measure(p, id)]
      ensures EveryBranchMeaning(old(State()), Instruction.Measure(p, id), State(), qubitCount)
    {
      Sized();
      ghost var before := State();
      CompleteStepValid(before, Instruction.Measure(p, 0), qubitCount);
      MeasureUnhinted(p);
      id := |introducesBranchBit| - 1;
      Record(Instruction.Measure(p, id), before);
      hide MeasureStep';
    }

    /** The hint is a stabilizer up to phase: an exponential, a new branch bit, and the hint where the bit says so. */
    method MeasureTrueHint(p: Pauli, hint: Pauli, preimage: Pauli)
      requires Shaped() && Valid(encoder.Rows(), qubitCount) && On(p, qubitCount) && On(hint, qubitCount)
      requires IsOrderTwo(p) && Anti(p, hint) && IsZero(preimage.x)
      requires |outcomeMatrix| == |introducesBranchBit| && preimage == Preimage(encoder.Rows(), hint)
      modifies this`outcomeMatrix, this`outcomeShift, this`introducesBranchBit, this`branchBitCount
      modifies encoder.preimageX, encoder.preimageZ, signMatrix
      ensures var c := old(State());
        var after := LeftMulPauliExp(c.encoder, HintExponent(c.encoder, p, hint));
        State() == AllocateBranchBit(c).(
          signs := AddToRows(c.signs, Preimage(after, hint).x, SetBit(RowSum(c.signs, preimage.z), c.branchBits, true)),
          encoder := after)
    {
      ghost var t := encoder.Rows();
      ValidOn(t, qubitCount);
      PreimageOn(t, hint, qubitCount);
      var exponent := Rotate(3 - preimage.phase, Mul(p, hint));
      assert exponent == HintExponent(t, p, hint);
      ExponentKeepsShape(t, p, hint, qubitCount);
      hide *;
      hide TableauOn;
      encoder.MulPauliExp(exponent);
      var id, bit := AllocateBranch();
      var indicator := SignRowSum(preimage.z);
      indicator := SetBit(indicator, bit, true);
      ApplyPauliConditionedOnBranchBits(hint, indicator);
    }

    method MeasureHinted(p: Pauli, hint: Pauli)
      requires Shaped() && Valid(encoder.Rows(), qubitCount) && On(p, qubitCount) && On(hint, qubitCount)
      requires IsOrderTwo(p) && Anti(p, hint) && |outcomeMatrix| == |introducesBranchBit|
      modifies this`outcomeMatrix, this`outcomeShift, this`introducesBranchBit, this`branchBitCount
      modifies encoder.preimageX, encoder.preimageZ, signMatrix
      ensures TableauOn(old(encoder.Rows()), qubitCount)
      ensures State() == MeasureWithHintStep'(old(State()), p, hint)
    {
      ValidOn(encoder.Rows(), qubitCount);
      hide Preimage, Valid, MeasureStep', AddToRows, SetBit, AllocateBranchBit, LeftMulPauliExp, HintExponent, Anti, On;
      var preimage := encoder.AssignPreimage(hint);
      if FirstOne(preimage.x) < |preimage.x| {
        MeasureUnhinted(p);
      } else {
        MeasureTrueHint(p, hint, preimage);
      }
    }

    method MeasureWithHint(p: Pauli, hint: Pauli) returns (id: nat)
      requires Consistent() && On(p, qubitCount) && IsOrderTwo(p) && On(hint, qubitCount) && Anti(p, hint)
      modifies this, encoder.preimageX, encoder.preimageZ, signMatrix
      ensures id == old(|introducesBranchBit|) && Consistent()
      ensures history == old(history) + [Instruction.MeasureWithHint(p, hint, id)]
      ensures EveryBranchMeaning(old(State()), Instruction.MeasureWithHint(p, hint, id), State(), qubitCount)
    {
      Sized();
      ghost var before := State();
      CompleteStepValid(before, Instruction.MeasureWithHint(p, hint, 0), qubitCount);
      MeasureHinted(p, hint);
      id := |introducesBranchBit| - 1;
      Record(Instruction.MeasureWithHint(p, hint, id), before);
      hide MeasureWithHintStep';
    }

    method AllocateRandomBit() returns (id: nat)
      requires Consistent()
      modifies this
      ensures id == old(|introducesBranchBit|) && Consistent()
      ensures history == old(history) + [Instruction.AllocateRandomBit(id)]
      ensures EveryBranchMeaning(old(State()), Instruction.AllocateRandomBit(id), State(), qubitCount)
    {
      Sized();
      ghost var before := State();
      var bit;
      id, bit := AllocateBranch();
      Record(Instruction.AllocateRandomBit(id), before);
    }

    // ----- corrections and gates

    method ConditionalPauli(p: Pauli, ids: seq<nat>, parity: bool)
      requires Consistent() && On(p, qubitCount) && Below(ids, |outcomeMatrix|)
      modifies this, encoder.preimageX, encoder.preimageZ, signMatrix
      ensures Consistent() && history == old(history) + [Instruction.ConditionalPauli(p, ids, parity)]
      ensures EveryBranchMeaning(old(State()), Instruction.ConditionalPauli(p, ids, parity), State(), qubitCount)
    {
      hide Preimage, LeftMulPauli, AddToRows, ListedRowSum, ParityTo, EveryBranchMeaning;
      Sized();
      ghost var before := State();
      PauliKeepsShape(encoder.Rows(), p, qubitCount);
      var mask, constant := OutcomeParity(ids);
      if constant == parity {
        encoder.MulPauli(p);
      }
      ApplyPauliConditionedOnBranchBits(p, mask);
      Record(Instruction.ConditionalPauli(p, ids, parity), before);
    }

    /** The unitary calls act on the encoder alone. */
    method ApplyGate(i: Instruction)
      requires Consistent() && IsUnitary(i) && WellFormed(i, qubitCount, |outcomeMatrix|)
      modifies this, encoder.preimageX, encoder.preimageZ
      ensures Consistent() && history == old(history) + [i]
      ensures EveryBranchMeaning(old(State()), i, State(), qubitCount)
    {
      Sized();
      ghost var before := State();
      encoder.MulUnitary(i, qubitCount, OutcomeCount(history));
      hide ApplyUnitary;
      Record(i, before);
    }

    // ----- queries

    method IsStabilizerOf(p: Pauli) returns (yes: bool)
      requires Consistent() && On(p, qubitCount)
      ensures yes == CompleteIsStabilizer(RunComplete(history, qubitCount), p)
    {
      Sized();
      var preimage := encoder.AssignPreimage(p);
      PreimageOn(encoder.Rows(), p, qubitCount);
      if IsZero(preimage.x) {
        var indicator := SignRowSum(preimage.z);
        yes := IsZero(indicator) && preimage.phase == 0;
      } else {
        yes := false;
      }
    }

    method IsStabilizerWithConditionalSign(p: Pauli, ids: seq<nat>) returns (yes: bool)
      requires Consistent() && On(p, qubitCount) && Below(ids, |outcomeMatrix|)
      ensures yes == CompleteHasConditionalSign(RunComplete(history, qubitCount), p, ids)
    {
      Sized();
      var preimage := encoder.AssignPreimage(p);
      PreimageOn(encoder.Rows(), p, qubitCount);
      if IsZero(preimage.x) && preimage.phase & 1 == 0 {
        var indicator := SignRowSum(preimage.z);
        var mask, constant := OutcomeParity(ids);
        yes := SameBits(indicator, mask) && (preimage.phase == 2) == constant;
      } else {
        yes := false;
      }
    }

    // ----- sampling

    /** One shot: the product of the outcome matrix with the random bits, then the shift. */
    method SampleShot(bits: Bits) returns (row: seq<bool>)
      requires Consistent()
      ensures row == RunSpecific(history, qubitCount, SourceOf(bits)).outcomes
    {
      Sized();
      var product := MultiplyBits(outcomeMatrix, bits);
      row := AddShift(product, outcomeShift);
      hide RunSpecific, RunComplete, Dot, SourceOf;
      ShotIsRun(history, qubitCount, bits, row);
    }

    /** One shot for each row of random bits. */
    method Sample(random: seq<Bits>) returns (samples: seq<seq<bool>>)
      requires Consistent()
      ensures |samples| == |random|
      ensures forall shot :: 0 <= shot < |random| ==>
        samples[shot] == RunSpecific(history, qubitCount, SourceOf(random[shot])).outcomes
    {
      hide RunSpecific, RunComplete, SourceOf;
      samples := [];
      for shot := 0 to |random|
        invariant |samples| == shot && forall s :: 0 <= s < shot ==>
          samples[s] == RunSpecific(history, qubitCount, SourceOf(random[s])).outcomes
      {
        var row := SampleShot(random[shot]);
        samples := samples + [row];
      }
    }

    // ----- whole circuits

    /** One instruction of a circuit; noise instructions are skipped. */
    method Execute(i: Instruction) returns (id: nat)
      requires Consistent() && WellFormed(i, qubitCount, |outcomeMatrix|)
      modifies this, encoder.preimageX, encoder.preimageZ, signMatrix
      ensures Consistent() && history == old(history) + [Renumbered(i, id)] && id == old(|outcomeMatrix|)
    {
      id := |outcomeMatrix|;
      Sized();
      match i {
        case Measure(p, _) => id := Measure(p);
        case MeasureWithHint(p, hint, _) => id := MeasureWithHint(p, hint);
        case AllocateRandomBit(_) => id := AllocateRandomBit();
        case ConditionalPauli(p, ids, parity) => ConditionalPauli(p, ids, parity);
        case Noise(faults) => RecordNoise(faults);
        case _ => ApplyGate(i);
      }
    }
  }

  lemma ExponentKeepsShape(t: Tableau, p: Pauli, hint: Pauli, n: nat)
    requires Valid(t, n) && On(p, n) && IsOrderTwo(p) && On(hint, n) && Anti(p, hint) && IsZero(Preimage(t, hint).x)
    ensures TableauOn(LeftMulPauliExp(t, HintExponent(t, p, hint)), n)
  {
    hide Valid, Preimage, AfterRandomOutcome, Anti, Dot, LeftMulPauliExp;
    HintReplaces(t, p, hint, n);
    HintPreimageAfter(t, p, hint, n);
    AfterRandomOutcomePreimage(t, p, Preimage(t, hint).z, false, n);
    ValidOn(AfterRandomOutcome(t, p, Preimage(t, hint).z, false), n);
  }

  lemma PauliKeepsShape(t: Tableau, p: Pauli, n: nat)
    requires Valid(t, n) && On(p, n)
    ensures TableauOn(LeftMulPauli(t, p), n)
  {
    StepPauli(t, p, n);
    ValidOn(LeftMulPauli(t, p), n);
  }
}
