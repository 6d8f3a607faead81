/** Stabilizer queries of the complete simulation speak about all branches at once. */
module Queries {
  import opened Bits
  import opened Paulis
  import opened Tableaus
  import opened Measurement
  import opened Circuits
  import opened SpecificModel
  import opened CompleteModel
  import opened Branches

  predicate CompleteIsStabilizer(c: Complete, p: Pauli) {
    var q := Preimage(c.encoder, p);
    IsZero(q.x) && IsZero(RowSum(c.signs, q.z)) && q.phase == 0
  }

  /** Equality of bit vectors of the same capacity, whatever their stored lengths. */
  predicate SameBits(a: Bits, b: Bits) {
    IsZero(Xor(a, b))
  }

  predicate CompleteHasConditionalSign(c: Complete, p: Pauli, ids: seq<nat>)
    requires forall j :: 0 <= j < |ids| ==> ids[j] < |c.outcomeMatrix|
  {
    var q := Preimage(c.encoder, p);
    && IsZero(q.x)
    && q.phase & 1 == 0
    && SameBits(RowSum(c.signs, q.z), ListedRowSum(c.outcomeMatrix, ids, |ids|))
    && (q.phase == 2) == TotalParity(c.shift, ids)
  }

  predicate SpecificHasConditionalSign(s: Specific, p: Pauli, ids: seq<nat>) {
    var q := Preimage(s.encoder, p);
    IsZero(q.x) && q.phase & 1 == 0 && (q.phase == 0) != TotalParity(s.outcomes, ids)
  }

  /** The preimage of an operator without X part, in a branch. */
  lemma BranchPhase(c: Complete, p: Pauli, n: nat, r: BitSource, z: Bits)
    requires CompleteValid(c, n) && On(p, n) && |z| == n
    ensures Preimage(Branch(c, r, z).encoder, p).bits == Preimage(c.encoder, p).bits
    ensures IsZero(Preimage(c.encoder, p).x) ==>
      Preimage(Branch(c, r, z).encoder, p)
      == Sign(Eval(RowSum(c.signs, Preimage(c.encoder, p).z), r), Preimage(c.encoder, p))
  {
    var pre := Preimage(c.encoder, p);
    var d := BranchTwist(c, r, z);
    BranchSizes(c, n, r, z);
    PreimageOn(c.encoder, p, n);
    TwistPreimage(c.encoder, d, p);
    RowSumEval(c.signs, pre.z, r, n);
    DotToStable(pre.z, d.x, n);
    if IsZero(pre.x) {
      DotZero(d.z, pre.x);
    }
    hide Preimage, Valid, Twist, Eval, RowSumTo, DotTo, CompleteValid;
  }

  /** A linear function has a constant value on all assignments only if it is zero. */
  lemma ConstantFunction(a: Bits, b: bool)
    ensures (forall r: BitSource :: Eval(a, r) == b) <==> IsZero(a) && !b
  {
    if IsZero(a) {
      forall r: BitSource ensures !Eval(a, r) {
        EvalOfZero(a, r);
      }
      assert !Eval(a, k => false);
    } else {
      var j :| 0 <= j < |a| && a[j];
      EvalZero(a, j);
      EvalAtOrigin(a, k => false, |a|);
      assert !Eval(a, k => false) && Eval(a, k => k == j);
    }
    hide Eval;
  }

  lemma EvalAtOrigin(a: Bits, r: BitSource, k: nat)
    requires forall m: nat :: !r(m)
    ensures !EvalTo(a, r, k)
  {
  }

  ghost predicate StabilizerInBranch(circuit: seq<Instruction>, n: nat, p: Pauli, r: BitSource)
    requires WellFormedCircuit(circuit, n)
  {
    IsStabilizer(RunSpecific(circuit, n, r).encoder, p)
  }

  lemma StabilizerInOneBranch(circuit: seq<Instruction>, n: nat, p: Pauli, r: BitSource)
    requires WellFormedCircuit(circuit, n) && On(p, n)
    ensures var c := RunComplete(circuit, n);
      var q := Preimage(c.encoder, p);
      StabilizerInBranch(circuit, n, p, r)
      <==> IsZero(q.x) && q.phase & 1 == 0 && Eval(RowSum(c.signs, q.z), r) == (q.phase == 2)
  {
    var z := CompleteRunIsEverySpecificRun(circuit, n, r);
    BranchPhase(RunComplete(circuit, n), p, n, r, z);
    hide Preimage, Eval, RunComplete, RunSpecific, RowSumTo, CompleteValid, SpecificValid, Twist;
  }

  /** The complete answer is true exactly when the specific answer is true in every branch. */
  lemma StabilizerInEveryBranch(circuit: seq<Instruction>, n: nat, p: Pauli)
    requires WellFormedCircuit(circuit, n) && On(p, n)
    ensures CompleteIsStabilizer(RunComplete(circuit, n), p)
        <==> forall r: BitSource :: StabilizerInBranch(circuit, n, p, r)
  {
    hide Preimage, Eval, RunComplete, RowSumTo, CompleteValid, StabilizerInBranch;
    var c := RunComplete(circuit, n);
    var q := Preimage(c.encoder, p);
    var sum := RowSum(c.signs, q.z);
    forall r: BitSource
      ensures StabilizerInBranch(circuit, n, p, r)
          <==> IsZero(q.x) && q.phase & 1 == 0 && Eval(sum, r) == (q.phase == 2)
    {
      StabilizerInOneBranch(circuit, n, p, r);
    }
    ConstantFunction(sum, q.phase == 2);
    var origin: BitSource := k => false;
    if forall r: BitSource :: StabilizerInBranch(circuit, n, p, r) {
      assert StabilizerInBranch(circuit, n, p, origin);
      forall r: BitSource ensures Eval(sum, r) == (q.phase == 2) {
        assert StabilizerInBranch(circuit, n, p, r);
      }
    }
  }

  lemma SignIsParity(q: Pauli, a: bool, b: bool)
    ensures Sign(a, q).phase & 1 == q.phase & 1
    ensures q.phase & 1 == 0 ==> ((Sign(a, q).phase == 0) != b <==> (a != b) == (q.phase == 2))
  {
  }

  ghost predicate ConditionalSignInBranch(circuit: seq<Instruction>, n: nat, p: Pauli, ids: seq<nat>, r: BitSource)
    requires WellFormedCircuit(circuit, n)
  {
    SpecificHasConditionalSign(RunSpecific(circuit, n, r), p, ids)
  }

  lemma ConditionalSignInOneBranch(circuit: seq<Instruction>, n: nat, p: Pauli, ids: seq<nat>, r: BitSource)
    requires WellFormedCircuit(circuit, n) && On(p, n)
    requires forall j :: 0 <= j < |ids| ==> ids[j] < OutcomeCount(circuit)
    ensures var c := RunComplete(circuit, n);
      var q := Preimage(c.encoder, p);
      && (forall j :: 0 <= j < |ids| ==> ids[j] < |c.outcomeMatrix|)
      && (ConditionalSignInBranch(circuit, n, p, ids, r)
        <==> IsZero(q.x) && q.phase & 1 == 0
             && Eval(Xor(RowSum(c.signs, q.z), ListedRowSum(c.outcomeMatrix, ids, |ids|)), r)
                == ((q.phase == 2) != TotalParity(c.shift, ids)))
  {
    hide Preimage, Eval, ParityTo, RunComplete, RunSpecific, ListedRowSum, RowSumTo, Valid, Twist, SpecificValid;
    var c := RunComplete(circuit, n);
    var q := Preimage(c.encoder, p);
    var sum, mask := RowSum(c.signs, q.z), ListedRowSum(c.outcomeMatrix, ids, |ids|);
    var z := CompleteRunIsEverySpecificRun(circuit, n, r);
    BranchPhase(c, p, n, r, z);
    ListedRowSumEval(c, ids, |ids|, r);
    EvalXor(sum, mask, r);
    SignIsParity(q, Eval(sum, r), TotalParity(RunSpecific(circuit, n, r).outcomes, ids));
  }

  /** The same for stabilizers whose sign is the parity of listed outcomes. */
  lemma ConditionalSignInEveryBranch(circuit: seq<Instruction>, n: nat, p: Pauli, ids: seq<nat>)
    requires WellFormedCircuit(circuit, n) && On(p, n)
    requires forall j :: 0 <= j < |ids| ==> ids[j] < OutcomeCount(circuit)
    ensures forall j :: 0 <= j < |ids| ==> ids[j] < |RunComplete(circuit, n).outcomeMatrix|
    ensures CompleteHasConditionalSign(RunComplete(circuit, n), p, ids)
        <==> forall r: BitSource :: ConditionalSignInBranch(circuit, n, p, ids, r)
  {
    hide Preimage, Eval, ParityTo, RunComplete, ListedRowSum, RowSumTo, ConditionalSignInBranch;
    var c := RunComplete(circuit, n);
    var q := Preimage(c.encoder, p);
    var sum, mask := RowSum(c.signs, q.z), ListedRowSum(c.outcomeMatrix, ids, |ids|);
    var b := (q.phase == 2) != TotalParity(c.shift, ids);
    forall r: BitSource
      ensures ConditionalSignInBranch(circuit, n, p, ids, r)
          <==> IsZero(q.x) && q.phase & 1 == 0 && Eval(Xor(sum, mask), r) == b
    {
      ConditionalSignInOneBranch(circuit, n, p, ids, r);
    }
    ConstantFunction(Xor(sum, mask), b);
    var origin: BitSource := k => false;
    if forall r: BitSource :: ConditionalSignInBranch(circuit, n, p, ids, r) {
      assert ConditionalSignInBranch(circuit, n, p, ids, origin);
      forall r: BitSource ensures Eval(Xor(sum, mask), r) == b {
        assert ConditionalSignInBranch(circuit, n, p, ids, r);
      }
    }
  }
}
