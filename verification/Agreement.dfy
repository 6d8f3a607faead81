/** The three simulators agree: which outcomes are random, and every preimage up to phase. */
module Agreement {
  import opened Bits
  import opened Paulis
  import opened Tableaus
  import opened Measurement
  import opened Circuits
  import opened SpecificModel
  import opened CompleteModel
  import opened Branches
  import opened FreeModel
  import opened Queries
  import opened FrameExactness

  lemma ModOfTwist(t: Tableau, d: Projective)
    ensures Mod(Twist(t, d)) == Mod(t)
  {
  }

  /** For every circuit and every source of random bits, the three runs differ only in signs. */
  lemma ThreeSimulatorsAgree(circuit: seq<Instruction>, n: nat, r: BitSource)
    requires WellFormedCircuit(circuit, n)
    ensures var free, specific, complete := RunFree(circuit, n), RunSpecific(circuit, n, r), RunComplete(circuit, n);
      && free.introduces == specific.introduces == complete.introduces
      && free.branchBits == specific.branchBits == complete.branchBits
      && free.encoder == Mod(specific.encoder) == Mod(complete.encoder)
  {
    FreeRunIsProjection(circuit, n, r);
    var z := CompleteRunIsEverySpecificRun(circuit, n, r);
    ModOfTwist(RunComplete(circuit, n).encoder, BranchTwist(RunComplete(circuit, n), r, z));
    hide RunSpecific, RunComplete, RunFree, Mod, Twist;
  }

  /** Drops every instruction that can only change signs. */
  function WithoutPaulis(circuit: seq<Instruction>): seq<Instruction> {
    if circuit == [] then []
    else
      var front, last := WithoutPaulis(circuit[..|circuit| - 1]), circuit[|circuit| - 1];
      if last.PauliGate? || last.ConditionalPauli? || last.Noise? then front else front + [last]
  }

  lemma {:induction false} WithoutPaulisWellFormed(circuit: seq<Instruction>, n: nat)
    requires WellFormedCircuit(circuit, n)
    ensures WellFormedCircuit(WithoutPaulis(circuit), n)
    ensures OutcomeCount(WithoutPaulis(circuit)) == OutcomeCount(circuit)
  {
    if circuit != [] {
      var front, last := circuit[..|circuit| - 1], circuit[|circuit| - 1];
      WellFormedPrefix(circuit, n);
      WithoutPaulisWellFormed(front, n);
      if !(last.PauliGate? || last.ConditionalPauli? || last.Noise?) {
        assert WellFormed(last, n, OutcomeCount(front));
        WellFormedAppend(WithoutPaulis(front), last, n);
        OutcomeCountAppend(WithoutPaulis(front), last);
      }
      hide WellFormed;
    }
  }

  lemma {:induction false} FreeRunIgnoresPaulis(circuit: seq<Instruction>, n: nat)
    requires WellFormedCircuit(circuit, n)
    ensures WellFormedCircuit(WithoutPaulis(circuit), n)
    ensures RunFree(WithoutPaulis(circuit), n) == RunFree(circuit, n)
  {
    WithoutPaulisWellFormed(circuit, n);
    if circuit != [] {
      var front, last := circuit[..|circuit| - 1], circuit[|circuit| - 1];
      WellFormedPrefix(circuit, n);
      WithoutPaulisWellFormed(front, n);
      FreeRunIgnoresPaulis(front, n);
      hide WellFormedCircuit, FreeMeasure, FreeMeasureWithHint, FreeAllocate;
      if last.PauliGate? || last.ConditionalPauli? || last.Noise? {
        assert RunFree(circuit, n) == RunFree(front, n);
      } else {
        assert WithoutPaulis(circuit)[..|WithoutPaulis(circuit)| - 1] == WithoutPaulis(front);
        assert RunFree(WithoutPaulis(circuit), n) == FreeStep(RunFree(front, n), last, n);
      }
    }
  }

  /** Which outcomes are random depends neither on the random bits nor on any Pauli correction. */
  lemma RandomnessIsFixed(circuit: seq<Instruction>, n: nat, r: BitSource, r': BitSource)
    requires WellFormedCircuit(circuit, n)
    ensures WellFormedCircuit(WithoutPaulis(circuit), n)
    ensures RunSpecific(circuit, n, r).introduces == RunSpecific(WithoutPaulis(circuit), n, r').introduces
  {
    FreeRunIgnoresPaulis(circuit, n);
    FreeRunIsProjection(circuit, n, r);
    FreeRunIsProjection(WithoutPaulis(circuit), n, r');
    hide RunFree, RunSpecific, Mod;
  }

  /** The sign-blind query: an order-two operator or its negative is a stabilizer in every branch. */
  lemma FreeStabilizer(circuit: seq<Instruction>, n: nat, p: Pauli, r: BitSource)
    requires WellFormedCircuit(circuit, n) && On(p, n) && IsOrderTwo(p)
    ensures var t := RunSpecific(circuit, n, r).encoder;
      IsZero(ModPreimage(RunFree(circuit, n).encoder, p.bits).x)
      <==> IsStabilizer(t, p) || IsStabilizer(t, Sign(true, p))
  {
    var t := RunSpecific(circuit, n, r).encoder;
    FreeRunIsProjection(circuit, n, r);
    PreimageMod(t, p);
    UpToSign(t, p, n);
    hide RunFree, RunSpecific, Mod, Preimage, ModPreimage, Sign;
  }

  // ----- hints

  /** Hints change neither the outcomes nor the stabilizers of any branch. */
  lemma HintsDoNotMatterInBranches(circuit: seq<Instruction>, n: nat, r: BitSource)
    requires WellFormedCircuit(circuit, n)
    ensures WellFormedCircuit(UnhintedCircuit(circuit), n)
    ensures var hinted, plain := RunComplete(circuit, n), RunComplete(UnhintedCircuit(circuit), n);
      && |hinted.shift| == |hinted.outcomeMatrix| && |plain.shift| == |plain.outcomeMatrix|
      && plain.introduces == hinted.introduces
      && BranchOutcomes(plain, r) == BranchOutcomes(hinted, r)
    ensures forall p :: On(p, n) ==>
      (StabilizerInBranch(UnhintedCircuit(circuit), n, p, r) <==> StabilizerInBranch(circuit, n, p, r))
  {
    HintsDoNotMatter(circuit, n, r);
    BranchIsRun(circuit, n, r);
    BranchIsRun(UnhintedCircuit(circuit), n, r);
    hide RunComplete, RunSpecific, UnhintedCircuit, WellFormedCircuit, IsStabilizer;
  }

  lemma BranchIsRun(circuit: seq<Instruction>, n: nat, r: BitSource)
    requires WellFormedCircuit(circuit, n)
    ensures var c, s := RunComplete(circuit, n), RunSpecific(circuit, n, r);
      |c.shift| == |c.outcomeMatrix| && BranchOutcomes(c, r) == s.outcomes && c.introduces == s.introduces
  {
    var z := CompleteRunIsEverySpecificRun(circuit, n, r);
    hide RunComplete, RunSpecific, Twist;
  }

  /** The complete simulator answers stabilizer queries alike with and without hints. */
  lemma HintsDoNotMatterToQueries(circuit: seq<Instruction>, n: nat, p: Pauli)
    requires WellFormedCircuit(circuit, n) && On(p, n)
    ensures WellFormedCircuit(UnhintedCircuit(circuit), n)
    ensures CompleteIsStabilizer(RunComplete(UnhintedCircuit(circuit), n), p)
       <==> CompleteIsStabilizer(RunComplete(circuit, n), p)
  {
    UnhintedCircuitWellFormed(circuit, n);
    forall r: BitSource
      ensures StabilizerInBranch(UnhintedCircuit(circuit), n, p, r) <==> StabilizerInBranch(circuit, n, p, r)
    {
      HintsDoNotMatterInBranches(circuit, n, r);
    }
    StabilizerInEveryBranch(circuit, n, p);
    StabilizerInEveryBranch(UnhintedCircuit(circuit), n, p);
    hide StabilizerInBranch, CompleteIsStabilizer, RunComplete, UnhintedCircuit;
  }
}
