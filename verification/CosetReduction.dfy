/** Reduction of a group modulo another one: every standard generator is replaced by the canonical element of its coset. */
module CosetReduction {
  import opened Bits
  import opened Paulis
  import opened PauliMutation
  import opened Tableaus
  import opened AffineMaps
  import opened LinearAlgebra
  import opened Spans
  import opened Groups
  import opened StandardForms
  import opened CanonicalForms
  import opened GroupEquality
  import opened PauliGroups

  /** `p` times a member of the group. */
  ghost predicate InCoset(p: Pauli, gens: seq<Pauli>, n: nat, q: Pauli) {
    exists m :: CosetBy(p, gens, n, q, m)
  }

  ghost predicate CosetBy(p: Pauli, gens: seq<Pauli>, n: nat, q: Pauli, m: Pauli) {
    Member(gens, n, m) && q == Mul(p, m)
  }

  lemma CosetSelf(p: Pauli, gens: seq<Pauli>, n: nat)
    requires On(p, n)
    ensures InCoset(p, gens, n, p)
  {
    MemberIdentity(gens, n);
    MulIdentity(p, n);
    assert CosetBy(p, gens, n, p, Identity(n));
  }

  lemma CosetMul(p: Pauli, gens: seq<Pauli>, n: nat, q: Pauli, m: Pauli)
    requires AllOn(gens, n) && InCoset(p, gens, n, q) && Member(gens, n, m)
    ensures InCoset(p, gens, n, Mul(q, m))
  {
    var m' :| CosetBy(p, gens, n, q, m');
    MemberMul(gens, n, m', m);
    MulAssoc(p, m', m);
    assert CosetBy(p, gens, n, Mul(q, m), Mul(m', m));
  }

  lemma CosetReduce(p: Pauli, gens: seq<Pauli>, n: nat, q: Pauli, modulus: nat)
    requires AllOn(gens, n) && InCoset(p, gens, n, q) && On(q, n)
    requires modulus == 1 || modulus == 2 || modulus == 4
    requires modulus == 1 ==> HasPhase(gens, n, 1)
    requires modulus == 2 ==> HasPhase(gens, n, 2)
    ensures InCoset(p, gens, n, Reduce(q, modulus))
  {
    var k := ReducePhase(q.phase, modulus) - q.phase;
    MemberIdentity(gens, n);
    assert PhaseElement(0, n) == Identity(n);
    if modulus == 1 {
      OddPhaseGivesAll(gens, n, 1, k);
    }
    assert modulus == 2 ==> k == 0 || k == 2;
    TimesPhase(q, k, n);
    CosetMul(p, gens, n, q, PhaseElement(k, n));
  }

  /** No bit at any pivot. */
  ghost predicate ClearAt(p: Pauli, pivots: seq<nat>) {
    forall i :: 0 <= i < |pivots| ==> !At(AsRow(p.bits), pivots[i])
  }

  /**
   * Reduced elements are canonical: elements of one coset without bits at the pivots and with phases reduced by the
   * modulus of the group are equal.
   */
  lemma ReductionIsCanonical(p: Pauli, h: PauliGroup, n: nat, q: Pauli, r: Pauli)
    requires Built(h, n) && On(p, n)
    requires InCoset(p, h.generators, n, q) && InCoset(p, h.generators, n, r)
    requires ClearAt(q, h.echelon.pivots) && ClearAt(r, h.echelon.pivots)
    requires (q.phase as nat) < GroupModulus(h.generators, n) && (r.phase as nat) < GroupModulus(h.generators, n)
    ensures q == r
  {
    ReduceIsRemainder(q, GroupModulus(h.generators, n));
    ReduceIsRemainder(r, GroupModulus(h.generators, n));
    var gens, e := h.generators, h.echelon;
    var a :| CosetBy(p, gens, n, q, a);
    var b :| CosetBy(p, gens, n, r, b);
    assert AllOn(gens, n);
    MemberOn(gens, n, a);
    MemberOn(gens, n, b);
    MemberSpan(gens, n, a);
    MemberSpan(gens, n, b);
    ReductionKeepsSpan(RowsOf(gens), e, 2 * n);
    RowOfSum(p.bits, a.bits, n);
    RowOfSum(p.bits, b.bits, n);
    assert InSpan(e.matrix, 2 * n, AsRow(a.bits)) && InSpan(e.matrix, 2 * n, AsRow(b.bits));
    forall i | 0 <= i < |e.pivots| ensures At(AsRow(a.bits), e.pivots[i]) == At(AsRow(b.bits), e.pivots[i]) {
      assert !At(AsRow(q.bits), e.pivots[i]) && !At(AsRow(r.bits), e.pivots[i]);
    }
    PivotsDetermine(e.matrix, e.pivots, 2 * n, AsRow(a.bits), AsRow(b.bits));
    RowRoundTrip(a.bits, n);
    RowRoundTrip(b.bits, n);
    SameBitsDifferByPhase(gens, n, a, b);
    var k := b.phase - a.phase;
    assert b == Rotate(k, a);
    RotateMul(k, p, a);
    assert r == Rotate(k, q);
    if k & 1 == 1 {
      OddPhaseGivesAll(gens, n, k, 1);
    }
    hide Built, Member, InSpan, Mul;
    assert k == 0 || k == 2 || k & 1 == 1;
  }

  // ----- the sweep

  /** Whether the operator has a bit at a column of the bit matrix: X on a qubit, or Z on it in the second half. */
  function SupportsPivot(p: Pauli, pivot: nat, n: nat): bool
    requires n > 0
  {
    if pivot < n then At(p.x, pivot % n) else At(p.z, pivot % n)
  }

  lemma SupportsIsRowBit(p: Pauli, pivot: nat, n: nat)
    requires On(p, n) && pivot < 2 * n
    ensures SupportsPivot(p, pivot, n) == At(AsRow(p.bits), pivot)
  {
    if pivot >= n {
      assert pivot % n == pivot - n;
    }
  }

  /** One step of the sweep on one element: the pivot of generator `i` is cleared, earlier ones stay clear. */
  lemma ClearPivot(h: PauliGroup, n: nat, q: Pauli, i: nat)
    requires Built(h, n) && On(q, n) && i < |h.echelon.pivots| && ClearAt(q, h.echelon.pivots[..i])
    ensures |h.standard| >= |h.echelon.pivots| && h.echelon.pivots[i] < 2 * n
    ensures Member(h.generators, n, h.standard[i])
    ensures var q' := if At(AsRow(q.bits), h.echelon.pivots[i]) then Mul(q, h.standard[i]) else q;
      On(q', n) && ClearAt(q', h.echelon.pivots[..i + 1])
  {
    var e := h.echelon;
    StandardShape(h.generators, e, n);
    PivotMember(h.generators, e, n, i);
    var s := h.standard[i];
    assert s == PivotGenerators(h.generators, e, n)[i];
    RowOfSum(q.bits, s.bits, n);
    var q' := if At(AsRow(q.bits), e.pivots[i]) then Mul(q, s) else q;
    var first := e.pivots[..i + 1];
    forall k | 0 <= k < |first| ensures !At(AsRow(q'.bits), first[k]) {
      assert k < i ==> e.pivots[..i][k] == e.pivots[k];
      assert At(e.matrix[i], e.pivots[k]) == (k == i);
    }
    hide PivotGenerators, PhaseTail, StandardGenerators, Shape, Member;
  }

  /** The minimum of four minus the exponents. */
  function PhasesModulus(phases: seq<bv2>): nat {
    if 3 in phases then 1 else if 2 in phases then 2 else if 1 in phases then 3 else 4
  }

  method ModulusOf(phases: seq<bv2>) returns (modulus: nat)
    ensures modulus == PhasesModulus(phases)
  {
    modulus := 4;
    for k := 0 to |phases|
      invariant modulus == PhasesModulus(phases[..k])
    {
      var value := if phases[k] == 0 then 4 else if phases[k] == 1 then 3 else if phases[k] == 2 then 2 else 1;
      assert phases[..k + 1] == phases[..k] + [phases[k]];
      if value < modulus {
        modulus := value;
      }
    }
    assert phases[..|phases|] == phases;
  }

  lemma ModulusIsGroupModulus(h: PauliGroup, n: nat)
    requires Built(h, n)
    ensures GroupModulus(h.generators, n) == PhasesModulus(h.phases)
  {
    PhaseLists(h, n);
    BuiltPhases(h, n, 1);
    BuiltPhases(h, n, 2);
    hide Built, HasPhase;
    assert 1 in [0, 1, 2, 3] && 3 in [0, 1, 2, 3] && 2 in [0, 2];
    if h.phases == [0, 1, 2, 3] {
      assert h.phases[1] == 1 && h.phases[3] == 3;
    } else if h.phases == [0, 2] {
      assert h.phases[1] == 2;
    }
  }

  /** What reduction does to each standard generator: it stays in its coset and becomes canonical. */
  ghost predicate IsReduction(q: Pauli, p: Pauli, h: PauliGroup, n: nat) {
    && On(q, n) && InCoset(p, h.generators, n, q) && ClearAt(q, h.echelon.pivots)
    && (q.phase as nat) < GroupModulus(h.generators, n)
  }

  /** The state of one element after the pivots below `i`. */
  ghost predicate SweptTo(q: Pauli, p: Pauli, h: PauliGroup, n: nat, i: nat)
    requires i <= |h.echelon.pivots|
  {
    On(q, n) && InCoset(p, h.generators, n, q) && ClearAt(q, h.echelon.pivots[..i])
  }

  lemma SweepStep(q: Pauli, p: Pauli, h: PauliGroup, n: nat, i: nat)
    requires Built(h, n) && i < |h.echelon.pivots| && SweptTo(q, p, h, n, i)
    ensures n > 0 && i < |h.standard|
    ensures SweptTo(if SupportsPivot(q, h.echelon.pivots[i], n) then Mul(q, h.standard[i]) else q, p, h, n, i + 1)
  {
    ClearPivot(h, n, q, i);
    SupportsIsRowBit(q, h.echelon.pivots[i], n);
    assert AllOn(h.generators, n);
    CosetMul(p, h.generators, n, q, h.standard[i]);
    hide Built, InCoset, ClearAt;
  }

  /** Multiplies every element that has a bit at the pivot of generator `i`. */
  method SweepPivot(ghost start: seq<Pauli>, swept: seq<Pauli>, h: PauliGroup, n: nat, i: nat) returns (next: seq<Pauli>)
    requires Built(h, n) && i < |h.echelon.pivots| && |swept| == |start|
    requires forall j :: 0 <= j < |swept| ==> SweptTo(swept[j], start[j], h, n, i)
    ensures |next| == |start|
    ensures forall j :: 0 <= j < |next| ==> SweptTo(next[j], start[j], h, n, i + 1)
  {
    hide Built, SweptTo, SupportsPivot;
    next := [];
    for j := 0 to |swept|
      invariant |next| == j && forall k :: 0 <= k < j ==> SweptTo(next[k], start[k], h, n, i + 1)
    {
      SweepStep(swept[j], start[j], h, n, i);
      var q := swept[j];
      if SupportsPivot(q, h.echelon.pivots[i], n) {
        q := Mul(q, h.standard[i]);
      }
      next := next + [q];
    }
  }

  /** The sweep over the standard generators of the other group that have a pivot. */
  method Sweep(start: seq<Pauli>, h: PauliGroup, n: nat) returns (swept: seq<Pauli>)
    requires Built(h, n) && AllOn(start, n)
    ensures |swept| == |start|
    ensures forall j :: 0 <= j < |start| ==> SweptTo(swept[j], start[j], h, n, |h.echelon.pivots|)
  {
    swept := start;
    forall j | 0 <= j < |start| ensures SweptTo(start[j], start[j], h, n, 0) {
      CosetSelf(start[j], h.generators, n);
    }
    hide Built, SweptTo;
    for i := 0 to |h.echelon.pivots|
      invariant |swept| == |start| && forall j :: 0 <= j < |start| ==> SweptTo(swept[j], start[j], h, n, i)
    {
      swept := SweepPivot(start, swept, h, n, i);
    }
  }

  lemma SweptReduced(q: Pauli, p: Pauli, h: PauliGroup, n: nat, modulus: nat)
    requires Built(h, n) && SweptTo(q, p, h, n, |h.echelon.pivots|) && modulus == GroupModulus(h.generators, n)
    ensures IsReduction(Reduce(q, modulus), p, h, n)
  {
    assert h.echelon.pivots[..|h.echelon.pivots|] == h.echelon.pivots;
    assert AllOn(h.generators, n);
    CosetReduce(p, h.generators, n, q, modulus);
    ReduceKeepsClear(q, modulus, h.echelon.pivots);
    ReduceIsRemainder(q, modulus);
    hide Built, InCoset, ClearAt;
  }

  lemma StandardOn(g: PauliGroup, n: nat)
    requires Built(g, n)
    ensures AllOn(g.standard, n)
  {
    StandardWithin(g.generators, g.echelon, n);
    hide StandardGenerators, Echelon;
  }

  /** Reduces the phases of the swept elements. */
  method ReducePhases(swept: seq<Pauli>, ghost start: seq<Pauli>, ghost h: PauliGroup, ghost n: nat, modulus: nat)
    returns (reduced: seq<Pauli>)
    requires Built(h, n) && modulus == GroupModulus(h.generators, n) && |swept| == |start|
    requires forall j :: 0 <= j < |start| ==> SweptTo(swept[j], start[j], h, n, |h.echelon.pivots|)
    ensures |reduced| == |start| && forall j :: 0 <= j < |start| ==> IsReduction(reduced[j], start[j], h, n)
  {
    hide *;
    reduced := [];
    for j := 0 to |swept|
      invariant |reduced| == j && forall k :: 0 <= k < j ==> IsReduction(reduced[k], start[k], h, n)
    {
      SweptReduced(swept[j], start[j], h, n, modulus);
      var q := Reduce(swept[j], modulus);
      reduced := reduced + [q];
    }
  }

  /** The reduced generators of `g` modulo `h`. */
  method ReduceGenerators(g: PauliGroup, h: PauliGroup, n: nat) returns (reduced: seq<Pauli>)
    requires Built(g, n) && Built(h, n)
    ensures |reduced| == |g.standard|
    ensures forall j :: 0 <= j < |reduced| ==> IsReduction(reduced[j], g.standard[j], h, n)
  {
    StandardOn(g, n);
    ModulusIsGroupModulus(h, n);
    hide *;
    var swept := Sweep(g.standard, h, n);
    var modulus := ModulusOf(h.phases);
    reduced := ReducePhases(swept, g.standard, h, n, modulus);
  }

  lemma ReduceKeepsClear(q: Pauli, modulus: nat, pivots: seq<nat>)
    requires ClearAt(q, pivots)
    ensures ClearAt(Reduce(q, modulus), pivots)
  {
  }

  method Modulo(g: PauliGroup, h: PauliGroup, n: nat) returns (result: PauliGroup)
    requires Built(g, n) && Built(h, n)
    ensures Built(result, n) && |result.generators| == |g.standard|
    ensures forall j :: 0 <= j < |g.standard| ==> IsReduction(result.generators[j], g.standard[j], h, n)
    ensures SameGroup(result.generators + h.generators, g.generators + h.generators, n)
  {
    var reduced := ReduceGenerators(g, h, n);
    result := New(reduced, n);
    ReductionKeepsJoin(g, h, reduced, n);
  }

  /** An element and the members give back what was in the coset. */
  lemma CosetBack(p: Pauli, gens: seq<Pauli>, n: nat, q: Pauli, all: seq<Pauli>)
    requires AllOn(gens, n) && AllOn(all, n) && On(p, n) && InCoset(p, gens, n, q)
    requires GroupWithin(gens, all, n)
    ensures Member(all, n, p) <==> Member(all, n, q)
  {
    var m :| CosetBy(p, gens, n, q, m);
    assert Member(all, n, m);
    MemberOn(gens, n, m);
    MemberInverse(all, n, m);
    InverseIsInverse(m, n);
    MulAssoc(p, m, Inverted(m));
    MulIdentity(p, n);
    if Member(all, n, p) {
      MemberMul(all, n, p, m);
    }
    if Member(all, n, q) {
      MemberMul(all, n, q, Inverted(m));
    }
    hide Mul, Inverted;
  }

  lemma ReductionKeepsJoin(g: PauliGroup, h: PauliGroup, reduced: seq<Pauli>, n: nat)
    requires Built(g, n) && Built(h, n) && |reduced| == |g.standard| && AllOn(reduced, n)
    requires forall j :: 0 <= j < |reduced| ==> InCoset(g.standard[j], h.generators, n, reduced[j])
    ensures SameGroup(reduced + h.generators, g.generators + h.generators, n)
  {
    var a, b, s := g.generators, h.generators, g.standard;
    StandardWithin(a, g.echelon, n);
    StandardSame(a, g.echelon, n);
    assert AllOn(a, n) && AllOn(b, n);
    JoinContains(reduced, b, n);
    JoinContains(a, b, n);
    hide Built, Member, InCoset, AllOn;
    forall j | 0 <= j < |s| ensures Member(a + b, n, reduced[j]) {
      StandardIn(s, a, a + b, n, j);
      CosetBackOn(s, j, b, n, reduced[j], a + b);
    }
    GeneratorsWithin(reduced, a + b, n);
    JoinWithin(reduced, b, a + b, n);
    forall j | 0 <= j < |s| ensures Member(reduced + b, n, s[j]) {
      GeneratorIn(reduced, reduced + b, n, j);
      CosetBackOn(s, j, b, n, reduced[j], reduced + b);
    }
    GeneratorsWithin(s, reduced + b, n);
    WithinChain(a, s, reduced + b, n);
    JoinWithin(a, b, reduced + b, n);
  }

  lemma CosetBackOn(s: seq<Pauli>, j: nat, gens: seq<Pauli>, n: nat, q: Pauli, all: seq<Pauli>)
    requires AllOn(s, n) && j < |s| && AllOn(gens, n) && AllOn(all, n) && InCoset(s[j], gens, n, q)
    requires GroupWithin(gens, all, n)
    ensures Member(all, n, s[j]) <==> Member(all, n, q)
  {
    CosetBack(s[j], gens, n, q, all);
  }

  lemma GeneratorIn(a: seq<Pauli>, b: seq<Pauli>, n: nat, j: nat)
    requires AllOn(a, n) && GroupWithin(a, b, n) && j < |a|
    ensures Member(b, n, a[j])
  {
    MemberGenerator(a, n, j);
  }

  lemma StandardIn(s: seq<Pauli>, a: seq<Pauli>, b: seq<Pauli>, n: nat, j: nat)
    requires AllOn(s, n) && GroupWithin(s, a, n) && GroupWithin(a, b, n) && j < |s|
    ensures Member(b, n, s[j])
  {
    MemberGenerator(s, n, j);
    assert Member(a, n, s[j]);
  }
}
