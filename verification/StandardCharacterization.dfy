/** What makes a list of generators the standard one, said without the construction, and that only one list is. */
module StandardCharacterization {
  import opened Bits
  import opened Paulis
  import opened Tableaus
  import opened LinearAlgebra
  import opened Spans
  import opened Groups
  import opened StandardForms
  import opened CanonicalForms
  import opened GroupEquality
  import opened PauliGroups

  /** The two lists generate the same phases. */
  ghost predicate SamePhases(a: seq<Pauli>, b: seq<Pauli>, n: nat) {
    forall k {:trigger HasPhase(a, n, k)} {:trigger HasPhase(b, n, k)} :: HasPhase(a, n, k) <==> HasPhase(b, n, k)
  }

  /** A pure phase follows the rows only if there are no rows or they miss a phase; it is then the smallest one. */
  ghost predicate RightTail(s: seq<Pauli>, tail: seq<Pauli>, gens: seq<Pauli>, n: nat) {
    && (tail == [] <==> s != [] && SamePhases(s, gens, n))
    && (tail != [] ==> tail[0].phase as nat == GroupModulus(gens, n) % 4)
  }

  /**
   * The list `s + tail` is the standard one of the group: reduced rows with these pivots, phases as small as the group
   * allows, at most one pure phase, and the same group.
   */
  ghost predicate IsStandardForm(s: seq<Pauli>, pivots: seq<nat>, tail: seq<Pauli>, gens: seq<Pauli>, n: nat) {
    && Shape(s, pivots, tail, n)
    && (forall j :: 0 <= j < |s| ==> (s[j].phase as nat) < GroupModulus(gens, n))
    && RightTail(s, tail, gens, n)
    && SameGroup(s + tail, gens, n)
  }

  /** The phases that the rows generate without the tail. */
  lemma RowPhases(s: seq<Pauli>, pivots: seq<nat>, n: nat, k: bv2)
    requires Shape(s, pivots, [], n)
    ensures HasPhase(s, n, k) ==> k & 1 == 0
    ensures Plain(s) && HasPhase(s, n, k) ==> k == 0
    ensures !Plain(s) ==> HasPhase(s, n, 2)
    ensures HasPhase(s, n, 0)
  {
    assert s + [] == s;
    if HasPhase(s, n, k) {
      if k & 1 == 1 {
        OddPhaseNeedsTail(s, pivots, [], n, k);
      }
      if Plain(s) {
        PlainHasNoPhase(s, pivots, [], n, k);
      }
    }
    if !Plain(s) {
      forall j | 0 <= j < |s| ensures Member(s, n, s[j]) {
        MemberGenerator(s, n, j);
      }
      NotPlainGivesSign(s, n, s);
    }
    MemberIdentity(s, n);
    assert PhaseElement(0, n) == Identity(n);
  }

  lemma ShapeWithoutTail(s: seq<Pauli>, pivots: seq<nat>, tail: seq<Pauli>, n: nat)
    requires Shape(s, pivots, tail, n)
    ensures Shape(s, pivots, [], n)
  {
  }

  /** The modulus of a group says which phases it has. */
  lemma ModulusPhases(gens: seq<Pauli>, n: nat, k: bv2)
    requires AllOn(gens, n)
    ensures HasPhase(gens, n, k) <==> k as nat % GroupModulus(gens, n) == 0
  {
    MemberIdentity(gens, n);
    assert PhaseElement(0, n) == Identity(n);
    assert k == 0 || k == 1 || k == 2 || k == 3;
    if HasPhase(gens, n, 3) {
      OddPhaseGivesAll(gens, n, 3, 1);
    }
    if HasPhase(gens, n, 1) {
      OddPhaseGivesAll(gens, n, 1, k);
    }
    hide HasPhase, AllOn;
  }

  lemma SamePhasesAt(a: seq<Pauli>, b: seq<Pauli>, n: nat, k: bv2)
    requires SamePhases(a, b, n)
    ensures HasPhase(a, n, k) <==> HasPhase(b, n, k)
  {
    hide HasPhase;
  }

  lemma SamePhasesAll(a: seq<Pauli>, b: seq<Pauli>, n: nat)
    requires forall k {:trigger HasPhase(a, n, k)} :: HasPhase(a, n, k) <==> HasPhase(b, n, k)
    ensures SamePhases(a, b, n)
  {
    hide HasPhase;
  }

  /** When the rows alone generate every phase of the group. */
  lemma RowsHaveAllPhases(s: seq<Pauli>, pivots: seq<nat>, gens: seq<Pauli>, n: nat)
    requires Shape(s, pivots, [], n) && AllOn(gens, n) && (!Plain(s) ==> HasPhase(gens, n, 2))
    ensures var modulus := GroupModulus(gens, n);
      SamePhases(s, gens, n) <==> modulus != 1 && (modulus == 2 ==> !Plain(s))
  {
    hide *;
    ModulusValues(gens, n);
    if SamePhases(s, gens, n) {
      RowPhases(s, pivots, n, 1);
      RowPhases(s, pivots, n, 2);
      ModulusPhases(gens, n, 1);
      ModulusPhases(gens, n, 2);
      SamePhasesAt(s, gens, n, 1);
      SamePhasesAt(s, gens, n, 2);
    }
    ModulusPhases(gens, n, 2);
    if GroupModulus(gens, n) != 1 && (GroupModulus(gens, n) == 2 ==> !Plain(s)) {
      forall k ensures HasPhase(s, n, k) <==> HasPhase(gens, n, k) {
        RowPhases(s, pivots, n, k);
        RowPhases(s, pivots, n, 2);
        ModulusPhases(gens, n, k);
        assert k == 0 || k == 1 || k == 2 || k == 3;
      }
      SamePhasesAll(s, gens, n);
    }
  }

  lemma TailIsRight(s: seq<Pauli>, pivots: seq<nat>, gens: seq<Pauli>, n: nat)
    requires Shape(s, pivots, [], n) && AllOn(gens, n) && (!Plain(s) ==> HasPhase(gens, n, 2))
    ensures RightTail(s, CanonicalTail(s, GroupModulus(gens, n), n), gens, n)
  {
    RowsHaveAllPhases(s, pivots, gens, n);
    ModulusValues(gens, n);
    if s == [] {
      EmptyIsPlain();
    }
    hide SamePhases, Plain, GroupModulus, Shape, AllOn;
  }

  lemma ModulusValues(gens: seq<Pauli>, n: nat)
    ensures GroupModulus(gens, n) == 1 || GroupModulus(gens, n) == 2 || GroupModulus(gens, n) == 4
  {
  }

  lemma EmptyIsPlain()
    ensures Plain([])
  {
  }

  /** The X bit of a qubit for the first `n` columns, the Z bit for the others. */
  predicate HasBit(p: Pauli, column: nat, n: nat) {
    if column < n then At(p.x, column) else At(p.z, column - n)
  }

  /** Rows are reduced on X bits first and then on Z bits: each pivot bit occurs in one row, and is the first one there. */
  lemma PivotsOnQubits(s: seq<Pauli>, pivots: seq<nat>, tail: seq<Pauli>, gens: seq<Pauli>, n: nat, i: nat, j: nat)
    requires IsStandardForm(s, pivots, tail, gens, n) && i < |s| && j < |s|
    ensures |pivots| == |s| && pivots[i] < 2 * n && (i < j ==> pivots[i] < pivots[j])
    ensures HasBit(s[j], pivots[i], n) == (i == j)
    ensures forall c: nat :: c < pivots[i] ==> !HasBit(s[i], c, n)
  {
    forall p: Pauli, c: nat | On(p, n) ensures HasBit(p, c, n) == At(AsRow(p.bits), c) {
    }
    assert RowsOf(s)[i] == AsRow(s[i].bits) && RowsOf(s)[j] == AsRow(s[j].bits);
    hide AsRow, SameGroup, RightTail, GroupModulus;
  }

  // ----- the construction gives the standard form

  /** Every generator with a pivot has the smallest phase that the group allows. */
  lemma StandardPhasesAreSmall(gens: seq<Pauli>, e: EchelonForm, n: nat, j: nat)
    requires Echelon(gens, e, n) && j < |e.pivots|
    ensures |e.pivots| <= |e.transform| && j < |StandardGenerators(gens, e, n)|
    ensures StandardGenerators(gens, e, n)[j] == PivotGenerators(gens, e, n)[j]
    ensures (StandardGenerators(gens, e, n)[j].phase as nat) < GroupModulus(gens, n)
  {
    StandardShape(gens, e, n);
    PivotIsReduced(gens, e, n, j);
    ModulusValues(gens, n);
    ReduceIsRemainder(PivotGenerators(gens, e, n)[j], GroupModulus(gens, n));
    hide PivotGenerators, PhaseTail, StandardGenerators, Echelon, GroupModulus;
  }

  lemma StandardIsStandard(gens: seq<Pauli>, e: EchelonForm, n: nat)
    requires Echelon(gens, e, n)
    ensures |e.pivots| <= |e.transform|
    ensures IsStandardForm(PivotGenerators(gens, e, n), e.pivots, PhaseTail(gens, e, n), gens, n)
  {
    StandardShape(gens, e, n);
    StandardSame(gens, e, n);
    TailIsCanonical(gens, e, n);
    ModulusIs(gens, e, n);
    var s := PivotGenerators(gens, e, n);
    ShapeWithoutTail(s, e.pivots, PhaseTail(gens, e, n), n);
    assert AllOn(gens, n);
    forall j | 0 <= j < |s| ensures (s[j].phase as nat) < GroupModulus(gens, n) {
      StandardPhasesAreSmall(gens, e, n, j);
    }
    if !Plain(s) {
      forall j | 0 <= j < |s| ensures Member(gens, n, s[j]) {
        PivotMember(gens, e, n, j);
      }
      NotPlainGivesSign(gens, n, s);
    }
    TailIsRight(s, e.pivots, gens, n);
    hide PivotGenerators, PhaseTail, StandardGenerators, Echelon, GroupModulus, Shape, SameGroup, RightTail, CanonicalTail;
  }

  // ----- only one list is standard

  lemma StandardMember(s: seq<Pauli>, pivots: seq<nat>, tail: seq<Pauli>, gens: seq<Pauli>, n: nat, j: nat)
    requires IsStandardForm(s, pivots, tail, gens, n) && j < |s|
    ensures Member(gens, n, s[j]) && On(s[j], n) && Reduce(s[j], GroupModulus(gens, n)) == s[j]
  {
    ShapeReduced(s, pivots, tail, n);
    MemberGenerator(s + tail, n, j);
    assert (s + tail)[j] == s[j];
    ModulusValues(gens, n);
    ReduceIsRemainder(s[j], GroupModulus(gens, n));
    assert GroupWithin(s + tail, gens, n);
    hide Member, GroupModulus;
  }

  /** The rows of two standard forms of one group are the same. */
  lemma RowsAreUnique(gens: seq<Pauli>, n: nat, s: seq<Pauli>, pivots: seq<nat>, tail: seq<Pauli>,
                      s': seq<Pauli>, pivots': seq<nat>, tail': seq<Pauli>)
    requires AllOn(gens, n)
    requires IsStandardForm(s, pivots, tail, gens, n) && IsStandardForm(s', pivots', tail', gens, n)
    ensures pivots == pivots' && |s| == |s'| && forall j :: 0 <= j < |s| ==> s[j].bits == s'[j].bits
  {
    var t, t' := s + tail, s' + tail';
    ShapeReduced(s, pivots, tail, n);
    ShapeReduced(s', pivots', tail', n);
    WithinChain(t, gens, t', n);
    WithinChain(t', gens, t, n);
    SameGroupSameSpan(t, t', n);
    SameGroupSameSpan(t', t, n);
    ReducedFormIsUnique(RowsOf(t), pivots, RowsOf(t'), pivots', 2 * n);
    forall j | 0 <= j < |s| ensures s[j].bits == s'[j].bits {
      assert RowsOf(t)[..|s|][j] == AsRow(t[j].bits) && RowsOf(t')[..|s|][j] == AsRow(t'[j].bits);
      assert t[j] == s[j] && t'[j] == s'[j];
      RowRoundTrip(s[j].bits, n);
      RowRoundTrip(s'[j].bits, n);
    }
    hide SpanWithin, IsReduced, GroupWithin, GroupModulus, RightTail;
  }

  lemma StandardIsUnique(gens: seq<Pauli>, n: nat, s: seq<Pauli>, pivots: seq<nat>, tail: seq<Pauli>,
                         s': seq<Pauli>, pivots': seq<nat>, tail': seq<Pauli>)
    requires AllOn(gens, n)
    requires IsStandardForm(s, pivots, tail, gens, n) && IsStandardForm(s', pivots', tail', gens, n)
    ensures s == s' && pivots == pivots' && tail == tail'
  {
    RowsAreUnique(gens, n, s, pivots, tail, s', pivots', tail');
    forall j | 0 <= j < |s| ensures s[j] == s'[j] {
      StandardMember(s, pivots, tail, gens, n, j);
      StandardMember(s', pivots', tail', gens, n, j);
      ReducedMembersAreEqual(gens, n, s[j], s'[j]);
    }
    assert s == s';
    hide SameGroup, GroupModulus, SamePhases, AllOn;
    assert tail == tail' by {
      if tail != [] {
        assert tail == [tail[0]] && tail' == [tail'[0]];
      }
    }
  }

  /** A list is the standard form of a group exactly when the construction gives it. */
  lemma StandardFormIsCharacterized(gens: seq<Pauli>, e: EchelonForm, n: nat,
                                    s: seq<Pauli>, pivots: seq<nat>, tail: seq<Pauli>)
    requires Echelon(gens, e, n)
    ensures |e.pivots| <= |e.transform|
    ensures IsStandardForm(s, pivots, tail, gens, n)
       <==> s == PivotGenerators(gens, e, n) && pivots == e.pivots && tail == PhaseTail(gens, e, n)
    ensures IsStandardForm(s, pivots, tail, gens, n) ==> s + tail == StandardGenerators(gens, e, n)
  {
    StandardIsStandard(gens, e, n);
    StandardParts(gens, e, n);
    assert AllOn(gens, n);
    hide IsStandardForm, PivotGenerators, PhaseTail, StandardGenerators, Echelon, AllOn;
    if IsStandardForm(s, pivots, tail, gens, n) {
      StandardIsUnique(gens, n, s, pivots, tail, PivotGenerators(gens, e, n), e.pivots, PhaseTail(gens, e, n));
    }
  }

  /** A built group shows the characterized list; in particular its phases are as small as the group allows. */
  lemma BuiltIsStandard(g: PauliGroup, n: nat)
    requires Built(g, n)
    ensures exists s, tail :: g.standard == s + tail && IsStandardForm(s, g.echelon.pivots, tail, g.generators, n)
    ensures |g.echelon.pivots| <= |g.standard|
    ensures forall j :: 0 <= j < |g.echelon.pivots| ==>
      (g.standard[j].phase as nat) < GroupModulus(g.generators, n)
  {
    StandardIsStandard(g.generators, g.echelon, n);
    StandardShape(g.generators, g.echelon, n);
    var s, tail := PivotGenerators(g.generators, g.echelon, n), PhaseTail(g.generators, g.echelon, n);
    hide StandardGenerators, PivotGenerators, PhaseTail, GroupModulus, Shape, RightTail, SameGroup, Echelon;
    assert g.standard == s + tail;
    assert forall j :: 0 <= j < |s| ==> g.standard[j] == s[j];
  }
}
