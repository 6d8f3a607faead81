/** Equality of groups is equality of standard generators, and the order of groups is decided by counting. */
module GroupEquality {
  import opened Bits
  import opened Paulis
  import opened Tableaus
  import opened AffineMaps
  import opened LinearAlgebra
  import opened Spans
  import opened Groups
  import opened StandardForms
  import opened CanonicalForms

  ghost predicate SameGroup(a: seq<Pauli>, b: seq<Pauli>, n: nat) {
    GroupWithin(a, b, n) && GroupWithin(b, a, n)
  }

  /** How far phases of members can be reduced inside the group. */
  ghost function GroupModulus(gens: seq<Pauli>, n: nat): nat {
    if HasPhase(gens, n, 1) then 1 else if HasPhase(gens, n, 2) then 2 else 4
  }

  lemma SameGroupSameModulus(a: seq<Pauli>, b: seq<Pauli>, n: nat)
    requires SameGroup(a, b, n)
    ensures GroupModulus(a, n) == GroupModulus(b, n)
  {
    assert forall k {:trigger HasPhase(a, n, k)} :: HasPhase(a, n, k) ==> HasPhase(b, n, k);
    assert forall k {:trigger HasPhase(b, n, k)} :: HasPhase(b, n, k) ==> HasPhase(a, n, k);
  }

  lemma StandardSame(gens: seq<Pauli>, e: EchelonForm, n: nat)
    requires Echelon(gens, e, n)
    ensures |e.pivots| <= |e.transform|
    ensures SameGroup(StandardGenerators(gens, e, n), gens, n)
    ensures forall k {:trigger HasPhase(gens, n, k)} :: HasPhase(StandardGenerators(gens, e, n), n, k) <==> HasPhase(gens, n, k)
  {
    StandardGeneratesGroup(gens, e, n);
    hide StandardGenerators, Member, Echelon;
  }

  /** The phases that the standard generators show are those of the group. */
  lemma GroupPhasesAreExact(gens: seq<Pauli>, e: EchelonForm, n: nat, k: bv2)
    requires Echelon(gens, e, n)
    ensures |e.pivots| <= |e.transform|
    ensures var t := StandardGenerators(gens, e, n);
      k in PhasesGeneratedBy(t, AllCommute(t)) <==> HasPhase(gens, n, k)
  {
    StandardShape(gens, e, n);
    StandardSame(gens, e, n);
    PhasesAreExact(PivotGenerators(gens, e, n), e.pivots, PhaseTail(gens, e, n), n, k);
    hide StandardGenerators, Member, Echelon, PivotGenerators, PhaseTail, PhasesGeneratedBy, Shape;
    assert HasPhase(gens, n, k) <==> HasPhase(StandardGenerators(gens, e, n), n, k);
  }

  // ----- the modulus of the group and the tail

  /** Minus the identity without the imaginary unit, the imaginary unit, or neither, by what the construction found. */
  lemma ModulusIs(gens: seq<Pauli>, e: EchelonForm, n: nat)
    requires Echelon(gens, e, n)
    ensures |e.pivots| <= |e.transform|
    ensures var modulus := TailModulus(RowProducts(gens, e, n), |e.pivots|);
      GroupModulus(gens, n) ==
        if modulus == 1 then 1 else if modulus == 2 || !Plain(PivotGenerators(gens, e, n)) then 2 else 4
  {
    StandardShape(gens, e, n);
    ModulusGivesPhases(gens, e, n);
    StandardSame(gens, e, n);
    TailKind(gens, e, n);
    PivotPlain(gens, e, n);
    var s, tail := PivotGenerators(gens, e, n), PhaseTail(gens, e, n);
    var modulus := TailModulus(RowProducts(gens, e, n), |e.pivots|);
    if modulus != 1 {
      if HasPhase(gens, n, 1) {
        OddPhaseNeedsTail(s, e.pivots, tail, n, 1);
      }
      if PlainCase(gens, e, n) {
        if HasPhase(gens, n, 2) {
          assert PhaseElement(0, n) == Identity(n);
          PlainWithTail(s, tail, n);
          PlainHasNoPhase(s, e.pivots, tail, n, 2);
        }
      } else {
        SignInStandard(gens, e, n);
      }
    }
    hide StandardGenerators, Member, Echelon, PivotGenerators, PhaseTail, Shape, RowProducts, TailModulus, LowRows, Plain,
         AllOn;
  }

  lemma PlainWithTail(s: seq<Pauli>, tail: seq<Pauli>, n: nat)
    requires Plain(s) && |tail| <= 1 && (tail != [] ==> tail[0] == Identity(n))
    ensures Plain(s + tail)
  {
    DotZero(Zeros(n), Zeros(n));
    forall p: Pauli ensures !Anti(p, Identity(n)) && !Anti(Identity(n), p) {
      AntiIdentity(p, n);
    }
    hide Anti;
    var t := s + tail;
    forall i, j | 0 <= i < |t| && 0 <= j < |t| ensures !Anti(t[i], t[j]) {
      assert i < |s| ==> t[i] == s[i];
      assert j < |s| ==> t[j] == s[j];
    }
  }

  /** The tail as a function of the pivot generators and of the modulus of the group. */
  function CanonicalTail(s: seq<Pauli>, modulus: nat, n: nat): seq<Pauli> {
    if modulus == 1 then [PhaseElement(1, n)]
    else if Plain(s) && modulus == 2 then [PhaseElement(2, n)]
    else if s == [] then [PhaseElement(0, n)]
    else []
  }

  lemma TailIsCanonical(gens: seq<Pauli>, e: EchelonForm, n: nat)
    requires Echelon(gens, e, n)
    ensures |e.pivots| <= |e.transform|
    ensures PhaseTail(gens, e, n) == CanonicalTail(PivotGenerators(gens, e, n), GroupModulus(gens, n), n)
  {
    StandardShape(gens, e, n);
    ModulusIs(gens, e, n);
    TailKind(gens, e, n);
    PivotPlain(gens, e, n);
    hide StandardGenerators, Member, Echelon, PivotGenerators, PhaseTail, RowProducts, TailModulus, LowRows, Plain,
         GroupModulus, PhaseElement;
  }

  lemma ReduceTwice(p: Pauli, modulus: nat)
    ensures Reduce(Reduce(p, modulus), modulus) == Reduce(p, modulus)
    ensures Reduce(Reduce(p, 1), 2) == Reduce(p, 1)
    ensures Reduce(p, 4) == p && Reduce(Reduce(p, 4), 2) == Reduce(p, 2)
  {
    assert (p.phase & 1) & 1 == p.phase & 1;
  }

  /** The phases of the pivot generators are reduced by the modulus of the group. */
  lemma PivotIsReduced(gens: seq<Pauli>, e: EchelonForm, n: nat, j: nat)
    requires Echelon(gens, e, n) && j < |e.pivots|
    ensures |e.pivots| <= |e.transform| && |PivotGenerators(gens, e, n)| == |e.pivots|
    ensures Reduce(PivotGenerators(gens, e, n)[j], GroupModulus(gens, n)) == PivotGenerators(gens, e, n)[j]
  {
    EchelonSizes(gens, e, n);
    PivotCount(gens, e, n);
    ModulusIs(gens, e, n);
    ModulusGivesPhases(gens, e, n);
    PivotPlain(gens, e, n);
    var o, modulus := RowProducts(gens, e, n)[j], TailModulus(RowProducts(gens, e, n), |e.pivots|);
    ReduceTwice(o, modulus);
    ReduceTwice(o, 2);
    ReduceTwice(Reduce(o, modulus), 2);
    hide RowProducts, TailModulus, Plain, GroupModulus, Echelon, Reduce;
    assert LowRows(gens, e, n)[j] == Reduce(o, modulus);
  }

  /** Two members with the same bits and reduced phases are equal. */
  lemma ReducedMembersAreEqual(gens: seq<Pauli>, n: nat, p: Pauli, q: Pauli)
    requires AllOn(gens, n) && Member(gens, n, p) && Member(gens, n, q) && p.bits == q.bits
    requires Reduce(p, GroupModulus(gens, n)) == p && Reduce(q, GroupModulus(gens, n)) == q
    ensures p == q
  {
    MemberOn(gens, n, q);
    SameBitsDifferByPhase(gens, n, p, q);
    var k := q.phase - p.phase;
    if k & 1 == 1 {
      OddPhaseGivesAll(gens, n, k, 1);
    }
    hide Member, AllOn;
    assert k == 0 || k == 2 || k & 1 == 1;
  }

  lemma SameGroupSameSpan(a: seq<Pauli>, b: seq<Pauli>, n: nat)
    requires AllOn(a, n) && AllOn(b, n) && GroupWithin(a, b, n)
    ensures SpanWithin(RowsOf(a), RowsOf(b), 2 * n)
  {
    forall v | InSpan(RowsOf(a), 2 * n, v) ensures InSpan(RowsOf(b), 2 * n, v) {
      var c :| ComboIs(RowsOf(a), c, 2 * n, v);
      ProductRow(a, c, |a|, n);
      SubsetProductMember(a, c, |a|, n);
      assert Member(b, n, Product(a, c, |a|, n));
      MemberSpan(b, n, Product(a, c, |a|, n));
    }
  }

  lemma SpanTransitive(a: seq<Bits>, b: seq<Bits>, c: seq<Bits>, width: nat)
    requires SpanWithin(a, b, width) && SpanWithin(b, c, width)
    ensures SpanWithin(a, c, width)
  {
    forall v | InSpan(a, width, v) ensures InSpan(c, width, v) {
      assert InSpan(b, width, v);
    }
  }

  lemma EchelonSpans(gens: seq<Pauli>, e: EchelonForm, n: nat, gens': seq<Pauli>, e': EchelonForm)
    requires Echelon(gens, e, n) && Echelon(gens', e', n) && GroupWithin(gens, gens', n)
    ensures SpanWithin(e.matrix, e'.matrix, 2 * n)
  {
    ReductionKeepsSpan(RowsOf(gens), e, 2 * n);
    ReductionKeepsSpan(RowsOf(gens'), e', 2 * n);
    SameGroupSameSpan(gens, gens', n);
    hide SpanWithin;
    SpanTransitive(e.matrix, RowsOf(gens), RowsOf(gens'), 2 * n);
    SpanTransitive(e.matrix, RowsOf(gens'), e'.matrix, 2 * n);
  }

  /** Two lists of generators of the same group have the same standard generators, phases included. */
  lemma SameGroupSameStandard(a: seq<Pauli>, ea: EchelonForm, b: seq<Pauli>, eb: EchelonForm, n: nat)
    requires Echelon(a, ea, n) && Echelon(b, eb, n) && SameGroup(a, b, n)
    ensures |ea.pivots| <= |ea.transform| && |eb.pivots| <= |eb.transform|
    ensures StandardGenerators(a, ea, n) == StandardGenerators(b, eb, n)
  {
    StandardShape(a, ea, n);
    StandardShape(b, eb, n);
    EchelonSpans(a, ea, n, b, eb);
    EchelonSpans(b, eb, n, a, ea);
    ReducedFormIsUnique(ea.matrix, ea.pivots, eb.matrix, eb.pivots, 2 * n);
    SameGroupSameModulus(a, b, n);
    TailIsCanonical(a, ea, n);
    TailIsCanonical(b, eb, n);
    var s, s' := PivotGenerators(a, ea, n), PivotGenerators(b, eb, n);
    assert AllOn(a, n);
    hide StandardGenerators, PivotGenerators, PhaseTail, Echelon, Shape, IsReduced, SpanWithin, GroupModulus, CanonicalTail;
    forall j | 0 <= j < |s| ensures s[j] == s'[j] {
      PivotMember(a, ea, n, j);
      PivotMember(b, eb, n, j);
      assert Member(a, n, s'[j]);
      assert ea.matrix[..|ea.pivots|][j] == eb.matrix[..|eb.pivots|][j];
      RowRoundTrip(s[j].bits, n);
      RowRoundTrip(s'[j].bits, n);
      PivotIsReduced(a, ea, n, j);
      PivotIsReduced(b, eb, n, j);
      ReducedMembersAreEqual(a, n, s[j], s'[j]);
    }
    assert s == s';
  }

  /** Comparing standard generators decides equality of groups. */
  lemma StandardDecidesEquality(a: seq<Pauli>, ea: EchelonForm, b: seq<Pauli>, eb: EchelonForm, n: nat)
    requires Echelon(a, ea, n) && Echelon(b, eb, n)
    ensures |ea.pivots| <= |ea.transform| && |eb.pivots| <= |eb.transform|
    ensures StandardGenerators(a, ea, n) == StandardGenerators(b, eb, n) <==> SameGroup(a, b, n)
  {
    EchelonSizes(a, ea, n);
    EchelonSizes(b, eb, n);
    StandardSame(a, ea, n);
    StandardSame(b, eb, n);
    hide StandardGenerators, Echelon, Member;
    if SameGroup(a, b, n) {
      SameGroupSameStandard(a, ea, b, eb, n);
    }
  }
}
