/** Standard generators of a Pauli group: reduced rows, reduced phases, and at most one pure phase. */
module StandardForms {
  import opened Bits
  import opened Paulis
  import opened Tableaus
  import opened AffineMaps
  import opened LinearAlgebra
  import opened Spans
  import opened Groups

  // ----- the construction

  /** The products of generators that the rows of the transform select. */
  function RowProducts(gens: seq<Pauli>, e: EchelonForm, n: nat): seq<Pauli> {
    seq(|e.transform|, j requires 0 <= j < |e.transform| => Product(gens, e.transform[j], |gens|, n))
  }

  /** The modulus of the phases that the products with zero bits, from position `r` on, generate. */
  function TailModulus(products: seq<Pauli>, r: nat): nat {
    if exists j :: r <= j < |products| && OddPhase(products[j]) then 1
    else if exists j :: r <= j < |products| && products[j].phase == 2 then 2
    else 4
  }

  function ReducePhase(phase: bv2, modulus: nat): bv2 {
    if modulus == 1 then 0 else if modulus == 2 then phase & 1 else phase
  }

  function Reduce(p: Pauli, modulus: nat): Pauli {
    p.(phase := ReducePhase(p.phase, modulus))
  }

  /** Reduction is the remainder of the exponent, so a phase is reduced when it is below the modulus. */
  lemma ReduceIsRemainder(p: Pauli, modulus: nat)
    requires modulus == 1 || modulus == 2 || modulus == 4
    ensures Reduce(p, modulus).bits == p.bits
    ensures Reduce(p, modulus).phase as nat == p.phase as nat % modulus
    ensures Reduce(p, modulus) == p <==> (p.phase as nat) < modulus
  {
    assert p.phase == 0 || p.phase == 1 || p.phase == 2 || p.phase == 3;
  }

  function ReduceAll(s: seq<Pauli>, modulus: nat): seq<Pauli> {
    seq(|s|, j requires 0 <= j < |s| => Reduce(s[j], modulus))
  }

  function ModulusPhase(modulus: nat): bv2 {
    if modulus == 1 then 1 else if modulus == 2 then 2 else 0
  }

  predicate Plain(s: seq<Pauli>) {
    AllOrderTwo(s) && AllCommute(s)
  }

  /** Phases are reduced once more when the rows alone generate minus the identity; then the pure phase, if needed. */
  function Assemble(low: seq<Pauli>, modulus: nat, n: nat): seq<Pauli> {
    var s := if Plain(low) then low else ReduceAll(low, 2);
    var left := if Plain(low) then modulus else modulus % 2;
    if left % 4 != 0 || s == [] then s + [PhaseElement(ModulusPhase(left), n)] else s
  }

  /** The modulus by which the phases of the rows end up reduced. */
  function RowModulus(low: seq<Pauli>, modulus: nat): nat {
    if Plain(low) || modulus == 1 then modulus else 2
  }

  /** Assembling keeps the bits of every row and reduces its exponent by the modulus. */
  lemma AssembledRow(rows: seq<Pauli>, modulus: nat, n: nat, j: nat)
    requires (modulus == 1 || modulus == 2 || modulus == 4) && j < |rows|
    ensures var t := Assemble(ReduceAll(rows, modulus), modulus, n);
      && |rows| <= |t| <= |rows| + 1 && t[j].bits == rows[j].bits
      && t[j].phase as nat == rows[j].phase as nat % RowModulus(ReduceAll(rows, modulus), modulus)
  {
    ReduceIsRemainder(rows[j], modulus);
    ReduceIsRemainder(Reduce(rows[j], modulus), 2);
    hide Plain, Reduce;
  }

  function StandardGenerators(gens: seq<Pauli>, e: EchelonForm, n: nat): seq<Pauli>
    requires |e.pivots| <= |e.transform|
  {
    var products, r := RowProducts(gens, e, n), |e.pivots|;
    var modulus := TailModulus(products, r);
    Assemble(ReduceAll(products[..r], modulus), modulus, n)
  }

  // ----- facts about the row products

  ghost predicate Echelon(gens: seq<Pauli>, e: EchelonForm, n: nat) {
    AllOn(gens, n) && IsEchelon(RowsOf(gens), e, 2 * n)
  }

  lemma EchelonSizes(gens: seq<Pauli>, e: EchelonForm, n: nat)
    requires Echelon(gens, e, n)
    ensures |e.matrix| == |e.transform| == |e.inverse| == |gens| && |e.pivots| <= |gens|
    ensures Rectangular(e.matrix, 2 * n) && Rectangular(e.transform, |gens|)
  {
  }

  lemma RowProduct(gens: seq<Pauli>, e: EchelonForm, n: nat, j: nat)
    requires Echelon(gens, e, n) && j < |gens|
    ensures |RowProducts(gens, e, n)| == |gens| == |e.matrix|
    ensures var o := RowProducts(gens, e, n)[j];
      On(o, n) && AsRow(o.bits) == e.matrix[j] && Member(gens, n, o)
  {
    ProductRow(gens, e.transform[j], |gens|, n);
    SubsetProductMember(gens, e.transform[j], |gens|, n);
  }

  /** Past the rank the products are pure phases. */
  lemma TailProduct(gens: seq<Pauli>, e: EchelonForm, n: nat, j: nat)
    requires Echelon(gens, e, n) && |e.pivots| <= j < |gens|
    ensures |RowProducts(gens, e, n)| == |gens|
    ensures var o := RowProducts(gens, e, n)[j];
      o == PhaseElement(o.phase, n) && HasPhase(gens, n, o.phase)
  {
    RowProduct(gens, e, n, j);
    var o := RowProducts(gens, e, n)[j];
    RowOfIdentity(n);
    Same(e.matrix[j], Zeros(2 * n));
    RowRoundTrip(o.bits, n);
    RowRoundTrip(IdentityBits(n), n);
  }

  lemma ModulusGivesPhases(gens: seq<Pauli>, e: EchelonForm, n: nat)
    requires Echelon(gens, e, n)
    ensures var modulus := TailModulus(RowProducts(gens, e, n), |e.pivots|);
      && (modulus == 1 || modulus == 2 || modulus == 4)
      && (modulus == 1 ==> forall k :: HasPhase(gens, n, k))
      && (modulus == 2 ==> HasPhase(gens, n, 2))
  {
    var products, r := RowProducts(gens, e, n), |e.pivots|;
    EchelonSizes(gens, e, n);
    if j :| r <= j < |products| && OddPhase(products[j]) {
      TailProduct(gens, e, n, j);
      forall k ensures HasPhase(gens, n, k) {
        OddPhaseGivesAll(gens, n, products[j].phase, k);
      }
    } else if j :| r <= j < |products| && products[j].phase == 2 {
      TailProduct(gens, e, n, j);
    }
  }

  /** Changing a phase by the phases of the group keeps a member. */
  lemma ReducedMember(gens: seq<Pauli>, n: nat, p: Pauli, modulus: nat)
    requires AllOn(gens, n) && Member(gens, n, p)
    requires modulus == 1 || modulus == 2 || modulus == 4
    requires modulus == 1 ==> forall k :: HasPhase(gens, n, k)
    requires modulus == 2 ==> HasPhase(gens, n, 2)
    ensures Member(gens, n, Reduce(p, modulus))
  {
    MemberOn(gens, n, p);
    MemberIdentity(gens, n);
    assert PhaseElement(0, n) == Identity(n);
    SameBitsDifferByPhase(gens, n, p, Reduce(p, modulus));
    assert modulus == 2 ==> ReducePhase(p.phase, 2) - p.phase == 0 || ReducePhase(p.phase, 2) - p.phase == 2;
  }

  /** The rows with their phases reduced by the modulus of the tail. */
  function LowRows(gens: seq<Pauli>, e: EchelonForm, n: nat): seq<Pauli>
    requires |e.pivots| <= |e.transform|
  {
    ReduceAll(RowProducts(gens, e, n)[..|e.pivots|], TailModulus(RowProducts(gens, e, n), |e.pivots|))
  }

  /** The first standard generators, one for each pivot. */
  function PivotGenerators(gens: seq<Pauli>, e: EchelonForm, n: nat): seq<Pauli>
    requires |e.pivots| <= |e.transform|
  {
    var low := LowRows(gens, e, n);
    if Plain(low) then low else ReduceAll(low, 2)
  }

  lemma LowMember(gens: seq<Pauli>, e: EchelonForm, n: nat, j: nat)
    requires Echelon(gens, e, n) && j < |e.pivots|
    ensures |e.pivots| <= |e.transform| && |LowRows(gens, e, n)| == |e.pivots| <= |e.matrix|
    ensures var p := LowRows(gens, e, n)[j];
      On(p, n) && Member(gens, n, p) && AsRow(p.bits) == e.matrix[j]
  {
    EchelonSizes(gens, e, n);
    RowProduct(gens, e, n, j);
    ModulusGivesPhases(gens, e, n);
    ReducedMember(gens, n, RowProducts(gens, e, n)[j], TailModulus(RowProducts(gens, e, n), |e.pivots|));
  }

  lemma NotPlainGivesSign(gens: seq<Pauli>, n: nat, s: seq<Pauli>)
    requires AllOn(gens, n) && !Plain(s) && forall j :: 0 <= j < |s| ==> Member(gens, n, s[j])
    ensures HasPhase(gens, n, 2)
  {
    if i :| 0 <= i < |s| && !IsOrderTwo(s[i]) {
      SquareGivesSign(gens, n, s[i]);
    } else {
      var i, j :| 0 <= i < |s| && 0 <= j < |s| && Anti(s[i], s[j]);
      CommutatorGivesSign(gens, n, s[i], s[j]);
    }
  }

  lemma PivotMember(gens: seq<Pauli>, e: EchelonForm, n: nat, j: nat)
    requires Echelon(gens, e, n) && j < |e.pivots|
    ensures |e.pivots| <= |e.transform| && |PivotGenerators(gens, e, n)| == |e.pivots| <= |e.matrix|
    ensures var p := PivotGenerators(gens, e, n)[j];
      On(p, n) && Member(gens, n, p) && AsRow(p.bits) == e.matrix[j]
  {
    EchelonSizes(gens, e, n);
    LowMember(gens, e, n, j);
    var low := LowRows(gens, e, n);
    if !Plain(low) {
      forall i | 0 <= i < |low| ensures Member(gens, n, low[i]) {
        LowMember(gens, e, n, i);
      }
      NotPlainGivesSign(gens, n, low);
      ReducedMember(gens, n, low[j], 2);
    }
  }

  /** The pure phase that follows the pivot generators, if any. */
  function PhaseTail(gens: seq<Pauli>, e: EchelonForm, n: nat): seq<Pauli>
    requires |e.pivots| <= |e.transform|
  {
    var modulus := TailModulus(RowProducts(gens, e, n), |e.pivots|);
    var left := if Plain(LowRows(gens, e, n)) then modulus else modulus % 2;
    if left % 4 != 0 || PivotGenerators(gens, e, n) == [] then [PhaseElement(ModulusPhase(left), n)] else []
  }

  lemma StandardParts(gens: seq<Pauli>, e: EchelonForm, n: nat)
    requires |e.pivots| <= |e.transform|
    ensures StandardGenerators(gens, e, n) == PivotGenerators(gens, e, n) + PhaseTail(gens, e, n)
  {
  }

  lemma TailMember(gens: seq<Pauli>, e: EchelonForm, n: nat)
    requires Echelon(gens, e, n)
    ensures |e.pivots| <= |e.transform|
    ensures |PhaseTail(gens, e, n)| <= 1
    ensures PhaseTail(gens, e, n) != [] ==>
      var p := PhaseTail(gens, e, n)[0];
      On(p, n) && Member(gens, n, p) && p == PhaseElement(p.phase, n)
  {
    EchelonSizes(gens, e, n);
    ModulusGivesPhases(gens, e, n);
    MemberIdentity(gens, n);
    assert PhaseElement(0, n) == Identity(n);
    var modulus := TailModulus(RowProducts(gens, e, n), |e.pivots|);
    var left := if Plain(LowRows(gens, e, n)) then modulus else modulus % 2;
    assert left == 0 || left == 1 || left == 2 || left == 4;
    assert HasPhase(gens, n, ModulusPhase(left));
    hide TailModulus, RowProducts, LowRows, PivotGenerators, Member;
  }

  // ----- lists with independent rows and one pure phase

  /** Pivot generators `s` followed by `tail`, which is empty or a pure phase. */
  ghost predicate Shape(s: seq<Pauli>, pivots: seq<nat>, tail: seq<Pauli>, n: nat) {
    && AllOn(s, n) && |pivots| == |s| && IsReduced(RowsOf(s), pivots, 2 * n)
    && |tail| <= 1 && (tail != [] ==> tail[0] == PhaseElement(tail[0].phase, n))
  }

  lemma ShapeReduced(s: seq<Pauli>, pivots: seq<nat>, tail: seq<Pauli>, n: nat)
    requires Shape(s, pivots, tail, n)
    ensures AllOn(s + tail, n) && IsReduced(RowsOf(s + tail), pivots, 2 * n)
  {
    RowOfIdentity(n);
    assert forall j :: 0 <= j < |s| ==> RowsOf(s + tail)[j] == RowsOf(s)[j];
    assert tail != [] ==> RowsOf(s + tail)[|s|] == Zeros(2 * n);
  }

  /** A word without bits uses every pivot generator an even number of times. */
  lemma EvenOccurrences(s: seq<Pauli>, pivots: seq<nat>, tail: seq<Pauli>, n: nat, word: seq<nat>, i: nat)
    requires Shape(s, pivots, tail, n) && i < |s|
    requires forall k :: 0 <= k < |word| ==> word[k] < |s + tail|
    requires AllOn(s + tail, n) && WordProduct(s + tail, word, n).bits == IdentityBits(n)
    ensures !At(Occurs(word, |s + tail|), i)
  {
    ShapeReduced(s, pivots, tail, n);
    WordRow(s + tail, word, n);
    RowOfIdentity(n);
    PivotCoefficient(RowsOf(s + tail), pivots, 2 * n, Occurs(word, |s + tail|), i);
  }

  /** A word without bits has an odd phase only through the tail. */
  lemma OddWordNeedsTail(s: seq<Pauli>, pivots: seq<nat>, tail: seq<Pauli>, n: nat, word: seq<nat>)
    requires Shape(s, pivots, tail, n) && AllOn(s + tail, n)
    requires forall k :: 0 <= k < |word| ==> word[k] < |s + tail|
    requires WordProduct(s + tail, word, n).bits == IdentityBits(n) && OddPhase(WordProduct(s + tail, word, n))
    ensures tail != [] && OddPhase(tail[0])
  {
    hide *;
    var t := s + tail;
    var c := Occurs(word, |t|);
    WordOdd(t, word, n);
    OccursSize(word, |t|);
    OddPhasesSize(t);
    DotToStable(c, OddPhases(t), |t|);
    forall i: nat | i < |s| ensures !At(c, i) {
      EvenOccurrences(s, pivots, tail, n, word, i);
    }
    var j := DotWitness(c, OddPhases(t), |t|);
    OddPhasesAt(t, j);
    TailSize(s, pivots, tail, n);
    assert t[j] == tail[j - |s|];
  }

  lemma OddPhasesSize(gens: seq<Pauli>)
    ensures |OddPhases(gens)| == |gens|
  {
  }

  lemma OddPhasesAt(gens: seq<Pauli>, j: nat)
    requires j < |gens|
    ensures At(OddPhases(gens), j) == OddPhase(gens[j])
  {
  }

  lemma TailSize(s: seq<Pauli>, pivots: seq<nat>, tail: seq<Pauli>, n: nat)
    requires Shape(s, pivots, tail, n)
    ensures |tail| <= 1
  {
  }

  /** Odd phases need an odd tail. */
  lemma OddPhaseNeedsTail(s: seq<Pauli>, pivots: seq<nat>, tail: seq<Pauli>, n: nat, k: bv2)
    requires Shape(s, pivots, tail, n) && HasPhase(s + tail, n, k) && k & 1 == 1
    ensures tail != [] && OddPhase(tail[0])
  {
    ShapeReduced(s, pivots, tail, n);
    hide Shape, AllOn, WordProduct;
    var word :| IsWord(s + tail, n, word, PhaseElement(k, n));
    OddWordNeedsTail(s, pivots, tail, n, word);
  }

  lemma NoCommonOnes(a: Bits, b: Bits, k: nat)
    requires forall i: nat :: i < k ==> !(At(a, i) && At(b, i))
    ensures !DotTo(a, b, k)
  {
  }

  lemma {:induction false} ProductOfNothing(t: seq<Pauli>, c: Bits, k: nat, n: nat)
    requires k <= |t| && forall i: nat :: i < k && At(c, i) ==> t[i] == Identity(n)
    ensures Product(t, c, k, n) == Identity(n)
  {
    if k > 0 {
      ProductOfNothing(t, c, k - 1, n);
      MulIdentity(Identity(n), n);
    }
  }

  /** A word without bits is trivial when the generators commute and square to one and the tail is trivial. */
  lemma PlainWordIsTrivial(s: seq<Pauli>, pivots: seq<nat>, tail: seq<Pauli>, n: nat, word: seq<nat>)
    requires Shape(s, pivots, tail, n) && AllOn(s + tail, n) && Plain(s + tail)
    requires tail == [] || tail[0] == Identity(n)
    requires forall k :: 0 <= k < |word| ==> word[k] < |s + tail|
    requires WordProduct(s + tail, word, n).bits == IdentityBits(n)
    ensures WordProduct(s + tail, word, n) == Identity(n)
  {
    WordIsProduct(s + tail, word, n);
    forall i: nat | i < |s| ensures !At(Occurs(word, |s + tail|), i) {
      EvenOccurrences(s, pivots, tail, n, word, i);
    }
    hide *;
    TrivialTailProduct(s, tail, Occurs(word, |s + tail|), n);
  }

  lemma TrivialTailProduct(s: seq<Pauli>, tail: seq<Pauli>, c: Bits, n: nat)
    requires |tail| <= 1 && (tail == [] || tail[0] == Identity(n)) && forall i: nat :: i < |s| ==> !At(c, i)
    ensures Product(s + tail, c, |s + tail|, n) == Identity(n)
  {
    ProductOfNothing(s + tail, c, |s + tail|, n);
  }

  /** Commuting generators of order two with independent bits generate no phase but one. */
  lemma PlainHasNoPhase(s: seq<Pauli>, pivots: seq<nat>, tail: seq<Pauli>, n: nat, k: bv2)
    requires Shape(s, pivots, tail, n) && Plain(s + tail) && HasPhase(s + tail, n, k)
    requires tail == [] || tail[0] == Identity(n)
    ensures k == 0
  {
    ShapeReduced(s, pivots, tail, n);
    hide Shape, AllOn, Plain, WordProduct;
    var word :| IsWord(s + tail, n, word, PhaseElement(k, n));
    PlainWordIsTrivial(s, pivots, tail, n, word);
  }

  // ----- phases read off the standard generators

  predicate GeneratesImaginary(t: seq<Pauli>) {
    exists j :: 0 <= j < |t| && OddPhase(t[j]) && IsZero(AsRow(t[j].bits))
  }

  predicate GeneratesNegative(t: seq<Pauli>, allCommute: bool) {
    !allCommute || exists j :: 0 <= j < |t| && (!IsOrderTwo(t[j]) || (IsZero(AsRow(t[j].bits)) && t[j].phase == 2))
  }

  function PhasesGeneratedBy(t: seq<Pauli>, allCommute: bool): seq<bv2> {
    if GeneratesImaginary(t) then [0, 1, 2, 3]
    else if GeneratesNegative(t, allCommute) then [0, 2]
    else [0]
  }

  lemma PivotRowNotZero(s: seq<Pauli>, pivots: seq<nat>, tail: seq<Pauli>, n: nat, j: nat)
    requires Shape(s, pivots, tail, n) && j < |s|
    ensures !IsZero(AsRow(s[j].bits))
  {
    assert At(RowsOf(s)[j], pivots[j]);
  }

  lemma PureIsPhase(p: Pauli, n: nat)
    requires On(p, n) && IsZero(AsRow(p.bits))
    ensures p == PhaseElement(p.phase, n)
  {
    RowOfIdentity(n);
    Same(AsRow(p.bits), Zeros(2 * n));
    RowRoundTrip(p.bits, n);
    RowRoundTrip(IdentityBits(n), n);
  }

  lemma ImaginaryTail(s: seq<Pauli>, pivots: seq<nat>, tail: seq<Pauli>, n: nat)
    requires Shape(s, pivots, tail, n)
    ensures GeneratesImaginary(s + tail) <==> tail != [] && OddPhase(tail[0])
  {
    var t := s + tail;
    forall j | 0 <= j < |s| ensures !IsZero(AsRow(t[j].bits)) {
      PivotRowNotZero(s, pivots, tail, n, j);
    }
    if tail != [] {
      assert t[|s|] == tail[0];
      RowOfIdentity(n);
    }
  }

  lemma NegativeGivesSign(t: seq<Pauli>, n: nat)
    requires AllOn(t, n) && GeneratesNegative(t, AllCommute(t))
    ensures HasPhase(t, n, 2)
  {
    forall j | 0 <= j < |t| ensures Member(t, n, t[j]) {
      MemberGenerator(t, n, j);
    }
    if Plain(t) {
      var j :| 0 <= j < |t| && IsZero(AsRow(t[j].bits)) && t[j].phase == 2;
      PureIsPhase(t[j], n);
    } else {
      NotPlainGivesSign(t, n, t);
    }
  }

  /** The listed phases are exactly those of the group. */
  lemma PhasesAreExact(s: seq<Pauli>, pivots: seq<nat>, tail: seq<Pauli>, n: nat, k: bv2)
    requires Shape(s, pivots, tail, n)
    ensures k in PhasesGeneratedBy(s + tail, AllCommute(s + tail)) <==> HasPhase(s + tail, n, k)
  {
    var t := s + tail;
    ShapeReduced(s, pivots, tail, n);
    ImaginaryTail(s, pivots, tail, n);
    MemberIdentity(t, n);
    assert PhaseElement(0, n) == Identity(n);
    if GeneratesImaginary(t) {
      MemberGenerator(t, n, |s|);
      OddPhaseGivesAll(t, n, tail[0].phase, k);
      assert k == 0 || k == 1 || k == 2 || k == 3;
    } else {
      if HasPhase(t, n, k) && k & 1 == 1 {
        OddPhaseNeedsTail(s, pivots, tail, n, k);
      }
      if GeneratesNegative(t, AllCommute(t)) {
        NegativeGivesSign(t, n);
        assert k == 0 || k == 2 || k & 1 == 1;
      } else {
        assert Plain(t);
        if tail != [] {
          assert t[|s|] == tail[0];
          RowOfIdentity(n);
          assert tail[0].phase == 0 by {
            assert tail[0].phase & 1 == 0 && tail[0].phase != 2;
          }
        }
        if HasPhase(t, n, k) {
          PlainHasNoPhase(s, pivots, tail, n, k);
        }
      }
    }
  }
}
