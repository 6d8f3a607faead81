/** Enumeration of a group: every subset product of the pivot generators with every phase, each exactly once. */
module Enumeration {
  import opened Bits
  import opened Paulis
  import opened Tableaus
  import opened LinearAlgebra
  import opened Spans
  import opened Groups
  import opened StandardForms
  import opened CanonicalForms
  import opened GroupEquality
  import opened PauliGroups

  predicate NoDuplicates<T(==)>(s: seq<T>) {
    forall i, j :: 0 <= i < j < |s| ==> s[i] != s[j]
  }

  function Pow2(k: nat): nat {
    if k == 0 then 1 else 2 * Pow2(k - 1)
  }

  // ----- subsets

  function Extended(vectors: seq<Bits>, b: bool): seq<Bits> {
    seq(|vectors|, i requires 0 <= i < |vectors| => vectors[i] + [b])
  }

  /** All subsets of `r` positions. */
  function AllVectors(r: nat): seq<Bits> {
    if r == 0 then [[]] else Extended(AllVectors(r - 1), false) + Extended(AllVectors(r - 1), true)
  }

  /** Exactly the vectors of length `r`, each once. */
  ghost predicate ListsLength(vectors: seq<Bits>, r: nat) {
    && NoDuplicates(vectors)
    && (forall i :: 0 <= i < |vectors| ==> |vectors[i]| == r)
    && (forall c: Bits :: |c| == r ==> c in vectors)
  }

  lemma ExtendedDistinct(vectors: seq<Bits>, b: bool)
    requires NoDuplicates(vectors)
    ensures NoDuplicates(Extended(vectors, b))
  {
    var all := Extended(vectors, b);
    forall i, j | 0 <= i < j < |all| ensures all[i] != all[j] {
      assert all[i][..|all[i]| - 1] == vectors[i] && all[j][..|all[j]| - 1] == vectors[j];
    }
  }

  lemma ExtendedLast(vectors: seq<Bits>, b: bool, i: nat)
    requires i < |vectors|
    ensures Extended(vectors, b)[i][|vectors[i]|] == b && |Extended(vectors, b)[i]| == |vectors[i]| + 1
  {
  }

  lemma {:induction false} AllVectorsExact(r: nat)
    ensures |AllVectors(r)| == Pow2(r) && ListsLength(AllVectors(r), r)
  {
    if r == 0 {
      assert AllVectors(r) == [[]];
    } else {
      AllVectorsExact(r - 1);
      ExtendedLists(AllVectors(r - 1), r - 1);
    }
  }

  lemma ExtendedLists(shorter: seq<Bits>, r: nat)
    requires ListsLength(shorter, r)
    ensures ListsLength(Extended(shorter, false) + Extended(shorter, true), r + 1)
  {
    var f, t := Extended(shorter, false), Extended(shorter, true);
    ExtendedDistinct(shorter, false);
    ExtendedDistinct(shorter, true);
    forall i, j | 0 <= i < |f| && 0 <= j < |t| ensures f[i] != t[j] {
      ExtendedLast(shorter, false, i);
      ExtendedLast(shorter, true, j);
      assert |shorter[i]| == r && |shorter[j]| == r;
    }
    JoinDistinct(f, t);
    var all := f + t;
    forall i | 0 <= i < |all| ensures |all[i]| == r + 1 {
      assert all[i] == if i < |f| then f[i] else t[i - |f|];
    }
    forall c: Bits | |c| == r + 1 ensures c in all {
      assert c[..r] in shorter;
      var i :| 0 <= i < |shorter| && shorter[i] == c[..r];
      assert c == c[..r] + [c[r]];
      assert c == if c[r] then t[i] else f[i];
      assert all[if c[r] then i + |f| else i] == c;
    }
  }

  // ----- the list

  function Phased(phases: seq<bv2>, p: Pauli): seq<Pauli> {
    seq(|phases|, j requires 0 <= j < |phases| => Rotate(phases[j], p))
  }

  /** The products of the first `k` subsets, each with every phase. */
  function ElementsTo(s: seq<Pauli>, vectors: seq<Bits>, phases: seq<bv2>, k: nat, n: nat): seq<Pauli>
    requires k <= |vectors|
  {
    if k == 0 then []
    else ElementsTo(s, vectors, phases, k - 1, n) + Phased(phases, Product(s, vectors[k - 1], |s|, n))
  }

  lemma {:induction false} ElementsSize(s: seq<Pauli>, vectors: seq<Bits>, phases: seq<bv2>, k: nat, n: nat)
    requires k <= |vectors|
    ensures |ElementsTo(s, vectors, phases, k, n)| == k * |phases|
  {
    if k > 0 {
      ElementsSize(s, vectors, phases, k - 1, n);
      calc {
        (k - 1) * |phases| + |phases|;
        k * |phases|;
      }
    }
  }

  ghost predicate ElementAt(s: seq<Pauli>, vectors: seq<Bits>, phases: seq<bv2>, n: nat, p: Pauli, i: nat, j: nat) {
    i < |vectors| && j < |phases| && p == Rotate(phases[j], Product(s, vectors[i], |s|, n))
  }

  lemma {:induction false} ElementsAreProducts(s: seq<Pauli>, vectors: seq<Bits>, phases: seq<bv2>, k: nat, n: nat, p: Pauli)
    requires k <= |vectors|
    ensures p in ElementsTo(s, vectors, phases, k, n) <==>
      exists i: nat, j: nat :: i < k && ElementAt(s, vectors, phases, n, p, i, j)
  {
    if k > 0 {
      ElementsAreProducts(s, vectors, phases, k - 1, n, p);
      var block := Phased(phases, Product(s, vectors[k - 1], |s|, n));
      if p in block {
        var j :| 0 <= j < |block| && block[j] == p;
        assert ElementAt(s, vectors, phases, n, p, k - 1, j);
      }
      if i: nat, j: nat :| i < k && ElementAt(s, vectors, phases, n, p, i, j) {
        if i == k - 1 {
          assert block[j] == p;
        }
      }
      hide Product;
    }
  }

  /** Products of different subsets of independent generators have different bits. */
  lemma SubsetsDiffer(s: seq<Pauli>, pivots: seq<nat>, n: nat, a: Bits, b: Bits)
    requires AllOn(s, n) && |pivots| == |s| && IsReduced(RowsOf(s), pivots, 2 * n) && |a| == |b| == |s|
    requires Product(s, a, |s|, n).bits == Product(s, b, |s|, n).bits
    ensures a == b
  {
    ProductRow(s, a, |s|, n);
    ProductRow(s, b, |s|, n);
    forall i: nat | i < |s| ensures At(a, i) == At(b, i) {
      PivotCoefficient(RowsOf(s), pivots, 2 * n, a, i);
      PivotCoefficient(RowsOf(s), pivots, 2 * n, b, i);
    }
    Same(a, b);
  }

  lemma {:induction false} ElementsDistinct(s: seq<Pauli>, pivots: seq<nat>, vectors: seq<Bits>, phases: seq<bv2>, k: nat, n: nat)
    requires AllOn(s, n) && |pivots| == |s| && IsReduced(RowsOf(s), pivots, 2 * n) && k <= |vectors|
    requires NoDuplicates(vectors) && forall i :: 0 <= i < |vectors| ==> |vectors[i]| == |s|
    requires NoDuplicates(phases)
    ensures NoDuplicates(ElementsTo(s, vectors, phases, k, n))
  {
    if k > 0 {
      ElementsDistinct(s, pivots, vectors, phases, k - 1, n);
      var front, p := ElementsTo(s, vectors, phases, k - 1, n), Product(s, vectors[k - 1], |s|, n);
      var block := Phased(phases, p);
      hide Product, IsReduced, AllOn;
      forall i, j | 0 <= i < |front| && 0 <= j < |block| ensures front[i] != block[j] {
        ElementsAreProducts(s, vectors, phases, k - 1, n, front[i]);
        var a: nat, b: nat :| a < k - 1 && ElementAt(s, vectors, phases, n, front[i], a, b);
        if front[i] == block[j] {
          SubsetsDiffer(s, pivots, n, vectors[a], vectors[k - 1]);
        }
      }
      BlockDistinct(phases, p);
      JoinDistinct(front, block);
    }
  }

  lemma BlockDistinct(phases: seq<bv2>, p: Pauli)
    requires NoDuplicates(phases)
    ensures NoDuplicates(Phased(phases, p))
  {
    var block := Phased(phases, p);
    forall i, j | 0 <= i < j < |block| ensures block[i] != block[j] {
      assert phases[i] != phases[j];
    }
  }

  lemma JoinDistinct<T>(a: seq<T>, b: seq<T>)
    requires NoDuplicates(a) && NoDuplicates(b) && forall i, j :: 0 <= i < |a| && 0 <= j < |b| ==> a[i] != b[j]
    ensures NoDuplicates(a + b)
  {
  }

  // ----- the list of a group

  /** The base-two logarithm of the number of phases. */
  function PhaseRank(phases: seq<bv2>): nat {
    if |phases| == 1 then 0 else if |phases| == 2 then 1 else 2
  }

  function Log2Size(g: PauliGroup): nat {
    BinaryRank(g) + PhaseRank(g.phases)
  }

  lemma GroupParts(g: PauliGroup, n: nat)
    requires Built(g, n)
    ensures BinaryRank(g) <= |g.standard|
    ensures var s := g.standard[..BinaryRank(g)];
      && AllOn(s, n) && |g.echelon.pivots| == |s| && IsReduced(RowsOf(s), g.echelon.pivots, 2 * n)
      && forall j :: 0 <= j < |s| ==> Member(g.generators, n, s[j])
    ensures forall j :: 0 <= j < |g.standard| ==>
      (IsZero(AsRow(g.standard[j].bits)) <==> BinaryRank(g) <= j)
  {
    var e := g.echelon;
    StandardShape(g.generators, e, n);
    var s, tail := PivotGenerators(g.generators, e, n), PhaseTail(g.generators, e, n);
    assert g.standard[..BinaryRank(g)] == s;
    RowOfIdentity(n);
    hide PivotGenerators, PhaseTail, StandardGenerators, Echelon;
    forall j | 0 <= j < |s| ensures Member(g.generators, n, s[j]) && !IsZero(AsRow(s[j].bits)) {
      PivotMember(g.generators, e, n, j);
      PivotRowNotZero(s, e.pivots, tail, n, j);
    }
  }

  lemma {:induction false} ProductWithin(s: seq<Pauli>, gens: seq<Pauli>, c: Bits, k: nat, n: nat)
    requires AllOn(gens, n) && k <= |s| && forall j :: 0 <= j < |s| ==> Member(gens, n, s[j])
    ensures Member(gens, n, Product(s, c, k, n))
  {
    if k == 0 {
      MemberIdentity(gens, n);
    } else {
      ProductWithin(s, gens, c, k - 1, n);
      MemberMul(gens, n, Product(s, c, k - 1, n), s[k - 1]);
    }
  }

  /** An element of the group as a phase of the group times a subset product. */
  lemma MemberAsProduct(g: PauliGroup, n: nat, p: Pauli) returns (c: Bits, k: bv2)
    requires Built(g, n) && Member(g.generators, n, p) && BinaryRank(g) <= |g.standard|
    ensures |c| == BinaryRank(g) && k in g.phases
    ensures p == Rotate(k, Product(g.standard[..BinaryRank(g)], c, BinaryRank(g), n))
  {
    var gens, e, r := g.generators, g.echelon, BinaryRank(g);
    var s := g.standard[..r];
    GroupParts(g, n);
    MemberOn(gens, n, p);
    MemberSpan(gens, n, p);
    ReductionKeepsSpan(RowsOf(gens), e, 2 * n);
    assert InSpan(e.matrix, 2 * n, AsRow(p.bits));
    var full :| ComboIs(e.matrix, full, 2 * n, AsRow(p.bits));
    c := full[..r];
    SubsetBits(g, n, full);
    var q := Product(s, c, r, n);
    ProductOn(s, c, r, n);
    RowRoundTrip(p.bits, n);
    RowRoundTrip(q.bits, n);
    ProductWithin(s, gens, c, r, n);
    k := p.phase - q.phase;
    SameBitsDifferByPhase(gens, n, q, p);
    BuiltPhases(g, n, k);
    hide Built, Product, Member, InSpan, IsReduced;
  }

  lemma MemberIsListed(g: PauliGroup, n: nat, p: Pauli)
    requires Built(g, n) && Member(g.generators, n, p) && BinaryRank(g) <= |g.standard|
    ensures var r := BinaryRank(g);
      p in ElementsTo(g.standard[..r], AllVectors(r), g.phases, |AllVectors(r)|, n)
  {
    var r := BinaryRank(g);
    hide Built, Product, Member, AllVectors;
    var c, k := MemberAsProduct(g, n, p);
    AllVectorsExact(r);
    assert c in AllVectors(r);
    var i :| 0 <= i < |AllVectors(r)| && AllVectors(r)[i] == c;
    var j :| 0 <= j < |g.phases| && g.phases[j] == k;
    assert ElementAt(g.standard[..r], AllVectors(r), g.phases, n, p, i, j);
    ElementsAreProducts(g.standard[..r], AllVectors(r), g.phases, |AllVectors(r)|, n, p);
  }

  lemma SubsetBits(g: PauliGroup, n: nat, full: Bits)
    requires Built(g, n) && |full| == |g.echelon.matrix|
    ensures BinaryRank(g) <= |g.standard| && BinaryRank(g) <= |full|
    ensures AsRow(Product(g.standard[..BinaryRank(g)], full[..BinaryRank(g)], BinaryRank(g), n).bits)
         == Combo(g.echelon.matrix, full, 2 * n)
  {
    var e, r := g.echelon, BinaryRank(g);
    StandardShape(g.generators, e, n);
    var s := g.standard[..r];
    assert s == PivotGenerators(g.generators, e, n);
    ProductRow(s, full[..r], r, n);
    SumAgrees(RowsOf(s), e.matrix, full[..r], full, 2 * n, r);
    ZeroRowsAddNothing(e.matrix, full, 2 * n, r, |e.matrix|);
    hide PivotGenerators, PhaseTail, StandardGenerators;
  }

  lemma ListedIsMember(g: PauliGroup, n: nat, p: Pauli)
    requires Built(g, n) && BinaryRank(g) <= |g.standard|
    requires var r := BinaryRank(g);
      p in ElementsTo(g.standard[..r], AllVectors(r), g.phases, |AllVectors(r)|, n)
    ensures Member(g.generators, n, p)
  {
    var gens, r := g.generators, BinaryRank(g);
    var s, vectors := g.standard[..r], AllVectors(r);
    GroupParts(g, n);
    ElementsAreProducts(s, vectors, g.phases, |vectors|, n, p);
    var i: nat, j: nat :| i < |vectors| && ElementAt(s, vectors, g.phases, n, p, i, j);
    var q := Product(s, vectors[i], r, n);
    ProductOn(s, vectors[i], r, n);
    ProductWithin(s, gens, vectors[i], r, n);
    BuiltPhases(g, n, g.phases[j]);
    SameBitsDifferByPhase(gens, n, q, p);
    hide Built, Product, Member, AllVectors;
  }

  /** The list of all elements. */
  method Elements(g: PauliGroup, n: nat) returns (list: seq<Pauli>)
    requires Built(g, n)
    ensures forall p :: p in list <==> Member(g.generators, n, p)
    ensures NoDuplicates(list) && |list| == Pow2(Log2Size(g))
  {
    var nontrivial := TakeNontrivial(g.standard);
    NontrivialPart(g, nontrivial, n);
    ListIsExact(g, n);
    var vectors := AllVectors(|nontrivial|);
    assert ElementsTo(nontrivial, vectors, g.phases, 0, n) == [];
    list := [];
    hide *;
    for i := 0 to |vectors|
      invariant list == ElementsTo(nontrivial, vectors, g.phases, i, n)
    {
      var product := ProductOfSelected(nontrivial, vectors[i], n);
      var block := AllPhases(g.phases, product);
      NextElements(nontrivial, vectors, g.phases, i, n);
      list := list + block;
    }
  }

  lemma NontrivialPart(g: PauliGroup, front: seq<Pauli>, n: nat)
    requires Built(g, n) && front <= g.standard
    requires forall j :: 0 <= j < |front| ==> !IsZero(AsRow(g.standard[j].bits))
    requires |front| < |g.standard| ==> IsZero(AsRow(g.standard[|front|].bits))
    ensures |front| == BinaryRank(g) <= |g.standard| && front == g.standard[..BinaryRank(g)]
  {
    GroupParts(g, n);
    var r := BinaryRank(g);
    var atRank := r < |g.standard| && IsZero(AsRow(g.standard[r].bits));
    hide *;
    assert front == g.standard[..|front|];
  }

  lemma NextElements(s: seq<Pauli>, vectors: seq<Bits>, phases: seq<bv2>, i: nat, n: nat)
    requires i < |vectors|
    ensures ElementsTo(s, vectors, phases, i + 1, n)
         == ElementsTo(s, vectors, phases, i, n) + Phased(phases, Product(s, vectors[i], |s|, n))
  {
  }

  method AllPhases(phases: seq<bv2>, p: Pauli) returns (block: seq<Pauli>)
    ensures block == Phased(phases, p)
  {
    block := [];
    for j := 0 to |phases|
      invariant block == Phased(phases, p)[..j]
    {
      block := block + [Rotate(phases[j], p)];
    }
  }

  /** The generators before the first one without bits. */
  method TakeNontrivial(standard: seq<Pauli>) returns (front: seq<Pauli>)
    ensures front <= standard
    ensures forall j :: 0 <= j < |front| ==> !IsZero(AsRow(standard[j].bits))
    ensures |front| < |standard| ==> IsZero(AsRow(standard[|front|].bits))
  {
    front := [];
    for j := 0 to |standard|
      invariant front == standard[..j] && forall k :: 0 <= k < j ==> !IsZero(AsRow(standard[k].bits))
    {
      if IsZero(AsRow(standard[j].bits)) {
        return;
      }
      front := front + [standard[j]];
    }
  }

  lemma PhaseCount(g: PauliGroup, n: nat)
    requires Built(g, n)
    ensures |g.phases| == Pow2(PhaseRank(g.phases)) && NoDuplicates(g.phases)
  {
    PhaseLists(g, n);
    assert Pow2(1) == 2 && Pow2(2) == 4;
    hide Built;
  }

  lemma {:induction false} Pow2Adds(a: nat, b: nat)
    ensures Pow2(a + b) == Pow2(a) * Pow2(b)
  {
    if a > 0 {
      Pow2Adds(a - 1, b);
      calc {
        Pow2(a + b);
        2 * Pow2(a - 1 + b);
        2 * (Pow2(a - 1) * Pow2(b));
        Pow2(a) * Pow2(b);
      }
    }
  }

  lemma ListLength(s: seq<Pauli>, r: nat, phases: seq<bv2>, rank: nat, n: nat)
    requires |phases| == Pow2(rank)
    ensures |ElementsTo(s, AllVectors(r), phases, |AllVectors(r)|, n)| == Pow2(r + rank)
  {
    AllVectorsExact(r);
    ElementsSize(s, AllVectors(r), phases, |AllVectors(r)|, n);
    Pow2Adds(r, rank);
    hide *;
  }

  lemma ListSize(g: PauliGroup, n: nat)
    requires Built(g, n) && BinaryRank(g) <= |g.standard|
    ensures var r := BinaryRank(g);
      |ElementsTo(g.standard[..r], AllVectors(r), g.phases, |AllVectors(r)|, n)| == Pow2(Log2Size(g))
  {
    PhaseCount(g, n);
    hide Built, ElementsTo, AllVectors, NoDuplicates, Pow2, PhaseRank;
    ListLength(g.standard[..BinaryRank(g)], BinaryRank(g), g.phases, PhaseRank(g.phases), n);
  }

  lemma ListDistinct(g: PauliGroup, n: nat)
    requires Built(g, n) && BinaryRank(g) <= |g.standard|
    ensures var r := BinaryRank(g);
      NoDuplicates(ElementsTo(g.standard[..r], AllVectors(r), g.phases, |AllVectors(r)|, n))
  {
    var r := BinaryRank(g);
    GroupParts(g, n);
    AllVectorsExact(r);
    PhaseCount(g, n);
    hide Built, ElementsTo, AllVectors, NoDuplicates, IsReduced, AllOn, AsRow, Member;
    ElementsDistinct(g.standard[..r], g.echelon.pivots, AllVectors(r), g.phases, |AllVectors(r)|, n);
  }

  /** Every member once, nothing else, and as many as the logarithm says. */
  lemma ListIsExact(g: PauliGroup, n: nat)
    requires Built(g, n)
    ensures BinaryRank(g) <= |g.standard|
    ensures var r := BinaryRank(g);
      var list := ElementsTo(g.standard[..r], AllVectors(r), g.phases, |AllVectors(r)|, n);
      && (forall p :: p in list <==> Member(g.generators, n, p))
      && NoDuplicates(list) && |list| == Pow2(Log2Size(g))
  {
    GroupParts(g, n);
    ListSize(g, n);
    ListDistinct(g, n);
    var r := BinaryRank(g);
    hide *;
    var list := ElementsTo(g.standard[..r], AllVectors(r), g.phases, |AllVectors(r)|, n);
    forall p ensures p in list <==> Member(g.generators, n, p) {
      if p in list {
        ListedIsMember(g, n, p);
      }
      if Member(g.generators, n, p) {
        MemberIsListed(g, n, p);
      }
    }
  }
}
