/** Pauli groups as the library builds them, with membership, comparison, coset reduction and enumeration. */
module PauliGroups {
  import opened Bits
  import opened Paulis
  import opened Tableaus
  import opened AffineMaps
  import opened LinearAlgebra
  import opened Spans
  import opened Groups
  import opened StandardForms
  import opened CanonicalForms
  import opened GroupEquality

  /** The generators with the values that are derived from them and kept. */
  datatype PauliGroup = PauliGroup(generators: seq<Pauli>, echelon: EchelonForm, standard: seq<Pauli>, phases: seq<bv2>)

  ghost predicate Built(g: PauliGroup, n: nat) {
    && Echelon(g.generators, g.echelon, n)
    && |g.echelon.pivots| <= |g.echelon.transform|
    && g.standard == StandardGenerators(g.generators, g.echelon, n)
    && g.phases == PhasesGeneratedBy(g.standard, AllCommute(g.standard))
  }

  function BinaryRank(g: PauliGroup): nat {
    |g.echelon.pivots|
  }

  // ----- construction

  /** The product of the selected generators, multiplied on the right one after the other. */
  method ProductOfSelected(gens: seq<Pauli>, c: Bits, n: nat) returns (p: Pauli)
    ensures p == Product(gens, c, |gens|, n)
  {
    p := Identity(n);
    for j := 0 to |gens|
      invariant p == Product(gens, c, j, n)
    {
      if At(c, j) {
        p := Mul(p, gens[j]);
      }
    }
  }

  /** Whether every two elements commute; each pair is looked at once. */
  method AreAllCommuting(s: seq<Pauli>) returns (yes: bool)
    ensures yes == AllCommute(s)
  {
    hide Anti;
    for i := 0 to |s|
      invariant forall k, j :: 0 <= k < i && k < j < |s| ==> !Anti(s[k], s[j])
    {
      for j := i + 1 to |s|
        invariant forall k :: i < k < j ==> !Anti(s[i], s[k])
      {
        if Anti(s[i], s[j]) {
          return false;
        }
      }
    }
    forall i, j | 0 <= i < |s| && 0 <= j < |s| ensures !Anti(s[i], s[j]) {
      AntiSelf(s[i]);
      AntiSym(s[i], s[j]);
    }
    yes := true;
  }

  /** Looks at the zero rows from the last one up; an odd phase ends the search. */
  method PhaseModulusOf(matrix: seq<Bits>, products: seq<Pauli>, ghost pivots: seq<nat>, ghost width: nat)
    returns (modulus: nat)
    requires IsReduced(matrix, pivots, width) && |products| == |matrix|
    ensures modulus == TailModulus(products, |pivots|)
  {
    modulus := 4;
    var row := |matrix|;
    while row > 0
      invariant |pivots| <= row <= |matrix|
      invariant forall j :: row <= j < |matrix| ==> !OddPhase(products[j])
      invariant modulus == (if exists j :: row <= j < |matrix| && products[j].phase == 2 then 2 else 4)
    {
      if !IsZero(matrix[row - 1]) {
        break;
      }
      PivotRowsAreNotZero(matrix, pivots, width, row - 1);
      row := row - 1;
      if products[row].phase == 2 {
        modulus := if modulus > 2 then 2 else modulus;
      } else if OddPhase(products[row]) {
        return 1;
      }
    }
  }

  lemma PivotRowsAreNotZero(matrix: seq<Bits>, pivots: seq<nat>, width: nat, j: nat)
    requires IsReduced(matrix, pivots, width) && j < |matrix|
    ensures IsZero(matrix[j]) <==> |pivots| <= j
  {
    if j < |pivots| {
      assert At(matrix[j], pivots[j]);
    }
  }

  /** Rows with reduced phases, a second reduction if they generate minus the identity, and the pure phase if needed. */
  method AsStandardGenerators(e: EchelonForm, products: seq<Pauli>, n: nat) returns (t: seq<Pauli>)
    requires IsReduced(e.matrix, e.pivots, 2 * n) && |products| == |e.matrix|
    requires forall j :: 0 <= j < |products| ==> On(products[j], n) && AsRow(products[j].bits) == e.matrix[j]
    ensures var modulus := TailModulus(products, |e.pivots|);
      t == Assemble(ReduceAll(products[..|e.pivots|], modulus), modulus, n)
    ensures |e.pivots| <= |t| <= |e.pivots| + 1
    ensures var modulus := TailModulus(products, |e.pivots|);
      var divisor := RowModulus(ReduceAll(products[..|e.pivots|], modulus), modulus);
      forall j :: 0 <= j < |e.pivots| ==>
        AsRow(t[j].bits) == e.matrix[j] && t[j].phase as nat == products[j].phase as nat % divisor
  {
    var modulus := PhaseModulusOf(e.matrix, products, e.pivots, 2 * n);
    ghost var low := ReduceAll(products[..|e.pivots|], modulus);
    t := [];
    var j := 0;
    while j < |products|
      invariant 0 <= j <= |e.pivots| && t == low[..j]
    {
      PivotRowsAreNotZero(e.matrix, e.pivots, 2 * n, j);
      if IsZero(e.matrix[j]) {
        break;
      }
      FromRowOn(e.matrix[j], n);
      RowRoundTrip(products[j].bits, n);
      t := t + [Pauli(FromRow(e.matrix[j], n), ReducePhase(products[j].phase, modulus))];
      j := j + 1;
    }
    assert t == low;
    var commuting := AreAllCommuting(t);
    var orderTwo := AllOrderTwo(t);
    if !orderTwo || !commuting {
      t := ReduceAll(t, 2);
      modulus := modulus % 2;
    }
    if modulus % 4 != 0 || t == [] {
      t := t + [PhaseElement(ModulusPhase(modulus), n)];
    }
    AssembledRows(e, products, t, n);
    hide AllCommute, AllOrderTwo, TailModulus;
  }

  lemma AssembledRows(e: EchelonForm, products: seq<Pauli>, t: seq<Pauli>, n: nat)
    requires |e.pivots| <= |products| == |e.matrix|
    requires forall j :: 0 <= j < |products| ==> AsRow(products[j].bits) == e.matrix[j]
    requires var modulus := TailModulus(products, |e.pivots|);
      t == Assemble(ReduceAll(products[..|e.pivots|], modulus), modulus, n)
    ensures |e.pivots| <= |t| <= |e.pivots| + 1
    ensures var modulus := TailModulus(products, |e.pivots|);
      var divisor := RowModulus(ReduceAll(products[..|e.pivots|], modulus), modulus);
      forall j :: 0 <= j < |e.pivots| ==>
        AsRow(t[j].bits) == e.matrix[j] && t[j].phase as nat == products[j].phase as nat % divisor
  {
    var modulus := TailModulus(products, |e.pivots|);
    assert modulus == 1 || modulus == 2 || modulus == 4;
    hide TailModulus, RowModulus, Assemble, ReduceAll;
    AssembledSize(products[..|e.pivots|], modulus, n);
    forall j: nat | j < |e.pivots|
      ensures AsRow(t[j].bits) == e.matrix[j]
      ensures t[j].phase as nat
           == products[j].phase as nat % RowModulus(ReduceAll(products[..|e.pivots|], modulus), modulus)
    {
      AssembledRow(products[..|e.pivots|], modulus, n, j);
    }
  }

  lemma AssembledSize(rows: seq<Pauli>, modulus: nat, n: nat)
    ensures |rows| <= |Assemble(ReduceAll(rows, modulus), modulus, n)| <= |rows| + 1
  {
    hide Plain;
  }

  method AsBitMatrix(gens: seq<Pauli>, n: nat) returns (rows: seq<Bits>)
    ensures rows == RowsOf(gens)
  {
    rows := [];
    for j := 0 to |gens|
      invariant rows == RowsOf(gens)[..j]
    {
      rows := rows + [AsRow(gens[j].bits)];
    }
  }

  method New(gens: seq<Pauli>, n: nat) returns (g: PauliGroup)
    requires AllOn(gens, n)
    ensures Built(g, n) && g.generators == gens
  {
    var matrix := AsBitMatrix(gens, n);
    RowsRectangular(gens, n);
    var e := Echelonize(matrix, 2 * n);
    EchelonSizes(gens, e, n);
    var products: seq<Pauli> := [];
    hide Echelon, IsReduced, TailModulus, Product;
    for j := 0 to |e.transform|
      invariant |products| == j && forall k :: 0 <= k < j ==> products[k] == Product(gens, e.transform[k], |gens|, n)
    {
      var p := ProductOfSelected(gens, e.transform[j], n);
      products := products + [p];
    }
    assert products == RowProducts(gens, e, n);
    forall j: nat | j < |gens| ensures On(products[j], n) && AsRow(products[j].bits) == e.matrix[j] {
      RowProduct(gens, e, n, j);
    }
    var standard := AsStandardGenerators(e, products, n);
    var commuting := AreAllCommuting(standard);
    g := PauliGroup(gens, e, standard, PhasesGeneratedBy(standard, commuting));
  }

  lemma BuiltPhases(g: PauliGroup, n: nat, k: bv2)
    requires Built(g, n)
    ensures k in g.phases <==> HasPhase(g.generators, n, k)
  {
    GroupPhasesAreExact(g.generators, g.echelon, n, k);
  }

  /** `eq` compares standard generators. */
  lemma EqualityIsExact(g: PauliGroup, h: PauliGroup, n: nat)
    requires Built(g, n) && Built(h, n)
    ensures g.standard == h.standard <==> SameGroup(g.generators, h.generators, n)
  {
    StandardDecidesEquality(g.generators, g.echelon, h.generators, h.echelon, n);
    hide StandardGenerators, Echelon, SameGroup;
  }

  // ----- membership

  lemma {:induction false} WordAppend(gens: seq<Pauli>, word: seq<nat>, j: nat, n: nat)
    requires (forall i :: 0 <= i < |word| ==> word[i] < |gens|) && j < |gens|
    ensures forall i :: 0 <= i < |word + [j]| ==> (word + [j])[i] < |gens|
    ensures WordProduct(gens, word + [j], n) == Mul(WordProduct(gens, word, n), gens[j])
  {
    hide Mul;
    assert (word + [j])[..|word|] == word;
  }

  lemma IsWordAppend(gens: seq<Pauli>, n: nat, word: seq<nat>, p: Pauli, j: nat)
    requires IsWord(gens, n, word, p) && j < |gens|
    ensures IsWord(gens, n, word + [j], Mul(p, gens[j]))
  {
    WordAppend(gens, word, j, n);
    hide Mul, WordProduct;
  }

  lemma EmptyWord(gens: seq<Pauli>, c: Bits, n: nat)
    ensures IsWord(gens, n, SupportTo(c, 0), Product(gens, c, 0, n))
  {
    assert SupportTo(c, 0) == [];
  }

  lemma ProductStep(gens: seq<Pauli>, c: Bits, k: nat, n: nat)
    requires 0 < k <= |gens|
    ensures Product(gens, c, k, n)
         == if At(c, k - 1) then Mul(Product(gens, c, k - 1, n), gens[k - 1]) else Product(gens, c, k - 1, n)
  {
    hide Mul, At;
  }

  /** The selected generators in increasing order are the product over the selecting vector. */
  lemma {:induction false} SupportWord(gens: seq<Pauli>, c: Bits, k: nat, n: nat)
    requires k <= |gens|
    ensures IsWord(gens, n, SupportTo(c, k), Product(gens, c, k, n))
  {
    hide *;
    if k == 0 {
      EmptyWord(gens, c, n);
    } else {
      SupportWord(gens, c, k - 1, n);
      SupportStep(c, k);
      ProductStep(gens, c, k, n);
      if At(c, k - 1) {
        IsWordAppend(gens, n, SupportTo(c, k - 1), Product(gens, c, k - 1, n), k - 1);
      }
    }
  }

  datatype Factorization = Factorization(indexes: seq<nat>, phase: bv2)

  /** The element is the product of the generators at the indexes, in order, times a phase of the group. */
  ghost predicate IsFactorization(f: Factorization, gens: seq<Pauli>, n: nat, p: Pauli) {
    && (forall i, j :: 0 <= i < j < |f.indexes| ==> f.indexes[i] < f.indexes[j])
    && (forall i :: 0 <= i < |f.indexes| ==> f.indexes[i] < |gens|)
    && Rotate(f.phase, WordProduct(gens, f.indexes, n)) == p
    && HasPhase(gens, n, f.phase)
  }

  /** Solves for the bits, multiplies the selected generators, and looks up the remaining phase. */
  method Factorize(g: PauliGroup, p: Pauli, n: nat) returns (f: Option<Factorization>)
    requires Built(g, n) && On(p, n)
    ensures f.Some? <==> Member(g.generators, n, p)
    ensures f.Some? ==> IsFactorization(f.value, g.generators, n, p)
  {
    var gens := g.generators;
    RowRoundTrip(p.bits, n);
    var solution := TransposeSolve(RowsOf(gens), g.echelon, 2 * n, AsRow(p.bits));
    if solution.None? {
      if Member(gens, n, p) {
        MemberSpan(gens, n, p);
      }
      return None;
    }
    var c := solution.value;
    var indexes := Support(c);
    var product := ProductOfSelected(gens, c, n);
    ProductRow(gens, c, |gens|, n);
    RowRoundTrip(product.bits, n);
    SubsetProductMember(gens, c, |gens|, n);
    SameBitsDifferByPhase(gens, n, product, p);
    SupportWord(gens, c, |gens|, n);
    var remaining := p.phase - product.phase;
    BuiltPhases(g, n, remaining);
    hide Built, Member, Product, WordProduct;
    if remaining !in g.phases {
      return None;
    }
    f := Some(Factorization(indexes, remaining));
  }

  // ----- comparison

  lemma PhaseLists(g: PauliGroup, n: nat)
    requires Built(g, n)
    ensures g.phases == [0] || g.phases == [0, 2] || g.phases == [0, 1, 2, 3]
  {
  }

  lemma PhasesInside(g: PauliGroup, u: PauliGroup, n: nat)
    requires Built(g, n) && Built(u, n) && GroupWithin(g.generators, u.generators, n)
    ensures |g.phases| <= |u.phases| && (|g.phases| == |u.phases| ==> g.phases == u.phases)
  {
    PhaseLists(g, n);
    PhaseLists(u, n);
    hide Built;
    forall k | k in g.phases ensures k in u.phases {
      BuiltPhases(g, n, k);
      BuiltPhases(u, n, k);
      assert Member(u.generators, n, PhaseElement(k, n));
    }
    if |g.phases| >= 2 {
      assert (if |g.phases| == 2 then g.phases[1] else g.phases[2]) == 2;
      assert 2 in u.phases;
    }
    if |g.phases| == 4 {
      assert g.phases[1] == 1;
      assert 1 in u.phases;
    }
  }

  /** A subgroup with as many phases and the same rank is the whole group. */
  lemma RanksDecideInclusion(g: PauliGroup, u: PauliGroup, n: nat)
    requires Built(g, n) && Built(u, n) && GroupWithin(g.generators, u.generators, n)
    ensures |g.phases| <= |u.phases| && BinaryRank(g) <= BinaryRank(u)
    ensures |g.phases| == |u.phases| && BinaryRank(g) == BinaryRank(u)
       <==> GroupWithin(u.generators, g.generators, n)
  {
    PhasesInside(g, u, n);
    EchelonSpans(g.generators, g.echelon, n, u.generators, u.echelon);
    PivotsInside(g.echelon.matrix, g.echelon.pivots, u.echelon.matrix, u.echelon.pivots, 2 * n);
    if GroupWithin(u.generators, g.generators, n) {
      PhasesInside(u, g, n);
      EchelonSpans(u.generators, u.echelon, n, g.generators, g.echelon);
      PivotsInside(u.echelon.matrix, u.echelon.pivots, g.echelon.matrix, g.echelon.pivots, 2 * n);
    }
    if |g.phases| == |u.phases| && BinaryRank(g) == BinaryRank(u) {
      SameRankSameSpan(g.echelon.matrix, g.echelon.pivots, u.echelon.matrix, u.echelon.pivots, 2 * n);
      hide Built, InSpan;
      forall p | Member(u.generators, n, p) ensures Member(g.generators, n, p) {
        SameSizeMember(g, u, n, p);
      }
    }
  }

  lemma SameSizeMember(g: PauliGroup, u: PauliGroup, n: nat, p: Pauli)
    requires Built(g, n) && Built(u, n) && GroupWithin(g.generators, u.generators, n) && g.phases == u.phases
    requires SpanWithin(u.echelon.matrix, g.echelon.matrix, 2 * n) && Member(u.generators, n, p)
    ensures Member(g.generators, n, p)
  {
    var a, b := g.generators, u.generators;
    MemberOn(b, n, p);
    MemberSpan(b, n, p);
    ReductionKeepsSpan(RowsOf(a), g.echelon, 2 * n);
    ReductionKeepsSpan(RowsOf(b), u.echelon, 2 * n);
    assert InSpan(u.echelon.matrix, 2 * n, AsRow(p.bits));
    assert InSpan(g.echelon.matrix, 2 * n, AsRow(p.bits));
    assert InSpan(RowsOf(a), 2 * n, AsRow(p.bits));
    var c :| ComboIs(RowsOf(a), c, 2 * n, AsRow(p.bits));
    var q := Product(a, c, |a|, n);
    ProductRow(a, c, |a|, n);
    RowRoundTrip(q.bits, n);
    RowRoundTrip(p.bits, n);
    SubsetProductMember(a, c, |a|, n);
    assert Member(b, n, q);
    SameBitsDifferByPhase(b, n, q, p);
    SameBitsDifferByPhase(a, n, q, p);
    BuiltPhases(g, n, p.phase - q.phase);
    BuiltPhases(u, n, p.phase - q.phase);
    hide Built, Member, SpanWithin, InSpan, Product;
  }

  lemma JoinContains(a: seq<Pauli>, b: seq<Pauli>, n: nat)
    requires AllOn(a, n) && AllOn(b, n)
    ensures AllOn(a + b, n) && GroupWithin(a, a + b, n) && GroupWithin(b, a + b, n)
  {
    forall i | 0 <= i < |a| ensures Member(a + b, n, a[i]) {
      MemberGenerator(a + b, n, i);
    }
    forall i | 0 <= i < |b| ensures Member(a + b, n, b[i]) {
      MemberGenerator(a + b, n, |a| + i);
    }
    GeneratorsWithin(a, a + b, n);
    GeneratorsWithin(b, a + b, n);
  }

  /** The join is inside a group exactly when both parts are. */
  lemma JoinWithin(a: seq<Pauli>, b: seq<Pauli>, c: seq<Pauli>, n: nat)
    requires AllOn(a, n) && AllOn(b, n) && AllOn(c, n)
    ensures GroupWithin(a + b, c, n) <==> GroupWithin(a, c, n) && GroupWithin(b, c, n)
  {
    JoinContains(a, b, n);
    if GroupWithin(a, c, n) && GroupWithin(b, c, n) {
      forall i | 0 <= i < |a + b| ensures Member(c, n, (a + b)[i]) {
        if i < |a| {
          MemberGenerator(a, n, i);
        } else {
          MemberGenerator(b, n, i - |a|);
        }
      }
      GeneratorsWithin(a + b, c, n);
    }
    if GroupWithin(a + b, c, n) {
      forall p | Member(a, n, p) ensures Member(c, n, p) {
        assert Member(a + b, n, p);
      }
      forall p | Member(b, n, p) ensures Member(c, n, p) {
        assert Member(a + b, n, p);
      }
    }
  }

  lemma WithinSelf(a: seq<Pauli>, n: nat)
    ensures GroupWithin(a, a, n)
  {
  }

  datatype Ordering = Less | Equal | Greater

  /** Compares phase counts and ranks with those of the join. */
  method PartialCmp(g: PauliGroup, h: PauliGroup, n: nat) returns (order: Option<Ordering>)
    requires Built(g, n) && Built(h, n)
    ensures var within := GroupWithin(g.generators, h.generators, n);
      var contains := GroupWithin(h.generators, g.generators, n);
      order == if within && contains then Some(Equal)
               else if within then Some(Less)
               else if contains then Some(Greater)
               else None
  {
    var a, b := g.generators, h.generators;
    JoinContains(a, b, n);
    var u := New(a + b, n);
    RanksDecideInclusion(g, u, n);
    RanksDecideInclusion(h, u, n);
    JoinWithin(a, b, a, n);
    JoinWithin(a, b, b, n);
    WithinSelf(a, n);
    WithinSelf(b, n);
    if GroupWithin(a, b, n) {
      RanksDecideInclusion(g, h, n);
    }
    hide Built, GroupWithin;
    var ranks, otherRanks, unionRanks :=
      (|g.phases|, BinaryRank(g)), (|h.phases|, BinaryRank(h)), (|u.phases|, BinaryRank(u));
    if ranks == otherRanks && ranks == unionRanks {
      order := Some(Equal);
    } else if ranks.0 <= otherRanks.0 && ranks.1 <= otherRanks.1 && otherRanks == unionRanks {
      order := Some(Less);
    } else if ranks == unionRanks {
      order := Some(Greater);
    } else {
      order := None;
    }
  }
}
