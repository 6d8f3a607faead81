/** The standard generators generate the group, and they are canonical: equal groups have equal standard generators. */
module CanonicalForms {
  import opened Bits
  import opened Paulis
  import opened Tableaus
  import opened AffineMaps
  import opened LinearAlgebra
  import opened Spans
  import opened Groups
  import opened StandardForms

  lemma PrefixReduced(rows: seq<Bits>, pivots: seq<nat>, width: nat)
    requires IsReduced(rows, pivots, width)
    ensures IsReduced(rows[..|pivots|], pivots, width)
  {
  }

  lemma StandardShape(gens: seq<Pauli>, e: EchelonForm, n: nat)
    requires Echelon(gens, e, n)
    ensures |e.pivots| <= |e.transform|
    ensures Shape(PivotGenerators(gens, e, n), e.pivots, PhaseTail(gens, e, n), n)
    ensures |PivotGenerators(gens, e, n)| == |e.pivots| <= |e.matrix|
    ensures RowsOf(PivotGenerators(gens, e, n)) == e.matrix[..|e.pivots|]
    ensures StandardGenerators(gens, e, n) == PivotGenerators(gens, e, n) + PhaseTail(gens, e, n)
  {
    EchelonSizes(gens, e, n);
    TailMember(gens, e, n);
    StandardParts(gens, e, n);
    PrefixReduced(e.matrix, e.pivots, 2 * n);
    PivotCount(gens, e, n);
    var s := PivotGenerators(gens, e, n);
    hide PivotGenerators, PhaseTail, StandardGenerators, Echelon, IsReduced;
    forall j: nat | j < |e.pivots| ensures On(s[j], n) && RowsOf(s)[j] == e.matrix[j] {
      PivotMember(gens, e, n, j);
    }
    assert RowsOf(s) == e.matrix[..|e.pivots|];
  }

  lemma PivotCount(gens: seq<Pauli>, e: EchelonForm, n: nat)
    requires |e.pivots| <= |e.transform|
    ensures |PivotGenerators(gens, e, n)| == |e.pivots| == |LowRows(gens, e, n)|
  {
  }

  // ----- the standard generators generate the group

  lemma StandardWithin(gens: seq<Pauli>, e: EchelonForm, n: nat)
    requires Echelon(gens, e, n)
    ensures |e.pivots| <= |e.transform|
    ensures AllOn(StandardGenerators(gens, e, n), n) && GroupWithin(StandardGenerators(gens, e, n), gens, n)
  {
    StandardShape(gens, e, n);
    TailMember(gens, e, n);
    var s, tail := PivotGenerators(gens, e, n), PhaseTail(gens, e, n);
    ShapeReduced(s, e.pivots, tail, n);
    assert AllOn(gens, n);
    hide PivotGenerators, PhaseTail, StandardGenerators, Echelon, Shape, IsReduced;
    forall j | 0 <= j < |s + tail| ensures Member(gens, n, (s + tail)[j]) {
      if j < |s| {
        PivotMember(gens, e, n, j);
      }
    }
    GeneratorsWithin(s + tail, gens, n);
  }

  lemma {:induction false} ProductAgrees(a: seq<Pauli>, b: seq<Pauli>, c: Bits, k: nat, n: nat)
    requires k <= |a| && k <= |b| && forall j :: 0 <= j < k ==> a[j] == b[j]
    ensures Product(a, c, k, n) == Product(b, c, k, n)
  {
    if k > 0 {
      ProductAgrees(a, b, c, k - 1, n);
    }
  }

  /** The product of pivot generators that has the bits of generator `i`. */
  function Rebuilt(gens: seq<Pauli>, e: EchelonForm, n: nat, i: nat): Pauli
    requires |e.pivots| <= |e.transform| && |e.pivots| <= |PivotGenerators(gens, e, n)|
  {
    Product(PivotGenerators(gens, e, n), Column(e.inverse, i), |e.pivots|, n)
  }

  lemma RebuiltBits(gens: seq<Pauli>, e: EchelonForm, n: nat, i: nat)
    requires Echelon(gens, e, n) && i < |gens|
    ensures |e.pivots| <= |e.transform| && |e.pivots| <= |PivotGenerators(gens, e, n)|
    ensures On(Rebuilt(gens, e, n, i), n) && Rebuilt(gens, e, n, i).bits == gens[i].bits
  {
    StandardShape(gens, e, n);
    var s, c, r := PivotGenerators(gens, e, n), Column(e.inverse, i), |e.pivots|;
    ProductRow(s, c, r, n);
    OriginalRow(RowsOf(gens), e, 2 * n, i);
    ZeroRowsAddNothing(e.matrix, c, 2 * n, r, |e.matrix|);
    SumAgrees(RowsOf(s), e.matrix, c, c, 2 * n, r);
    RowRoundTrip(Rebuilt(gens, e, n, i).bits, n);
    RowRoundTrip(gens[i].bits, n);
    hide PivotGenerators;
  }

  // ----- parities

  lemma ReduceKeepsParity(p: Pauli, modulus: nat)
    requires modulus != 1
    ensures OddPhase(Reduce(p, modulus)) == OddPhase(p)
  {
  }

  lemma PivotParity(gens: seq<Pauli>, e: EchelonForm, n: nat, j: nat)
    requires Echelon(gens, e, n) && j < |e.pivots| && TailModulus(RowProducts(gens, e, n), |e.pivots|) != 1
    ensures |e.pivots| <= |e.transform| == |RowProducts(gens, e, n)|
    ensures |PivotGenerators(gens, e, n)| == |e.pivots|
    ensures OddPhase(PivotGenerators(gens, e, n)[j]) == OddPhase(RowProducts(gens, e, n)[j])
  {
    EchelonSizes(gens, e, n);
    var products := RowProducts(gens, e, n);
    var modulus := TailModulus(products, |e.pivots|);
    ReduceKeepsParity(products[j], modulus);
    ReduceKeepsParity(Reduce(products[j], modulus), 2);
    hide TailModulus, RowProducts, Plain, OddPhase;
  }

  lemma {:induction false} DotToAgrees(a: Bits, b: Bits, b': Bits, k: nat)
    requires forall j: nat :: j < k ==> At(b, j) == At(b', j)
    ensures DotTo(a, b, k) == DotTo(a, b', k)
  {
    if k > 0 {
      DotToAgrees(a, b, b', k - 1);
    }
  }

  lemma {:induction false} DotToDropsZeros(a: Bits, b: Bits, r: nat, k: nat)
    requires r <= k && forall j: nat :: r <= j < k ==> !At(b, j)
    ensures DotTo(a, b, k) == DotTo(a, b, r)
  {
    if r < k {
      DotToDropsZeros(a, b, r, k - 1);
    }
  }

  /** A bit of a vector through the transform and its inverse. */
  lemma ThroughTransform(gens: seq<Pauli>, e: EchelonForm, n: nat, i: nat, x: Bits)
    requires Echelon(gens, e, n) && i < |gens| && |x| == |gens|
    ensures At(x, i) == DotTo(Column(e.inverse, i), MatrixVector(e.transform, x), |gens|)
  {
    var m := |gens|;
    var c := Column(e.inverse, i);
    SelectedSumDot(e.transform, c, m, x, m);
    DotUnit(x, m, i);
  }

  lemma RowProductParities(gens: seq<Pauli>, e: EchelonForm, n: nat)
    requires Echelon(gens, e, n)
    ensures MatrixVector(e.transform, OddPhases(gens)) == OddPhases(RowProducts(gens, e, n))
  {
    var m := |gens|;
    forall j | 0 <= j < m ensures Dot(e.transform[j], OddPhases(gens)) == OddPhase(RowProducts(gens, e, n)[j]) {
      ProductOdd(gens, e.transform[j], m, n);
      DotToStable(e.transform[j], OddPhases(gens), m);
    }
    hide Dot, OddPhase, Product;
  }

  lemma RebuiltParity(gens: seq<Pauli>, e: EchelonForm, n: nat, i: nat)
    requires Echelon(gens, e, n) && i < |gens| && TailModulus(RowProducts(gens, e, n), |e.pivots|) != 1
    ensures |e.pivots| <= |e.transform| && |e.pivots| <= |PivotGenerators(gens, e, n)|
    ensures OddPhase(Rebuilt(gens, e, n, i)) == OddPhase(gens[i])
  {
    EchelonSizes(gens, e, n);
    PivotCount(gens, e, n);
    var m, r, c := |gens|, |e.pivots|, Column(e.inverse, i);
    var s, products := PivotGenerators(gens, e, n), RowProducts(gens, e, n);
    ThroughTransform(gens, e, n, i, OddPhases(gens));
    RowProductParities(gens, e, n);
    assert forall j: nat :: r <= j < m ==> !At(OddPhases(products), j);
    DotToDropsZeros(c, OddPhases(products), r, m);
    forall j: nat | j < r ensures At(OddPhases(products), j) == At(OddPhases(s), j) {
      PivotParity(gens, e, n, j);
    }
    DotToAgrees(c, OddPhases(products), OddPhases(s), r);
    ProductOdd(s, c, r, n);
    hide PivotGenerators, RowProducts, TailModulus, Echelon, DotTo, MatrixVector;
  }

  // ----- the plain case

  predicate PlainCase(gens: seq<Pauli>, e: EchelonForm, n: nat)
    requires |e.pivots| <= |e.transform|
  {
    TailModulus(RowProducts(gens, e, n), |e.pivots|) == 4 && Plain(LowRows(gens, e, n))
  }

  /** In the plain case nothing is reduced: the pivot generators are the row products, the others are trivial. */
  lemma PlainProducts(gens: seq<Pauli>, e: EchelonForm, n: nat)
    requires Echelon(gens, e, n)
    ensures |e.pivots| <= |e.transform| == |RowProducts(gens, e, n)|
    ensures PlainCase(gens, e, n) ==> PivotGenerators(gens, e, n) == RowProducts(gens, e, n)[..|e.pivots|]
    ensures PlainCase(gens, e, n) ==> Plain(PivotGenerators(gens, e, n))
    ensures PlainCase(gens, e, n) ==>
      forall j :: |e.pivots| <= j < |gens| ==> RowProducts(gens, e, n)[j] == Identity(n)
  {
    EchelonSizes(gens, e, n);
    if PlainCase(gens, e, n) {
      var products, r := RowProducts(gens, e, n), |e.pivots|;
      forall j: nat | r <= j < |gens| ensures products[j] == Identity(n) {
        TailProduct(gens, e, n, j);
        assert !OddPhase(products[j]) && products[j].phase != 2;
        assert products[j].phase == 0;
      }
      assert LowRows(gens, e, n) == products[..r];
    }
    hide Plain;
  }

  lemma CommuteWithProducts(s: seq<Pauli>, c: Bits, d: Bits, r: nat, n: nat)
    requires r == |s| && AllCommute(s)
    ensures !Anti(Product(s, c, r, n), Product(s, d, r, n))
  {
    forall j: nat | j < r ensures !Anti(s[j], Product(s, d, r, n)) {
      ProductAnti(s, d, r, n, s[j]);
      NoCommonOnes(d, Syndrome(s, s[j]), r);
      AntiSym(s[j], Product(s, d, r, n));
    }
    ProductAnti(s, c, r, n, Product(s, d, r, n));
    NoCommonOnes(c, Syndrome(s, Product(s, d, r, n)), r);
  }

  /** The original generators commute when the pivot generators do. */
  lemma GeneratorsCommute(gens: seq<Pauli>, e: EchelonForm, n: nat)
    requires Echelon(gens, e, n)
    ensures |e.pivots| <= |e.transform|
    ensures AllCommute(PivotGenerators(gens, e, n)) ==> AllCommute(gens)
  {
    EchelonSizes(gens, e, n);
    PivotCount(gens, e, n);
    var s, r := PivotGenerators(gens, e, n), |e.pivots|;
    hide PivotGenerators, Echelon, Anti;
    if AllCommute(s) {
      forall i: nat, k: nat | i < |gens| && k < |gens| ensures !Anti(gens[i], gens[k]) {
        RebuiltBits(gens, e, n, i);
        RebuiltBits(gens, e, n, k);
        CommuteWithProducts(s, Column(e.inverse, i), Column(e.inverse, k), r, n);
        AntiByBits(gens[i], gens[k], Rebuilt(gens, e, n, i), Rebuilt(gens, e, n, k));
      }
    }
  }

  lemma AntiByBits(p: Pauli, q: Pauli, p': Pauli, q': Pauli)
    requires p.bits == p'.bits && q.bits == q'.bits
    ensures Anti(p, q) == Anti(p', q')
  {
  }

  function OrderFours(gens: seq<Pauli>): Bits {
    seq(|gens|, j requires 0 <= j < |gens| => !IsOrderTwo(gens[j]))
  }

  lemma OrderMul(p: Pauli, q: Pauli)
    requires !Anti(p, q)
    ensures !IsOrderTwo(Mul(p, q)) == (!IsOrderTwo(p) != !IsOrderTwo(q))
  {
    DotXor(p.z, q.z, p.x);
    DotXor(p.z, q.z, q.x);
    DotXor(p.x, q.x, Xor(p.z, q.z));
    DotSym(p.z, q.x);
    hide Dot, Xor;
  }

  /** Over commuting generators, squaring to minus one is additive. */
  lemma {:induction false} ProductOrder(gens: seq<Pauli>, c: Bits, k: nat, n: nat)
    requires AllCommute(gens) && k <= |gens|
    ensures !IsOrderTwo(Product(gens, c, k, n)) == DotTo(c, OrderFours(gens), k)
  {
    if k == 0 {
      DotZero(Zeros(n), Zeros(n));
    } else {
      ProductOrder(gens, c, k - 1, n);
      ProductAnti(gens, c, k - 1, n, gens[k - 1]);
      NoCommonOnes(c, Syndrome(gens, gens[k - 1]), k - 1);
      OrderMul(Product(gens, c, k - 1, n), gens[k - 1]);
      hide Mul, IsOrderTwo, Anti;
    }
  }

  lemma GeneratorsOrderTwo(gens: seq<Pauli>, e: EchelonForm, n: nat)
    requires Echelon(gens, e, n) && AllCommute(gens) && AllOrderTwo(RowProducts(gens, e, n))
    ensures AllOrderTwo(gens)
  {
    var m := |gens|;
    var h := OrderFours(gens);
    forall j: nat | j < m ensures !Dot(e.transform[j], h) {
      ProductOrder(gens, e.transform[j], m, n);
      DotToStable(e.transform[j], h, m);
      assert IsOrderTwo(RowProducts(gens, e, n)[j]);
    }
    forall i: nat | i < m ensures IsOrderTwo(gens[i]) {
      ThroughTransform(gens, e, n, i, h);
      NoCommonOnes(Column(e.inverse, i), MatrixVector(e.transform, h), m);
    }
    hide Dot, IsOrderTwo, Product;
  }

  /** Over commuting generators of order two, products of row products follow the transform. */
  lemma {:induction false} ProductOfProducts(gens: seq<Pauli>, t: seq<Bits>, os: seq<Pauli>, c: Bits, k: nat, n: nat)
    requires AllOn(gens, n) && AllCommute(gens) && AllOrderTwo(gens) && k <= |t| == |os|
    requires forall j :: 0 <= j < |t| ==> os[j] == Product(gens, t[j], |gens|, n)
    ensures Product(gens, SelectedSum(t, c, |gens|, k), |gens|, n) == Product(os, c, k, n)
  {
    var m := |gens|;
    if k == 0 {
      ProductZero(gens, Zeros(m), m, n);
    } else {
      ProductOfProducts(gens, t, os, c, k - 1, n);
      ProductXor(gens, SelectedSum(t, c, m, k - 1), t[k - 1], m, n);
      hide Mul, IsOrderTwo, Anti;
    }
  }

  lemma {:induction false} DropTrivial(os: seq<Pauli>, c: Bits, r: nat, k: nat, n: nat)
    requires r <= k <= |os| && AllOn(os, n) && forall j :: r <= j < |os| ==> os[j] == Identity(n)
    ensures Product(os, c, k, n) == Product(os, c, r, n)
  {
    if r < k {
      DropTrivial(os, c, r, k - 1, n);
      ProductOn(os, c, k - 1, n);
      MulIdentity(Product(os, c, k - 1, n), n);
    }
  }

  /** In the plain case a generator is exactly, phase included, its product of pivot generators. */
  lemma PlainRebuilt(gens: seq<Pauli>, e: EchelonForm, n: nat, i: nat)
    requires Echelon(gens, e, n) && i < |gens| && |e.pivots| <= |e.transform| && PlainCase(gens, e, n)
    ensures |e.pivots| <= |PivotGenerators(gens, e, n)|
    ensures Rebuilt(gens, e, n, i) == gens[i]
  {
    var m, r, c := |gens|, |e.pivots|, Column(e.inverse, i);
    var os, s := RowProducts(gens, e, n), PivotGenerators(gens, e, n);
    PlainOrders(gens, e, n);
    ProductOfProducts(gens, e.transform, os, c, m, n);
    ProductUnit(gens, i, m, m, n);
    PlainProducts(gens, e, n);
    forall j: nat | j < |os| ensures On(os[j], n) {
      RowProduct(gens, e, n, j);
    }
    DropTrivial(os, c, r, m, n);
    ProductAgrees(os, s, c, r, n);
    hide PivotGenerators, PlainCase, SelectedSum, Product;
  }

  lemma PlainOrders(gens: seq<Pauli>, e: EchelonForm, n: nat)
    requires Echelon(gens, e, n) && |e.pivots| <= |e.transform| && PlainCase(gens, e, n)
    ensures AllCommute(gens) && AllOrderTwo(gens)
  {
    PlainProducts(gens, e, n);
    GeneratorsCommute(gens, e, n);
    var os, s := RowProducts(gens, e, n), PivotGenerators(gens, e, n);
    EchelonSizes(gens, e, n);
    forall j: nat | j < |os| ensures IsOrderTwo(os[j]) {
      if j < |s| {
        assert os[j] == s[j];
      } else {
        assert os[j] == Identity(n);
        DotZero(Zeros(n), Zeros(n));
      }
    }
    hide PivotGenerators, PlainCase, RowProducts, Echelon, IsOrderTwo;
    GeneratorsOrderTwo(gens, e, n);
  }

  // ----- every generator is generated by the standard ones

  lemma GeneratorInStandard(gens: seq<Pauli>, e: EchelonForm, n: nat, i: nat)
    requires Echelon(gens, e, n) && i < |gens|
    ensures |e.pivots| <= |e.transform|
    ensures Member(StandardGenerators(gens, e, n), n, gens[i])
  {
    StandardShape(gens, e, n);
    var s, tail := PivotGenerators(gens, e, n), PhaseTail(gens, e, n);
    var t, c, r := StandardGenerators(gens, e, n), Column(e.inverse, i), |e.pivots|;
    ShapeReduced(s, e.pivots, tail, n);
    RebuiltBits(gens, e, n, i);
    var p := Rebuilt(gens, e, n, i);
    ProductAgrees(s, t, c, r, n);
    SubsetProductMember(t, c, r, n);
    SameBitsDifferByPhase(t, n, p, gens[i]);
    PhaseGap(gens, e, n, i);
    hide PivotGenerators, PhaseTail, StandardGenerators, Shape, IsReduced;
  }

  /** The phase between a generator and its product of pivot generators is generated by the standard generators. */
  lemma PhaseGap(gens: seq<Pauli>, e: EchelonForm, n: nat, i: nat)
    requires Echelon(gens, e, n) && i < |gens|
    ensures |e.pivots| <= |e.transform| && |e.pivots| <= |PivotGenerators(gens, e, n)|
    ensures HasPhase(StandardGenerators(gens, e, n), n, gens[i].phase - Rebuilt(gens, e, n, i).phase)
  {
    StandardShape(gens, e, n);
    ModulusGivesPhases(gens, e, n);
    var s, tail, t := PivotGenerators(gens, e, n), PhaseTail(gens, e, n), StandardGenerators(gens, e, n);
    ShapeReduced(s, e.pivots, tail, n);
    var modulus := TailModulus(RowProducts(gens, e, n), |e.pivots|);
    var gap := gens[i].phase - Rebuilt(gens, e, n, i).phase;
    MemberIdentity(t, n);
    assert PhaseElement(0, n) == Identity(n);
    TailKind(gens, e, n);
    if modulus == 1 {
      MemberGenerator(t, n, |s|);
      OddPhaseGivesAll(t, n, 1, gap);
    } else {
      RebuiltParity(gens, e, n, i);
      assert gap == 0 || gap == 2;
      if PlainCase(gens, e, n) {
        PlainRebuilt(gens, e, n, i);
      } else {
        SignInStandard(gens, e, n);
      }
    }
    hide PivotGenerators, PhaseTail, StandardGenerators, Shape, IsReduced, Member, Echelon, TailModulus, PlainCase, Rebuilt;
  }

  /** What the tail is, by the modulus and by whether the rows alone generate minus the identity. */
  lemma TailKind(gens: seq<Pauli>, e: EchelonForm, n: nat)
    requires |e.pivots| <= |e.transform|
    ensures var modulus := TailModulus(RowProducts(gens, e, n), |e.pivots|);
      var plain := Plain(LowRows(gens, e, n));
      PhaseTail(gens, e, n) ==
        if modulus == 1 then [PhaseElement(1, n)]
        else if plain && modulus == 2 then [PhaseElement(2, n)]
        else if PivotGenerators(gens, e, n) == [] then [PhaseElement(0, n)]
        else []
  {
    var modulus := TailModulus(RowProducts(gens, e, n), |e.pivots|);
    assert modulus == 1 || modulus == 2 || modulus == 4;
    hide PivotGenerators, LowRows, Plain, TailModulus;
  }

  lemma PlainStaysPlain(s: seq<Pauli>)
    ensures Plain(ReduceAll(s, 2)) == Plain(s)
  {
    forall i | 0 <= i < |s| ensures IsOrderTwo(ReduceAll(s, 2)[i]) == IsOrderTwo(s[i]) {
      assert (s[i].phase & 1) & 1 == s[i].phase & 1;
    }
    if !Plain(s) && AllOrderTwo(s) {
      var i, j :| 0 <= i < |s| && 0 <= j < |s| && Anti(s[i], s[j]);
      assert Anti(ReduceAll(s, 2)[i], ReduceAll(s, 2)[j]);
    } else if !Plain(s) {
      var i :| 0 <= i < |s| && !IsOrderTwo(s[i]);
      assert !IsOrderTwo(ReduceAll(s, 2)[i]);
    }
  }

  lemma PivotPlain(gens: seq<Pauli>, e: EchelonForm, n: nat)
    requires |e.pivots| <= |e.transform|
    ensures Plain(PivotGenerators(gens, e, n)) == Plain(LowRows(gens, e, n))
  {
    PlainStaysPlain(LowRows(gens, e, n));
    hide Plain, LowRows, ReduceAll;
  }

  lemma SignInStandard(gens: seq<Pauli>, e: EchelonForm, n: nat)
    requires Echelon(gens, e, n) && |e.pivots| <= |e.transform| && !PlainCase(gens, e, n)
    requires TailModulus(RowProducts(gens, e, n), |e.pivots|) != 1
    ensures HasPhase(StandardGenerators(gens, e, n), n, 2)
  {
    StandardShape(gens, e, n);
    TailKind(gens, e, n);
    PivotPlain(gens, e, n);
    var s, tail, t := PivotGenerators(gens, e, n), PhaseTail(gens, e, n), StandardGenerators(gens, e, n);
    ShapeReduced(s, e.pivots, tail, n);
    ModulusGivesPhases(gens, e, n);
    hide PivotGenerators, PhaseTail, StandardGenerators, Shape, IsReduced, Member, Echelon, TailModulus, Plain, LowRows,
         RowProducts;
    if Plain(s) {
      assert tail == [PhaseElement(2, n)];
      MemberGenerator(t, n, |s|);
    } else {
      forall j | 0 <= j < |s| ensures Member(t, n, s[j]) {
        MemberGenerator(t, n, j);
        assert t[j] == s[j];
      }
      NotPlainGivesSign(t, n, s);
    }
  }

  /** The standard generators generate exactly the group. */
  lemma StandardGeneratesGroup(gens: seq<Pauli>, e: EchelonForm, n: nat)
    requires Echelon(gens, e, n)
    ensures |e.pivots| <= |e.transform|
    ensures forall p :: Member(StandardGenerators(gens, e, n), n, p) <==> Member(gens, n, p)
  {
    StandardWithin(gens, e, n);
    assert AllOn(gens, n);
    hide StandardGenerators, Echelon, AllOn;
    forall i | 0 <= i < |gens| ensures Member(StandardGenerators(gens, e, n), n, gens[i]) {
      GeneratorInStandard(gens, e, n, i);
    }
    GeneratorsWithin(gens, StandardGenerators(gens, e, n), n);
    hide Member;
    forall p ensures Member(StandardGenerators(gens, e, n), n, p) <==> Member(gens, n, p) {
    }
  }
}
