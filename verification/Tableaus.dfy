/** Clifford encoders, stored as the preimages of X_q and Z_q. */
module Tableaus {
  import opened Bits
  import opened Paulis

  datatype Tableau = Tableau(x: seq<Pauli>, z: seq<Pauli>)

  predicate AllOn(rows: seq<Pauli>, n: nat) {
    forall q :: 0 <= q < |rows| ==> On(rows[q], n)
  }

  predicate RowsOn(rows: seq<Pauli>, n: nat) {
    |rows| == n && forall q :: 0 <= q < n ==> On(rows[q], n)
  }

  predicate TableauOn(t: Tableau, n: nat) {
    RowsOn(t.x, n) && RowsOn(t.z, n)
  }

  function XRows(n: nat): seq<Pauli> {
    seq(n, q requires 0 <= q => PauliX(n, q))
  }

  function ZRows(n: nat): seq<Pauli> {
    seq(n, q requires 0 <= q => PauliZ(n, q))
  }

  function IdentityTableau(n: nat): Tableau {
    Tableau(XRows(n), ZRows(n))
  }

  /** The ordered product of the first `k` rows selected by `bits`. */
  function Product(rows: seq<Pauli>, bits: Bits, k: nat, n: nat): Pauli
    requires k <= |rows|
  {
    if k == 0 then Identity(n)
    else if At(bits, k - 1) then Mul(Product(rows, bits, k - 1, n), rows[k - 1])
    else Product(rows, bits, k - 1, n)
  }

  /** C^-1 p C, multiplied out from the stored preimages: X factors first, then Z factors, then the phase. */
  function Preimage(t: Tableau, p: Pauli): Pauli {
    Rotate(p.phase, Mul(Product(t.x, p.x, |t.x|, |t.x|), Product(t.z, p.z, |t.z|, |t.x|)))
  }

  /** Order two and the canonical commutation relations. */
  ghost predicate Valid(t: Tableau, n: nat) {
    && TableauOn(t, n)
    && (forall i :: 0 <= i < n ==> IsOrderTwo(t.x[i]) && IsOrderTwo(t.z[i]))
    && (forall i, j :: 0 <= i < n && 0 <= j < n ==> !Anti(t.x[i], t.x[j]))
    && (forall i, j :: 0 <= i < n && 0 <= j < n ==> !Anti(t.z[i], t.z[j]))
    && (forall i, j :: 0 <= i < n && 0 <= j < n ==> Anti(t.x[i], t.z[j]) == (i == j))
  }

  // ----- products of rows

  lemma ProductOn(rows: seq<Pauli>, bits: Bits, k: nat, n: nat)
    requires AllOn(rows, n) && k <= |rows|
    ensures On(Product(rows, bits, k, n), n)
  {
  }

  lemma PreimageOn(t: Tableau, p: Pauli, n: nat)
    requires TableauOn(t, n)
    ensures On(Preimage(t, p), n)
  {
    ProductOn(t.x, p.x, n, n);
    ProductOn(t.z, p.z, n, n);
  }

  /** Which rows anticommute with `r`. */
  function Syndrome(rows: seq<Pauli>, r: Pauli): Bits {
    seq(|rows|, i requires 0 <= i < |rows| => Anti(rows[i], r))
  }

  lemma AntiIdentity(r: Pauli, n: nat)
    ensures !Anti(Identity(n), r) && !Anti(r, Identity(n))
  {
    DotZero(r.x, Zeros(n));
    DotZero(r.z, Zeros(n));
  }

  lemma ProductAnti(rows: seq<Pauli>, bits: Bits, k: nat, n: nat, r: Pauli)
    requires k <= |rows|
    ensures Anti(Product(rows, bits, k, n), r) == DotTo(bits, Syndrome(rows, r), k)
  {
    if k == 0 {
      AntiIdentity(r, n);
    } else {
      ProductAnti(rows, bits, k - 1, n, r);
      AntiMul(Product(rows, bits, k - 1, n), rows[k - 1], r);
    }
  }

  /** Rows that commute with each other and square to one multiply like bit vectors. */
  lemma {:induction false} ProductXor(rows: seq<Pauli>, a: Bits, b: Bits, k: nat, n: nat)
    requires AllOn(rows, n) && k <= |rows|
    requires forall i :: 0 <= i < |rows| ==> IsOrderTwo(rows[i])
    requires forall i, j :: 0 <= i < |rows| && 0 <= j < |rows| ==> !Anti(rows[i], rows[j])
    ensures Product(rows, Xor(a, b), k, n) == Mul(Product(rows, a, k, n), Product(rows, b, k, n))
  {
    if k == 0 {
      MulIdentity(Identity(n), n);
    } else {
      ProductXor(rows, a, b, k - 1, n);
      var pa, pb, row := Product(rows, a, k - 1, n), Product(rows, b, k - 1, n), rows[k - 1];
      ProductAnti(rows, b, k - 1, n, row);
      DotToZero(b, Syndrome(rows, row), k - 1);
      ProductOn(rows, a, k - 1, n);
      ProductOn(rows, b, k - 1, n);
      assert !Anti(pb, row);
      hide Mul, Anti, IsOrderTwo, On, Xor, At, Syndrome, DotTo;
      AppendCommuting(pa, pb, row, n);
    }
  }

  /** Appending a commuting row of order two to one factor, or to both, of a product. */
  lemma AppendCommuting(pa: Pauli, pb: Pauli, row: Pauli, n: nat)
    requires On(pa, n) && On(pb, n) && On(row, n) && IsOrderTwo(row) && !Anti(pb, row)
    ensures Mul(pa, Mul(pb, row)) == Mul(Mul(pa, pb), row)
    ensures Mul(Mul(pa, row), pb) == Mul(Mul(pa, pb), row)
    ensures Mul(Mul(pa, row), Mul(pb, row)) == Mul(pa, pb)
  {
    MulAssoc(pa, pb, row);
    MulAssoc(pa, row, pb);
    MulComm(pb, row);
    MulAssoc(Mul(pa, row), pb, row);
    MulAssoc(Mul(pa, pb), row, row);
    Square(row, n);
    assert On(Mul(pa, pb), n);
    MulIdentity(Mul(pa, pb), n);
    hide *;
    assert Sign(false, Mul(row, pb)) == Mul(row, pb) by { SignFalse(Mul(row, pb)); }
    SignFalse(Identity(n));
  }

  /** X products and Z products exchange with the sign of the underlying bit vectors. */
  lemma ProductExchange(t: Tableau, a: Bits, b: Bits, n: nat)
    requires Valid(t, n) && |a| == n && |b| == n
    ensures Anti(Product(t.x, a, n, n), Product(t.z, b, n, n)) == Dot(a, b)
    ensures !Anti(Product(t.x, a, n, n), Product(t.x, b, n, n))
    ensures !Anti(Product(t.z, a, n, n), Product(t.z, b, n, n))
  {
    var px, pz := Product(t.x, b, n, n), Product(t.z, b, n, n);
    ProductAnti(t.x, a, n, n, pz);
    forall i: nat | i < n ensures At(Syndrome(t.x, pz), i) == At(b, i) {
      ProductAnti(t.z, b, n, n, t.x[i]);
      AntiSym(pz, t.x[i]);
      forall j: nat | j < n ensures At(Syndrome(t.z, t.x[i]), j) == At(Unit(n, i), j) {
        AntiSym(t.z[j], t.x[i]);
      }
      Same(Syndrome(t.z, t.x[i]), Unit(n, i));
      DotUnit(b, n, i);
    }
    Same(Syndrome(t.x, pz), b);
    SameKindCommute(t.x, a, b, n);
    SameKindCommute(t.z, a, b, n);
  }

  lemma SameKindCommute(rows: seq<Pauli>, a: Bits, b: Bits, n: nat)
    requires RowsOn(rows, n) && |a| == n
    requires forall i, j :: 0 <= i < n && 0 <= j < n ==> !Anti(rows[i], rows[j])
    ensures !Anti(Product(rows, a, n, n), Product(rows, b, n, n))
  {
    var p := Product(rows, b, n, n);
    ProductAnti(rows, a, n, n, p);
    forall i | 0 <= i < n ensures !Anti(rows[i], p) {
      ProductAnti(rows, b, n, n, rows[i]);
      DotToZero(b, Syndrome(rows, rows[i]), n);
      AntiSym(p, rows[i]);
    }
    DotToZero(a, Syndrome(rows, p), n);
  }

  // ----- the preimage map

  /** The preimage map of a valid tableau is a phase-exact group homomorphism. */
  lemma PreimageMul(t: Tableau, p: Pauli, q: Pauli, n: nat)
    requires Valid(t, n) && On(p, n) && On(q, n)
    ensures Preimage(t, Mul(p, q)) == Mul(Preimage(t, p), Preimage(t, q))
  {
    var a, b := Product(t.x, p.x, n, n), Product(t.z, p.z, n, n);
    var c, d := Product(t.x, q.x, n, n), Product(t.z, q.z, n, n);
    ProductXor(t.x, p.x, q.x, n, n);
    ProductXor(t.z, p.z, q.z, n, n);
    ProductExchange(t, q.x, p.z, n);
    AntiSym(b, c);
    DotSym(p.z, q.x);
    ExchangeMiddle(a, b, c, d);
  }

  lemma ExchangeMiddle(a: Pauli, b: Pauli, c: Pauli, d: Pauli)
    ensures Mul(Mul(a, b), Mul(c, d)) == Sign(Anti(b, c), Mul(Mul(a, c), Mul(b, d)))
  {
    MulAssoc(a, b, Mul(c, d));
    MulAssoc(b, c, d);
    MulAssoc(c, b, d);
    MulAssoc(a, c, Mul(b, d));
    MulComm(b, c);
    RotateMul(Half(Anti(b, c)), Mul(c, b), d);
    RotateMul(Half(Anti(b, c)), a, Mul(Mul(c, b), d));
    hide Mul;
  }

  lemma PreimageRotate(t: Tableau, k: bv2, p: Pauli)
    ensures Preimage(t, Rotate(k, p)) == Rotate(k, Preimage(t, p))
  {
  }

  /** The preimage map preserves commutation. */
  lemma PreimageAnti(t: Tableau, p: Pauli, q: Pauli, n: nat)
    requires Valid(t, n) && On(p, n) && On(q, n)
    ensures Anti(Preimage(t, p), Preimage(t, q)) == Anti(p, q)
  {
    var a, b := Product(t.x, p.x, n, n), Product(t.z, p.z, n, n);
    var c, d := Product(t.x, q.x, n, n), Product(t.z, q.z, n, n);
    AntiMul(a, b, Mul(c, d));
    AntiMul(c, d, a);
    AntiMul(c, d, b);
    ProductExchange(t, p.x, q.z, n);
    ProductExchange(t, q.x, p.z, n);
    ProductExchange(t, p.x, q.x, n);
    ProductExchange(t, p.z, q.z, n);
    AntiSym(b, c);
    DotSym(p.z, q.x);
  }

  // ----- homomorphisms are determined by the generators

  ghost predicate MulAt(f: Pauli -> Pauli, p: Pauli, q: Pauli) {
    f(Mul(p, q)) == Mul(f(p), f(q))
  }

  ghost predicate RotateAt(f: Pauli -> Pauli, k: bv2, p: Pauli) {
    f(Rotate(k, p)) == Rotate(k, f(p))
  }

  ghost predicate OnAt(f: Pauli -> Pauli, p: Pauli, n: nat) {
    On(f(p), n)
  }

  /** A map of the Pauli group on `n` qubits that respects products and phases. */
  ghost predicate IsHomomorphism(f: Pauli -> Pauli, n: nat) {
    && (forall p {:trigger OnAt(f, p, n)} :: On(p, n) ==> OnAt(f, p, n))
    && (forall p, q {:trigger MulAt(f, p, q)} :: On(p, n) && On(q, n) ==> MulAt(f, p, q))
    && (forall k, p {:trigger RotateAt(f, k, p)} :: On(p, n) ==> RotateAt(f, k, p))
  }

  /** The tableau that stores the values of `f` on the generators. */
  ghost function Generated(f: Pauli -> Pauli, n: nat): Tableau {
    Tableau(seq(n, q requires 0 <= q => f(PauliX(n, q))), seq(n, q requires 0 <= q => f(PauliZ(n, q))))
  }

  lemma HomomorphismIdentity(f: Pauli -> Pauli, n: nat)
    requires IsHomomorphism(f, n)
    ensures f(Identity(n)) == Identity(n)
  {
    var one := Identity(n);
    assert MulAt(f, one, one);
    MulIdentity(one, n);
    assert OnAt(f, one, n);
    var e := f(one);
    assert e == Mul(e, e);
    XorSelf(e.x);
    XorSelf(e.z);
    DotZero(e.z, e.x);
  }

  lemma HomomorphismAnti(f: Pauli -> Pauli, p: Pauli, q: Pauli, n: nat)
    requires IsHomomorphism(f, n) && On(p, n) && On(q, n)
    ensures Anti(f(p), f(q)) == Anti(p, q)
  {
    assert MulAt(f, p, q) && MulAt(f, q, p);
    assert RotateAt(f, Half(Anti(p, q)), Mul(q, p));
    MulComm(p, q);
    MulComm(f(p), f(q));
  }

  lemma HomomorphismOrderTwo(f: Pauli -> Pauli, p: Pauli, n: nat)
    requires IsHomomorphism(f, n) && On(p, n)
    ensures IsOrderTwo(f(p)) == IsOrderTwo(p)
  {
    assert MulAt(f, p, p) && OnAt(f, p, n);
    Square(p, n);
    Square(f(p), n);
    HomomorphismIdentity(f, n);
    assert RotateAt(f, Half(!IsOrderTwo(p)), Identity(n));
  }

  lemma UnitsAnti(n: nat, i: nat, j: nat)
    requires i < n && j < n
    ensures Anti(PauliX(n, i), PauliZ(n, j)) == (i == j)
    ensures !Anti(PauliX(n, i), PauliX(n, j)) && !Anti(PauliZ(n, i), PauliZ(n, j))
    ensures IsOrderTwo(PauliX(n, i)) && IsOrderTwo(PauliZ(n, i))
  {
    DotUnit(Unit(n, i), n, j);
    DotZero(Unit(n, i), Zeros(n));
    DotZero(Unit(n, j), Zeros(n));
    DotZero(Zeros(n), Zeros(n));
  }

  /** The values of a homomorphism on the generators form a valid tableau. */
  lemma GeneratedValid(f: Pauli -> Pauli, n: nat)
    requires IsHomomorphism(f, n)
    ensures Valid(Generated(f, n), n)
  {
    forall i | 0 <= i < n
      ensures OnAt(f, PauliX(n, i), n) && OnAt(f, PauliZ(n, i), n)
      ensures IsOrderTwo(f(PauliX(n, i))) && IsOrderTwo(f(PauliZ(n, i)))
    {
      UnitsAnti(n, i, i);
      HomomorphismOrderTwo(f, PauliX(n, i), n);
      HomomorphismOrderTwo(f, PauliZ(n, i), n);
    }
    forall i, j | 0 <= i < n && 0 <= j < n
      ensures Anti(f(PauliX(n, i)), f(PauliZ(n, j))) == (i == j)
      ensures !Anti(f(PauliX(n, i)), f(PauliX(n, j))) && !Anti(f(PauliZ(n, i)), f(PauliZ(n, j)))
    {
      UnitsAnti(n, i, j);
      HomomorphismAnti(f, PauliX(n, i), PauliZ(n, j), n);
      HomomorphismAnti(f, PauliX(n, i), PauliX(n, j), n);
      HomomorphismAnti(f, PauliZ(n, i), PauliZ(n, j), n);
    }
  }

  /** The part of a bit vector below `k`. */
  function Prefix(a: Bits, k: nat): Bits {
    seq(|a|, i requires 0 <= i < |a| => i < k && a[i])
  }

  lemma {:induction false} GeneratedProductX(f: Pauli -> Pauli, a: Bits, k: nat, n: nat)
    requires IsHomomorphism(f, n) && |a| == n && k <= n
    ensures Product(Generated(f, n).x, a, k, n) == f(Pauli(Projective(Prefix(a, k), Zeros(n)), 0))
  {
    var before := Pauli(Projective(Prefix(a, if k == 0 then 0 else k - 1), Zeros(n)), 0);
    var after := Pauli(Projective(Prefix(a, k), Zeros(n)), 0);
    if k == 0 {
      Same(Prefix(a, 0), Zeros(n));
      HomomorphismIdentity(f, n);
    } else {
      GeneratedProductX(f, a, k - 1, n);
      if a[k - 1] {
        assert MulAt(f, before, PauliX(n, k - 1));
        XorZeros(Zeros(n), n);
        DotZero(Zeros(n), Zeros(n));
        DotZero(Unit(n, k - 1), Zeros(n));
        Same(Xor(Prefix(a, k - 1), Unit(n, k - 1)), Prefix(a, k));
        assert Mul(before, PauliX(n, k - 1)) == after;
      } else {
        Same(Prefix(a, k - 1), Prefix(a, k));
      }
    }
  }

  lemma {:induction false} GeneratedProductZ(f: Pauli -> Pauli, a: Bits, k: nat, n: nat)
    requires IsHomomorphism(f, n) && |a| == n && k <= n
    ensures Product(Generated(f, n).z, a, k, n) == f(ZPower(Prefix(a, k)))
  {
    var before := ZPower(Prefix(a, if k == 0 then 0 else k - 1));
    var after := ZPower(Prefix(a, k));
    if k == 0 {
      Same(Prefix(a, 0), Zeros(n));
      HomomorphismIdentity(f, n);
    } else {
      GeneratedProductZ(f, a, k - 1, n);
      if a[k - 1] {
        assert MulAt(f, before, PauliZ(n, k - 1));
        XorZeros(Zeros(n), n);
        DotZero(before.z, Zeros(n));
        Same(Xor(Prefix(a, k - 1), Unit(n, k - 1)), Prefix(a, k));
        assert Mul(before, PauliZ(n, k - 1)) == after;
      } else {
        Same(Prefix(a, k - 1), Prefix(a, k));
      }
    }
  }

  /** A phase-exact homomorphism is the preimage map of the tableau of its values on the generators. */
  lemma GeneratedPreimage(f: Pauli -> Pauli, p: Pauli, n: nat)
    requires IsHomomorphism(f, n) && On(p, n)
    ensures Preimage(Generated(f, n), p) == f(p)
  {
    GeneratedProductX(f, p.x, n, n);
    GeneratedProductZ(f, p.z, n, n);
    Same(Prefix(p.x, n), p.x);
    Same(Prefix(p.z, n), p.z);
    var xs, zs := Pauli(Projective(p.x, Zeros(n)), 0), ZPower(p.z);
    assert MulAt(f, xs, zs);
    XorZeros(p.x, n);
    XorZeros(p.z, n);
    DotZero(Zeros(n), Zeros(n));
    assert Mul(xs, zs) == Pauli(p.bits, 0);
    assert RotateAt(f, p.phase, Pauli(p.bits, 0));
  }

  lemma PreimageIsHomomorphism(t: Tableau, n: nat)
    requires Valid(t, n)
    ensures IsHomomorphism(p => Preimage(t, p), n)
  {
    var f := p => Preimage(t, p);
    forall p | On(p, n) ensures OnAt(f, p, n) {
      PreimageOn(t, p, n);
    }
    forall p, q | On(p, n) && On(q, n) ensures MulAt(f, p, q) {
      PreimageMul(t, p, q, n);
    }
    forall k, p | On(p, n) ensures RotateAt(f, k, p) {
      PreimageRotate(t, k, p);
    }
  }

  lemma ProductUnit(rows: seq<Pauli>, q: nat, m: nat, k: nat, n: nat)
    requires AllOn(rows, n) && q < m && q < |rows| && k <= |rows|
    ensures Product(rows, Unit(m, q), k, n) == if q < k then rows[q] else Identity(n)
  {
    if k > 0 {
      ProductUnit(rows, q, m, k - 1, n);
      MulIdentity(rows[k - 1], n);
    }
  }

  lemma ProductZero(rows: seq<Pauli>, bits: Bits, k: nat, n: nat)
    requires k <= |rows| && IsZero(bits)
    ensures Product(rows, bits, k, n) == Identity(n)
  {
  }

  /** The preimages of the generators are the stored rows. */
  lemma PreimageGenerator(t: Tableau, q: nat, n: nat)
    requires TableauOn(t, n) && q < n
    ensures Preimage(t, PauliX(n, q)) == t.x[q] && Preimage(t, PauliZ(n, q)) == t.z[q]
  {
    ProductUnit(t.x, q, n, n, n);
    ProductUnit(t.z, q, n, n, n);
    ProductZero(t.x, Zeros(n), n, n);
    ProductZero(t.z, Zeros(n), n, n);
    MulIdentity(t.x[q], n);
    MulIdentity(t.z[q], n);
  }

  lemma PreimageOrderTwo(t: Tableau, p: Pauli, n: nat)
    requires Valid(t, n) && On(p, n)
    ensures IsOrderTwo(Preimage(t, p)) == IsOrderTwo(p)
  {
    PreimageIsHomomorphism(t, n);
    HomomorphismOrderTwo(p => Preimage(t, p), p, n);
  }

  /** Distinct operators have distinct preimages. */
  lemma PreimageInjective(t: Tableau, p: Pauli, q: Pauli, n: nat)
    requires Valid(t, n) && On(p, n) && On(q, n)
    requires Preimage(t, p) == Preimage(t, q)
    ensures p == q
  {
    forall i: nat | i < n ensures At(p.x, i) == At(q.x, i) && At(p.z, i) == At(q.z, i) {
      forall g | On(g, n) ensures Anti(p, g) == Anti(q, g) {
        PreimageAnti(t, p, g, n);
        PreimageAnti(t, q, g, n);
      }
      AntiUnits(p, n, i);
      AntiUnits(q, n, i);
      assert Anti(p, PauliX(n, i)) == Anti(q, PauliX(n, i));
      assert Anti(p, PauliZ(n, i)) == Anti(q, PauliZ(n, i));
    }
    Same(p.x, q.x);
    Same(p.z, q.z);
  }

  lemma AntiUnits(p: Pauli, n: nat, i: nat)
    requires i < n
    ensures Anti(p, PauliX(n, i)) == At(p.z, i) && Anti(PauliX(n, i), p) == At(p.z, i)
    ensures Anti(p, PauliZ(n, i)) == At(p.x, i) && Anti(PauliZ(n, i), p) == At(p.x, i)
  {
    DotUnit(p.z, n, i);
    DotUnit(p.x, n, i);
    DotZero(p.x, Zeros(n));
    DotZero(p.z, Zeros(n));
  }

  // ----- composition

  /** The encoder G C: a gate with preimages `g` applied after the encoder with preimages `t`. */
  function Compose(t: Tableau, g: Tableau): Tableau {
    Tableau(seq(|g.x|, q requires 0 <= q < |g.x| => Preimage(t, g.x[q])),
            seq(|g.z|, q requires 0 <= q < |g.z| => Preimage(t, g.z[q])))
  }

  lemma ComposeIsHomomorphism(t: Tableau, g: Tableau, n: nat)
    requires Valid(t, n) && Valid(g, n)
    ensures IsHomomorphism(p => Preimage(t, Preimage(g, p)), n)
  {
    hide Mul, Preimage, Valid, On, Rotate;
    var f := p => Preimage(t, Preimage(g, p));
    PreimageIsHomomorphism(t, n);
    PreimageIsHomomorphism(g, n);
    var ft := p => Preimage(t, p);
    var fg := p => Preimage(g, p);
    forall p | On(p, n) ensures OnAt(f, p, n) {
      assert OnAt(fg, p, n) && OnAt(ft, fg(p), n);
    }
    forall p, q | On(p, n) && On(q, n) ensures MulAt(f, p, q) {
      assert OnAt(fg, p, n) && OnAt(fg, q, n);
      assert MulAt(fg, p, q) && MulAt(ft, fg(p), fg(q));
    }
    forall k, p | On(p, n) ensures RotateAt(f, k, p) {
      assert OnAt(fg, p, n) && RotateAt(fg, k, p) && RotateAt(ft, k, fg(p));
    }
  }

  lemma ComposeIsGenerated(t: Tableau, g: Tableau, n: nat)
    requires TableauOn(g, n)
    ensures Compose(t, g) == Generated(p => Preimage(t, Preimage(g, p)), n)
  {
    hide Preimage, On, Anti, IsOrderTwo;
    var f := p => Preimage(t, Preimage(g, p));
    forall q | 0 <= q < n
      ensures f(PauliX(n, q)) == Compose(t, g).x[q] && f(PauliZ(n, q)) == Compose(t, g).z[q]
    {
      PreimageGenerator(g, q, n);
    }
  }

  /** Preimages compose, and composition keeps validity. */
  lemma ComposePreimage(t: Tableau, g: Tableau, n: nat)
    requires Valid(t, n) && Valid(g, n)
    ensures Valid(Compose(t, g), n)
    ensures forall p :: On(p, n) ==> Preimage(Compose(t, g), p) == Preimage(t, Preimage(g, p))
  {
    ComposeIsHomomorphism(t, g, n);
    ComposeIsGenerated(t, g, n);
    hide *;
    var f := p => Preimage(t, Preimage(g, p));
    GeneratedValid(f, n);
    forall p | On(p, n) ensures Preimage(Compose(t, g), p) == Preimage(t, Preimage(g, p)) {
      GeneratedPreimage(f, p, n);
    }
  }

  lemma IdentityTableauValid(n: nat)
    ensures Valid(IdentityTableau(n), n)
    ensures forall p :: On(p, n) ==> Preimage(IdentityTableau(n), p) == p
  {
    var f := (p: Pauli) => p;
    assert IsHomomorphism(f, n);
    assert Generated(f, n) == IdentityTableau(n);
    GeneratedValid(f, n);
    forall p | On(p, n) ensures Preimage(IdentityTableau(n), p) == p {
      GeneratedPreimage(f, p, n);
    }
  }
}
