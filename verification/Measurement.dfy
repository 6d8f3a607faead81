/** The projective measurement rule on encoders. */
module Measurement {
  import opened Bits
  import opened Paulis
  import opened Tableaus

  predicate IsStabilizerUpToPhase(t: Tableau, p: Pauli) {
    IsZero(Preimage(t, p).x)
  }

  /** `p` fixes the encoded state: it is the image of a product of Z operators, with no sign. */
  predicate IsStabilizer(t: Tableau, p: Pauli) {
    IsZero(Preimage(t, p).x) && Preimage(t, p).phase == 0
  }

  /** The change of one preimage: multiplied by `factor` if `multiplied`, negated if `b` and it anticommutes with Z^v. */
  function UpdateRow(row: Pauli, factor: Pauli, multiplied: bool, v: Bits, b: bool): Pauli {
    Sign(b && Dot(row.x, v), if multiplied then Mul(row, factor) else row)
  }

  function MeasurementFactor(t: Tableau, p: Pauli, v: Bits): Pauli {
    Mul(Preimage(t, p), ZPower(v))
  }

  /**
   * The encoder after outcome `b` of a measurement of `p`, where the stabilizer with preimage Z^v anticommutes with `p`.
   * The preimage of a generator is multiplied exactly when it anticommutes with the product of `p` and that stabilizer.
   */
  function AfterRandomOutcome(t: Tableau, p: Pauli, v: Bits, b: bool): Tableau {
    var factor := MeasurementFactor(t, p, v);
    Tableau(seq(|t.x|, q requires 0 <= q < |t.x| => UpdateRow(t.x[q], factor, At(p.z, q) != Dot(t.x[q].x, v), v, b)),
            seq(|t.z|, q requires 0 <= q < |t.z| => UpdateRow(t.z[q], factor, At(p.x, q) != Dot(t.z[q].x, v), v, b)))
  }

  /** The same change seen on the preimage of any operator. */
  function Collapse(r: Pauli, factor: Pauli, v: Bits, b: bool): Pauli {
    UpdateRow(r, factor, Anti(r, factor), v, b)
  }

  lemma AntiZPower(r: Pauli, v: Bits)
    ensures Anti(r, ZPower(v)) == Dot(r.x, v)
  {
    DotZero(r.z, Zeros(|v|));
  }

  /** The factor squares to -1, because the observable anticommutes with the stabilizer it replaces. */
  lemma FactorProperties(t: Tableau, p: Pauli, v: Bits, n: nat)
    requires Valid(t, n) && On(p, n) && |v| == n && IsOrderTwo(p)
    requires Dot(Preimage(t, p).x, v)
    ensures On(MeasurementFactor(t, p, v), n) && !IsOrderTwo(MeasurementFactor(t, p, v))
    ensures MeasurementFactor(t, p, v).x == Preimage(t, p).x
    ensures forall q :: On(q, n) ==>
      Anti(Preimage(t, q), MeasurementFactor(t, p, v)) == (Anti(q, p) != Dot(Preimage(t, q).x, v))
  {
    var r := Preimage(t, p);
    PreimageOn(t, p, n);
    PreimageOrderTwo(t, p, n);
    XorZeros(r.x, n);
    DotXor(r.z, v, r.x);
    DotSym(r.x, r.z);
    DotSym(r.x, v);
    DotSym(r.x, Xor(r.z, v));
    DotZero(r.z, Zeros(n));
    forall q | On(q, n)
      ensures Anti(Preimage(t, q), MeasurementFactor(t, p, v)) == (Anti(q, p) != Dot(Preimage(t, q).x, v))
    {
      AntiMul(r, ZPower(v), Preimage(t, q));
      AntiZPower(Preimage(t, q), v);
      PreimageAnti(t, q, p, n);
    }
  }

  lemma TwiceFactor(p: Pauli, q: Pauli, f: Pauli, n: nat)
    requires On(p, n) && On(q, n) && On(f, n) && !IsOrderTwo(f)
    ensures Anti(q, f) ==> Mul(Mul(p, f), Mul(q, f)) == Mul(p, q)
    ensures !Anti(q, f) ==> Mul(Mul(p, f), q) == Mul(Mul(p, q), f)
    ensures Mul(p, Mul(q, f)) == Mul(Mul(p, q), f)
  {
    MulAssoc(p, f, Mul(q, f));
    MulAssoc(f, q, f);
    MulAssoc(p, f, q);
    MulAssoc(p, q, f);
    MulComm(f, q);
    AntiSym(f, q);
    Square(f, n);
    MulAssoc(q, f, f);
    MulIdentity(q, n);
    var s := Anti(q, f);
    RotateMul(Half(s), Mul(q, f), f);
    RotateMul(2, q, Identity(n));
    RotateMul(Half(s), p, Mul(q, f));
    SignFalse(Mul(q, f));
    hide Mul, Anti, On, IsOrderTwo, Identity;
    if s {
      calc {
        Mul(Mul(p, f), Mul(q, f));
        Mul(p, Mul(f, Mul(q, f)));
        Mul(p, Mul(Mul(f, q), f));
        Mul(p, Mul(Sign(true, Mul(q, f)), f));
        Mul(p, Sign(true, Mul(Mul(q, f), f)));
        Mul(p, Sign(true, Mul(q, Mul(f, f))));
        Mul(p, Sign(true, Mul(q, Sign(true, Identity(n)))));
        Mul(p, Sign(true, Sign(true, q)));
        Mul(p, q);
      }
    }
  }

  lemma CollapseMul(p: Pauli, q: Pauli, f: Pauli, v: Bits, b: bool, n: nat)
    requires On(p, n) && On(q, n) && On(f, n) && !IsOrderTwo(f)
    ensures Collapse(Mul(p, q), f, v, b) == Mul(Collapse(p, f, v, b), Collapse(q, f, v, b))
  {
    AntiMul(p, q, f);
    DotXor(p.x, q.x, v);
    assert Dot(Mul(p, q).x, v) == (Dot(p.x, v) != Dot(q.x, v));
    TwiceFactor(p, q, f, n);
    var sp, sq := b && Dot(p.x, v), b && Dot(q.x, v);
    var fp := if Anti(p, f) then Mul(p, f) else p;
    var fq := if Anti(q, f) then Mul(q, f) else q;
    SignMul(sp, sq, fp, fq);
    hide Mul, Anti, On, IsOrderTwo, Sign;
  }

  lemma CollapseIsHomomorphism(f: Pauli, v: Bits, b: bool, n: nat)
    requires On(f, n) && !IsOrderTwo(f)
    ensures IsHomomorphism(r => Collapse(r, f, v, b), n)
  {
    var c := r => Collapse(r, f, v, b);
    forall p, q | On(p, n) && On(q, n) ensures MulAt(c, p, q) {
      CollapseMul(p, q, f, v, b, n);
    }
  }

  /** The row updates act on every operator, not only on the generators, and keep the tableau valid. */
  lemma AfterRandomOutcomePreimage(t: Tableau, p: Pauli, v: Bits, b: bool, n: nat)
    requires Valid(t, n) && On(p, n) && |v| == n && IsOrderTwo(p)
    requires Dot(Preimage(t, p).x, v)
    ensures Valid(AfterRandomOutcome(t, p, v, b), n)
    ensures forall q :: On(q, n) ==>
      Preimage(AfterRandomOutcome(t, p, v, b), q) == Collapse(Preimage(t, q), MeasurementFactor(t, p, v), v, b)
  {
    var f := MeasurementFactor(t, p, v);
    FactorProperties(t, p, v, n);
    CollapseIsHomomorphism(f, v, b, n);
    var u := Generated(r => Collapse(r, f, v, b), n);
    GeneratedValid(r => Collapse(r, f, v, b), n);
    AfterRandomOutcomeIsComposed(t, p, v, b, n);
    ValidOn(t, n);
    hide *;
    ComposePreimage(u, t, n);
    forall q | On(q, n)
      ensures Preimage(AfterRandomOutcome(t, p, v, b), q) == Collapse(Preimage(t, q), f, v, b)
    {
      PreimageOn(t, q, n);
      GeneratedPreimage(r => Collapse(r, f, v, b), Preimage(t, q), n);
    }
  }

  /** The measured encoder is the old one followed, on the preimage side, by the map `Collapse`. */
  lemma AfterRandomOutcomeIsComposed(t: Tableau, p: Pauli, v: Bits, b: bool, n: nat)
    requires Valid(t, n) && On(p, n) && |v| == n && IsOrderTwo(p)
    requires Dot(Preimage(t, p).x, v)
    ensures AfterRandomOutcome(t, p, v, b)
         == Compose(Generated(r => Collapse(r, MeasurementFactor(t, p, v), v, b), n), t)
  {
    ValidOn(t, n);
    hide Preimage, UpdateRow, Valid, On, Mul, Collapse, Generated, Anti, Dot, IsOrderTwo, MeasurementFactor;
    var f := MeasurementFactor(t, p, v);
    var u := Generated(r => Collapse(r, f, v, b), n);
    forall q: nat | q < n
      ensures Preimage(u, t.x[q]) == UpdateRow(t.x[q], f, At(p.z, q) != Dot(t.x[q].x, v), v, b)
      ensures Preimage(u, t.z[q]) == UpdateRow(t.z[q], f, At(p.x, q) != Dot(t.z[q].x, v), v, b)
    {
      GeneratedRow(t, p, v, b, q, n);
    }
    hide At, ZPower;
    assert AfterRandomOutcome(t, p, v, b).x == Compose(u, t).x;
    assert AfterRandomOutcome(t, p, v, b).z == Compose(u, t).z;
  }

  lemma GeneratedRow(t: Tableau, p: Pauli, v: Bits, b: bool, q: nat, n: nat)
    requires Valid(t, n) && On(p, n) && |v| == n && IsOrderTwo(p) && q < n
    requires Dot(Preimage(t, p).x, v)
    ensures var f := MeasurementFactor(t, p, v);
      var u := Generated(r => Collapse(r, f, v, b), n);
      && Preimage(u, t.x[q]) == UpdateRow(t.x[q], f, At(p.z, q) != Dot(t.x[q].x, v), v, b)
      && Preimage(u, t.z[q]) == UpdateRow(t.z[q], f, At(p.x, q) != Dot(t.z[q].x, v), v, b)
  {
    var f := MeasurementFactor(t, p, v);
    FactorProperties(t, p, v, n);
    CollapseIsHomomorphism(f, v, b, n);
    ValidOn(t, n);
    AntiUnits(p, n, q);
    PreimageGenerator(t, q, n);
    UnitsOn(n, q);
    assert Anti(Preimage(t, PauliX(n, q)), f) == (Anti(PauliX(n, q), p) != Dot(Preimage(t, PauliX(n, q)).x, v));
    assert Anti(Preimage(t, PauliZ(n, q)), f) == (Anti(PauliZ(n, q), p) != Dot(Preimage(t, PauliZ(n, q)).x, v));
    var c := r => Collapse(r, f, v, b);
    GeneratedPreimage(c, t.x[q], n);
    GeneratedPreimage(c, t.z[q], n);
  }

  lemma UnitsOn(n: nat, q: nat)
    ensures On(PauliX(n, q), n) && On(PauliZ(n, q), n)
  {
  }

  lemma ValidOn(t: Tableau, n: nat)
    requires Valid(t, n)
    ensures TableauOn(t, n)
  {
  }

  // ----- the projective measurement rule

  lemma DotOfZero(a: Bits, v: Bits)
    requires IsZero(a)
    ensures !Dot(a, v)
  {
    DotZero(v, a);
  }

  /** Multiplying by Z^v changes neither the X part nor the phase. */
  lemma TimesZPower(p: Pauli, v: Bits)
    requires |p.x| == |v|
    ensures Mul(p, ZPower(v)).x == p.x && Mul(p, ZPower(v)).phase == p.phase
  {
    XorZeros(p.x, |v|);
    DotZero(p.z, Zeros(|v|));
  }

  /** Preimage of the product with the signed observable, in the order in which the update multiplies. */
  lemma PreimageOfProduct(t: Tableau, p: Pauli, q: Pauli, b: bool, n: nat)
    requires Valid(t, n) && On(p, n) && On(q, n) && !Anti(q, p)
    ensures Preimage(t, Sign(b, Mul(p, q))) == Sign(b, Mul(Preimage(t, q), Preimage(t, p)))
  {
    PreimageRotate(t, Half(b), Mul(p, q));
    PreimageMul(t, p, q, n);
    PreimageAnti(t, p, q, n);
    AntiSym(p, q);
    MulComm(Preimage(t, p), Preimage(t, q));
    SignFalse(Mul(Preimage(t, q), Preimage(t, p)));
  }

  /** Which operators the collapse sends to unsigned Z products. */
  lemma CollapseToZ(r: Pauli, r0: Pauli, v: Bits, b: bool, n: nat)
    requires On(r, n) && On(r0, n) && |v| == n && Dot(r0.x, v)
    ensures var c := Collapse(r, Mul(r0, ZPower(v)), v, b);
      (IsZero(c.x) && c.phase == 0) ==
      (!Anti(r, r0) && ((IsZero(r.x) && r.phase == 0)
                        || (IsZero(Mul(r, r0).x) && Sign(b, Mul(r, r0)).phase == 0)))
  {
    var f := Mul(r0, ZPower(v));
    AntiMul(r0, ZPower(v), r);
    AntiZPower(r, v);
    MulAssoc(r, r0, ZPower(v));
    TimesZPower(Mul(r, r0), v);
    DotXor(r.x, r0.x, v);
    if IsZero(r.x) {
      DotOfZero(r.x, v);
    }
    if IsZero(Xor(r.x, r0.x)) {
      DotOfZero(Xor(r.x, r0.x), v);
    }
  }

  /**
   * After outcome `b` of a measurement of `p`, the stabilizers are exactly the old stabilizers that commute with `p`,
   * and their products with (-1)^b p.
   */
  lemma MeasurementRule(t: Tableau, p: Pauli, v: Bits, b: bool, q: Pauli, n: nat)
    requires Valid(t, n) && On(p, n) && On(q, n) && |v| == n && IsOrderTwo(p)
    requires Dot(Preimage(t, p).x, v)
    ensures IsStabilizer(AfterRandomOutcome(t, p, v, b), q)
        <==> !Anti(q, p) && (IsStabilizer(t, q) || IsStabilizer(t, Sign(b, Mul(p, q))))
  {
    AfterRandomOutcomePreimage(t, p, v, b, n);
    PreimageOn(t, p, n);
    PreimageOn(t, q, n);
    PreimageAnti(t, q, p, n);
    CollapseToZ(Preimage(t, q), Preimage(t, p), v, b, n);
    if !Anti(q, p) {
      PreimageOfProduct(t, p, q, b, n);
    }
    hide Preimage, Mul, On, Anti, Collapse, AfterRandomOutcome;
  }

  /** The measured operator, with the sign of the outcome, takes the place of the stabilizer with preimage Z^v. */
  lemma MeasuredOperator(t: Tableau, p: Pauli, v: Bits, b: bool, n: nat)
    requires Valid(t, n) && On(p, n) && |v| == n && IsOrderTwo(p)
    requires Dot(Preimage(t, p).x, v)
    ensures Preimage(AfterRandomOutcome(t, p, v, b), Sign(b, p)) == ZPower(v)
  {
    var t' := AfterRandomOutcome(t, p, v, b);
    var r := Preimage(t, p);
    AfterRandomOutcomePreimage(t, p, v, b, n);
    PreimageRotate(t', Half(b), p);
    PreimageOn(t, p, n);
    PreimageOrderTwo(t, p, n);
    FactorProperties(t, p, v, n);
    AntiSelf(p);
    MulAssoc(r, r, ZPower(v));
    Square(r, n);
    MulIdentity(ZPower(v), n);
    SignFalse(Identity(n));
    hide Preimage, Mul, Anti, AfterRandomOutcome, IsOrderTwo, Identity;
  }

  /** For an observable, being a stabilizer up to phase is being one up to sign. */
  lemma UpToSign(t: Tableau, p: Pauli, n: nat)
    requires Valid(t, n) && On(p, n) && IsOrderTwo(p)
    ensures IsStabilizerUpToPhase(t, p) <==> IsStabilizer(t, p) || IsStabilizer(t, Sign(true, p))
    ensures IsStabilizerUpToPhase(t, p) ==> IsStabilizer(t, Sign(Preimage(t, p).phase == 2, p))
    ensures IsStabilizerUpToPhase(t, p) ==> Preimage(t, p).phase == 0 || Preimage(t, p).phase == 2
  {
    PreimageOrderTwo(t, p, n);
    PreimageRotate(t, Half(true), p);
    PreimageRotate(t, Half(Preimage(t, p).phase == 2), p);
    if IsStabilizerUpToPhase(t, p) {
      DotOfZero(Preimage(t, p).x, Preimage(t, p).z);
    }
    hide Preimage, On;
  }

  /** The stabilizers form a group without -1. */
  lemma StabilizerMul(t: Tableau, p: Pauli, q: Pauli, n: nat)
    requires Valid(t, n) && On(p, n) && On(q, n)
    requires IsStabilizer(t, p) && IsStabilizer(t, q)
    ensures IsStabilizer(t, Mul(p, q)) && !Anti(p, q) && !IsStabilizer(t, Sign(true, p))
  {
    PreimageMul(t, p, q, n);
    PreimageAnti(t, p, q, n);
    PreimageRotate(t, Half(true), p);
    var r, s := Preimage(t, p), Preimage(t, q);
    PreimageOn(t, p, n);
    PreimageOn(t, q, n);
    DotZero(r.z, s.x);
    DotZero(s.z, r.x);
    Same(r.x, Zeros(n));
    Same(s.x, Zeros(n));
    XorZeros(Zeros(n), n);
    hide Preimage;
  }
}
