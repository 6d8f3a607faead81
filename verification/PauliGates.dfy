/** Gates given by Pauli operators: Pauli corrections, Pauli exponentials and controlled Paulis. */
module PauliGates {
  import opened Bits
  import opened Paulis
  import opened Tableaus
  import opened Measurement
  import opened Gates

  /** Conjugation by `p` negates the rows of the generators that anticommute with it. */
  function LeftMulPauli(t: Tableau, p: Pauli): Tableau {
    Tableau(seq(|t.x|, q requires 0 <= q < |t.x| => Sign(At(p.z, q), t.x[q])),
            seq(|t.z|, q requires 0 <= q < |t.z| => Sign(At(p.x, q), t.z[q])))
  }

  /** exp(i pi/4 p): the rows that anticommute with `p` are multiplied by i times the preimage of `p`. */
  function LeftMulPauliExp(t: Tableau, p: Pauli): Tableau {
    var f := Rotate(1, Preimage(t, p));
    Tableau(seq(|t.x|, q requires 0 <= q < |t.x| => if At(p.z, q) then Mul(t.x[q], f) else t.x[q]),
            seq(|t.z|, q requires 0 <= q < |t.z| => if At(p.x, q) then Mul(t.z[q], f) else t.z[q]))
  }

  function Sandwich(left: bool, c: Pauli, r: Pauli, right: bool, d: Pauli): Pauli {
    var s := if right then Mul(r, d) else r;
    if left then Mul(c, s) else s
  }

  /** A controlled Pauli: target factors on the right of rows that anticommute with the control, and conversely. */
  function LeftMulControlledPauli(t: Tableau, control: Pauli, target: Pauli): Tableau {
    var c, d := Preimage(t, control), Preimage(t, target);
    Tableau(seq(|t.x|, q requires 0 <= q < |t.x| => Sandwich(At(target.z, q), c, t.x[q], At(control.z, q), d)),
            seq(|t.z|, q requires 0 <= q < |t.z| => Sandwich(At(target.x, q), c, t.z[q], At(control.x, q), d)))
  }

  // ----- what the gates do to every operator

  lemma PauliIsHomomorphism(p: Pauli, n: nat)
    ensures IsHomomorphism(q => Sign(Anti(q, p), q), n)
  {
    var f := q => Sign(Anti(q, p), q);
    forall a, b | On(a, n) && On(b, n) ensures MulAt(f, a, b) {
      AntiMul(a, b, p);
      SignMul(Anti(a, p), Anti(b, p), a, b);
    }
  }

  lemma PauliGenerated(p: Pauli, n: nat)
    requires On(p, n)
    ensures LeftMulPauli(IdentityTableau(n), p) == Generated(q => Sign(Anti(q, p), q), n)
  {
    forall q: nat | q < n
      ensures Anti(PauliX(n, q), p) == At(p.z, q) && Anti(PauliZ(n, q), p) == At(p.x, q)
    {
      AntiUnits(p, n, q);
    }
    hide Anti, PauliX, PauliZ, Sign;
  }

  lemma PauliRows(t: Tableau, p: Pauli, q: nat, n: nat)
    requires Valid(t, n) && On(p, n) && q < n
    ensures |t.x| == |t.z| == n
    ensures LeftMulPauli(t, p).x[q] == Preimage(t, Sign(Anti(PauliX(n, q), p), PauliX(n, q)))
    ensures LeftMulPauli(t, p).z[q] == Preimage(t, Sign(Anti(PauliZ(n, q), p), PauliZ(n, q)))
  {
    AntiUnits(p, n, q);
    RowRules(t, n);
    hide Preimage, PauliX, PauliZ, Anti, On;
  }

  lemma StepPauli(t: Tableau, p: Pauli, n: nat)
    requires Valid(t, n) && On(p, n)
    ensures Step(t, LeftMulPauli(t, p), LeftMulPauli(IdentityTableau(n), p), n)
    ensures forall q :: On(q, n) ==> Preimage(LeftMulPauli(IdentityTableau(n), p), q) == Sign(Anti(q, p), q)
  {
    PauliIsHomomorphism(p, n);
    PauliGenerated(p, n);
    forall q: nat | q < n
      ensures LeftMulPauli(t, p).x[q] == Preimage(t, Sign(Anti(PauliX(n, q), p), PauliX(n, q)))
      ensures LeftMulPauli(t, p).z[q] == Preimage(t, Sign(Anti(PauliZ(n, q), p), PauliZ(n, q)))
    {
      PauliRows(t, p, q, n);
    }
    Sizes(t, n);
    hide Valid, IsHomomorphism, Preimage, On, Anti, Step, Generated;
    StepFromHomomorphism(t, LeftMulPauli(t, p), q => Sign(Anti(q, p), q), LeftMulPauli(IdentityTableau(n), p), n);
  }

  /** A gate whose tableau stores a homomorphism `f` is a step with preimage map `f`. */
  lemma StepFromHomomorphism(t: Tableau, u: Tableau, f: Pauli -> Pauli, g: Tableau, n: nat)
    requires Valid(t, n) && IsHomomorphism(f, n) && g == Generated(f, n)
    requires |u.x| == |u.z| == n
    requires forall q :: 0 <= q < n ==>
      u.x[q] == Preimage(t, f(PauliX(n, q))) && u.z[q] == Preimage(t, f(PauliZ(n, q)))
    ensures Step(t, u, g, n)
    ensures forall q :: On(q, n) ==> Preimage(g, q) == f(q)
  {
    GeneratedValid(f, n);
    ComposePreimage(t, g, n);
    hide Preimage, Valid, IsHomomorphism;
    assert u == Compose(t, g);
    forall q | On(q, n) ensures Preimage(g, q) == f(q) {
      GeneratedPreimage(f, q, n);
    }
  }

  /** Multiplication by `f` of what anticommutes with it. */
  function Transvection(q: Pauli, f: Pauli): Pauli {
    if Anti(q, f) then Mul(q, f) else q
  }

  lemma TransvectionIsHomomorphism(f: Pauli, n: nat)
    requires On(f, n) && !IsOrderTwo(f)
    ensures IsHomomorphism(q => Transvection(q, f), n)
  {
    CollapseIsHomomorphism(f, [], false, n);
    var c := q => Collapse(q, f, [], false);
    var g := q => Transvection(q, f);
    forall q ensures c(q) == g(q) {
      SignFalse(Transvection(q, f));
    }
    forall p, q | On(p, n) && On(q, n) ensures MulAt(g, p, q) {
      assert MulAt(c, p, q);
    }
    forall p | On(p, n) ensures OnAt(g, p, n) {
      assert OnAt(c, p, n);
    }
    forall k, p | On(p, n) ensures RotateAt(g, k, p) {
      assert RotateAt(c, k, p);
    }
  }

  lemma PauliExpGenerated(p: Pauli, n: nat)
    requires On(p, n)
    ensures LeftMulPauliExp(IdentityTableau(n), p) == Generated(q => Transvection(q, Rotate(1, p)), n)
  {
    IdentityTableauValid(n);
    forall q: nat | q < n
      ensures Anti(PauliX(n, q), p) == At(p.z, q) && Anti(PauliZ(n, q), p) == At(p.x, q)
    {
      AntiUnits(p, n, q);
    }
    assert forall q :: Anti(q, Rotate(1, p)) == Anti(q, p);
    hide Anti, PauliX, PauliZ, Mul, Preimage, On, Valid;
  }

  lemma PauliExpRows(t: Tableau, p: Pauli, q: nat, n: nat)
    requires Valid(t, n) && On(p, n) && q < n
    ensures |t.x| == |t.z| == n
    ensures LeftMulPauliExp(t, p).x[q] == Preimage(t, Transvection(PauliX(n, q), Rotate(1, p)))
    ensures LeftMulPauliExp(t, p).z[q] == Preimage(t, Transvection(PauliZ(n, q), Rotate(1, p)))
  {
    AntiUnits(p, n, q);
    RowRules(t, n);
    OnRules(n);
    assert Anti(PauliX(n, q), Rotate(1, p)) == Anti(PauliX(n, q), p);
    assert Anti(PauliZ(n, q), Rotate(1, p)) == Anti(PauliZ(n, q), p);
    hide Preimage, PauliX, PauliZ, Anti, On, Mul, Rotate;
  }

  lemma StepPauliExp(t: Tableau, p: Pauli, n: nat)
    requires Valid(t, n) && On(p, n) && IsOrderTwo(p)
    ensures Step(t, LeftMulPauliExp(t, p), LeftMulPauliExp(IdentityTableau(n), p), n)
    ensures forall q :: On(q, n) ==>
      Preimage(LeftMulPauliExp(IdentityTableau(n), p), q) == Transvection(q, Rotate(1, p))
  {
    OrderTwoRules(p, p);
    TransvectionIsHomomorphism(Rotate(1, p), n);
    PauliExpGenerated(p, n);
    forall q: nat | q < n
      ensures LeftMulPauliExp(t, p).x[q] == Preimage(t, Transvection(PauliX(n, q), Rotate(1, p)))
      ensures LeftMulPauliExp(t, p).z[q] == Preimage(t, Transvection(PauliZ(n, q), Rotate(1, p)))
    {
      PauliExpRows(t, p, q, n);
    }
    Sizes(t, n);
    hide Valid, IsHomomorphism, Preimage, On, Anti, Step, Generated, Mul, Transvection;
    StepFromHomomorphism(t, LeftMulPauliExp(t, p), q => Transvection(q, Rotate(1, p)),
                         LeftMulPauliExp(IdentityTableau(n), p), n);
  }

  /** What a controlled Pauli does to any operator. */
  function Controlled(q: Pauli, control: Pauli, target: Pauli): Pauli {
    Sandwich(Anti(q, target), control, q, Anti(q, control), target)
  }

  lemma ControlledMul(a: Pauli, b: Pauli, c: Pauli, d: Pauli, n: nat)
    requires On(a, n) && On(b, n) && On(c, n) && On(d, n)
    requires IsOrderTwo(c) && IsOrderTwo(d) && !Anti(c, d)
    ensures Controlled(Mul(a, b), c, d) == Mul(Controlled(a, c, d), Controlled(b, c, d))
  {
    AntiMul(a, b, c);
    AntiMul(a, b, d);
    var a0, b0 := Power(Anti(a, d), c, n), Power(Anti(b, d), c, n);
    var a1, b1 := Power(Anti(a, c), d, n), Power(Anti(b, c), d, n);
    ControlledAsProduct(a, c, d, n);
    ControlledAsProduct(b, c, d, n);
    ControlledAsProduct(Mul(a, b), c, d, n);
    PowerXor(Anti(a, d), Anti(b, d), c, n);
    PowerXor(Anti(a, c), Anti(b, c), d, n);
    AntiPower(a, Anti(b, d), c, n);
    AntiPower(b, Anti(a, c), d, n);
    PowersCommute(Anti(b, d), c, Anti(a, c), d, n);
    Rearrange(a0, a, a1, b0, b, b1);
  }

  /** The operator `p` or the identity. */
  function Power(e: bool, p: Pauli, n: nat): Pauli {
    if e then p else Identity(n)
  }

  lemma ControlledAsProduct(a: Pauli, c: Pauli, d: Pauli, n: nat)
    requires On(a, n) && On(c, n) && On(d, n)
    ensures Controlled(a, c, d) == Mul(Power(Anti(a, d), c, n), Mul(a, Power(Anti(a, c), d, n)))
  {
    MulIdentity(a, n);
    MulIdentity(Mul(a, d), n);
    hide Mul, Anti, Identity;
  }

  lemma PowerXor(e: bool, f: bool, p: Pauli, n: nat)
    requires On(p, n) && IsOrderTwo(p)
    ensures Mul(Power(e, p, n), Power(f, p, n)) == Power(e != f, p, n)
  {
    Square(p, n);
    SignFalse(Identity(n));
    MulIdentity(p, n);
    MulIdentity(Identity(n), n);
  }

  lemma AntiPower(a: Pauli, e: bool, p: Pauli, n: nat)
    ensures Anti(a, Power(e, p, n)) == (e && Anti(a, p))
    ensures Anti(Power(e, p, n), a) == (e && Anti(a, p))
  {
    AntiIdentity(a, n);
    AntiSym(a, p);
  }

  lemma PowersCommute(e: bool, c: Pauli, f: bool, d: Pauli, n: nat)
    requires !Anti(c, d)
    ensures !Anti(Power(f, d, n), Power(e, c, n)) && !Anti(Power(e, c, n), Power(f, d, n))
  {
    AntiIdentity(c, n);
    AntiIdentity(d, n);
    AntiIdentity(Identity(n), n);
    AntiSym(c, d);
  }

  /** Moving `b0` left and `a1` right past each other and past `a` and `b`; the two signs cancel. */
  lemma Rearrange(a0: Pauli, a: Pauli, a1: Pauli, b0: Pauli, b: Pauli, b1: Pauli)
    requires Anti(a, b0) == Anti(b, a1) && !Anti(a1, b0)
    ensures Mul(Mul(a0, Mul(a, a1)), Mul(b0, Mul(b, b1))) == Mul(Mul(a0, b0), Mul(Mul(a, b), Mul(a1, b1)))
  {
    var s := Anti(a, b0);
    calc {
      Mul(Mul(a0, Mul(a, a1)), Mul(b0, Mul(b, b1)));
      { ExchangeMiddle(a0, Mul(a, a1), b0, Mul(b, b1)); AntiMul(a, a1, b0); hide Mul, Anti; }
      Sign(s, Mul(Mul(a0, b0), Mul(Mul(a, a1), Mul(b, b1))));
      { ExchangeMiddle(a, a1, b, b1); AntiSym(a1, b); hide Mul, Anti; }
      Sign(s, Mul(Mul(a0, b0), Sign(s, Mul(Mul(a, b), Mul(a1, b1)))));
      { RotateMul(Half(s), Mul(a0, b0), Mul(Mul(a, b), Mul(a1, b1))); hide Mul, Anti; }
      Mul(Mul(a0, b0), Mul(Mul(a, b), Mul(a1, b1)));
    }
  }

  lemma ControlledIsHomomorphism(c: Pauli, d: Pauli, n: nat)
    requires On(c, n) && On(d, n) && IsOrderTwo(c) && IsOrderTwo(d) && !Anti(c, d)
    ensures IsHomomorphism(q => Controlled(q, c, d), n)
  {
    var f := q => Controlled(q, c, d);
    forall a, b | On(a, n) && On(b, n) ensures MulAt(f, a, b) {
      ControlledMul(a, b, c, d, n);
    }
    forall k, a | On(a, n) ensures RotateAt(f, k, a) {
      RotateMul(k, a, d);
      RotateMul(k, c, a);
      RotateMul(k, c, Mul(a, d));
    }
  }

  lemma ControlledGenerated(c: Pauli, d: Pauli, n: nat)
    requires On(c, n) && On(d, n)
    ensures LeftMulControlledPauli(IdentityTableau(n), c, d) == Generated(q => Controlled(q, c, d), n)
  {
    IdentityTableauValid(n);
    forall q: nat | q < n
      ensures Anti(PauliX(n, q), c) == At(c.z, q) && Anti(PauliZ(n, q), c) == At(c.x, q)
      ensures Anti(PauliX(n, q), d) == At(d.z, q) && Anti(PauliZ(n, q), d) == At(d.x, q)
    {
      AntiUnits(c, n, q);
      AntiUnits(d, n, q);
    }
    hide Anti, PauliX, PauliZ, Mul, Preimage, On, Valid;
  }

  lemma ControlledRows(t: Tableau, c: Pauli, d: Pauli, q: nat, n: nat)
    requires Valid(t, n) && On(c, n) && On(d, n) && q < n
    ensures |t.x| == |t.z| == n
    ensures LeftMulControlledPauli(t, c, d).x[q] == Preimage(t, Controlled(PauliX(n, q), c, d))
    ensures LeftMulControlledPauli(t, c, d).z[q] == Preimage(t, Controlled(PauliZ(n, q), c, d))
  {
    AntiUnits(c, n, q);
    AntiUnits(d, n, q);
    RowRules(t, n);
    OnRules(n);
    hide Preimage, PauliX, PauliZ, Anti, On, Mul, Rotate;
  }

  lemma StepControlledPauli(t: Tableau, c: Pauli, d: Pauli, n: nat)
    requires Valid(t, n) && On(c, n) && On(d, n) && IsOrderTwo(c) && IsOrderTwo(d) && !Anti(c, d)
    ensures Step(t, LeftMulControlledPauli(t, c, d), LeftMulControlledPauli(IdentityTableau(n), c, d), n)
    ensures forall q :: On(q, n) ==>
      Preimage(LeftMulControlledPauli(IdentityTableau(n), c, d), q) == Controlled(q, c, d)
  {
    ControlledIsHomomorphism(c, d, n);
    ControlledGenerated(c, d, n);
    forall q: nat | q < n
      ensures LeftMulControlledPauli(t, c, d).x[q] == Preimage(t, Controlled(PauliX(n, q), c, d))
      ensures LeftMulControlledPauli(t, c, d).z[q] == Preimage(t, Controlled(PauliZ(n, q), c, d))
    {
      ControlledRows(t, c, d, q, n);
    }
    Sizes(t, n);
    hide Valid, IsHomomorphism, Preimage, On, Anti, Step, Generated, Mul, Controlled;
    StepFromHomomorphism(t, LeftMulControlledPauli(t, c, d), q => Controlled(q, c, d),
                         LeftMulControlledPauli(IdentityTableau(n), c, d), n);
  }
}
