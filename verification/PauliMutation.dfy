/** Pauli operators changed in place: every method multiplies by the operator it names, phase included. */
module PauliMutation {
  import opened Bits
  import opened Paulis

  /** Y = i X Z. */
  function PauliY(n: nat, q: nat): Pauli {
    Pauli(Projective(Unit(n, q), Unit(n, q)), 1)
  }

  /** Complex conjugation of i^k X^x Z^z. */
  function Conjugated(p: Pauli): Pauli {
    p.(phase := 0 - p.phase)
  }

  /** The inverse: conjugate phase, and a sign when moving Z past X costs one. */
  function Inverted(p: Pauli): Pauli {
    Sign(Dot(p.x, p.z), Conjugated(p))
  }

  lemma InverseIsInverse(p: Pauli, n: nat)
    requires On(p, n)
    ensures Mul(p, Inverted(p)) == Identity(n) && Mul(Inverted(p), p) == Identity(n)
  {
    XorSelf(p.x);
    XorSelf(p.z);
    DotSym(p.x, p.z);
  }

  /** Only order-two operators are their own inverse. */
  lemma OwnInverse(p: Pauli)
    ensures Inverted(p) == p <==> IsOrderTwo(p)
  {
  }

  lemma YIsProduct(n: nat, q: nat)
    requires q < n
    ensures PauliY(n, q) == Rotate(1, Mul(PauliX(n, q), PauliZ(n, q))) && IsOrderTwo(PauliY(n, q))
  {
    XorZeros(Unit(n, q), n);
    DotZero(Zeros(n), Zeros(n));
    DotUnit(Unit(n, q), n, q);
  }

  lemma FlippedBit(a: Bits, n: nat, q: nat)
    requires |a| == n && q < n
    ensures SetBit(a, q, !At(a, q)) == Xor(a, Unit(n, q)) == Xor(Unit(n, q), a)
  {
    Same(SetBit(a, q, !At(a, q)), Xor(a, Unit(n, q)));
    XorComm(a, Unit(n, q));
  }

  lemma UnitProducts(p: Pauli, n: nat, q: nat)
    requires On(p, n) && q < n
    ensures Mul(PauliX(n, q), p) == Pauli(Projective(SetBit(p.x, q, !At(p.x, q)), p.z), p.phase)
    ensures Mul(p, PauliX(n, q)) == Pauli(Projective(SetBit(p.x, q, !At(p.x, q)), p.z), p.phase + Half(At(p.z, q)))
    ensures Mul(PauliZ(n, q), p) == Pauli(Projective(p.x, SetBit(p.z, q, !At(p.z, q))), p.phase + Half(At(p.x, q)))
    ensures Mul(p, PauliZ(n, q)) == Pauli(Projective(p.x, SetBit(p.z, q, !At(p.z, q))), p.phase)
  {
    FlippedBit(p.x, n, q);
    FlippedBit(p.z, n, q);
    XorZeros(p.x, n);
    XorZeros(p.z, n);
    DotZero(p.x, Zeros(n));
    DotZero(p.z, Zeros(n));
    DotUnit(p.x, n, q);
    DotUnit(p.z, n, q);
  }

  class PauliUnitary {
    var xBits: Bits
    var zBits: Bits
    var phase: bv2

    function Value(): Pauli
      reads this
    {
      Pauli(Projective(xBits, zBits), phase)
    }

    constructor Neutral(n: nat)
      ensures Value() == Identity(n)
    {
      xBits, zBits, phase := Zeros(n), Zeros(n), 0;
    }

    method MulAssignLeftX(q: nat, ghost n: nat)
      requires On(Value(), n) && q < n
      modifies this
      ensures Value() == Mul(PauliX(n, q), old(Value())) && On(Value(), n)
    {
      UnitProducts(Value(), n, q);
      xBits := SetBit(xBits, q, !At(xBits, q));
    }

    method MulAssignRightX(q: nat, ghost n: nat)
      requires On(Value(), n) && q < n
      modifies this
      ensures Value() == Mul(old(Value()), PauliX(n, q)) && On(Value(), n)
    {
      UnitProducts(Value(), n, q);
      xBits := SetBit(xBits, q, !At(xBits, q));
      if At(zBits, q) {
        phase := phase + 2;
      }
    }

    method MulAssignLeftZ(q: nat, ghost n: nat)
      requires On(Value(), n) && q < n
      modifies this
      ensures Value() == Mul(PauliZ(n, q), old(Value())) && On(Value(), n)
    {
      UnitProducts(Value(), n, q);
      zBits := SetBit(zBits, q, !At(zBits, q));
      if At(xBits, q) {
        phase := phase + 2;
      }
    }

    method MulAssignRightZ(q: nat, ghost n: nat)
      requires On(Value(), n) && q < n
      modifies this
      ensures Value() == Mul(old(Value()), PauliZ(n, q)) && On(Value(), n)
    {
      UnitProducts(Value(), n, q);
      zBits := SetBit(zBits, q, !At(zBits, q));
    }

    /** Z, then X, then the phase i. */
    method MulAssignLeftY(q: nat, ghost n: nat)
      requires On(Value(), n) && q < n
      modifies this
      ensures Value() == Mul(PauliY(n, q), old(Value())) && On(Value(), n)
    {
      MulAssignLeftZ(q, n);
      MulAssignLeftX(q, n);
      phase := phase + 1;
      MulAssoc(PauliX(n, q), PauliZ(n, q), old(Value()));
      YIsProduct(n, q);
      RotateMul(1, Mul(PauliX(n, q), PauliZ(n, q)), old(Value()));
      hide Mul, PauliX, PauliY, PauliZ;
    }

    /** X, then Z, then the phase i. */
    method MulAssignRightY(q: nat, ghost n: nat)
      requires On(Value(), n) && q < n
      modifies this
      ensures Value() == Mul(old(Value()), PauliY(n, q)) && On(Value(), n)
    {
      MulAssignRightX(q, n);
      MulAssignRightZ(q, n);
      phase := phase + 1;
      MulAssoc(old(Value()), PauliX(n, q), PauliZ(n, q));
      YIsProduct(n, q);
      RotateMul(1, old(Value()), Mul(PauliX(n, q), PauliZ(n, q)));
      hide Mul, PauliX, PauliY, PauliZ;
    }

    /** The sign comes from moving Z bits of this operator past X bits of the factor. */
    method MulAssignRight(rhs: Pauli)
      modifies this
      ensures Value() == Mul(old(Value()), rhs)
    {
      var cross := Dot(zBits, rhs.x);
      xBits, zBits := Xor(xBits, rhs.x), Xor(zBits, rhs.z);
      phase := phase + (Half(cross) + rhs.phase);
    }

    method MulAssignLeft(lhs: Pauli)
      modifies this
      ensures Value() == Mul(lhs, old(Value()))
    {
      var cross := Dot(xBits, lhs.z);
      DotSym(xBits, lhs.z);
      XorComm(xBits, lhs.x);
      XorComm(zBits, lhs.z);
      xBits, zBits := Xor(xBits, lhs.x), Xor(zBits, lhs.z);
      phase := phase + (Half(cross) + lhs.phase);
    }

    method Invert()
      modifies this
      ensures Value() == Inverted(old(Value()))
    {
      phase := 0 - phase;
      if Dot(xBits, zBits) {
        phase := phase + 2;
      }
    }
  }
}
