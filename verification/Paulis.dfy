/** The Pauli group: i^phase X^x Z^z, with the phase exponent taken modulo four. */
module Paulis {
  import opened Bits

  /** A Pauli operator up to phase. */
  datatype Projective = Projective(x: Bits, z: Bits)

  datatype Pauli = Pauli(bits: Projective, phase: bv2) {
    const x := bits.x
    const z := bits.z
  }

  predicate ProjectiveOn(p: Projective, n: nat) {
    |p.x| == n && |p.z| == n
  }

  predicate On(p: Pauli, n: nat) {
    ProjectiveOn(p.bits, n)
  }

  function IdentityBits(n: nat): Projective {
    Projective(Zeros(n), Zeros(n))
  }

  function Identity(n: nat): Pauli {
    Pauli(IdentityBits(n), 0)
  }

  function PauliX(n: nat, q: nat): Pauli {
    Pauli(Projective(Unit(n, q), Zeros(n)), 0)
  }

  function PauliZ(n: nat, q: nat): Pauli {
    Pauli(Projective(Zeros(n), Unit(n, q)), 0)
  }

  /** The power Z^v. */
  function ZPower(v: Bits): Pauli {
    Pauli(Projective(Zeros(|v|), v), 0)
  }

  function Sum(p: Projective, q: Projective): Projective {
    Projective(Xor(p.x, q.x), Xor(p.z, q.z))
  }

  function Half(b: bool): bv2 {
    if b then 2 else 0
  }

  /** The operator product p q: moving Z^z of `p` past X^x of `q` costs a sign for each common one. */
  function Mul(p: Pauli, q: Pauli): Pauli {
    Pauli(Sum(p.bits, q.bits), p.phase + q.phase + Half(Dot(p.z, q.x)))
  }

  /** Multiplication by i^k. */
  function Rotate(k: bv2, p: Pauli): Pauli {
    p.(phase := p.phase + k)
  }

  /** Multiplication by (-1)^b. */
  function Sign(b: bool, p: Pauli): Pauli {
    Rotate(Half(b), p)
  }

  /** Whether two operators anticommute; it does not depend on phases. */
  predicate AntiBits(p: Projective, q: Projective) {
    Dot(p.x, q.z) != Dot(p.z, q.x)
  }

  predicate Anti(p: Pauli, q: Pauli) {
    AntiBits(p.bits, q.bits)
  }

  predicate IsOrderTwo(p: Pauli) {
    Dot(p.x, p.z) != (p.phase & 1 == 0)
  }

  lemma SumComm(p: Projective, q: Projective)
    ensures Sum(p, q) == Sum(q, p)
  {
    XorComm(p.x, q.x);
    XorComm(p.z, q.z);
  }

  lemma MulBits(p: Pauli, q: Pauli)
    ensures Mul(p, q).bits == Sum(p.bits, q.bits)
  {
  }

  lemma MulAssoc(p: Pauli, q: Pauli, r: Pauli)
    ensures Mul(Mul(p, q), r) == Mul(p, Mul(q, r))
  {
    XorAssoc(p.x, q.x, r.x);
    XorAssoc(p.z, q.z, r.z);
    DotXor(p.z, q.z, r.x);
    DotXor(q.x, r.x, p.z);
  }

  lemma MulComm(p: Pauli, q: Pauli)
    ensures Mul(p, q) == Sign(Anti(p, q), Mul(q, p))
  {
    XorComm(p.x, q.x);
    XorComm(p.z, q.z);
    DotSym(q.z, p.x);
  }

  lemma MulIdentity(p: Pauli, n: nat)
    requires On(p, n)
    ensures Mul(p, Identity(n)) == p && Mul(Identity(n), p) == p
  {
    XorZeros(p.x, n);
    XorZeros(p.z, n);
    DotZero(p.z, Zeros(n));
    DotZero(p.x, Zeros(n));
  }

  lemma RotateMul(k: bv2, p: Pauli, q: Pauli)
    ensures Mul(Rotate(k, p), q) == Rotate(k, Mul(p, q))
    ensures Mul(p, Rotate(k, q)) == Rotate(k, Mul(p, q))
  {
  }

  lemma SignMul(a: bool, b: bool, p: Pauli, q: Pauli)
    ensures Mul(Sign(a, p), Sign(b, q)) == Sign(a != b, Mul(p, q))
  {
  }

  lemma SignFalse(p: Pauli)
    ensures Sign(false, p) == p
  {
  }

  lemma AntiSym(p: Pauli, q: Pauli)
    ensures Anti(p, q) == Anti(q, p)
  {
    DotSym(p.x, q.z);
    DotSym(p.z, q.x);
  }

  lemma AntiSelf(p: Pauli)
    ensures !Anti(p, p)
  {
    DotSym(p.x, p.z);
  }

  lemma AntiBitsSum(p: Projective, q: Projective, r: Projective)
    ensures AntiBits(Sum(p, q), r) == (AntiBits(p, r) != AntiBits(q, r))
    ensures AntiBits(r, Sum(p, q)) == (AntiBits(r, p) != AntiBits(r, q))
  {
    DotXor(p.x, q.x, r.z);
    DotXor(p.z, q.z, r.x);
  }

  lemma AntiMul(p: Pauli, q: Pauli, r: Pauli)
    ensures Anti(Mul(p, q), r) == (Anti(p, r) != Anti(q, r))
    ensures Anti(r, Mul(p, q)) == (Anti(r, p) != Anti(r, q))
  {
    AntiBitsSum(p.bits, q.bits, r.bits);
  }

  lemma Square(p: Pauli, n: nat)
    requires On(p, n)
    ensures Mul(p, p) == Sign(!IsOrderTwo(p), Identity(n))
  {
    XorSelf(p.x);
    XorSelf(p.z);
    DotSym(p.x, p.z);
  }
}
