/** What every opcode does, phases included: as an operator gate where it is one, and on every generator. */
module GateActions {
  import opened Bits
  import opened Paulis
  import opened Tableaus
  import opened Measurement
  import opened Gates
  import opened PauliGates

  function PauliY(n: nat, q: nat): Pauli {
    Pauli(Projective(Unit(n, q), Unit(n, q)), 1)
  }

  /** Y is i X Z, the phase of an operator counts from X before Z, and Z before X costs a sign. */
  lemma YIsProduct(n: nat, q: nat)
    requires q < n
    ensures PauliY(n, q) == Rotate(1, Mul(PauliX(n, q), PauliZ(n, q)))
    ensures PauliY(n, q) == Rotate(3, Mul(PauliZ(n, q), PauliX(n, q)))
    ensures On(PauliY(n, q), n) && IsOrderTwo(PauliY(n, q))
  {
    XorZeros(Unit(n, q), n);
    DotZero(Zeros(n), Zeros(n));
    DotUnit(Unit(n, q), n, q);
  }

  /** Every operator is its phase times its X factors times its Z factors. */
  lemma XThenZ(p: Pauli, n: nat)
    requires On(p, n)
    ensures p == Rotate(p.phase, Mul(Pauli(Projective(p.x, Zeros(n)), 0), ZPower(p.z)))
  {
    XorZeros(p.x, n);
    XorZeros(p.z, n);
    DotZero(Zeros(n), Zeros(n));
  }

  // ----- opcodes as gates given by operators

  lemma SignedRow(p: Pauli)
    ensures Sign(false, p) == p && Sign(true, p) == Rotate(2, p)
  {
    SignFalse(p);
  }

  /** X, Y and Z are the gates of the operators X, Y and Z. */
  lemma PauliOps(t: Tableau, q: nat, n: nat)
    requires |t.x| == |t.z| == n && q < n
    ensures LeftMul(t, X, [q]) == LeftMulPauli(t, PauliX(n, q))
    ensures LeftMul(t, Y, [q]) == LeftMulPauli(t, PauliY(n, q))
    ensures LeftMul(t, Z, [q]) == LeftMulPauli(t, PauliZ(n, q))
  {
    forall p ensures Sign(false, p) == p && Sign(true, p) == Rotate(2, p) {
      SignedRow(p);
    }
    hide Rotate, Sign;
  }

  lemma CommutingRows(p: Pauli, q: Pauli)
    ensures !Anti(p, q) ==> Mul(p, q) == Mul(q, p)
    ensures Anti(p, q) ==> Mul(p, q) == Rotate(2, Mul(q, p)) && Rotate(3, Mul(p, q)) == Rotate(1, Mul(q, p))
    ensures Anti(p, q) ==> Rotate(1, Mul(p, q)) == Rotate(3, Mul(q, p))
  {
    MulComm(p, q);
    SignFalse(Mul(q, p));
  }

  /** The preimage of a signed generator. */
  lemma SignedGenerator(t: Tableau, q: nat, s: bool, n: nat)
    requires Valid(t, n) && q < n
    ensures Rotate(1, Preimage(t, Sign(s, PauliX(n, q)))) == Rotate(if s then 3 else 1, t.x[q])
    ensures Rotate(1, Preimage(t, Sign(s, PauliZ(n, q)))) == Rotate(if s then 3 else 1, t.z[q])
  {
    PreimageGenerator(t, q, n);
    PreimageRotate(t, Half(s), PauliX(n, q));
    PreimageRotate(t, Half(s), PauliZ(n, q));
  }

  /** One row of each kind replaced. */
  function WithRows(t: Tableau, q: nat, x: Pauli, z: Pauli): Tableau
    requires q < |t.x| && q < |t.z|
  {
    Tableau(t.x[q := x], t.z[q := z])
  }

  /** The exponential of an operator on one qubit changes the rows of that qubit only. */
  lemma ExpOnOneQubit(t: Tableau, p: Pauli, q: nat, f: Pauli, n: nat)
    requires |t.x| == |t.z| == n && q < n && f == Rotate(1, Preimage(t, p))
    requires forall j: nat :: j != q ==> !At(p.x, j) && !At(p.z, j)
    ensures LeftMulPauliExp(t, p) == WithRows(t, q, if At(p.z, q) then Mul(t.x[q], f) else t.x[q],
                                              if At(p.x, q) then Mul(t.z[q], f) else t.z[q])
  {
    hide Mul, Preimage, Rotate;
  }

  lemma OneQubitBits(n: nat, q: nat, s: bool, j: nat)
    requires q < n
    ensures At(Sign(s, PauliX(n, q)).x, j) == (j == q) && !At(Sign(s, PauliX(n, q)).z, j)
    ensures At(Sign(s, PauliZ(n, q)).z, j) == (j == q) && !At(Sign(s, PauliZ(n, q)).x, j)
    ensures At(Sign(s, PauliY(n, q)).x, j) == (j == q) && At(Sign(s, PauliY(n, q)).z, j) == (j == q)
  {
  }

  lemma RootRows(t: Tableau, q: nat)
    requires |t.x| == |t.z| && q < |t.x|
    ensures LeftMul(t, SqrtX, [q]) == WithRows(t, q, t.x[q], Rotate(1, Mul(t.x[q], t.z[q])))
    ensures LeftMul(t, SqrtXInv, [q]) == WithRows(t, q, t.x[q], Rotate(3, Mul(t.x[q], t.z[q])))
    ensures LeftMul(t, SqrtZ, [q]) == WithRows(t, q, Rotate(1, Mul(t.z[q], t.x[q])), t.z[q])
    ensures LeftMul(t, SqrtZInv, [q]) == WithRows(t, q, Rotate(3, Mul(t.z[q], t.x[q])), t.z[q])
    ensures LeftMul(t, SqrtY, [q]) == WithRows(t, q, t.z[q], Rotate(2, t.x[q]))
    ensures LeftMul(t, SqrtYInv, [q]) == WithRows(t, q, Rotate(2, t.z[q]), t.x[q])
  {
    hide Mul, Rotate;
  }

  lemma PairOf(t: Tableau, q: nat, n: nat)
    requires Valid(t, n) && q < n
    ensures |t.x| == |t.z| == n && On(t.x[q], n) && On(t.z[q], n)
    ensures IsOrderTwo(t.x[q]) && IsOrderTwo(t.z[q]) && Anti(t.x[q], t.z[q]) && Anti(t.z[q], t.x[q])
  {
    AntiSym(t.x[q], t.z[q]);
  }

  lemma UnsignedOperators(n: nat, q: nat)
    ensures Sign(false, PauliX(n, q)) == PauliX(n, q)
    ensures Sign(false, PauliY(n, q)) == PauliY(n, q)
    ensures Sign(false, PauliZ(n, q)) == PauliZ(n, q)
  {
  }

  /** The exponentials of the signed X, Y and Z of one qubit. */
  lemma OneQubitExponentials(t: Tableau, q: nat, s: bool, n: nat)
    requires Valid(t, n) && q < n
    ensures |t.x| == |t.z| == n
    ensures var x, z := t.x[q], t.z[q];
      && LeftMulPauliExp(t, Sign(s, PauliX(n, q))) == WithRows(t, q, x, Rotate(if s then 1 else 3, Mul(x, z)))
      && LeftMulPauliExp(t, Sign(s, PauliZ(n, q))) == WithRows(t, q, Rotate(if s then 1 else 3, Mul(z, x)), z)
      && LeftMulPauliExp(t, Sign(s, PauliY(n, q)))
         == WithRows(t, q, Rotate(if s then 0 else 2, z), Rotate(if s then 2 else 0, x))
  {
    hide *;
    PairOf(t, q, n);
    var x, z := t.x[q], t.z[q];
    SignedGenerator(t, q, s, n);
    YFactor(t, q, s, n);
    forall j: nat
      ensures At(Sign(s, PauliX(n, q)).x, j) == (j == q) && !At(Sign(s, PauliX(n, q)).z, j)
      ensures At(Sign(s, PauliZ(n, q)).z, j) == (j == q) && !At(Sign(s, PauliZ(n, q)).x, j)
      ensures At(Sign(s, PauliY(n, q)).x, j) == (j == q) && At(Sign(s, PauliY(n, q)).z, j) == (j == q)
    {
      OneQubitBits(n, q, s, j);
    }
    var k: bv2 := if s then 3 else 1;
    ExpOnOneQubit(t, Sign(s, PauliX(n, q)), q, Rotate(k, x), n);
    ExpOnOneQubit(t, Sign(s, PauliZ(n, q)), q, Rotate(k, z), n);
    ExpOnOneQubit(t, Sign(s, PauliY(n, q)), q, Rotate(if s then 0 else 2, Mul(x, z)), n);
    RotateMul(k, z, x);
    RotateMul(k, x, z);
    CommutingRows(x, z);
    CommutingRows(z, x);
    PairTimesProduct(x, z, n);
    RotateMul(if s then 0 else 2, x, Mul(x, z));
    RotateMul(if s then 0 else 2, z, Mul(x, z));
    RotateTwice(if s then 0 else 2, 2, x);
  }

  lemma RotateTwice(j: bv2, k: bv2, p: Pauli)
    ensures Rotate(j, Rotate(k, p)) == Rotate(j + k, p) && Rotate(0, p) == p
  {
  }

  /** The square roots of X, Y and Z are the exponentials of -X, -Y and -Z, their inverses those of X, Y and Z. */
  lemma RootOps(t: Tableau, q: nat, n: nat)
    requires Valid(t, n) && q < n
    ensures |t.x| == |t.z| == n
    ensures LeftMul(t, SqrtX, [q]) == LeftMulPauliExp(t, Sign(true, PauliX(n, q)))
    ensures LeftMul(t, SqrtXInv, [q]) == LeftMulPauliExp(t, PauliX(n, q))
    ensures LeftMul(t, SqrtY, [q]) == LeftMulPauliExp(t, Sign(true, PauliY(n, q)))
    ensures LeftMul(t, SqrtYInv, [q]) == LeftMulPauliExp(t, PauliY(n, q))
    ensures LeftMul(t, SqrtZ, [q]) == LeftMulPauliExp(t, Sign(true, PauliZ(n, q)))
    ensures LeftMul(t, SqrtZInv, [q]) == LeftMulPauliExp(t, PauliZ(n, q))
  {
    hide *;
    PairOf(t, q, n);
    RootRows(t, q);
    UnsignedOperators(n, q);
    OneQubitExponentials(t, q, true, n);
    OneQubitExponentials(t, q, false, n);
    RotateTwice(0, 0, t.x[q]);
    RotateTwice(0, 0, t.z[q]);
  }

  /** The factor with which the exponential of Y, or of -Y, multiplies. */
  lemma YFactor(t: Tableau, q: nat, s: bool, n: nat)
    requires Valid(t, n) && q < n
    ensures Rotate(1, Preimage(t, Sign(s, PauliY(n, q)))) == Rotate(if s then 0 else 2, Mul(t.x[q], t.z[q]))
  {
    YIsProduct(n, q);
    UnitsOn(n, q);
    PreimageMul(t, PauliX(n, q), PauliZ(n, q), n);
    PreimageGenerator(t, q, n);
    PreimageRotate(t, 1 + Half(s), Mul(PauliX(n, q), PauliZ(n, q)));
    hide Mul, Preimage;
  }

  /** Multiplying an anticommuting pair by its product exchanges the two, up to a sign for one of them. */
  lemma PairTimesProduct(x: Pauli, z: Pauli, n: nat)
    requires On(x, n) && On(z, n) && IsOrderTwo(x) && IsOrderTwo(z) && Anti(x, z)
    ensures Mul(x, Mul(x, z)) == z && Mul(z, Mul(x, z)) == Rotate(2, x)
  {
    MulAssoc(x, x, z);
    MulAssoc(z, x, z);
    MulAssoc(x, z, z);
    CommutingRows(x, z);
    CommutingRows(z, x);
    AntiSym(x, z);
    RotateMul(2, Mul(x, z), z);
    Square(x, n);
    Square(z, n);
    SignFalse(Identity(n));
    MulIdentity(x, n);
    MulIdentity(z, n);
    hide Mul, Anti, IsOrderTwo, Identity, On;
  }

  /** A controlled Pauli whose control is a Z generator and whose target is a generator of another qubit. */
  lemma ControlledGenerators(t: Tableau, c: nat, d: nat, n: nat)
    requires |t.x| == |t.z| == n && c < n && d < n && c != d
    requires Preimage(t, PauliX(n, d)) == t.x[d] && Preimage(t, PauliZ(n, d)) == t.z[d]
    requires Preimage(t, PauliZ(n, c)) == t.z[c]
    ensures LeftMulControlledPauli(t, PauliZ(n, c), PauliX(n, d))
         == Tableau(t.x[c := Mul(t.x[c], t.x[d])], t.z[d := Mul(t.z[c], t.z[d])])
    ensures LeftMulControlledPauli(t, PauliZ(n, c), PauliZ(n, d))
         == t.(x := t.x[c := Mul(t.x[c], t.z[d])][d := Mul(t.z[c], t.x[d])])
  {
    forall j: nat
      ensures At(PauliX(n, d).x, j) == (j == d) && !At(PauliX(n, d).z, j)
      ensures At(PauliZ(n, d).z, j) == (j == d) && !At(PauliZ(n, d).x, j)
      ensures At(PauliZ(n, c).z, j) == (j == c) && !At(PauliZ(n, c).x, j)
    {
    }
    hide Mul, Preimage, PauliX, PauliZ, At;
  }

  lemma PairRows(t: Tableau, c: nat, d: nat)
    requires |t.x| == |t.z| && c < |t.x| && d < |t.x| && c != d
    ensures LeftMul(t, ControlledX, [c, d]) == Tableau(t.x[c := Mul(t.x[d], t.x[c])], t.z[d := Mul(t.z[c], t.z[d])])
    ensures LeftMul(t, ControlledZ, [c, d])
         == t.(x := t.x[c := Mul(t.z[d], t.x[c])][d := Mul(t.z[c], t.x[d])])
  {
    hide Mul;
  }

  lemma RowsOfTwoCommute(t: Tableau, c: nat, d: nat, n: nat)
    requires Valid(t, n) && c < n && d < n && c != d
    ensures |t.x| == |t.z| == n
    ensures Mul(t.x[d], t.x[c]) == Mul(t.x[c], t.x[d]) && Mul(t.z[d], t.x[c]) == Mul(t.x[c], t.z[d])
  {
    CommutingRows(t.x[d], t.x[c]);
    CommutingRows(t.z[d], t.x[c]);
    AntiSym(t.z[d], t.x[c]);
    hide Mul, Anti, IsOrderTwo, On;
  }

  /** Controlled X and controlled Z are the controlled Paulis (Z, X) and (Z, Z). */
  lemma ControlledOps(t: Tableau, c: nat, d: nat, n: nat)
    requires Valid(t, n) && c < n && d < n && c != d
    ensures |t.x| == |t.z| == n
    ensures LeftMul(t, ControlledX, [c, d]) == LeftMulControlledPauli(t, PauliZ(n, c), PauliX(n, d))
    ensures LeftMul(t, ControlledZ, [c, d]) == LeftMulControlledPauli(t, PauliZ(n, c), PauliZ(n, d))
  {
    hide *;
    PairOf(t, c, n);
    ValidOn(t, n);
    PreimageGenerator(t, c, n);
    PreimageGenerator(t, d, n);
    ControlledGenerators(t, c, d, n);
    RowsOfTwoCommute(t, c, d, n);
    PairRows(t, c, d);
  }

  // ----- what the opcodes do to the generators

  /** The gate fixes the generators of every qubit outside its support. */
  predicate Fixes(g: Tableau, qubits: seq<nat>, n: nat)
    requires |g.x| == |g.z| == n
  {
    forall q: nat :: q < n && q !in qubits ==> g.x[q] == PauliX(n, q) && g.z[q] == PauliZ(n, q)
  }

  /** The preimages of X and Z under an opcode on one qubit. */
  function OneQubitImages(op: UnitaryOp, n: nat, q: nat): (Pauli, Pauli)
    requires op != I && Arity(op) == 1
  {
    var x, y, z := PauliX(n, q), PauliY(n, q), PauliZ(n, q);
    match op
    case X => (x, Sign(true, z))
    case Y => (Sign(true, x), Sign(true, z))
    case Z => (Sign(true, x), z)
    case SqrtX => (x, y)
    case SqrtXInv => (x, Sign(true, y))
    case SqrtY => (z, Sign(true, x))
    case SqrtYInv => (Sign(true, z), x)
    case SqrtZ => (Sign(true, y), z)
    case SqrtZInv => (y, z)
    case Hadamard => (z, x)
  }

  lemma OneQubitActs(op: UnitaryOp, q: nat, n: nat)
    requires op != I && Arity(op) == 1 && q < n
    ensures Accepts(op, [q], n)
    ensures var g := GateTableau(op, [q], n);
      |g.x| == |g.z| == n && (g.x[q], g.z[q]) == OneQubitImages(op, n, q) && Fixes(g, [q], n)
  {
    YIsProduct(n, q);
    CommutingRows(PauliX(n, q), PauliZ(n, q));
    CommutingRows(PauliZ(n, q), PauliX(n, q));
    hide Mul, PauliX, PauliZ, PauliY;
  }

  /** The preimages of X and Z on the first qubit, then of X and Z on the second one. */
  function TwoQubitImages(op: UnitaryOp, n: nat, c: nat, d: nat): seq<Pauli>
    requires Arity(op) == 2
  {
    match op
    case Swap => [PauliX(n, d), PauliZ(n, d), PauliX(n, c), PauliZ(n, c)]
    case ControlledX =>
      [Mul(PauliX(n, c), PauliX(n, d)), PauliZ(n, c), PauliX(n, d), Mul(PauliZ(n, c), PauliZ(n, d))]
    case ControlledZ =>
      [Mul(PauliX(n, c), PauliZ(n, d)), PauliZ(n, c), Mul(PauliZ(n, c), PauliX(n, d)), PauliZ(n, d)]
    case PrepareBell =>
      [Mul(PauliZ(n, c), PauliX(n, d)), PauliX(n, c), PauliX(n, d), Mul(PauliX(n, c), PauliZ(n, d))]
  }

  /** The rows as the update writes them. */
  function TwoQubitRows(op: UnitaryOp, n: nat, c: nat, d: nat): seq<Pauli>
    requires Arity(op) == 2
  {
    match op
    case Swap => [PauliX(n, d), PauliZ(n, d), PauliX(n, c), PauliZ(n, c)]
    case ControlledX =>
      [Mul(PauliX(n, d), PauliX(n, c)), PauliZ(n, c), PauliX(n, d), Mul(PauliZ(n, c), PauliZ(n, d))]
    case ControlledZ =>
      [Mul(PauliZ(n, d), PauliX(n, c)), PauliZ(n, c), Mul(PauliZ(n, c), PauliX(n, d)), PauliZ(n, d)]
    case PrepareBell =>
      [Mul(PauliX(n, d), PauliZ(n, c)), PauliX(n, c), PauliX(n, d), Mul(PauliX(n, c), PauliZ(n, d))]
  }

  lemma TwoQubitWrites(op: UnitaryOp, c: nat, d: nat, n: nat)
    requires Arity(op) == 2 && c < n && d < n && c != d
    ensures Accepts(op, [c, d], n)
    ensures var g := GateTableau(op, [c, d], n);
      |g.x| == |g.z| == n && [g.x[c], g.z[c], g.x[d], g.z[d]] == TwoQubitRows(op, n, c, d) && Fixes(g, [c, d], n)
  {
    hide Mul, PauliX, PauliZ;
  }

  lemma TwoQubitActs(op: UnitaryOp, c: nat, d: nat, n: nat)
    requires Arity(op) == 2 && c < n && d < n && c != d
    ensures Accepts(op, [c, d], n)
    ensures var g := GateTableau(op, [c, d], n);
      |g.x| == |g.z| == n && [g.x[c], g.z[c], g.x[d], g.z[d]] == TwoQubitImages(op, n, c, d) && Fixes(g, [c, d], n)
  {
    TwoQubitWrites(op, c, d, n);
    hide Mul, PauliX, PauliZ, Anti, GateTableau, Fixes, Accepts;
    UnitsAnti(n, c, d);
    UnitsAnti(n, d, c);
    CommutingRows(PauliX(n, d), PauliX(n, c));
    CommutingRows(PauliZ(n, d), PauliX(n, c));
    CommutingRows(PauliX(n, d), PauliZ(n, c));
    AntiSym(PauliZ(n, d), PauliX(n, c));
    AntiSym(PauliX(n, d), PauliZ(n, c));
  }

  lemma IdentityActs(qubits: seq<nat>, n: nat)
    ensures GateTableau(I, qubits, n) == IdentityTableau(n)
  {
  }

  /** On any encoder, the opcode sends an operator through these images first. */
  lemma OpPreimage(t: Tableau, op: UnitaryOp, qubits: seq<nat>, p: Pauli, n: nat)
    requires Valid(t, n) && Accepts(op, qubits, n) && On(p, n)
    ensures |t.x| == |t.z| == n && Valid(GateTableau(op, qubits, n), n)
    ensures Preimage(LeftMul(t, op, qubits), p) == Preimage(t, Preimage(GateTableau(op, qubits, n), p))
  {
    GateStep(t, op, qubits, n);
    Sizes(t, n);
    ComposePreimage(t, GateTableau(op, qubits, n), n);
    hide Preimage, Valid, GateTableau, LeftMul;
  }

  lemma TwiceIsNothing(p: Pauli, q: Pauli, n: nat)
    requires On(p, n) && On(q, n) && IsOrderTwo(q)
    ensures Mul(Mul(p, q), q) == p && Mul(q, Mul(q, p)) == p
  {
    MulAssoc(p, q, q);
    MulAssoc(q, q, p);
    Square(q, n);
    SignFalse(Identity(n));
    MulIdentity(p, n);
    hide Mul, Identity, IsOrderTwo;
  }

  /** From |00> the Bell preparation makes the state stabilized by +XX and +ZZ. */
  lemma BellState(t: Tableau, c: nat, d: nat, n: nat)
    requires Valid(t, n) && c < n && d < n && c != d
    requires IsStabilizer(t, PauliZ(n, c)) && IsStabilizer(t, PauliZ(n, d))
    ensures |t.x| == |t.z| == n
    ensures var u := LeftMul(t, PrepareBell, [c, d]);
      IsStabilizer(u, Mul(PauliX(n, c), PauliX(n, d))) && IsStabilizer(u, Mul(PauliZ(n, c), PauliZ(n, d)))
  {
    var xc, xd, zc, zd := PauliX(n, c), PauliX(n, d), PauliZ(n, c), PauliZ(n, d);
    var g := GateTableau(PrepareBell, [c, d], n);
    UnitsOn(n, c);
    UnitsOn(n, d);
    UnitsAnti(n, c, c);
    UnitsAnti(n, d, d);
    OnRules(n);
    TwoQubitActs(PrepareBell, c, d, n);
    OpPreimage(t, PrepareBell, [c, d], Mul(xc, xd), n);
    OpPreimage(t, PrepareBell, [c, d], Mul(zc, zd), n);
    PreimageMul(g, xc, xd, n);
    PreimageMul(g, zc, zd, n);
    PreimageGenerator(g, c, n);
    PreimageGenerator(g, d, n);
    TwiceIsNothing(zc, xd, n);
    TwiceIsNothing(zd, xc, n);
    hide Preimage, Mul, LeftMul, GateTableau, Valid, On, Anti, IsOrderTwo, PauliX, PauliZ, Fixes;
    assert TwoQubitImages(PrepareBell, n, c, d)[0] == g.x[c] == Mul(zc, xd);
    assert TwoQubitImages(PrepareBell, n, c, d)[1] == g.z[c] == xc;
    assert TwoQubitImages(PrepareBell, n, c, d)[2] == g.x[d] == xd;
    assert TwoQubitImages(PrepareBell, n, c, d)[3] == g.z[d] == Mul(xc, zd);
  }
}
