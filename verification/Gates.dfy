/** Clifford gates, as updates of the stored preimages. */
module Gates {
  import opened Bits
  import opened Paulis
  import opened Tableaus
  import opened Measurement

  datatype UnitaryOp =
    | I | X | Y | Z
    | SqrtX | SqrtXInv | SqrtY | SqrtYInv | SqrtZ | SqrtZInv
    | Hadamard
    | Swap | ControlledX | ControlledZ | PrepareBell

  function Arity(op: UnitaryOp): nat {
    match op
    case Swap | ControlledX | ControlledZ | PrepareBell => 2
    case _ => 1
  }

  /** The qubits of a gate among themselves. */
  function LocalQubits(op: UnitaryOp): seq<nat> {
    if Arity(op) == 2 then [0, 1] else [0]
  }

  /** The support a gate accepts: the right number of qubits, in range and distinct. The identity accepts any. */
  predicate Accepts(op: UnitaryOp, qubits: seq<nat>, n: nat) {
    op != I ==>
      && |qubits| == Arity(op)
      && qubits[0] < n
      && (Arity(op) == 2 ==> qubits[1] < n && qubits[0] != qubits[1])
  }

  // ----- the primitive updates

  function LeftMulX(t: Tableau, q: nat): Tableau
    requires q < |t.z|
  {
    t.(z := t.z[q := Rotate(2, t.z[q])])
  }

  function LeftMulZ(t: Tableau, q: nat): Tableau
    requires q < |t.x|
  {
    t.(x := t.x[q := Rotate(2, t.x[q])])
  }

  function LeftMulHadamard(t: Tableau, q: nat): Tableau
    requires q < |t.x| && q < |t.z|
  {
    Tableau(t.x[q := t.z[q]], t.z[q := t.x[q]])
  }

  function LeftMulRootZ(t: Tableau, q: nat, k: bv2): Tableau
    requires q < |t.x| && q < |t.z|
  {
    t.(x := t.x[q := Rotate(k, Mul(t.z[q], t.x[q]))])
  }

  function LeftMulRootX(t: Tableau, q: nat, k: bv2): Tableau
    requires q < |t.x| && q < |t.z|
  {
    t.(z := t.z[q := Rotate(k, Mul(t.x[q], t.z[q]))])
  }

  function LeftMulCX(t: Tableau, c: nat, d: nat): Tableau
    requires c < |t.x| && c < |t.z| && d < |t.x| && d < |t.z|
  {
    Tableau(t.x[c := Mul(t.x[d], t.x[c])], t.z[d := Mul(t.z[c], t.z[d])])
  }

  function LeftMulCZ(t: Tableau, c: nat, d: nat): Tableau
    requires c != d && c < |t.x| && c < |t.z| && d < |t.x| && d < |t.z|
  {
    t.(x := t.x[c := Mul(t.z[d], t.x[c])][d := Mul(t.z[c], t.x[d])])
  }

  function LeftMulSwap(t: Tableau, c: nat, d: nat): Tableau
    requires c < |t.x| && c < |t.z| && d < |t.x| && d < |t.z|
  {
    Tableau(t.x[c := t.x[d]][d := t.x[c]], t.z[c := t.z[d]][d := t.z[c]])
  }

  function LeftMul(t: Tableau, op: UnitaryOp, qubits: seq<nat>): Tableau
    requires |t.x| == |t.z| && Accepts(op, qubits, |t.x|)
  {
    match op
    case I => t
    case X => LeftMulX(t, qubits[0])
    case Y => LeftMulX(LeftMulZ(t, qubits[0]), qubits[0])
    case Z => LeftMulZ(t, qubits[0])
    case SqrtX => LeftMulRootX(t, qubits[0], 1)
    case SqrtXInv => LeftMulRootX(t, qubits[0], 3)
    case SqrtY => LeftMulHadamard(LeftMulZ(t, qubits[0]), qubits[0])
    case SqrtYInv => LeftMulZ(LeftMulHadamard(t, qubits[0]), qubits[0])
    case SqrtZ => LeftMulRootZ(t, qubits[0], 1)
    case SqrtZInv => LeftMulRootZ(t, qubits[0], 3)
    case Hadamard => LeftMulHadamard(t, qubits[0])
    case Swap => LeftMulSwap(t, qubits[0], qubits[1])
    case ControlledX => LeftMulCX(t, qubits[0], qubits[1])
    case ControlledZ => LeftMulCZ(t, qubits[0], qubits[1])
    case PrepareBell => LeftMulCX(LeftMulHadamard(t, qubits[0]), qubits[0], qubits[1])
  }

  /** The gate itself, as the encoder it makes out of the identity. */
  function GateTableau(op: UnitaryOp, qubits: seq<nat>, n: nat): Tableau
    requires Accepts(op, qubits, n)
  {
    LeftMul(IdentityTableau(n), op, qubits)
  }

  // ----- algebra of rows

  lemma AntiRules()
    ensures forall p, q, r :: Anti(Mul(p, q), r) == (Anti(p, r) != Anti(q, r))
    ensures forall p, q, r :: Anti(r, Mul(p, q)) == (Anti(r, p) != Anti(r, q))
    ensures forall k, p, q :: Anti(Rotate(k, p), q) == Anti(p, q) && Anti(q, Rotate(k, p)) == Anti(q, p)
  {
    forall p, q, r
      ensures Anti(Mul(p, q), r) == (Anti(p, r) != Anti(q, r))
      ensures Anti(r, Mul(p, q)) == (Anti(r, p) != Anti(r, q))
    {
      AntiMul(p, q, r);
    }
  }

  lemma OrderTwoRules(p: Pauli, q: Pauli)
    ensures IsOrderTwo(Mul(p, q)) == ((IsOrderTwo(p) == IsOrderTwo(q)) != Anti(p, q))
    ensures IsOrderTwo(Rotate(1, p)) == !IsOrderTwo(p) && IsOrderTwo(Rotate(3, p)) == !IsOrderTwo(p)
    ensures IsOrderTwo(Rotate(2, p)) == IsOrderTwo(p)
  {
    DotXor(p.x, q.x, Xor(p.z, q.z));
    DotXor(p.z, q.z, p.x);
    DotXor(p.z, q.z, q.x);
    DotSym(p.z, q.x);
  }

  lemma OrderTwoForAll()
    ensures forall p, q :: IsOrderTwo(Mul(p, q)) == ((IsOrderTwo(p) == IsOrderTwo(q)) != Anti(p, q))
    ensures forall p :: IsOrderTwo(Rotate(1, p)) == !IsOrderTwo(p) && IsOrderTwo(Rotate(3, p)) == !IsOrderTwo(p)
    ensures forall p :: IsOrderTwo(Rotate(2, p)) == IsOrderTwo(p)
  {
    forall p, q ensures IsOrderTwo(Mul(p, q)) == ((IsOrderTwo(p) == IsOrderTwo(q)) != Anti(p, q)) {
      OrderTwoRules(p, q);
    }
    forall p
      ensures IsOrderTwo(Rotate(1, p)) == !IsOrderTwo(p) && IsOrderTwo(Rotate(3, p)) == !IsOrderTwo(p)
      ensures IsOrderTwo(Rotate(2, p)) == IsOrderTwo(p)
    {
      OrderTwoRules(p, p);
    }
  }

  lemma OnRules(n: nat)
    ensures forall p, q :: On(p, n) && On(q, n) ==> On(Mul(p, q), n)
    ensures forall k, p :: On(p, n) ==> On(Rotate(k, p), n)
  {
  }

  lemma AntiSymRule()
    ensures forall p, q :: Anti(p, q) == Anti(q, p)
    ensures forall p :: !Anti(p, p)
  {
    forall p, q ensures Anti(p, q) == Anti(q, p) {
      AntiSym(p, q);
    }
    forall p ensures !Anti(p, p) {
      AntiSelf(p);
    }
  }

  /** What a valid tableau says about generators and products of two of them. */
  lemma RowRules(t: Tableau, n: nat)
    requires Valid(t, n)
    ensures forall i :: 0 <= i < n ==> Preimage(t, PauliX(n, i)) == t.x[i] && Preimage(t, PauliZ(n, i)) == t.z[i]
    ensures forall p, q :: On(p, n) && On(q, n) ==> Preimage(t, Mul(p, q)) == Mul(Preimage(t, p), Preimage(t, q))
    ensures forall k, p :: Preimage(t, Rotate(k, p)) == Rotate(k, Preimage(t, p))
    ensures forall i :: 0 <= i < n ==> On(PauliX(n, i), n) && On(PauliZ(n, i), n)
  {
    forall i | 0 <= i < n ensures Preimage(t, PauliX(n, i)) == t.x[i] && Preimage(t, PauliZ(n, i)) == t.z[i] {
      PreimageGenerator(t, i, n);
    }
    forall p, q | On(p, n) && On(q, n)
      ensures Preimage(t, Mul(p, q)) == Mul(Preimage(t, p), Preimage(t, q))
    {
      PreimageMul(t, p, q, n);
    }
    forall k, p ensures Preimage(t, Rotate(k, p)) == Rotate(k, Preimage(t, p)) {
      PreimageRotate(t, k, p);
    }
  }

  // ----- primitive gates keep validity and are compositions with their own tableau

  lemma SignValid(t: Tableau, q: nat, n: nat)
    requires Valid(t, n) && q < n
    ensures Valid(LeftMulX(t, q), n) && Valid(LeftMulZ(t, q), n) && Valid(LeftMulHadamard(t, q), n)
  {
    AntiRules();
    AntiSymRule();
    OrderTwoForAll();
    OnRules(n);
    hide Mul, Anti, IsOrderTwo, On, Rotate;
  }

  lemma RootValid(t: Tableau, q: nat, k: bv2, n: nat)
    requires Valid(t, n) && q < n && (k == 1 || k == 3)
    ensures Valid(LeftMulRootZ(t, q, k), n) && Valid(LeftMulRootX(t, q, k), n)
  {
    AntiRules();
    AntiSymRule();
    OrderTwoForAll();
    OnRules(n);
    hide Mul, Anti, IsOrderTwo, On, Rotate;
  }

  lemma PairValid(t: Tableau, c: nat, d: nat, n: nat)
    requires Valid(t, n) && c < n && d < n && c != d
    ensures Valid(LeftMulCX(t, c, d), n) && Valid(LeftMulCZ(t, c, d), n) && Valid(LeftMulSwap(t, c, d), n)
  {
    AntiRules();
    AntiSymRule();
    OrderTwoForAll();
    OnRules(n);
    hide Mul, Anti, IsOrderTwo, On, Rotate;
  }

  lemma SignComposed(t: Tableau, q: nat, n: nat)
    requires Valid(t, n) && q < n
    ensures LeftMulX(t, q) == Compose(t, LeftMulX(IdentityTableau(n), q))
    ensures LeftMulZ(t, q) == Compose(t, LeftMulZ(IdentityTableau(n), q))
    ensures LeftMulHadamard(t, q) == Compose(t, LeftMulHadamard(IdentityTableau(n), q))
  {
    RowRules(t, n);
    hide Mul, On, Rotate, Preimage, PauliX, PauliZ;
  }

  /** The preimages of the generators are the rows of the tableau. */
  ghost predicate HasRows(t: Tableau, n: nat) {
    && |t.x| == |t.z| == n
    && forall i: nat :: i < n ==> Preimage(t, PauliX(n, i)) == t.x[i] && Preimage(t, PauliZ(n, i)) == t.z[i]
  }

  lemma ValidHasRows(t: Tableau, n: nat)
    requires Valid(t, n)
    ensures HasRows(t, n)
  {
    RowRules(t, n);
    Sizes(t, n);
    hide Preimage, PauliX, PauliZ, Valid;
  }

  lemma RootRowsComposed(t: Tableau, q: nat, k: bv2, n: nat)
    requires HasRows(t, n) && q < n
    requires Preimage(t, Rotate(k, Mul(PauliZ(n, q), PauliX(n, q)))) == Rotate(k, Mul(t.z[q], t.x[q]))
    requires Preimage(t, Rotate(k, Mul(PauliX(n, q), PauliZ(n, q)))) == Rotate(k, Mul(t.x[q], t.z[q]))
    ensures LeftMulRootZ(t, q, k) == Compose(t, LeftMulRootZ(IdentityTableau(n), q, k))
    ensures LeftMulRootX(t, q, k) == Compose(t, LeftMulRootX(IdentityTableau(n), q, k))
  {
    hide Mul, Rotate, Preimage, PauliX, PauliZ;
  }

  lemma RootComposed(t: Tableau, q: nat, k: bv2, n: nat)
    requires Valid(t, n) && q < n
    ensures |t.x| == |t.z| == n && |IdentityTableau(n).x| == |IdentityTableau(n).z| == n
    ensures LeftMulRootZ(t, q, k) == Compose(t, LeftMulRootZ(IdentityTableau(n), q, k))
    ensures LeftMulRootX(t, q, k) == Compose(t, LeftMulRootX(IdentityTableau(n), q, k))
  {
    hide *;
    Sizes(t, n);
    ValidHasRows(t, n);
    ProductOfRows(t, k, q, q, n);
    RootRowsComposed(t, q, k, n);
  }

  /** The preimages of products of two generators. */
  lemma ProductOfRows(t: Tableau, k: bv2, i: nat, j: nat, n: nat)
    requires Valid(t, n) && i < n && j < n
    ensures |t.x| == |t.z| == n
    ensures Preimage(t, Rotate(k, Mul(PauliX(n, i), PauliZ(n, j)))) == Rotate(k, Mul(t.x[i], t.z[j]))
    ensures Preimage(t, Rotate(k, Mul(PauliZ(n, i), PauliX(n, j)))) == Rotate(k, Mul(t.z[i], t.x[j]))
    ensures Preimage(t, Mul(PauliX(n, i), PauliX(n, j))) == Mul(t.x[i], t.x[j])
    ensures Preimage(t, Mul(PauliZ(n, i), PauliZ(n, j))) == Mul(t.z[i], t.z[j])
    ensures Preimage(t, Mul(PauliZ(n, i), PauliX(n, j))) == Mul(t.z[i], t.x[j])
  {
    hide Mul, Rotate, Preimage, PauliX, PauliZ, On, IsOrderTwo, Anti;
    UnitsOn(n, i);
    UnitsOn(n, j);
    PreimageGenerator(t, i, n);
    PreimageGenerator(t, j, n);
    PreimageMul(t, PauliX(n, i), PauliZ(n, j), n);
    PreimageMul(t, PauliZ(n, i), PauliX(n, j), n);
    PreimageMul(t, PauliX(n, i), PauliX(n, j), n);
    PreimageMul(t, PauliZ(n, i), PauliZ(n, j), n);
    PreimageRotate(t, k, Mul(PauliX(n, i), PauliZ(n, j)));
    PreimageRotate(t, k, Mul(PauliZ(n, i), PauliX(n, j)));
  }

  lemma CXRowsComposed(t: Tableau, c: nat, d: nat, n: nat)
    requires HasRows(t, n) && c < n && d < n && c != d
    requires Preimage(t, Mul(PauliX(n, d), PauliX(n, c))) == Mul(t.x[d], t.x[c])
    requires Preimage(t, Mul(PauliZ(n, c), PauliZ(n, d))) == Mul(t.z[c], t.z[d])
    ensures LeftMulCX(t, c, d) == Compose(t, LeftMulCX(IdentityTableau(n), c, d))
  {
    hide Mul, Preimage, PauliX, PauliZ;
  }

  lemma CZRowsComposed(t: Tableau, c: nat, d: nat, n: nat)
    requires HasRows(t, n) && c < n && d < n && c != d
    requires Preimage(t, Mul(PauliZ(n, d), PauliX(n, c))) == Mul(t.z[d], t.x[c])
    requires Preimage(t, Mul(PauliZ(n, c), PauliX(n, d))) == Mul(t.z[c], t.x[d])
    ensures LeftMulCZ(t, c, d) == Compose(t, LeftMulCZ(IdentityTableau(n), c, d))
  {
    hide Mul, Preimage, PauliX, PauliZ;
  }

  lemma ControlledComposed(t: Tableau, c: nat, d: nat, n: nat)
    requires Valid(t, n) && c < n && d < n && c != d
    ensures |t.x| == |t.z| == n && |IdentityTableau(n).x| == |IdentityTableau(n).z| == n
    ensures LeftMulCX(t, c, d) == Compose(t, LeftMulCX(IdentityTableau(n), c, d))
    ensures LeftMulCZ(t, c, d) == Compose(t, LeftMulCZ(IdentityTableau(n), c, d))
  {
    hide *;
    Sizes(t, n);
    ValidHasRows(t, n);
    ProductOfRows(t, 0, c, d, n);
    ProductOfRows(t, 0, d, c, n);
    CXRowsComposed(t, c, d, n);
    CZRowsComposed(t, c, d, n);
  }

  lemma SwapComposed(t: Tableau, c: nat, d: nat, n: nat)
    requires Valid(t, n) && c < n && d < n && c != d
    ensures LeftMulSwap(t, c, d) == Compose(t, LeftMulSwap(IdentityTableau(n), c, d))
  {
    RowRules(t, n);
    hide Mul, On, Rotate, Preimage, PauliX, PauliZ;
  }

  // ----- gates as steps

  /** Going from `t` to `u` is applying the gate with tableau `g`, and everything stays valid. */
  ghost predicate Step(t: Tableau, u: Tableau, g: Tableau, n: nat) {
    Valid(t, n) && Valid(g, n) && Valid(u, n) && u == Compose(t, g)
  }

  lemma StepSizes(t: Tableau, u: Tableau, g: Tableau, n: nat)
    requires Step(t, u, g, n)
    ensures |t.x| == |t.z| == n && |u.x| == |u.z| == n && |g.x| == |g.z| == n
    ensures Valid(u, n) && Valid(g, n)
  {
  }

  /** Two gates in a row are one step with the composed gate tableau. */
  lemma StepTwice(t: Tableau, u: Tableau, w: Tableau, g: Tableau, h: Tableau, gh: Tableau, n: nat)
    requires Step(t, u, g, n) && Step(u, w, h, n) && Step(g, gh, h, n)
    ensures Step(t, w, gh, n)
  {
    ComposePreimage(t, g, n);
    hide Preimage, Anti, IsOrderTwo, On;
  }

  lemma Sizes(t: Tableau, n: nat)
    requires Valid(t, n)
    ensures |t.x| == |t.z| == n && |IdentityTableau(n).x| == |IdentityTableau(n).z| == n
  {
  }

  lemma StepX(t: Tableau, q: nat, n: nat)
    requires Valid(t, n) && q < n
    ensures Step(t, LeftMulX(t, q), LeftMulX(IdentityTableau(n), q), n)
  {
    IdentityTableauValid(n);
    SignValid(t, q, n);
    SignValid(IdentityTableau(n), q, n);
    SignComposed(t, q, n);
    hide Valid, Compose;
  }

  lemma StepZ(t: Tableau, q: nat, n: nat)
    requires Valid(t, n) && q < n
    ensures Step(t, LeftMulZ(t, q), LeftMulZ(IdentityTableau(n), q), n)
  {
    IdentityTableauValid(n);
    SignValid(t, q, n);
    SignValid(IdentityTableau(n), q, n);
    SignComposed(t, q, n);
    hide Valid, Compose;
  }

  lemma StepHadamard(t: Tableau, q: nat, n: nat)
    requires Valid(t, n) && q < n
    ensures Step(t, LeftMulHadamard(t, q), LeftMulHadamard(IdentityTableau(n), q), n)
  {
    IdentityTableauValid(n);
    SignValid(t, q, n);
    SignValid(IdentityTableau(n), q, n);
    SignComposed(t, q, n);
    hide Valid, Compose;
  }

  lemma StepRoot(t: Tableau, q: nat, k: bv2, n: nat)
    requires Valid(t, n) && q < n && (k == 1 || k == 3)
    ensures Step(t, LeftMulRootX(t, q, k), LeftMulRootX(IdentityTableau(n), q, k), n)
    ensures Step(t, LeftMulRootZ(t, q, k), LeftMulRootZ(IdentityTableau(n), q, k), n)
  {
    IdentityTableauValid(n);
    RootValid(t, q, k, n);
    RootValid(IdentityTableau(n), q, k, n);
    RootComposed(t, q, k, n);
    hide Valid, Compose;
  }

  lemma StepPair(t: Tableau, c: nat, d: nat, n: nat)
    requires Valid(t, n) && c < n && d < n && c != d
    ensures Step(t, LeftMulCX(t, c, d), LeftMulCX(IdentityTableau(n), c, d), n)
    ensures Step(t, LeftMulCZ(t, c, d), LeftMulCZ(IdentityTableau(n), c, d), n)
    ensures Step(t, LeftMulSwap(t, c, d), LeftMulSwap(IdentityTableau(n), c, d), n)
  {
    IdentityTableauValid(n);
    PairValid(t, c, d, n);
    PairValid(IdentityTableau(n), c, d, n);
    ControlledComposed(t, c, d, n);
    SwapComposed(t, c, d, n);
    hide Valid, Compose;
  }

  lemma StepIdentity(t: Tableau, n: nat)
    requires Valid(t, n)
    ensures Step(t, t, IdentityTableau(n), n)
  {
    IdentityTableauValid(n);
    RowRules(t, n);
    hide Preimage, Anti, IsOrderTwo, On;
  }

  lemma StepY(t: Tableau, q: nat, n: nat)
    requires Valid(t, n) && q < n
    ensures Step(t, LeftMulX(LeftMulZ(t, q), q), LeftMulX(LeftMulZ(IdentityTableau(n), q), q), n)
  {
    hide *;
    var one := IdentityTableau(n);
    Sizes(t, n);
    StepZ(t, q, n);
    StepSizes(t, LeftMulZ(t, q), LeftMulZ(one, q), n);
    StepX(LeftMulZ(t, q), q, n);
    StepX(LeftMulZ(one, q), q, n);
    StepTwice(t, LeftMulZ(t, q), LeftMulX(LeftMulZ(t, q), q),
              LeftMulZ(one, q), LeftMulX(one, q), LeftMulX(LeftMulZ(one, q), q), n);
  }

  lemma StepSqrtY(t: Tableau, q: nat, n: nat)
    requires Valid(t, n) && q < n
    ensures Step(t, LeftMulHadamard(LeftMulZ(t, q), q), LeftMulHadamard(LeftMulZ(IdentityTableau(n), q), q), n)
  {
    hide *;
    var one := IdentityTableau(n);
    Sizes(t, n);
    StepZ(t, q, n);
    StepSizes(t, LeftMulZ(t, q), LeftMulZ(one, q), n);
    StepHadamard(LeftMulZ(t, q), q, n);
    StepHadamard(LeftMulZ(one, q), q, n);
    StepTwice(t, LeftMulZ(t, q), LeftMulHadamard(LeftMulZ(t, q), q),
              LeftMulZ(one, q), LeftMulHadamard(one, q), LeftMulHadamard(LeftMulZ(one, q), q), n);
  }

  lemma StepSqrtYInv(t: Tableau, q: nat, n: nat)
    requires Valid(t, n) && q < n
    ensures Step(t, LeftMulZ(LeftMulHadamard(t, q), q), LeftMulZ(LeftMulHadamard(IdentityTableau(n), q), q), n)
  {
    hide *;
    var one := IdentityTableau(n);
    Sizes(t, n);
    StepHadamard(t, q, n);
    StepSizes(t, LeftMulHadamard(t, q), LeftMulHadamard(one, q), n);
    StepZ(LeftMulHadamard(t, q), q, n);
    StepZ(LeftMulHadamard(one, q), q, n);
    StepTwice(t, LeftMulHadamard(t, q), LeftMulZ(LeftMulHadamard(t, q), q),
              LeftMulHadamard(one, q), LeftMulZ(one, q), LeftMulZ(LeftMulHadamard(one, q), q), n);
  }

  lemma StepBell(t: Tableau, q: nat, d: nat, n: nat)
    requires Valid(t, n) && q < n && d < n && q != d
    ensures Step(t, LeftMulCX(LeftMulHadamard(t, q), q, d), LeftMulCX(LeftMulHadamard(IdentityTableau(n), q), q, d), n)
  {
    hide *;
    var one := IdentityTableau(n);
    Sizes(t, n);
    StepHadamard(t, q, n);
    StepSizes(t, LeftMulHadamard(t, q), LeftMulHadamard(one, q), n);
    StepPair(LeftMulHadamard(t, q), q, d, n);
    StepPair(LeftMulHadamard(one, q), q, d, n);
    StepTwice(t, LeftMulHadamard(t, q), LeftMulCX(LeftMulHadamard(t, q), q, d),
              LeftMulHadamard(one, q), LeftMulCX(one, q, d), LeftMulCX(LeftMulHadamard(one, q), q, d), n);
  }

  /** Every gate keeps the encoder valid and is composition with the gate's own tableau. */
  lemma GateStep(t: Tableau, op: UnitaryOp, qubits: seq<nat>, n: nat)
    requires Valid(t, n) && Accepts(op, qubits, n)
    ensures Step(t, LeftMul(t, op, qubits), GateTableau(op, qubits, n), n)
  {
    hide Step, Valid, IdentityTableau, LeftMulX, LeftMulZ, LeftMulHadamard, LeftMulRootX, LeftMulRootZ,
         LeftMulCX, LeftMulCZ, LeftMulSwap;
    match op
    case I => StepIdentity(t, n);
    case X => StepX(t, qubits[0], n);
    case Y => StepY(t, qubits[0], n);
    case Z => StepZ(t, qubits[0], n);
    case Hadamard => StepHadamard(t, qubits[0], n);
    case SqrtY => StepSqrtY(t, qubits[0], n);
    case SqrtYInv => StepSqrtYInv(t, qubits[0], n);
    case SqrtX => StepRoot(t, qubits[0], 1, n);
    case SqrtXInv => StepRoot(t, qubits[0], 3, n);
    case SqrtZ => StepRoot(t, qubits[0], 1, n);
    case SqrtZInv => StepRoot(t, qubits[0], 3, n);
    case PrepareBell => StepBell(t, qubits[0], qubits[1], n);
    case Swap => StepPair(t, qubits[0], qubits[1], n);
    case ControlledX => StepPair(t, qubits[0], qubits[1], n);
    case ControlledZ => StepPair(t, qubits[0], qubits[1], n);
  }
}
