/** Pauli frames of one shot: the accumulated error modulo phase, and which outcomes it flips. */
module FrameModel {
  import opened Bits
  import opened Paulis
  import opened Tableaus
  import opened Measurement
  import opened Gates
  import opened PauliGates
  import opened SupportGates
  import opened Circuits
  import opened SpecificModel
  import opened Branches

  datatype Frame = Frame(error: Projective, deltas: seq<bool>)

  function InitialFrame(n: nat): Frame {
    Frame(IdentityBits(n), [])
  }

  // ----- gates on an error

  function Put(e: Projective, q: nat, x: bool, z: bool): Projective
    requires q < |e.x| && q < |e.z|
  {
    Projective(e.x[q := x], e.z[q := z])
  }

  function FrameH(e: Projective, q: nat): Projective
    requires q < |e.x| && q < |e.z|
  {
    Put(e, q, e.z[q], e.x[q])
  }

  function FrameS(e: Projective, q: nat): Projective
    requires q < |e.x| && q < |e.z|
  {
    Put(e, q, e.x[q], e.z[q] != e.x[q])
  }

  function FrameSqrtX(e: Projective, q: nat): Projective
    requires q < |e.x| && q < |e.z|
  {
    Put(e, q, e.x[q] != e.z[q], e.z[q])
  }

  function FrameCnot(e: Projective, c: nat, d: nat): Projective
    requires c < |e.x| && c < |e.z| && d < |e.x| && d < |e.z|
  {
    Projective(e.x[d := e.x[d] != e.x[c]], e.z[c := e.z[c] != e.z[d]])
  }

  function FrameCz(e: Projective, c: nat, d: nat): Projective
    requires c < |e.x| && c < |e.z| && d < |e.x| && d < |e.z|
  {
    var z := e.z[d := e.z[d] != e.x[c]];
    Projective(e.x, z[c := z[c] != e.x[d]])
  }

  function FrameSwap(e: Projective, c: nat, d: nat): Projective
    requires c < |e.x| && c < |e.z| && d < |e.x| && d < |e.z|
  {
    Projective(e.x[c := e.x[d]][d := e.x[c]], e.z[c := e.z[d]][d := e.z[c]])
  }

  function FrameOp(e: Projective, op: UnitaryOp, qubits: seq<nat>): Projective
    requires |e.x| == |e.z| && Accepts(op, qubits, |e.x|)
  {
    match op
    case I | X | Y | Z => e
    case Hadamard | SqrtY | SqrtYInv => FrameH(e, qubits[0])
    case SqrtZ | SqrtZInv => FrameS(e, qubits[0])
    case SqrtX | SqrtXInv => FrameSqrtX(e, qubits[0])
    case ControlledX => FrameCnot(e, qubits[0], qubits[1])
    case ControlledZ => FrameCz(e, qubits[0], qubits[1])
    case Swap => FrameSwap(e, qubits[0], qubits[1])
    case PrepareBell => FrameCnot(FrameH(e, qubits[0]), qubits[0], qubits[1])
  }

  function AddIf(e: Projective, b: bool, p: Projective): Projective {
    if b then Sum(e, p) else e
  }

  function FrameExp(e: Projective, p: Projective): Projective {
    AddIf(e, AntiBits(p, e), p)
  }

  function FrameControlled(e: Projective, c: Projective, d: Projective): Projective {
    AddIf(AddIf(e, AntiBits(c, e), d), AntiBits(d, e), c)
  }

  /** The images of the local generators, read off the columns of the tableau; `x` and `z` say which local bits are set. */
  function CliffordBit(g: Tableau, x: Bits, z: Bits, local: nat, wantX: bool, k: nat): bool
    requires local < |g.x| && local < |g.z|
  {
    if k == 0 then false
    else
      var row := if wantX then g.z[local] else g.x[local];
      CliffordBit(g, x, z, local, wantX, k - 1)
        != ((At(row.z, k - 1) && At(x, k - 1)) != (At(row.x, k - 1) && At(z, k - 1)))
  }

  /** The bits of an error on the support, in the order of the support. */
  function Gather(a: Bits, support: seq<nat>): Bits {
    seq(|support|, k requires 0 <= k < |support| => At(a, support[k]))
  }

  function FrameClifford(e: Projective, g: Tableau, support: seq<nat>): Projective
    requires |support| <= |g.x| && |support| <= |g.z|
  {
    var x, z := Gather(e.x, support), Gather(e.z, support);
    Projective(
      seq(|e.x|, q requires 0 <= q < |e.x| =>
        var local := Position(support, q);
        if local >= 0 then CliffordBit(g, x, z, local, true, |support|) else e.x[q]),
      seq(|e.z|, q requires 0 <= q < |e.z| =>
        var local := Position(support, q);
        if local >= 0 then CliffordBit(g, x, z, local, false, |support|) else e.z[q]))
  }

  /** The qubit whose error moves to `q`: the permutation sends the error at position `k` to position `perm[k]`. */
  function FrameSource(perm: seq<nat>, support: seq<nat>, q: nat): nat
    requires |perm| == |support|
  {
    var local := Position(support, q);
    if local >= 0 then
      var k := Position(perm, local);
      if k >= 0 then support[k] else q
    else q
  }

  function FramePermute(e: Projective, perm: seq<nat>, support: seq<nat>): Projective
    requires |perm| == |support|
  {
    Projective(
      seq(|e.x|, q requires 0 <= q < |e.x| => At(e.x, FrameSource(perm, support, q))),
      seq(|e.z|, q requires 0 <= q < |e.z| => At(e.z, FrameSource(perm, support, q))))
  }

  ghost function FrameUnitary(e: Projective, i: Instruction, n: nat, count: nat): Projective
    requires IsUnitary(i) && WellFormed(i, n, count) && ProjectiveOn(e, n)
  {
    match i
    case Unitary(op, qubits) => FrameOp(e, op, qubits)
    case Clifford(g, qubits) => FrameClifford(e, g, qubits)
    case PauliGate(_) => e
    case PauliExp(p) => FrameExp(e, p.bits)
    case Permute(perm, qubits) => FramePermute(e, perm, qubits)
    case ControlledPauli(c, d) => FrameControlled(e, c.bits, d.bits)
  }

  ghost function FrameStep(f: Frame, i: Instruction, n: nat, shot: nat): Frame
    requires WellFormed(i, n, |f.deltas|) && ProjectiveOn(f.error, n)
  {
    match i
    case Measure(p, _) => f.(deltas := f.deltas + [AntiBits(p.bits, f.error)])
    case MeasureWithHint(p, _, _) => f.(deltas := f.deltas + [AntiBits(p.bits, f.error)])
    case AllocateRandomBit(_) => f.(deltas := f.deltas + [false])
    case ConditionalPauli(p, outcomes, _) =>
      f.(error := AddIf(f.error, TotalParity(f.deltas, outcomes), p.bits))
    case Noise(faults) => if shot < |faults| then f.(error := Sum(f.error, faults[shot].bits)) else f
    case _ => f.(error := FrameUnitary(f.error, i, n, |f.deltas|))
  }

  // ----- the image of an error under a gate

  /** The image of an error under a gate, read off the commutation of the error with the preimages of the generators. */
  function Image(g: Tableau, e: Projective): Projective {
    Projective(seq(|g.z|, q requires 0 <= q < |g.z| => AntiBits(g.z[q].bits, e)),
               seq(|g.x|, q requires 0 <= q < |g.x| => AntiBits(g.x[q].bits, e)))
  }

  /** The image commutes with an operator exactly when the error commutes with its preimage. */
  lemma ImageAnti(g: Tableau, e: Projective, q: Pauli, n: nat)
    requires TableauOn(g, n) && On(q, n)
    ensures AntiBits(Preimage(g, q).bits, e) == AntiBits(q.bits, Image(g, e))
  {
    var r := Pauli(e, 0);
    ProductAnti(g.x, q.x, n, n, r);
    ProductAnti(g.z, q.z, n, n, r);
    Same(Syndrome(g.x, r), Image(g, e).z);
    Same(Syndrome(g.z, r), Image(g, e).x);
    AntiMul(Product(g.x, q.x, n, n), Product(g.z, q.z, n, n), r);
    DotToStable(q.x, Image(g, e).z, n);
    DotToStable(q.z, Image(g, e).x, n);
  }

  lemma SameBitsOf(a: Projective, b: Projective, n: nat)
    requires ProjectiveOn(a, n) && ProjectiveOn(b, n)
    requires forall q: nat :: q < n ==> At(a.x, q) == At(b.x, q) && At(a.z, q) == At(b.z, q)
    ensures a == b
  {
    Same(a.x, b.x);
    Same(a.z, b.z);
  }

  lemma UnitBitsAnti(e: Projective, q: nat, n: nat)
    requires ProjectiveOn(e, n) && q < n
    ensures AntiBits(PauliX(n, q).bits, e) == e.z[q]
    ensures AntiBits(PauliZ(n, q).bits, e) == e.x[q]
  {
    AntiUnits(Pauli(e, 0), n, q);
  }

  lemma ImageIdentity(e: Projective, n: nat)
    requires ProjectiveOn(e, n)
    ensures Image(IdentityTableau(n), e) == e
  {
    forall q: nat | q < n
      ensures At(Image(IdentityTableau(n), e).x, q) == At(e.x, q)
      ensures At(Image(IdentityTableau(n), e).z, q) == At(e.z, q)
    {
      UnitBitsAnti(e, q, n);
    }
    SameBitsOf(Image(IdentityTableau(n), e), e, n);
  }

  lemma ImageCompose(t: Tableau, g: Tableau, e: Projective, n: nat)
    requires TableauOn(t, n) && TableauOn(g, n)
    ensures Image(Compose(t, g), e) == Image(g, Image(t, e))
  {
    forall q: nat | q < n
      ensures AntiBits(Preimage(t, g.x[q]).bits, e) == AntiBits(g.x[q].bits, Image(t, e))
      ensures AntiBits(Preimage(t, g.z[q]).bits, e) == AntiBits(g.z[q].bits, Image(t, e))
    {
      ImageAnti(t, e, g.x[q], n);
      ImageAnti(t, e, g.z[q], n);
    }
    hide Preimage, AntiBits;
  }

  // ----- the fast gate rules are the images under the gate tableaus

  lemma ErrorRules(e: Projective, n: nat)
    requires ProjectiveOn(e, n)
    ensures forall q :: 0 <= q < n ==> AntiBits(PauliX(n, q).bits, e) == e.z[q] && AntiBits(PauliZ(n, q).bits, e) == e.x[q]
    ensures forall p, q :: AntiBits(Mul(p, q).bits, e) == (AntiBits(p.bits, e) != AntiBits(q.bits, e))
    ensures forall k, p :: Rotate(k, p).bits == p.bits
  {
    forall q: nat | q < n
      ensures AntiBits(PauliX(n, q).bits, e) == e.z[q] && AntiBits(PauliZ(n, q).bits, e) == e.x[q]
    {
      UnitBitsAnti(e, q, n);
    }
    forall p: Pauli, q: Pauli ensures AntiBits(Mul(p, q).bits, e) == (AntiBits(p.bits, e) != AntiBits(q.bits, e)) {
      AntiBitsSum(p.bits, q.bits, e);
    }
  }

  lemma {:induction false} PrimitiveImages(e: Projective, q: nat, k: bv2, n: nat)
    requires ProjectiveOn(e, n) && q < n
    ensures var one := IdentityTableau(n);
      && Image(LeftMulX(one, q), e) == e
      && Image(LeftMulZ(one, q), e) == e
      && Image(LeftMulHadamard(one, q), e) == FrameH(e, q)
      && Image(LeftMulRootZ(one, q, k), e) == FrameS(e, q)
      && Image(LeftMulRootX(one, q, k), e) == FrameSqrtX(e, q)
  {
    ErrorRules(e, n);
    hide AntiBits, Mul, Rotate, PauliX, PauliZ;
  }

  lemma CnotImage(e: Projective, c: nat, d: nat, n: nat)
    requires ProjectiveOn(e, n) && c < n && d < n && c != d
    ensures Image(LeftMulCX(IdentityTableau(n), c, d), e) == FrameCnot(e, c, d)
  {
    ErrorRules(e, n);
    hide AntiBits, Mul, Rotate, PauliX, PauliZ;
  }

  lemma CzImage(e: Projective, c: nat, d: nat, n: nat)
    requires ProjectiveOn(e, n) && c < n && d < n && c != d
    ensures Image(LeftMulCZ(IdentityTableau(n), c, d), e) == FrameCz(e, c, d)
  {
    ErrorRules(e, n);
    hide AntiBits, Mul, Rotate, PauliX, PauliZ;
  }

  lemma SwapImage(e: Projective, c: nat, d: nat, n: nat)
    requires ProjectiveOn(e, n) && c < n && d < n && c != d
    ensures Image(LeftMulSwap(IdentityTableau(n), c, d), e) == FrameSwap(e, c, d)
  {
    ErrorRules(e, n);
    hide AntiBits, Mul, Rotate, PauliX, PauliZ;
  }

  lemma TwoStepImage(g: Tableau, h: Tableau, gh: Tableau, e: Projective, n: nat)
    requires Step(g, gh, h, n)
    ensures Image(gh, e) == Image(h, Image(g, e))
  {
    ImageCompose(g, h, e, n);
  }

  /** Every standard gate moves the error exactly as its tableau does. */
  lemma {:induction false} OpImage(e: Projective, op: UnitaryOp, qubits: seq<nat>, n: nat)
    requires ProjectiveOn(e, n) && Accepts(op, qubits, n)
    ensures FrameOp(e, op, qubits) == Image(GateTableau(op, qubits, n), e)
  {
    IdentityTableauValid(n);
    Sizes(IdentityTableau(n), n);
    hide Image, Valid, LeftMulX, LeftMulZ, LeftMulHadamard, LeftMulRootX, LeftMulRootZ, LeftMulCX, LeftMulCZ,
         LeftMulSwap, FrameH, FrameS, FrameSqrtX, FrameCnot, FrameCz, FrameSwap, IdentityTableau, XRows, ZRows;
    if op == I {
      ImageIdentity(e, n);
    } else {
      var q := qubits[0];
      PrimitiveImages(e, q, 1, n);
      PrimitiveImages(e, q, 3, n);
      CompositeImages(e, q, n);
      if Arity(op) == 2 {
        CnotImage(e, q, qubits[1], n);
        CzImage(e, q, qubits[1], n);
        SwapImage(e, q, qubits[1], n);
        BellImage(e, q, qubits[1], n);
      }
    }
  }

  /** The operations made of two primitive gates on one qubit. */
  lemma CompositeImages(e: Projective, q: nat, n: nat)
    requires ProjectiveOn(e, n) && q < n
    ensures |IdentityTableau(n).x| == |IdentityTableau(n).z| == n
    ensures Image(LeftMulX(LeftMulZ(IdentityTableau(n), q), q), e) == e
    ensures Image(LeftMulHadamard(LeftMulZ(IdentityTableau(n), q), q), e) == FrameH(e, q)
    ensures Image(LeftMulZ(LeftMulHadamard(IdentityTableau(n), q), q), e) == FrameH(e, q)
  {
    var one := IdentityTableau(n);
    IdentityTableauValid(n);
    PrimitiveImages(e, q, 1, n);
    PrimitiveImages(FrameH(e, q), q, 1, n);
    StepZ(one, q, n);
    StepHadamard(one, q, n);
    StepX(LeftMulZ(one, q), q, n);
    TwoStepImage(LeftMulZ(one, q), LeftMulX(one, q), LeftMulX(LeftMulZ(one, q), q), e, n);
    StepHadamard(LeftMulZ(one, q), q, n);
    TwoStepImage(LeftMulZ(one, q), LeftMulHadamard(one, q), LeftMulHadamard(LeftMulZ(one, q), q), e, n);
    StepZ(LeftMulHadamard(one, q), q, n);
    TwoStepImage(LeftMulHadamard(one, q), LeftMulZ(one, q), LeftMulZ(LeftMulHadamard(one, q), q), e, n);
    hide Image, Valid, LeftMulX, LeftMulZ, LeftMulHadamard, LeftMulRootX, LeftMulRootZ, FrameH, FrameS, FrameSqrtX,
         IdentityTableau;
  }

  lemma BellImage(e: Projective, q: nat, d: nat, n: nat)
    requires ProjectiveOn(e, n) && q < n && d < n && q != d
    ensures |IdentityTableau(n).x| == |IdentityTableau(n).z| == n
    ensures Image(LeftMulCX(LeftMulHadamard(IdentityTableau(n), q), q, d), e) == FrameCnot(FrameH(e, q), q, d)
  {
    var one := IdentityTableau(n);
    IdentityTableauValid(n);
    PrimitiveImages(e, q, 1, n);
    StepHadamard(one, q, n);
    StepPair(LeftMulHadamard(one, q), q, d, n);
    CnotImage(FrameH(e, q), q, d, n);
    TwoStepImage(LeftMulHadamard(one, q), LeftMulCX(one, q, d), LeftMulCX(LeftMulHadamard(one, q), q, d), e, n);
    hide Image, Valid, LeftMulCX, LeftMulHadamard, FrameH, FrameCnot, IdentityTableau;
  }

  lemma PauliImage(e: Projective, p: Pauli, n: nat)
    requires ProjectiveOn(e, n) && On(p, n)
    ensures Image(LeftMulPauli(IdentityTableau(n), p), e) == e
  {
    ErrorRules(e, n);
    hide AntiBits, Mul, PauliX, PauliZ;
  }

  lemma ExpImage(e: Projective, p: Pauli, n: nat)
    requires ProjectiveOn(e, n) && On(p, n)
    ensures Image(LeftMulPauliExp(IdentityTableau(n), p), e) == FrameExp(e, p.bits)
  {
    var g := LeftMulPauliExp(IdentityTableau(n), p);
    IdentityTableauValid(n);
    ErrorRules(e, n);
    forall q: nat | q < n
      ensures At(Image(g, e).x, q) == At(FrameExp(e, p.bits).x, q)
      ensures At(Image(g, e).z, q) == At(FrameExp(e, p.bits).z, q)
    {
      hide AntiBits, Mul, PauliX, PauliZ, Preimage, Valid;
    }
    SameBitsOf(Image(g, e), FrameExp(e, p.bits), n);
  }

  lemma SandwichAnti(l: bool, c: Pauli, r: Pauli, rt: bool, d: Pauli, e: Projective)
    ensures AntiBits(Sandwich(l, c, r, rt, d).bits, e)
         == ((l && AntiBits(c.bits, e)) != (AntiBits(r.bits, e) != (rt && AntiBits(d.bits, e))))
  {
    AntiBitsSum(r.bits, d.bits, e);
    AntiBitsSum(c.bits, r.bits, e);
    AntiBitsSum(c.bits, Sum(r.bits, d.bits), e);
    hide AntiBits;
  }

  lemma ControlledImageAt(e: Projective, c: Pauli, d: Pauli, q: nat, n: nat)
    requires ProjectiveOn(e, n) && On(c, n) && On(d, n) && q < n
    ensures var g := LeftMulControlledPauli(IdentityTableau(n), c, d);
      && |g.x| == |g.z| == n
      && AntiBits(g.z[q].bits, e) == At(FrameControlled(e, c.bits, d.bits).x, q)
      && AntiBits(g.x[q].bits, e) == At(FrameControlled(e, c.bits, d.bits).z, q)
  {
    IdentityTableauValid(n);
    UnitBitsAnti(e, q, n);
    SandwichAnti(At(d.z, q), c, PauliX(n, q), At(c.z, q), d, e);
    SandwichAnti(At(d.x, q), c, PauliZ(n, q), At(c.x, q), d, e);
    hide AntiBits, Sandwich, PauliX, PauliZ, Preimage, Valid;
  }

  lemma ControlledImage(e: Projective, c: Pauli, d: Pauli, n: nat)
    requires ProjectiveOn(e, n) && On(c, n) && On(d, n)
    ensures Image(LeftMulControlledPauli(IdentityTableau(n), c, d), e) == FrameControlled(e, c.bits, d.bits)
  {
    var g := LeftMulControlledPauli(IdentityTableau(n), c, d);
    var f := FrameControlled(e, c.bits, d.bits);
    assert ProjectiveOn(f, n);
    hide LeftMulControlledPauli, FrameControlled, AntiBits;
    forall q: nat | q < n
      ensures |g.x| == |g.z| == n
      ensures AntiBits(g.z[q].bits, e) == At(f.x, q) && AntiBits(g.x[q].bits, e) == At(f.z, q)
    {
      ControlledImageAt(e, c, d, q, n);
    }
    ControlledSize(c, d, n);
    SameBitsOf(Image(g, e), f, n);
  }

  lemma ControlledSize(c: Pauli, d: Pauli, n: nat)
    ensures var g := LeftMulControlledPauli(IdentityTableau(n), c, d);
      |g.x| == |g.z| == n
  {
  }

  // ----- general Clifford unitaries

  /** Pairing a scattered vector with an error is pairing the local vector with the gathered error. */
  lemma {:induction false} ScatterGather(a: Bits, b: Bits, support: seq<nat>, n: nat)
    requires Distinct(support) && Below(support, n) && |b| == n
    ensures Dot(Scatter(a, support, n), b) == DotTo(a, Gather(b, support), |support|)
  {
    if support == [] {
      DotZero(b, Scatter(a, support, n));
    } else {
      var k := |support| - 1;
      var rest := support[..k];
      ScatterGather(a, b, rest, n);
      ScatterLast(a, support, n);
      DotXor(Scatter(a, rest, n), if At(a, k) then Unit(n, support[k]) else Zeros(n), b);
      DotUnit(b, n, support[k]);
      DotZero(b, Zeros(n));
      GatherPrefix(a, b, support, k);
    }
  }

  lemma GatherPrefix(a: Bits, b: Bits, support: seq<nat>, k: nat)
    requires k <= |support|
    ensures DotTo(a, Gather(b, support), k) == DotTo(a, Gather(b, support[..k]), k)
  {
    DotToAgree(a, Gather(b, support), Gather(b, support[..k]), k);
  }

  lemma DotToAgree(a: Bits, b: Bits, c: Bits, k: nat)
    requires forall i: nat :: i < k ==> At(b, i) == At(c, i)
    ensures DotTo(a, b, k) == DotTo(a, c, k)
  {
  }

  lemma CliffordBitIs(g: Tableau, x: Bits, z: Bits, local: nat, wantX: bool, k: nat)
    requires local < |g.x| && local < |g.z|
    ensures var row := if wantX then g.z[local] else g.x[local];
      CliffordBit(g, x, z, local, wantX, k) == (DotTo(row.x, z, k) != DotTo(row.z, x, k))
  {
  }

  lemma CliffordImage(e: Projective, g: Tableau, support: seq<nat>, n: nat)
    requires ProjectiveOn(e, n) && Valid(g, |support|) && Distinct(support) && Below(support, n)
    ensures |g.x| == |g.z| == |support|
    ensures FrameClifford(e, g, support) == Image(Embedded(g, support, n), e)
  {
    ValidOn(g, |support|);
    var f := FrameClifford(e, g, support);
    forall q: nat | q < n
      ensures At(Image(Embedded(g, support, n), e).x, q) == At(f.x, q)
      ensures At(Image(Embedded(g, support, n), e).z, q) == At(f.z, q)
    {
      CliffordImageAt(e, g, support, q, n);
    }
    hide AntiBits, OnSupport, CliffordBit, Valid;
    SameBitsOf(Image(Embedded(g, support, n), e), f, n);
  }

  lemma CliffordImageAt(e: Projective, g: Tableau, support: seq<nat>, q: nat, n: nat)
    requires ProjectiveOn(e, n) && Distinct(support) && Below(support, n) && q < n
    requires |g.x| == |g.z| == |support|
    ensures At(Image(Embedded(g, support, n), e).x, q) == At(FrameClifford(e, g, support).x, q)
    ensures At(Image(Embedded(g, support, n), e).z, q) == At(FrameClifford(e, g, support).z, q)
  {
    var local := Position(support, q);
    if local >= 0 {
      var x, z := Gather(e.x, support), Gather(e.z, support);
      CliffordBitIs(g, x, z, local, true, |support|);
      CliffordBitIs(g, x, z, local, false, |support|);
      ScatterGather(g.z[local].x, e.z, support, n);
      ScatterGather(g.z[local].z, e.x, support, n);
      ScatterGather(g.x[local].x, e.z, support, n);
      ScatterGather(g.x[local].z, e.x, support, n);
    } else {
      UnitBitsAnti(e, q, n);
    }
    hide Dot, DotTo, CliffordBit, Scatter, Gather;
  }

  // ----- permutations

  predicate IsInvolution(perm: seq<nat>) {
    forall k :: 0 <= k < |perm| ==> perm[k] < |perm| && perm[perm[k]] == k
  }

  lemma PermutationImageAt(e: Projective, perm: seq<nat>, support: seq<nat>, q: nat, n: nat)
    requires ProjectiveOn(e, n) && q < n
    requires |perm| == |support| && IsPermutation(perm) && Distinct(support) && Below(support, n)
    ensures var g := LeftMulPermutation(IdentityTableau(n), perm, support);
      && |g.x| == |g.z| == n
      && At(Image(g, e).x, q) == At(e.x, Source(perm, support, q))
      && At(Image(g, e).z, q) == At(e.z, Source(perm, support, q))
  {
    SourceBelow(perm, support, q, n);
    UnitBitsAnti(e, Source(perm, support, q), n);
    hide AntiBits, PauliX, PauliZ;
  }

  /** For an involution both directions of the permutation are the same. */
  lemma InvolutionSource(perm: seq<nat>, support: seq<nat>, q: nat)
    requires |perm| == |support| && IsPermutation(perm) && Distinct(support) && IsInvolution(perm)
    ensures FrameSource(perm, support, q) == Source(perm, support, q)
  {
    var local := Position(support, q);
    if local >= 0 {
      var k := Position(perm, local);
      assert perm[perm[local]] == local;
      assert k >= 0 && perm[k] == local;
      assert perm[perm[k]] == k;
    }
  }

  /**
   * The frame moves the error at position k to position perm[k], while the encoder moves position perm[k] to position
   * k. The two agree on every error exactly when the permutation is its own inverse.
   */
  lemma PermutationAgreesIffInvolution(perm: seq<nat>, support: seq<nat>, n: nat)
    requires |perm| == |support| && IsPermutation(perm) && Distinct(support) && Below(support, n)
    ensures |IdentityTableau(n).x| == |IdentityTableau(n).z| == n
    ensures (forall e :: ProjectiveOn(e, n) ==>
              FramePermute(e, perm, support) == Image(LeftMulPermutation(IdentityTableau(n), perm, support), e))
        <==> IsInvolution(perm)
  {
    var g := LeftMulPermutation(IdentityTableau(n), perm, support);
    if IsInvolution(perm) {
      forall e | ProjectiveOn(e, n) ensures FramePermute(e, perm, support) == Image(g, e) {
        PermutationImage(e, perm, support, n);
      }
    }
    if forall e :: ProjectiveOn(e, n) ==> FramePermute(e, perm, support) == Image(g, e) {
      forall k | 0 <= k < |perm| ensures perm[perm[k]] == k {
        var q := support[perm[k]];
        var e := Projective(Unit(n, support[k]), Zeros(n));
        PositionOf(support, perm[k]);
        PositionOf(perm, k);
        assert FrameSource(perm, support, q) == support[k];
        PermutationImageAt(e, perm, support, q, n);
        assert FramePermute(e, perm, support) == Image(g, e);
        assert At(e.x, Source(perm, support, q));
        assert Source(perm, support, q) == support[k];
        PositionOf(support, k);
        PositionOf(support, perm[perm[k]]);
      }
    }
  }

  lemma PermutationImage(e: Projective, perm: seq<nat>, support: seq<nat>, n: nat)
    requires ProjectiveOn(e, n) && IsInvolution(perm)
    requires |perm| == |support| && IsPermutation(perm) && Distinct(support) && Below(support, n)
    ensures |IdentityTableau(n).x| == |IdentityTableau(n).z| == n
    ensures FramePermute(e, perm, support) == Image(LeftMulPermutation(IdentityTableau(n), perm, support), e)
  {
    var g := LeftMulPermutation(IdentityTableau(n), perm, support);
    forall q: nat | q < n
      ensures At(FramePermute(e, perm, support).x, q) == At(Image(g, e).x, q)
      ensures At(FramePermute(e, perm, support).z, q) == At(Image(g, e).z, q)
    {
      InvolutionSource(perm, support, q);
      PermutationImageAt(e, perm, support, q, n);
    }
    SameBitsOf(FramePermute(e, perm, support), Image(g, e), n);
  }

  /** A cyclic permutation of three qubits that the frame and the encoder treat differently: an X error on qubit 0. */
  lemma CyclicPermutationDisagrees()
    ensures var perm, support := [1, 2, 0], [0, 1, 2];
      var e := Projective([true, false, false], Zeros(3));
      && IsPermutation(perm) && |IdentityTableau(3).x| == |IdentityTableau(3).z| == 3
      && FramePermute(e, perm, support).x == [false, true, false]
      && Image(LeftMulPermutation(IdentityTableau(3), perm, support), e).x == [false, false, true]
  {
    var perm, support := [1, 2, 0], [0, 1, 2];
    var e := Projective([true, false, false], Zeros(3));
    forall k | k == 0 || k == 1 || k == 2 ensures Position(support, k) == k {
      PositionOf(support, k);
    }
    forall k | k == 0 || k == 1 || k == 2 ensures Position(perm, perm[k]) == k {
      PositionOf(perm, k);
    }
    var g := LeftMulPermutation(IdentityTableau(3), perm, support);
    PermutationImageAt(e, perm, support, 0, 3);
    PermutationImageAt(e, perm, support, 1, 3);
    PermutationImageAt(e, perm, support, 2, 3);
    assert Position(perm, 1) == 0 && Position(perm, 2) == 1 && Position(perm, 0) == 2;
    assert FramePermute(e, perm, support).x == [false, true, false];
    assert Image(g, e).x == [false, false, true];
  }

  /** Every unitary instruction moves the error exactly as its gate does, permutations being involutions. */
  lemma FrameUnitaryIsImage(e: Projective, i: Instruction, n: nat, count: nat)
    requires IsUnitary(i) && WellFormed(i, n, count) && ProjectiveOn(e, n)
    requires i.Permute? ==> IsInvolution(i.permutation)
    ensures FrameUnitary(e, i, n, count) == Image(GateOf(i, n, count), e)
  {
    match i
    case Unitary(op, qubits) => OpImage(e, op, qubits, n);
    case Clifford(g, qubits) =>
      CliffordImage(e, g, qubits, n);
      EmbeddedIsGate(g, qubits, n);
    case PauliGate(p) => PauliImage(e, p, n);
    case PauliExp(p) => ExpImage(e, p, n);
    case Permute(perm, qubits) => PermutationImage(e, perm, qubits, n);
    case ControlledPauli(c, d) => ControlledImage(e, c, d, n);
  }
}
