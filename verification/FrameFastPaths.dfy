/** The fast frame gates refine the general ones. */
module FrameFastPaths {
  import opened Bits
  import opened Paulis
  import opened Tableaus
  import opened Gates
  import opened SupportGates
  import opened FrameModel

  function ZBits(n: nat, q: nat): Projective {
    Projective(Zeros(n), Unit(n, q))
  }

  function XBits(n: nat, q: nat): Projective {
    Projective(Unit(n, q), Zeros(n))
  }

  function YBits(n: nat, q: nat): Projective {
    Projective(Unit(n, q), Unit(n, q))
  }

  /** Commutation of an error with the operators on one qubit. */
  lemma LocalAnti(e: Projective, q: nat, n: nat)
    requires ProjectiveOn(e, n) && q < n
    ensures AntiBits(ZBits(n, q), e) == e.x[q] && AntiBits(XBits(n, q), e) == e.z[q]
    ensures AntiBits(YBits(n, q), e) == (e.x[q] != e.z[q])
  {
    DotUnit(e.x, n, q);
    DotUnit(e.z, n, q);
    DotZero(e.x, Zeros(n));
    DotZero(e.z, Zeros(n));
  }

  /** S, root X and root Y (which is H up to phase) are the exponentials of Z, X and Y. */
  lemma RootsAreExponentials(e: Projective, q: nat, n: nat)
    requires ProjectiveOn(e, n) && q < n
    ensures FrameS(e, q) == FrameExp(e, ZBits(n, q))
    ensures FrameSqrtX(e, q) == FrameExp(e, XBits(n, q))
    ensures FrameH(e, q) == FrameExp(e, YBits(n, q))
  {
    LocalAnti(e, q, n);
    hide AntiBits;
    SameBitsOf(FrameS(e, q), FrameExp(e, ZBits(n, q)), n);
    SameBitsOf(FrameSqrtX(e, q), FrameExp(e, XBits(n, q)), n);
    SameBitsOf(FrameH(e, q), FrameExp(e, YBits(n, q)), n);
  }

  /** CNOT and CZ are the controlled Paulis (Z, X) and (Z, Z). */
  lemma PairsAreControlled(e: Projective, c: nat, d: nat, n: nat)
    requires ProjectiveOn(e, n) && c < n && d < n && c != d
    ensures FrameCnot(e, c, d) == FrameControlled(e, ZBits(n, c), XBits(n, d))
    ensures FrameCz(e, c, d) == FrameControlled(e, ZBits(n, c), ZBits(n, d))
  {
    LocalAnti(e, c, n);
    LocalAnti(e, d, n);
    hide AntiBits;
    SameBitsOf(FrameCnot(e, c, d), FrameControlled(e, ZBits(n, c), XBits(n, d)), n);
    SameBitsOf(FrameCz(e, c, d), FrameControlled(e, ZBits(n, c), ZBits(n, d)), n);
  }

  lemma AddIfAnti(p: Projective, e: Projective, b: bool, q: Projective)
    ensures AntiBits(p, AddIf(e, b, q)) == (AntiBits(p, e) != (b && AntiBits(p, q)))
  {
    AntiBitsSum(e, q, p);
  }

  lemma AddIfAt(e: Projective, b: bool, p: Projective, q: nat)
    ensures At(AddIf(e, b, p).x, q) == (At(e.x, q) != (b && At(p.x, q)))
    ensures At(AddIf(e, b, p).z, q) == (At(e.z, q) != (b && At(p.z, q)))
  {
  }

  lemma SelfCommutes(p: Projective)
    ensures !AntiBits(p, p)
  {
    DotSym(p.x, p.z);
  }

  /**
   * A controlled Pauli with commuting operands acts on every error as three exponentials in a row: of the control, of
   * the target and of their product.
   */
  lemma ControlledIsThreeExponentials(e: Projective, c: Projective, d: Projective, n: nat)
    requires ProjectiveOn(e, n) && ProjectiveOn(c, n) && ProjectiveOn(d, n) && !AntiBits(c, d)
    ensures FrameControlled(e, c, d) == FrameExp(FrameExp(FrameExp(e, c), d), Sum(c, d))
  {
    var e1 := FrameExp(e, c);
    var e2 := FrameExp(e1, d);
    var e3 := FrameExp(e2, Sum(c, d));
    SelfCommutes(c);
    SelfCommutes(d);
    AntiOrder(c, d);
    AddIfAnti(c, e, AntiBits(c, e), c);
    AddIfAnti(d, e, AntiBits(c, e), c);
    AddIfAnti(c, e1, AntiBits(d, e1), d);
    AddIfAnti(d, e1, AntiBits(d, e1), d);
    AntiBitsSum(c, d, e2);
    assert ProjectiveOn(e3, n) && ProjectiveOn(FrameControlled(e, c, d), n);
    hide AntiBits;
    forall q: nat | q < n
      ensures At(FrameControlled(e, c, d).x, q) == At(e3.x, q) && At(FrameControlled(e, c, d).z, q) == At(e3.z, q)
    {
      AddIfAt(e, AntiBits(c, e), c, q);
      AddIfAt(e1, AntiBits(d, e1), d, q);
      AddIfAt(e2, AntiBits(Sum(c, d), e2), Sum(c, d), q);
      AddIfAt(e, AntiBits(c, e), d, q);
      AddIfAt(AddIf(e, AntiBits(c, e), d), AntiBits(d, e), c, q);
    }
    SameBitsOf(FrameControlled(e, c, d), e3, n);
  }

  lemma AntiOrder(c: Projective, d: Projective)
    ensures AntiBits(c, d) == AntiBits(d, c)
  {
    DotSym(c.x, d.z);
    DotSym(c.z, d.x);
  }

  // ----- fast paths and tableaus

  /** The bits of an error on some qubits. */
  function Local(e: Projective, support: seq<nat>): Projective {
    Projective(Gather(e.x, support), Gather(e.z, support))
  }

  /** On the support, a general gate writes the image of the local error under its tableau. */
  lemma CliffordIsLocalImage(e: Projective, g: Tableau, support: seq<nat>, q: nat, n: nat)
    requires ProjectiveOn(e, n) && TableauOn(g, |support|) && Distinct(support) && Below(support, n) && q < n
    ensures var f, k := FrameClifford(e, g, support), Position(support, q);
      if k >= 0 then
        && At(f.x, q) == At(Image(g, Local(e, support)).x, k)
        && At(f.z, q) == At(Image(g, Local(e, support)).z, k)
      else At(f.x, q) == At(e.x, q) && At(f.z, q) == At(e.z, q)
  {
    var k := Position(support, q);
    if k >= 0 {
      var x, z, m := Gather(e.x, support), Gather(e.z, support), |support|;
      CliffordBitIs(g, x, z, k, true, m);
      CliffordBitIs(g, x, z, k, false, m);
      DotToStable(g.z[k].x, z, m);
      DotToStable(g.z[k].z, x, m);
      DotToStable(g.x[k].x, z, m);
      DotToStable(g.x[k].z, x, m);
    }
    hide DotTo, Gather, CliffordBit;
  }

  /** A fast path changes only its own qubits, and those in the same way wherever they are. */
  lemma OpIsLocal(e: Projective, op: UnitaryOp, qubits: seq<nat>, q: nat, n: nat)
    requires ProjectiveOn(e, n) && op != I && Accepts(op, qubits, n) && q < n
    ensures Accepts(op, LocalQubits(op), |qubits|)
    ensures var f, k := FrameOp(e, op, qubits), Position(qubits, q);
      var l := FrameOp(Local(e, qubits), op, LocalQubits(op));
      if k >= 0 then At(f.x, q) == At(l.x, k) && At(f.z, q) == At(l.z, k)
      else At(f.x, q) == At(e.x, q) && At(f.z, q) == At(e.z, q)
  {
    assert Arity(op) == 2 ==> Distinct(qubits);
    PositionOf(qubits, 0);
    if Arity(op) == 2 {
      PositionOf(qubits, 1);
    }
  }

  /** The tableau of an operation on its own qubits, and the image of an error under it. */
  lemma LocalTableau(e: Projective, op: UnitaryOp, qubits: seq<nat>, n: nat)
    requires ProjectiveOn(e, n) && op != I && Accepts(op, qubits, n)
    ensures Accepts(op, LocalQubits(op), |qubits|) && Distinct(qubits) && Below(qubits, n)
    ensures var g := GateTableau(op, LocalQubits(op), |qubits|);
      TableauOn(g, |qubits|) && FrameOp(Local(e, qubits), op, LocalQubits(op)) == Image(g, Local(e, qubits))
  {
    LocalAccepts(op, qubits, n);
    GateTableauOn(op, LocalQubits(op), |qubits|);
    hide FrameOp, Image, GateTableau, TableauOn, LocalQubits, Accepts;
    OpImage(Local(e, qubits), op, LocalQubits(op), |qubits|);
  }

  lemma LocalAccepts(op: UnitaryOp, qubits: seq<nat>, n: nat)
    requires op != I && Accepts(op, qubits, n)
    ensures Accepts(op, LocalQubits(op), |qubits|) && Distinct(qubits) && Below(qubits, n)
  {
  }

  lemma GateTableauOn(op: UnitaryOp, qubits: seq<nat>, n: nat)
    requires Accepts(op, qubits, n)
    ensures TableauOn(GateTableau(op, qubits, n), n)
  {
    IdentityTableauValid(n);
    GateStep(IdentityTableau(n), op, qubits, n);
    StepValid(IdentityTableau(n), LeftMul(IdentityTableau(n), op, qubits), GateTableau(op, qubits, n), n);
    hide Valid, LeftMul, TableauOn;
  }

  /** Every fast path gives the same frames as the general gate with the tableau of the operation. */
  lemma FastPathIsClifford(e: Projective, op: UnitaryOp, qubits: seq<nat>, n: nat)
    requires ProjectiveOn(e, n) && op != I && Accepts(op, qubits, n)
    ensures Accepts(op, LocalQubits(op), |qubits|)
    ensures var g := GateTableau(op, LocalQubits(op), |qubits|);
      |g.x| == |g.z| == |qubits| && FrameClifford(e, g, qubits) == FrameOp(e, op, qubits)
  {
    LocalTableau(e, op, qubits, n);
    var g := GateTableau(op, LocalQubits(op), |qubits|);
    hide FrameOp, Image, GateTableau, Position, Distinct, LocalQubits, Local, Accepts;
    var f, c := FrameOp(e, op, qubits), FrameClifford(e, g, qubits);
    forall q: nat | q < n ensures At(c.x, q) == At(f.x, q) && At(c.z, q) == At(f.z, q) {
      OpIsLocal(e, op, qubits, q, n);
      CliffordIsLocalImage(e, g, qubits, q, n);
    }
    OpSize(e, op, qubits, n);
    hide FrameClifford;
    SameBitsOf(c, f, n);
  }

  lemma OpSize(e: Projective, op: UnitaryOp, qubits: seq<nat>, n: nat)
    requires ProjectiveOn(e, n) && Accepts(op, qubits, n)
    ensures ProjectiveOn(FrameOp(e, op, qubits), n)
  {
  }

  lemma StepValid(t: Tableau, u: Tableau, g: Tableau, n: nat)
    requires Step(t, u, g, n)
    ensures TableauOn(g, n)
  {
  }
}
