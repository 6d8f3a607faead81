/** What gates on a list of qubits do to every operator, phases included. */
module SupportActions {
  import opened Bits
  import opened Paulis
  import opened Tableaus
  import opened Measurement
  import opened Gates
  import opened GateActions
  import opened SupportGates

  // ----- operators moved to a support

  lemma ScatterUnit(support: seq<nat>, e: nat, n: nat)
    requires Distinct(support) && Below(support, n) && e < |support|
    ensures Scatter(Unit(|support|, e), support, n) == Unit(n, support[e])
    ensures Scatter(Zeros(|support|), support, n) == Zeros(n)
  {
    PositionOf(support, e);
    Same(Scatter(Unit(|support|, e), support, n), Unit(n, support[e]));
    Same(Scatter(Zeros(|support|), support, n), Zeros(n));
  }

  /** Generators move to the generators of the qubits of the support, with their phases. */
  lemma OnSupportGenerators(support: seq<nat>, e: nat, n: nat)
    requires Distinct(support) && Below(support, n) && e < |support|
    ensures OnSupport(PauliX(|support|, e), support, n) == PauliX(n, support[e])
    ensures OnSupport(PauliY(|support|, e), support, n) == PauliY(n, support[e])
    ensures OnSupport(PauliZ(|support|, e), support, n) == PauliZ(n, support[e])
  {
    ScatterUnit(support, e, n);
  }

  lemma ScatterXor(a: Bits, b: Bits, support: seq<nat>, n: nat)
    ensures Scatter(Xor(a, b), support, n) == Xor(Scatter(a, support, n), Scatter(b, support, n))
  {
    Same(Scatter(Xor(a, b), support, n), Xor(Scatter(a, support, n), Scatter(b, support, n)));
  }

  /** Moving respects products and phases. */
  lemma OnSupportMul(p: Pauli, q: Pauli, k: bv2, support: seq<nat>, n: nat)
    requires Distinct(support) && Below(support, n) && On(p, |support|) && On(q, |support|)
    ensures OnSupport(Mul(p, q), support, n) == Mul(OnSupport(p, support, n), OnSupport(q, support, n))
    ensures OnSupport(Rotate(k, p), support, n) == Rotate(k, OnSupport(p, support, n))
  {
    ScatterXor(p.x, q.x, support, n);
    ScatterXor(p.z, q.z, support, n);
    ScatterDot(p.z, q.x, support, n);
  }

  lemma OnSupportIdentity(support: seq<nat>, n: nat)
    ensures OnSupport(Identity(|support|), support, n) == Identity(n)
  {
    Same(Scatter(Zeros(|support|), support, n), Zeros(n));
  }

  /** Moving forgets nothing. */
  lemma OnSupportInjective(p: Pauli, q: Pauli, support: seq<nat>, n: nat)
    requires Distinct(support) && Below(support, n) && On(p, |support|) && On(q, |support|)
    requires OnSupport(p, support, n) == OnSupport(q, support, n)
    ensures p == q
  {
    forall e: nat | e < |support| ensures At(p.x, e) == At(q.x, e) && At(p.z, e) == At(q.z, e) {
      PositionOf(support, e);
      assert At(Scatter(p.x, support, n), support[e]) == At(Scatter(q.x, support, n), support[e]);
      assert At(Scatter(p.z, support, n), support[e]) == At(Scatter(q.z, support, n), support[e]);
    }
    Same(p.x, q.x);
    Same(p.z, q.z);
  }

  // ----- maps that agree on the generators

  /** A map that respects products and phases of operators on `k` qubits, into any number of qubits. */
  ghost predicate Respects(f: Pauli -> Pauli, k: nat) {
    && (forall p, q {:trigger MulAt(f, p, q)} :: On(p, k) && On(q, k) ==> MulAt(f, p, q))
    && (forall j, p {:trigger RotateAt(f, j, p)} :: On(p, k) ==> RotateAt(f, j, p))
  }

  ghost predicate AgreeOnGenerators(f: Pauli -> Pauli, h: Pauli -> Pauli, k: nat) {
    && f(Identity(k)) == h(Identity(k))
    && forall e: nat :: e < k ==> f(PauliX(k, e)) == h(PauliX(k, e)) && f(PauliZ(k, e)) == h(PauliZ(k, e))
  }

  lemma AgreeAll(f: Pauli -> Pauli, h: Pauli -> Pauli, k: nat)
    requires f(Identity(k)) == h(Identity(k))
    requires forall e: nat :: e < k ==> f(PauliX(k, e)) == h(PauliX(k, e)) && f(PauliZ(k, e)) == h(PauliZ(k, e))
    ensures AgreeOnGenerators(f, h, k)
  {
  }

  lemma {:induction false} AgreeOnX(f: Pauli -> Pauli, h: Pauli -> Pauli, a: Bits, j: nat, k: nat)
    requires Respects(f, k) && Respects(h, k) && AgreeOnGenerators(f, h, k) && |a| == k && j <= k
    ensures f(Pauli(Projective(Prefix(a, j), Zeros(k)), 0)) == h(Pauli(Projective(Prefix(a, j), Zeros(k)), 0))
  {
    if j == 0 {
      Same(Prefix(a, 0), Zeros(k));
    } else {
      AgreeOnX(f, h, a, j - 1, k);
      if a[j - 1] {
        var before := Pauli(Projective(Prefix(a, j - 1), Zeros(k)), 0);
        assert MulAt(f, before, PauliX(k, j - 1)) && MulAt(h, before, PauliX(k, j - 1));
        XorZeros(Zeros(k), k);
        DotZero(Unit(k, j - 1), Zeros(k));
        Same(Xor(Prefix(a, j - 1), Unit(k, j - 1)), Prefix(a, j));
        assert Mul(before, PauliX(k, j - 1)) == Pauli(Projective(Prefix(a, j), Zeros(k)), 0);
      } else {
        Same(Prefix(a, j - 1), Prefix(a, j));
      }
    }
  }

  lemma {:induction false} AgreeOnZ(f: Pauli -> Pauli, h: Pauli -> Pauli, a: Bits, j: nat, k: nat)
    requires Respects(f, k) && Respects(h, k) && AgreeOnGenerators(f, h, k) && |a| == k && j <= k
    ensures f(ZPower(Prefix(a, j))) == h(ZPower(Prefix(a, j)))
  {
    if j == 0 {
      Same(Prefix(a, 0), Zeros(k));
    } else {
      AgreeOnZ(f, h, a, j - 1, k);
      if a[j - 1] {
        var before := ZPower(Prefix(a, j - 1));
        assert MulAt(f, before, PauliZ(k, j - 1)) && MulAt(h, before, PauliZ(k, j - 1));
        XorZeros(Zeros(k), k);
        DotZero(before.z, Zeros(k));
        Same(Xor(Prefix(a, j - 1), Unit(k, j - 1)), Prefix(a, j));
        assert Mul(before, PauliZ(k, j - 1)) == ZPower(Prefix(a, j));
      } else {
        Same(Prefix(a, j - 1), Prefix(a, j));
      }
    }
  }

  /** Maps that respect products and phases and agree on the generators agree on every operator. */
  lemma AgreeEverywhere(f: Pauli -> Pauli, h: Pauli -> Pauli, p: Pauli, k: nat)
    requires Respects(f, k) && Respects(h, k) && AgreeOnGenerators(f, h, k) && On(p, k)
    ensures f(p) == h(p)
  {
    AgreeOnX(f, h, p.x, k, k);
    AgreeOnZ(f, h, p.z, k, k);
    Same(Prefix(p.x, k), p.x);
    Same(Prefix(p.z, k), p.z);
    XThenZ(p, k);
    var xs, zs := Pauli(Projective(p.x, Zeros(k)), 0), ZPower(p.z);
    hide Mul, AgreeOnGenerators;
    assert MulAt(f, xs, zs) && MulAt(h, xs, zs);
    assert On(Mul(xs, zs), k) by { OnRules(k); }
    assert RotateAt(f, p.phase, Mul(xs, zs)) && RotateAt(h, p.phase, Mul(xs, zs));
  }

  // ----- a Clifford unitary on a support

  lemma EmbeddedMul(g: Tableau, support: seq<nat>, p: Pauli, q: Pauli, n: nat)
    requires Valid(g, |support|) && Distinct(support) && Below(support, n) && On(p, |support|) && On(q, |support|)
    ensures |g.x| == |g.z| == |support|
    ensures var u := Embedded(g, support, n);
      && Preimage(u, OnSupport(Mul(p, q), support, n))
         == Mul(Preimage(u, OnSupport(p, support, n)), Preimage(u, OnSupport(q, support, n)))
      && OnSupport(Preimage(g, Mul(p, q)), support, n)
         == Mul(OnSupport(Preimage(g, p), support, n), OnSupport(Preimage(g, q), support, n))
  {
    hide *;
    var k := |support|;
    Sizes(g, k);
    ValidOn(g, k);
    var u := Embedded(g, support, n);
    EmbeddedValid(g, support, n);
    OnSupportMul(p, q, 0, support, n);
    OnSupportRules(p, q, support, n);
    OnSupportRules(q, p, support, n);
    PreimageMul(u, OnSupport(p, support, n), OnSupport(q, support, n), n);
    PreimageMul(g, p, q, k);
    PreimageOn(g, p, k);
    PreimageOn(g, q, k);
    OnSupportMul(Preimage(g, p), Preimage(g, q), 0, support, n);
  }

  lemma EmbeddedRotate(g: Tableau, support: seq<nat>, k: bv2, p: Pauli, n: nat)
    requires Valid(g, |support|) && Distinct(support) && Below(support, n) && On(p, |support|)
    ensures |g.x| == |g.z| == |support|
    ensures var u := Embedded(g, support, n);
      && Preimage(u, OnSupport(Rotate(k, p), support, n)) == Rotate(k, Preimage(u, OnSupport(p, support, n)))
      && OnSupport(Preimage(g, Rotate(k, p)), support, n) == Rotate(k, OnSupport(Preimage(g, p), support, n))
  {
    hide *;
    Sizes(g, |support|);
    ValidOn(g, |support|);
    OnSupportMul(p, p, k, support, n);
    PreimageRotate(Embedded(g, support, n), k, OnSupport(p, support, n));
    PreimageRotate(g, k, p);
    PreimageOn(g, p, |support|);
    OnSupportMul(Preimage(g, p), Preimage(g, p), k, support, n);
  }

  /** Moving to the support, then the embedded gate. */
  ghost function MoveThenGate(g: Tableau, support: seq<nat>, n: nat): Pauli -> Pauli
    requires |support| <= |g.x| && |support| <= |g.z|
  {
    p => Preimage(Embedded(g, support, n), OnSupport(p, support, n))
  }

  /** The gate, then moving to the support. */
  ghost function GateThenMove(g: Tableau, support: seq<nat>, n: nat): Pauli -> Pauli {
    p => OnSupport(Preimage(g, p), support, n)
  }

  lemma MapValues(g: Tableau, support: seq<nat>, p: Pauli, n: nat)
    requires |support| <= |g.x| && |support| <= |g.z|
    ensures MoveThenGate(g, support, n)(p) == Preimage(Embedded(g, support, n), OnSupport(p, support, n))
    ensures GateThenMove(g, support, n)(p) == OnSupport(Preimage(g, p), support, n)
  {
  }

  lemma RespectsAll(f: Pauli -> Pauli, k: nat)
    requires forall p, q {:trigger MulAt(f, p, q)} :: On(p, k) && On(q, k) ==> MulAt(f, p, q)
    requires forall j, p {:trigger RotateAt(f, j, p)} :: On(p, k) ==> RotateAt(f, j, p)
    ensures Respects(f, k)
  {
    hide On;
  }

  lemma RespectsAt(f: Pauli -> Pauli, j: bv2, p: Pauli, q: Pauli)
    ensures f(Mul(p, q)) == Mul(f(p), f(q)) ==> MulAt(f, p, q)
    ensures f(Rotate(j, p)) == Rotate(j, f(p)) ==> RotateAt(f, j, p)
  {
  }

  lemma EmbeddedRespects(g: Tableau, support: seq<nat>, n: nat)
    requires Valid(g, |support|) && Distinct(support) && Below(support, n)
    ensures |g.x| == |g.z| == |support|
    ensures Respects(MoveThenGate(g, support, n), |support|) && Respects(GateThenMove(g, support, n), |support|)
  {
    hide *;
    var k := |support|;
    Sizes(g, k);
    var f, h := MoveThenGate(g, support, n), GateThenMove(g, support, n);
    forall p, q | On(p, k) && On(q, k) ensures MulAt(f, p, q) && MulAt(h, p, q) {
      EmbeddedMul(g, support, p, q, n);
      MapValues(g, support, p, n);
      MapValues(g, support, q, n);
      MapValues(g, support, Mul(p, q), n);
      RespectsAt(f, 0, p, q);
      RespectsAt(h, 0, p, q);
    }
    forall j, p | On(p, k) ensures RotateAt(f, j, p) && RotateAt(h, j, p) {
      EmbeddedRotate(g, support, j, p, n);
      MapValues(g, support, p, n);
      MapValues(g, support, Rotate(j, p), n);
      RespectsAt(f, j, p, p);
      RespectsAt(h, j, p, p);
    }
    RespectsAll(f, k);
    RespectsAll(h, k);
  }

  lemma EmbeddedGenerators(g: Tableau, support: seq<nat>, e: nat, n: nat)
    requires Valid(g, |support|) && Distinct(support) && Below(support, n) && e < |support|
    ensures |g.x| == |g.z| == |support|
    ensures var u := Embedded(g, support, n);
      && Preimage(u, OnSupport(PauliX(|support|, e), support, n))
         == OnSupport(Preimage(g, PauliX(|support|, e)), support, n)
      && Preimage(u, OnSupport(PauliZ(|support|, e), support, n))
         == OnSupport(Preimage(g, PauliZ(|support|, e)), support, n)
  {
    OnSupportGenerators(support, e, n);
    EmbeddedValid(g, support, n);
    PreimageGenerator(Embedded(g, support, n), support[e], n);
    PreimageGenerator(g, e, |support|);
    PositionOf(support, e);
    hide Preimage, PauliX, PauliZ, OnSupport;
  }

  /** On operators of the support the embedded gate is the gate itself, with the phases it gives. */
  lemma EmbeddedActs(g: Tableau, support: seq<nat>, p: Pauli, n: nat)
    requires Valid(g, |support|) && Distinct(support) && Below(support, n) && On(p, |support|)
    ensures |g.x| == |g.z| == |support|
    ensures Preimage(Embedded(g, support, n), OnSupport(p, support, n)) == OnSupport(Preimage(g, p), support, n)
  {
    hide *;
    var k := |support|;
    Sizes(g, k);
    EmbeddedRespects(g, support, n);
    EmbeddedValid(g, support, n);
    var f, h := MoveThenGate(g, support, n), GateThenMove(g, support, n);
    OnSupportIdentity(support, n);
    PreimageOfIdentity(g, k);
    PreimageOfIdentity(Embedded(g, support, n), n);
    MapValues(g, support, Identity(k), n);
    forall e: nat | e < k ensures f(PauliX(k, e)) == h(PauliX(k, e)) && f(PauliZ(k, e)) == h(PauliZ(k, e)) {
      EmbeddedGenerators(g, support, e, n);
      MapValues(g, support, PauliX(k, e), n);
      MapValues(g, support, PauliZ(k, e), n);
    }
    AgreeAll(f, h, k);
    MapValues(g, support, p, n);
    AgreeEverywhere(f, h, p, k);
  }

  lemma PreimageOfIdentity(t: Tableau, n: nat)
    requires Valid(t, n)
    ensures Preimage(t, Identity(n)) == Identity(n)
  {
    PreimageIsHomomorphism(t, n);
    HomomorphismIdentity(p => Preimage(t, p), n);
  }

  /** The embedded gate leaves the qubits outside its support alone. */
  lemma EmbeddedElsewhere(g: Tableau, support: seq<nat>, q: nat, n: nat)
    requires Valid(g, |support|) && Distinct(support) && Below(support, n) && q < n && q !in support
    ensures |g.x| == |g.z| == |support|
    ensures Preimage(Embedded(g, support, n), PauliX(n, q)) == PauliX(n, q)
    ensures Preimage(Embedded(g, support, n), PauliZ(n, q)) == PauliZ(n, q)
  {
    EmbeddedValid(g, support, n);
    PreimageGenerator(Embedded(g, support, n), q, n);
    hide Preimage, PauliX, PauliZ, OnSupport;
  }

  // ----- opcodes as Clifford unitaries on their support

  lemma LocalAccepts(op: UnitaryOp, qubits: seq<nat>, n: nat)
    requires Accepts(op, qubits, n)
    ensures Accepts(op, LocalQubits(op), |qubits|)
  {
  }

  /** Images on one qubit move to the images on the qubit of the support. */
  lemma OneQubitImagesMove(op: UnitaryOp, q: nat, n: nat)
    requires op != I && Arity(op) == 1 && q < n
    ensures OnSupport(OneQubitImages(op, 1, 0).0, [q], n) == OneQubitImages(op, n, q).0
    ensures OnSupport(OneQubitImages(op, 1, 0).1, [q], n) == OneQubitImages(op, n, q).1
  {
    OnSupportGenerators([q], 0, n);
    YIsProduct(1, 0);
    UnitsOn(1, 0);
    forall p | p == PauliX(1, 0) || p == PauliY(1, 0) || p == PauliZ(1, 0)
      ensures OnSupport(Sign(true, p), [q], n) == Sign(true, OnSupport(p, [q], n))
    {
      OnSupportMul(p, p, Half(true), [q], n);
    }
    hide OnSupport, PauliX, PauliY, PauliZ, Rotate, Sign;
  }

  lemma TwoQubitImagesMove(op: UnitaryOp, c: nat, d: nat, n: nat, j: nat)
    requires Arity(op) == 2 && c < n && d < n && c != d && j < 4
    ensures OnSupport(TwoQubitImages(op, 2, 0, 1)[j], [c, d], n) == TwoQubitImages(op, n, c, d)[j]
  {
    var s := [c, d];
    OnSupportGenerators(s, 0, n);
    OnSupportGenerators(s, 1, n);
    UnitsOn(2, 0);
    UnitsOn(2, 1);
    OnSupportMul(PauliX(2, 0), PauliX(2, 1), 0, s, n);
    OnSupportMul(PauliX(2, 0), PauliZ(2, 1), 0, s, n);
    OnSupportMul(PauliZ(2, 0), PauliX(2, 1), 0, s, n);
    OnSupportMul(PauliZ(2, 0), PauliZ(2, 1), 0, s, n);
    hide OnSupport, PauliX, PauliZ, Rotate, Mul, On;
  }

  lemma OneQubitEmbedded(op: UnitaryOp, q: nat, n: nat)
    requires op != I && Arity(op) == 1 && q < n
    ensures Accepts(op, [0], 1) && Accepts(op, [q], n)
    ensures |GateTableau(op, [0], 1).x| == |GateTableau(op, [0], 1).z| == 1
    ensures Embedded(GateTableau(op, [0], 1), [q], n) == GateTableau(op, [q], n)
  {
    OneQubitActs(op, 0, 1);
    OneQubitActs(op, q, n);
    OneQubitImagesMove(op, q, n);
    PositionOf([q], 0);
    hide GateTableau, OneQubitImages, OnSupport, PauliX, PauliZ;
  }

  lemma TwoQubitEmbedded(op: UnitaryOp, c: nat, d: nat, n: nat)
    requires Arity(op) == 2 && c < n && d < n && c != d
    ensures Accepts(op, [0, 1], 2) && Accepts(op, [c, d], n)
    ensures |GateTableau(op, [0, 1], 2).x| == |GateTableau(op, [0, 1], 2).z| == 2
    ensures Embedded(GateTableau(op, [0, 1], 2), [c, d], n) == GateTableau(op, [c, d], n)
  {
    hide *;
    TwoQubitActs(op, 0, 1, 2);
    TwoQubitActs(op, c, d, n);
    TwoQubitImagesMove(op, c, d, n, 0);
    TwoQubitImagesMove(op, c, d, n, 1);
    TwoQubitImagesMove(op, c, d, n, 2);
    TwoQubitImagesMove(op, c, d, n, 3);
    var g, u := GateTableau(op, [0, 1], 2), GateTableau(op, [c, d], n);
    assert [g.x[0], g.z[0], g.x[1], g.z[1]][0] == g.x[0] && [g.x[0], g.z[0], g.x[1], g.z[1]][1] == g.z[0];
    assert [g.x[0], g.z[0], g.x[1], g.z[1]][2] == g.x[1] && [g.x[0], g.z[0], g.x[1], g.z[1]][3] == g.z[1];
    assert [u.x[c], u.z[c], u.x[d], u.z[d]][0] == u.x[c] && [u.x[c], u.z[c], u.x[d], u.z[d]][1] == u.z[c];
    assert [u.x[c], u.z[c], u.x[d], u.z[d]][2] == u.x[d] && [u.x[c], u.z[c], u.x[d], u.z[d]][3] == u.z[d];
    PairEmbedded(g, u, c, d, n);
  }

  lemma PairEmbedded(g: Tableau, u: Tableau, c: nat, d: nat, n: nat)
    requires |g.x| == |g.z| == 2 && |u.x| == |u.z| == n && c < n && d < n && c != d && Fixes(u, [c, d], n)
    requires OnSupport(g.x[0], [c, d], n) == u.x[c] && OnSupport(g.z[0], [c, d], n) == u.z[c]
    requires OnSupport(g.x[1], [c, d], n) == u.x[d] && OnSupport(g.z[1], [c, d], n) == u.z[d]
    ensures Embedded(g, [c, d], n) == u
  {
    PositionOf([c, d], 0);
    PositionOf([c, d], 1);
    hide OnSupport, PauliX, PauliZ;
  }

  lemma IdentityEmbedded(qubits: seq<nat>, n: nat)
    requires Distinct(qubits) && Below(qubits, n)
    ensures Embedded(IdentityTableau(|qubits|), qubits, n) == IdentityTableau(n)
  {
    forall e: nat | e < |qubits|
      ensures OnSupport(PauliX(|qubits|, e), qubits, n) == PauliX(n, qubits[e])
      ensures OnSupport(PauliZ(|qubits|, e), qubits, n) == PauliZ(n, qubits[e])
    {
      OnSupportGenerators(qubits, e, n);
    }
    hide OnSupport, PauliX, PauliZ;
  }

  lemma OpEmbedded(op: UnitaryOp, qubits: seq<nat>, n: nat)
    requires Accepts(op, qubits, n) && Distinct(qubits) && Below(qubits, n)
    ensures Accepts(op, LocalQubits(op), |qubits|)
    ensures var g := GateTableau(op, LocalQubits(op), |qubits|);
      |g.x| == |g.z| == |qubits| && Embedded(g, qubits, n) == GateTableau(op, qubits, n)
  {
    LocalAccepts(op, qubits, n);
    if op == I {
      IdentityActs(LocalQubits(op), |qubits|);
      IdentityActs(qubits, n);
      IdentityEmbedded(qubits, n);
    } else if Arity(op) == 1 {
      assert qubits == [qubits[0]];
      OneQubitEmbedded(op, qubits[0], n);
    } else {
      assert qubits == [qubits[0], qubits[1]];
      TwoQubitEmbedded(op, qubits[0], qubits[1], n);
    }
    hide GateTableau, Embedded;
  }

  /** An opcode is the Clifford unitary of its own tableau applied to its qubits, phases included. */
  lemma CliffordIsOp(t: Tableau, op: UnitaryOp, qubits: seq<nat>, n: nat)
    requires Valid(t, n) && Accepts(op, qubits, n) && Distinct(qubits) && Below(qubits, n)
    ensures Accepts(op, LocalQubits(op), |qubits|) && |t.x| == |t.z| == n
    ensures var g := GateTableau(op, LocalQubits(op), |qubits|);
      |g.x| == |g.z| == |qubits| && LeftMulClifford(t, g, qubits) == LeftMul(t, op, qubits)
  {
    Sizes(t, n);
    OpEmbedded(op, qubits, n);
    GateStep(t, op, qubits, n);
    CliffordComposed(t, GateTableau(op, LocalQubits(op), |qubits|), qubits, n);
    hide GateTableau, Embedded, LeftMulClifford, LeftMul, Compose, Valid;
  }

  // ----- permutations

  /** The qubit that each qubit takes its rows from. */
  function Sources(perm: seq<nat>, support: seq<nat>, n: nat): seq<nat>
    requires |perm| == |support| && Below(perm, |perm|)
  {
    seq(n, q requires 0 <= q => Source(perm, support, q))
  }

  lemma SourcesDistinct(perm: seq<nat>, support: seq<nat>, n: nat)
    requires |perm| == |support| && IsPermutation(perm) && Distinct(support) && Below(support, n)
    ensures Distinct(Sources(perm, support, n)) && Below(Sources(perm, support, n), n)
  {
    forall i: nat, j: nat | i < j < n ensures Source(perm, support, i) != Source(perm, support, j) {
      if Source(perm, support, i) == Source(perm, support, j) {
        SourceInjective(perm, support, i, j);
      }
    }
    forall q: nat | q < n ensures Source(perm, support, q) < n {
      SourceBelow(perm, support, q, n);
    }
    hide Source;
  }

  /** The preimage of a generator is the generator of the qubit that the permutation gives, without any sign. */
  lemma PermutationActs(perm: seq<nat>, support: seq<nat>, e: nat, n: nat)
    requires |perm| == |support| && IsPermutation(perm) && Distinct(support) && Below(support, n) && e < |support|
    ensures var u := LeftMulPermutation(IdentityTableau(n), perm, support);
      && Preimage(u, PauliX(n, support[e])) == PauliX(n, support[perm[e]])
      && Preimage(u, PauliZ(n, support[e])) == PauliZ(n, support[perm[e]])
  {
    IdentityTableauValid(n);
    PermutationValid(IdentityTableau(n), perm, support, n);
    PreimageGenerator(LeftMulPermutation(IdentityTableau(n), perm, support), support[e], n);
    PositionOf(support, e);
    hide Preimage, PauliX, PauliZ, Valid;
  }

  /** A permutation leaves the qubits outside its support alone. */
  lemma PermutationElsewhere(perm: seq<nat>, support: seq<nat>, q: nat, n: nat)
    requires |perm| == |support| && IsPermutation(perm) && Distinct(support) && Below(support, n)
    requires q < n && q !in support
    ensures var u := LeftMulPermutation(IdentityTableau(n), perm, support);
      Preimage(u, PauliX(n, q)) == PauliX(n, q) && Preimage(u, PauliZ(n, q)) == PauliZ(n, q)
  {
    IdentityTableauValid(n);
    PermutationValid(IdentityTableau(n), perm, support, n);
    PreimageGenerator(LeftMulPermutation(IdentityTableau(n), perm, support), q, n);
    hide Preimage, PauliX, PauliZ, Valid;
  }

  /** A permutation relabels the qubits of every operator and keeps its phase. */
  lemma PermutationRelabels(perm: seq<nat>, support: seq<nat>, p: Pauli, n: nat)
    requires |perm| == |support| && IsPermutation(perm) && Distinct(support) && Below(support, n) && On(p, n)
    ensures Preimage(LeftMulPermutation(IdentityTableau(n), perm, support), p)
         == OnSupport(p, Sources(perm, support, n), n)
  {
    var sigma := Sources(perm, support, n);
    SourcesDistinct(perm, support, n);
    IdentityTableauValid(n);
    forall q: nat | q < n
      ensures OnSupport(PauliX(n, q), sigma, n) == PauliX(n, sigma[q])
      ensures OnSupport(PauliZ(n, q), sigma, n) == PauliZ(n, sigma[q])
    {
      OnSupportGenerators(sigma, q, n);
    }
    var f := r => OnSupport(r, sigma, n);
    RelabellingIsHomomorphism(sigma, n);
    assert LeftMulPermutation(IdentityTableau(n), perm, support) == Generated(f, n) by {
      hide OnSupport, PauliX, PauliZ, Source, Preimage, Valid;
    }
    GeneratedPreimage(f, p, n);
  }

  lemma RelabellingIsHomomorphism(sigma: seq<nat>, n: nat)
    requires |sigma| == n && Distinct(sigma) && Below(sigma, n)
    ensures IsHomomorphism(r => OnSupport(r, sigma, n), n)
  {
    var f := r => OnSupport(r, sigma, n);
    hide Mul, Rotate, On, OnSupport;
    forall p | On(p, n) ensures OnAt(f, p, n) {
      OnSupportRules(p, p, sigma, n);
    }
    forall p, q | On(p, n) && On(q, n) ensures MulAt(f, p, q) {
      OnSupportMul(p, q, 0, sigma, n);
    }
    forall k, p | On(p, n) ensures RotateAt(f, k, p) {
      OnSupportMul(p, p, k, sigma, n);
    }
  }

  /** Swapping two qubits is the permutation that exchanges them. */
  lemma SwapIsPermutation(t: Tableau, c: nat, d: nat, n: nat)
    requires |t.x| == |t.z| == n && c < n && d < n && c != d
    ensures LeftMul(t, Swap, [c, d]) == LeftMulPermutation(t, [1, 0], [c, d])
  {
    PositionOf([c, d], 0);
    PositionOf([c, d], 1);
  }
}
