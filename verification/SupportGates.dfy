/** Gates that act on a list of qubits: a Clifford unitary given by its own tableau, and a permutation. */
module SupportGates {
  import opened Bits
  import opened Paulis
  import opened Tableaus
  import opened Measurement
  import opened Gates

  predicate Distinct(s: seq<nat>) {
    forall i, j :: 0 <= i < j < |s| ==> s[i] != s[j]
  }

  predicate Below(s: seq<nat>, n: nat) {
    forall i :: 0 <= i < |s| ==> s[i] < n
  }

  /** The position of `q` in `s`, or -1. */
  function Position(s: seq<nat>, q: nat): (e: int)
    ensures -1 <= e < |s|
    ensures e >= 0 ==> s[e] == q
    ensures e == -1 ==> q !in s
  {
    if s == [] then -1
    else if s[|s| - 1] == q then |s| - 1
    else Position(s[..|s| - 1], q)
  }

  lemma PositionOf(s: seq<nat>, e: nat)
    requires Distinct(s) && e < |s|
    ensures Position(s, s[e]) == e
  {
  }

  // ----- a Clifford unitary on a support

  /** The bits of `a` moved to the qubits of the support. */
  function Scatter(a: Bits, support: seq<nat>, n: nat): Bits {
    seq(n, q requires 0 <= q => var e := Position(support, q); e >= 0 && At(a, e))
  }

  function OnSupport(p: Pauli, support: seq<nat>, n: nat): Pauli {
    Pauli(Projective(Scatter(p.x, support, n), Scatter(p.z, support, n)), p.phase)
  }

  /** The gate on all qubits: the given tableau on the support and the identity elsewhere. */
  function Embedded(g: Tableau, support: seq<nat>, n: nat): Tableau
    requires |support| <= |g.x| && |support| <= |g.z|
  {
    Tableau(
      seq(n, q requires 0 <= q =>
        var e := Position(support, q); if e >= 0 then OnSupport(g.x[e], support, n) else PauliX(n, q)),
      seq(n, q requires 0 <= q =>
        var e := Position(support, q); if e >= 0 then OnSupport(g.z[e], support, n) else PauliZ(n, q)))
  }

  function LeftMulClifford(t: Tableau, g: Tableau, support: seq<nat>): Tableau
    requires |support| <= |g.x| && |support| <= |g.z|
  {
    var n := |t.x|;
    Tableau(
      seq(|t.x|, q requires 0 <= q < |t.x| =>
        var e := Position(support, q); if e >= 0 then Preimage(t, OnSupport(g.x[e], support, n)) else t.x[q]),
      seq(|t.z|, q requires 0 <= q < |t.z| =>
        var e := Position(support, q); if e >= 0 then Preimage(t, OnSupport(g.z[e], support, n)) else t.z[q]))
  }

  /** Moving bits to distinct qubits keeps their pairing. */
  lemma {:induction false} ScatterDot(a: Bits, b: Bits, support: seq<nat>, n: nat)
    requires Distinct(support) && Below(support, n)
    ensures Dot(Scatter(a, support, n), Scatter(b, support, n)) == DotTo(a, b, |support|)
  {
    if support == [] {
      DotZero(Scatter(a, support, n), Scatter(b, support, n));
    } else {
      var k := |support| - 1;
      var rest, q := support[..k], support[k];
      ScatterDot(a, b, rest, n);
      var sa, sb := Scatter(a, rest, n), Scatter(b, rest, n);
      var ua, ub := if At(a, k) then Unit(n, q) else Zeros(n), if At(b, k) then Unit(n, q) else Zeros(n);
      ScatterLast(a, support, n);
      ScatterLast(b, support, n);
      assert Position(rest, q) == -1;
      DotXor(sa, ua, Xor(sb, ub));
      DotXor(sb, ub, sa);
      DotXor(sb, ub, ua);
      DotUnit(sa, n, q);
      DotUnit(sb, n, q);
      DotUnit(Unit(n, q), n, q);
      DotZero(sa, Zeros(n));
      DotZero(sb, Zeros(n));
      DotZero(Unit(n, q), Zeros(n));
      DotZero(Zeros(n), Zeros(n));
    }
  }

  lemma ScatterLast(a: Bits, support: seq<nat>, n: nat)
    requires support != [] && Distinct(support) && Below(support, n)
    ensures var k := |support| - 1;
      Scatter(a, support, n)
      == Xor(Scatter(a, support[..k], n), if At(a, k) then Unit(n, support[k]) else Zeros(n))
  {
    var k := |support| - 1;
    assert Position(support[..k], support[k]) == -1;
    Same(Scatter(a, support, n),
         Xor(Scatter(a, support[..k], n), if At(a, k) then Unit(n, support[k]) else Zeros(n)));
  }

  lemma OnSupportRules(p: Pauli, q: Pauli, support: seq<nat>, n: nat)
    requires Distinct(support) && Below(support, n) && On(p, |support|) && On(q, |support|)
    ensures On(OnSupport(p, support, n), n)
    ensures Anti(OnSupport(p, support, n), OnSupport(q, support, n)) == Anti(p, q)
    ensures IsOrderTwo(OnSupport(p, support, n)) == IsOrderTwo(p)
  {
    ScatterDot(p.x, q.z, support, n);
    ScatterDot(p.z, q.x, support, n);
    ScatterDot(p.x, p.z, support, n);
  }

  /** An operator on the support commutes with the generators of the other qubits. */
  lemma OnSupportElsewhere(p: Pauli, support: seq<nat>, q: nat, n: nat)
    requires q < n && Position(support, q) == -1
    ensures !Anti(OnSupport(p, support, n), PauliX(n, q)) && !Anti(OnSupport(p, support, n), PauliZ(n, q))
    ensures !Anti(PauliX(n, q), OnSupport(p, support, n)) && !Anti(PauliZ(n, q), OnSupport(p, support, n))
  {
    AntiUnits(OnSupport(p, support, n), n, q);
  }

  lemma EmbeddedValid(g: Tableau, support: seq<nat>, n: nat)
    requires Valid(g, |support|) && Distinct(support) && Below(support, n)
    ensures Valid(Embedded(g, support, n), n)
  {
    var u := Embedded(g, support, n);
    forall i, j | 0 <= i < n && 0 <= j < n
      ensures On(u.x[i], n) && On(u.z[i], n) && IsOrderTwo(u.x[i]) && IsOrderTwo(u.z[i])
      ensures !Anti(u.x[i], u.x[j]) && !Anti(u.z[i], u.z[j])
      ensures Anti(u.x[i], u.z[j]) == (i == j)
    {
      EmbeddedPair(g, support, i, j, n);
    }
    hide Embedded, On, IsOrderTwo, Anti;
  }

  lemma EmbeddedPair(g: Tableau, support: seq<nat>, i: nat, j: nat, n: nat)
    requires Valid(g, |support|) && Distinct(support) && Below(support, n) && i < n && j < n
    ensures var u := Embedded(g, support, n);
      && On(u.x[i], n) && On(u.z[i], n) && IsOrderTwo(u.x[i]) && IsOrderTwo(u.z[i])
      && !Anti(u.x[i], u.x[j]) && !Anti(u.z[i], u.z[j])
      && Anti(u.x[i], u.z[j]) == (i == j)
  {
    var e, f := Position(support, i), Position(support, j);
    UnitsAnti(n, i, j);
    if e >= 0 {
      OnSupportRules(g.x[e], g.x[e], support, n);
      OnSupportRules(g.z[e], g.z[e], support, n);
      if f >= 0 {
        OnSupportRules(g.x[e], g.x[f], support, n);
        OnSupportRules(g.z[e], g.z[f], support, n);
        OnSupportRules(g.x[e], g.z[f], support, n);
        PositionOf(support, e);
        PositionOf(support, f);
      } else {
        OnSupportElsewhere(g.x[e], support, j, n);
        OnSupportElsewhere(g.z[e], support, j, n);
      }
    } else if f >= 0 {
      OnSupportElsewhere(g.x[f], support, i, n);
      OnSupportElsewhere(g.z[f], support, i, n);
    }
    hide OnSupport, Anti, IsOrderTwo, PauliX, PauliZ;
  }

  lemma CliffordComposed(t: Tableau, g: Tableau, support: seq<nat>, n: nat)
    requires Valid(t, n) && |support| <= |g.x| && |support| <= |g.z|
    ensures LeftMulClifford(t, g, support) == Compose(t, Embedded(g, support, n))
  {
    RowRules(t, n);
    hide Preimage, OnSupport, On, Mul, Rotate, PauliX, PauliZ;
  }

  lemma StepClifford(t: Tableau, g: Tableau, support: seq<nat>, n: nat)
    requires Valid(t, n) && Valid(g, |support|) && Distinct(support) && Below(support, n)
    ensures |g.x| == |g.z| == |support|
    ensures Step(t, LeftMulClifford(t, g, support), Embedded(g, support, n), n)
  {
    EmbeddedValid(g, support, n);
    CliffordComposed(t, g, support, n);
    ComposePreimage(t, Embedded(g, support, n), n);
    ValidOn(g, |support|);
    hide Valid, LeftMulClifford, Embedded, Compose;
  }

  // ----- permutations

  predicate IsPermutation(perm: seq<nat>) {
    Distinct(perm) && Below(perm, |perm|)
  }

  /** The qubit whose rows end up on `q`. */
  function Source(perm: seq<nat>, support: seq<nat>, q: nat): nat
    requires |perm| == |support| && Below(perm, |perm|)
  {
    var e := Position(support, q);
    if e >= 0 then support[perm[e]] else q
  }

  lemma SourceBelow(perm: seq<nat>, support: seq<nat>, q: nat, n: nat)
    requires |perm| == |support| && Below(perm, |perm|) && Below(support, n) && q < n
    ensures Source(perm, support, q) < n
  {
  }

  /** Each qubit of the support takes the rows of the qubit that the permutation gives it. */
  function LeftMulPermutation(t: Tableau, perm: seq<nat>, support: seq<nat>): Tableau
    requires |t.x| == |t.z| && |perm| == |support| && IsPermutation(perm) && Below(support, |t.x|)
  {
    Tableau(seq(|t.x|, q requires 0 <= q < |t.x| => SourceBelow(perm, support, q, |t.x|); t.x[Source(perm, support, q)]),
            seq(|t.z|, q requires 0 <= q < |t.z| => SourceBelow(perm, support, q, |t.z|); t.z[Source(perm, support, q)]))
  }

  lemma SourceInjective(perm: seq<nat>, support: seq<nat>, i: nat, j: nat)
    requires |perm| == |support| && IsPermutation(perm) && Distinct(support)
    requires Source(perm, support, i) == Source(perm, support, j)
    ensures i == j
  {
    var e, f := Position(support, i), Position(support, j);
    if e >= 0 && f >= 0 {
      assert perm[e] == perm[f];
    }
  }

  lemma StepPermutation(t: Tableau, perm: seq<nat>, support: seq<nat>, n: nat)
    requires Valid(t, n) && |perm| == |support| && IsPermutation(perm) && Distinct(support) && Below(support, n)
    ensures |t.x| == |t.z| == n
    ensures Step(t, LeftMulPermutation(t, perm, support), LeftMulPermutation(IdentityTableau(n), perm, support), n)
  {
    var one := IdentityTableau(n);
    IdentityTableauValid(n);
    PermutationValid(t, perm, support, n);
    PermutationValid(one, perm, support, n);
    PermutationComposed(t, perm, support, n);
    hide Valid, LeftMulPermutation, Compose;
  }

  lemma PermutationValid(t: Tableau, perm: seq<nat>, support: seq<nat>, n: nat)
    requires Valid(t, n) && |perm| == |support| && IsPermutation(perm) && Distinct(support) && Below(support, n)
    ensures |t.x| == |t.z| == n && Valid(LeftMulPermutation(t, perm, support), n)
  {
    forall i: nat, j: nat | i < n && j < n
      ensures Source(perm, support, i) < n && Source(perm, support, j) < n
      ensures Source(perm, support, i) == Source(perm, support, j) <==> i == j
    {
      SourceBelow(perm, support, i, n);
      SourceBelow(perm, support, j, n);
      if Source(perm, support, i) == Source(perm, support, j) {
        SourceInjective(perm, support, i, j);
      }
    }
    hide Source, On, Anti, IsOrderTwo;
  }

  lemma PermutationComposed(t: Tableau, perm: seq<nat>, support: seq<nat>, n: nat)
    requires Valid(t, n) && |perm| == |support| && IsPermutation(perm) && Distinct(support) && Below(support, n)
    ensures |t.x| == |t.z| == n
    ensures LeftMulPermutation(t, perm, support)
         == Compose(t, LeftMulPermutation(IdentityTableau(n), perm, support))
  {
    RowRules(t, n);
    forall q: nat | q < n ensures Source(perm, support, q) < n {
      SourceBelow(perm, support, q, n);
    }
    hide Preimage, Source, On, Mul, Rotate, PauliX, PauliZ;
  }
}
