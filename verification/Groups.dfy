/** Subgroups of the Pauli group: the products of words over a list of generators. */
module Groups {
  import opened Bits
  import opened Paulis
  import opened PauliMutation
  import opened Tableaus
  import opened AffineMaps
  import opened LinearAlgebra
  import opened Spans

  // ----- words and members

  function WordProduct(gens: seq<Pauli>, word: seq<nat>, n: nat): Pauli
    requires forall i :: 0 <= i < |word| ==> word[i] < |gens|
  {
    if word == [] then Identity(n)
    else Mul(WordProduct(gens, word[..|word| - 1], n), gens[word[|word| - 1]])
  }

  ghost predicate IsWord(gens: seq<Pauli>, n: nat, word: seq<nat>, p: Pauli) {
    (forall i :: 0 <= i < |word| ==> word[i] < |gens|) && WordProduct(gens, word, n) == p
  }

  /** An element of the generated group. Generators have finite order, so products of generators suffice. */
  ghost predicate Member(gens: seq<Pauli>, n: nat, p: Pauli) {
    exists word :: IsWord(gens, n, word, p)
  }

  ghost predicate GroupWithin(a: seq<Pauli>, b: seq<Pauli>, n: nat) {
    forall p {:trigger Member(b, n, p)} :: Member(a, n, p) ==> Member(b, n, p)
  }

  lemma MemberIdentity(gens: seq<Pauli>, n: nat)
    ensures Member(gens, n, Identity(n))
  {
    assert IsWord(gens, n, [], Identity(n));
  }

  lemma MemberGenerator(gens: seq<Pauli>, n: nat, i: nat)
    requires AllOn(gens, n) && i < |gens|
    ensures Member(gens, n, gens[i])
  {
    assert [i][..0] == [];
    assert WordProduct(gens, [i][..0], n) == Identity(n);
    MulIdentity(gens[i], n);
    assert IsWord(gens, n, [i], gens[i]);
  }

  lemma {:induction false} WordConcat(gens: seq<Pauli>, a: seq<nat>, b: seq<nat>, n: nat)
    requires AllOn(gens, n)
    requires forall i :: 0 <= i < |a| ==> a[i] < |gens|
    requires forall i :: 0 <= i < |b| ==> b[i] < |gens|
    ensures WordProduct(gens, a + b, n) == Mul(WordProduct(gens, a, n), WordProduct(gens, b, n))
    ensures On(WordProduct(gens, a, n), n)
    decreases |b|, |a|
  {
    if b == [] {
      assert a + b == a;
      if a != [] {
        WordConcat(gens, a[..|a| - 1], [], n);
      }
      MulIdentity(WordProduct(gens, a, n), n);
    } else {
      var front := b[..|b| - 1];
      WordConcat(gens, a, front, n);
      assert (a + b)[..|a + b| - 1] == a + front;
      MulAssoc(WordProduct(gens, a, n), WordProduct(gens, front, n), gens[b[|b| - 1]]);
    }
  }

  lemma MemberOn(gens: seq<Pauli>, n: nat, p: Pauli)
    requires AllOn(gens, n) && Member(gens, n, p)
    ensures On(p, n)
  {
    var word :| IsWord(gens, n, word, p);
    WordConcat(gens, word, [], n);
  }

  lemma MemberMul(gens: seq<Pauli>, n: nat, p: Pauli, q: Pauli)
    requires AllOn(gens, n) && Member(gens, n, p) && Member(gens, n, q)
    ensures Member(gens, n, Mul(p, q))
  {
    var a :| IsWord(gens, n, a, p);
    var b :| IsWord(gens, n, b, q);
    WordConcat(gens, a, b, n);
    assert IsWord(gens, n, a + b, Mul(p, q));
  }

  /** The inverse is the cube, since every fourth power is the identity. */
  lemma InverseIsCube(p: Pauli, n: nat)
    requires On(p, n)
    ensures Mul(p, Mul(p, p)) == Inverted(p)
  {
    var square := Mul(p, p);
    Square(p, n);
    InverseIsInverse(p, n);
    SignMul(false, !IsOrderTwo(p), p, Identity(n));
    MulIdentity(p, n);
    SignFalse(p);
    assert Mul(p, square) == Sign(!IsOrderTwo(p), p);
  }

  lemma MemberInverse(gens: seq<Pauli>, n: nat, p: Pauli)
    requires AllOn(gens, n) && Member(gens, n, p)
    ensures Member(gens, n, Inverted(p))
  {
    MemberOn(gens, n, p);
    InverseIsCube(p, n);
    MemberMul(gens, n, p, p);
    MemberMul(gens, n, p, Mul(p, p));
  }

  lemma {:induction false} SubsetProductMember(gens: seq<Pauli>, c: Bits, k: nat, n: nat)
    requires AllOn(gens, n) && k <= |gens|
    ensures Member(gens, n, Product(gens, c, k, n))
  {
    if k == 0 {
      MemberIdentity(gens, n);
    } else {
      SubsetProductMember(gens, c, k - 1, n);
      MemberGenerator(gens, n, k - 1);
      MemberMul(gens, n, Product(gens, c, k - 1, n), gens[k - 1]);
    }
  }

  /** A group is inside another one as soon as its generators are. */
  lemma GeneratorsWithin(a: seq<Pauli>, b: seq<Pauli>, n: nat)
    requires AllOn(a, n) && AllOn(b, n) && forall i :: 0 <= i < |a| ==> Member(b, n, a[i])
    ensures GroupWithin(a, b, n)
  {
    forall p | Member(a, n, p) ensures Member(b, n, p) {
      var word :| IsWord(a, n, word, p);
      WordWithin(a, b, n, word);
    }
  }

  lemma {:induction false} WordWithin(a: seq<Pauli>, b: seq<Pauli>, n: nat, word: seq<nat>)
    requires AllOn(a, n) && AllOn(b, n) && forall i :: 0 <= i < |a| ==> Member(b, n, a[i])
    requires forall i :: 0 <= i < |word| ==> word[i] < |a|
    ensures Member(b, n, WordProduct(a, word, n))
  {
    if word == [] {
      MemberIdentity(b, n);
    } else {
      WordWithin(a, b, n, word[..|word| - 1]);
      MemberMul(b, n, WordProduct(a, word[..|word| - 1], n), a[word[|word| - 1]]);
    }
  }

  lemma WithinChain(a: seq<Pauli>, b: seq<Pauli>, c: seq<Pauli>, n: nat)
    requires GroupWithin(a, b, n) && GroupWithin(b, c, n)
    ensures GroupWithin(a, c, n)
  {
    forall p | Member(a, n, p) ensures Member(c, n, p) {
      assert Member(b, n, p);
    }
  }

  // ----- bits of members

  /** X bits, then Z bits. */
  function AsRow(p: Projective): Bits {
    p.x + p.z
  }

  function FromRow(row: Bits, n: nat): Projective
    requires |row| == 2 * n
  {
    Projective(row[..n], row[n..])
  }

  function RowsOf(gens: seq<Pauli>): seq<Bits> {
    seq(|gens|, j requires 0 <= j < |gens| => AsRow(gens[j].bits))
  }

  lemma RowRoundTrip(p: Projective, n: nat)
    requires ProjectiveOn(p, n)
    ensures |AsRow(p)| == 2 * n && FromRow(AsRow(p), n) == p
  {
  }

  lemma FromRowOn(row: Bits, n: nat)
    requires |row| == 2 * n
    ensures ProjectiveOn(FromRow(row, n), n) && AsRow(FromRow(row, n)) == row
  {
  }

  lemma RowOfSum(p: Projective, q: Projective, n: nat)
    requires ProjectiveOn(p, n) && ProjectiveOn(q, n)
    ensures AsRow(Sum(p, q)) == Xor(AsRow(p), AsRow(q))
  {
    Same(AsRow(Sum(p, q)), Xor(AsRow(p), AsRow(q)));
  }

  lemma RowsRectangular(gens: seq<Pauli>, n: nat)
    requires AllOn(gens, n)
    ensures Rectangular(RowsOf(gens), 2 * n)
  {
  }

  lemma RowOfIdentity(n: nat)
    ensures AsRow(IdentityBits(n)) == Zeros(2 * n)
  {
    Same(AsRow(IdentityBits(n)), Zeros(2 * n));
  }

  /** The bits of a product of some of the generators are the sum of their rows. */
  lemma {:induction false} ProductRow(gens: seq<Pauli>, c: Bits, k: nat, n: nat)
    requires AllOn(gens, n) && k <= |gens|
    ensures On(Product(gens, c, k, n), n)
    ensures AsRow(Product(gens, c, k, n).bits) == SelectedSum(RowsOf(gens), c, 2 * n, k)
  {
    if k == 0 {
      RowOfIdentity(n);
    } else {
      ProductRow(gens, c, k - 1, n);
      RowOfSum(Product(gens, c, k - 1, n).bits, gens[k - 1].bits, n);
    }
  }

  /** How often each generator occurs in a word, modulo two. */
  function Occurs(word: seq<nat>, m: nat): Bits {
    if word == [] then Zeros(m) else Xor(Occurs(word[..|word| - 1], m), Unit(m, word[|word| - 1]))
  }

  lemma OccursSize(word: seq<nat>, m: nat)
    ensures |Occurs(word, m)| == m
  {
  }

  lemma {:induction false} WordRow(gens: seq<Pauli>, word: seq<nat>, n: nat)
    requires AllOn(gens, n) && forall i :: 0 <= i < |word| ==> word[i] < |gens|
    ensures On(WordProduct(gens, word, n), n)
    ensures AsRow(WordProduct(gens, word, n).bits) == Combo(RowsOf(gens), Occurs(word, |gens|), 2 * n)
  {
    var m := |gens|;
    RowsRectangular(gens, n);
    if word == [] {
      RowOfIdentity(n);
      SumOfZero(RowsOf(gens), Zeros(m), 2 * n, m);
    } else {
      var front, last := word[..|word| - 1], word[|word| - 1];
      WordRow(gens, front, n);
      RowOfSum(WordProduct(gens, front, n).bits, gens[last].bits, n);
      SumXor(RowsOf(gens), Occurs(front, m), Unit(m, last), 2 * n, m);
      SumUnit(RowsOf(gens), m, last, 2 * n, m);
    }
  }

  lemma MemberSpan(gens: seq<Pauli>, n: nat, p: Pauli)
    requires AllOn(gens, n) && Member(gens, n, p)
    ensures InSpan(RowsOf(gens), 2 * n, AsRow(p.bits))
  {
    var word :| IsWord(gens, n, word, p);
    WordRow(gens, word, n);
    OccursSize(word, |gens|);
    ComboInSpan(RowsOf(gens), Occurs(word, |gens|), 2 * n);
  }

  // ----- phases

  function PhaseElement(k: bv2, n: nat): Pauli {
    Rotate(k, Identity(n))
  }

  ghost predicate HasPhase(gens: seq<Pauli>, n: nat, k: bv2) {
    Member(gens, n, PhaseElement(k, n))
  }

  lemma TimesPhase(p: Pauli, k: bv2, n: nat)
    requires On(p, n)
    ensures Mul(p, PhaseElement(k, n)) == Rotate(k, p) && Mul(PhaseElement(k, n), p) == Rotate(k, p)
  {
    RotateMul(k, p, Identity(n));
    RotateMul(k, Identity(n), p);
    MulIdentity(p, n);
  }

  lemma PhasesAdd(gens: seq<Pauli>, n: nat, j: bv2, k: bv2)
    requires AllOn(gens, n) && HasPhase(gens, n, j) && HasPhase(gens, n, k)
    ensures HasPhase(gens, n, j + k)
  {
    MemberMul(gens, n, PhaseElement(j, n), PhaseElement(k, n));
    TimesPhase(PhaseElement(j, n), k, n);
  }

  lemma OddPhaseGivesAll(gens: seq<Pauli>, n: nat, j: bv2, k: bv2)
    requires AllOn(gens, n) && HasPhase(gens, n, j) && j & 1 == 1
    ensures HasPhase(gens, n, k)
  {
    MemberIdentity(gens, n);
    assert PhaseElement(0, n) == Identity(n);
    PhasesAdd(gens, n, j, j);
    PhasesAdd(gens, n, j + j, j);
    assert j + j == 2 && (k == 0 || k == 2 || k == j || k == j + j + j);
  }

  /** With one element, exactly the multiples of it by phases of the group are in the group. */
  lemma SameBitsDifferByPhase(gens: seq<Pauli>, n: nat, p: Pauli, q: Pauli)
    requires AllOn(gens, n) && On(q, n) && Member(gens, n, p) && p.bits == q.bits
    ensures Member(gens, n, q) <==> HasPhase(gens, n, q.phase - p.phase)
  {
    MemberOn(gens, n, p);
    var k := q.phase - p.phase;
    assert q == Rotate(k, p);
    TimesPhase(p, k, n);
    if HasPhase(gens, n, k) {
      MemberMul(gens, n, p, PhaseElement(k, n));
    }
    if Member(gens, n, q) {
      MemberInverse(gens, n, p);
      MemberMul(gens, n, q, Inverted(p));
      InverseIsInverse(p, n);
      RotateMul(k, p, Inverted(p));
    }
    hide Mul, Inverted;
  }

  predicate OddPhase(p: Pauli) {
    p.phase & 1 == 1
  }

  lemma OddMul(p: Pauli, q: Pauli)
    ensures OddPhase(Mul(p, q)) == (OddPhase(p) != OddPhase(q))
  {
  }

  function OddPhases(gens: seq<Pauli>): Bits {
    seq(|gens|, j requires 0 <= j < |gens| => OddPhase(gens[j]))
  }

  /** Whether the phase is odd is additive, whatever commutes. */
  lemma {:induction false} ProductOdd(gens: seq<Pauli>, c: Bits, k: nat, n: nat)
    requires k <= |gens|
    ensures OddPhase(Product(gens, c, k, n)) == DotTo(c, OddPhases(gens), k)
  {
    if k > 0 {
      ProductOdd(gens, c, k - 1, n);
      OddMul(Product(gens, c, k - 1, n), gens[k - 1]);
      hide Mul, OddPhase;
    }
  }

  lemma {:induction false} WordOdd(gens: seq<Pauli>, word: seq<nat>, n: nat)
    requires forall i :: 0 <= i < |word| ==> word[i] < |gens|
    ensures OddPhase(WordProduct(gens, word, n)) == Dot(Occurs(word, |gens|), OddPhases(gens))
  {
    var m := |gens|;
    if word == [] {
      DotZero(OddPhases(gens), Zeros(m));
    } else {
      var front, last := word[..|word| - 1], word[|word| - 1];
      WordOdd(gens, front, n);
      OddMul(WordProduct(gens, front, n), gens[last]);
      DotXor(Occurs(front, m), Unit(m, last), OddPhases(gens));
      DotUnit(OddPhases(gens), m, last);
      hide Mul, OddPhase, Dot;
    }
  }

  // ----- commuting generators of order two

  predicate AllCommute(gens: seq<Pauli>) {
    forall i, j :: 0 <= i < |gens| && 0 <= j < |gens| ==> !Anti(gens[i], gens[j])
  }

  predicate AllOrderTwo(gens: seq<Pauli>) {
    forall i :: 0 <= i < |gens| ==> IsOrderTwo(gens[i])
  }

  /** Over commuting generators of order two a word is the product of the generators that occur an odd number of times. */
  lemma {:induction false} WordIsProduct(gens: seq<Pauli>, word: seq<nat>, n: nat)
    requires AllOn(gens, n) && AllCommute(gens) && AllOrderTwo(gens)
    requires forall i :: 0 <= i < |word| ==> word[i] < |gens|
    ensures WordProduct(gens, word, n) == Product(gens, Occurs(word, |gens|), |gens|, n)
  {
    var m := |gens|;
    if word == [] {
      ProductZero(gens, Zeros(m), m, n);
    } else {
      var front, last := word[..|word| - 1], word[|word| - 1];
      WordIsProduct(gens, front, n);
      ProductXor(gens, Occurs(front, m), Unit(m, last), m, n);
      ProductUnit(gens, last, m, m, n);
      hide Mul, Anti, IsOrderTwo, On;
    }
  }

  /** An element that does not square to the identity squares to minus the identity. */
  lemma SquareGivesSign(gens: seq<Pauli>, n: nat, p: Pauli)
    requires AllOn(gens, n) && Member(gens, n, p) && !IsOrderTwo(p)
    ensures HasPhase(gens, n, 2)
  {
    MemberOn(gens, n, p);
    MemberMul(gens, n, p, p);
    Square(p, n);
  }

  /** Two anticommuting elements give minus the identity. */
  lemma CommutatorGivesSign(gens: seq<Pauli>, n: nat, p: Pauli, q: Pauli)
    requires AllOn(gens, n) && Member(gens, n, p) && Member(gens, n, q) && Anti(p, q)
    ensures HasPhase(gens, n, 2)
  {
    MemberMul(gens, n, p, q);
    MemberMul(gens, n, q, p);
    MulComm(p, q);
    MemberOn(gens, n, Mul(q, p));
    SameBitsDifferByPhase(gens, n, Mul(q, p), Mul(p, q));
    hide Mul, Anti;
  }
}
