/** Symplectic Gram-Schmidt: generators rearranged into anticommuting pairs followed by commuting elements. */
module SymplecticForms {
  import opened Bits
  import opened Paulis
  import opened PauliMutation
  import opened Tableaus
  import opened Groups
  import opened GroupEquality

  /** The first `pairs` consecutive pairs anticommute; every other two elements commute. */
  ghost predicate IsSymplectic(list: seq<Pauli>, pairs: nat) {
    && 2 * pairs <= |list|
    && forall i, j :: 0 <= i < j < |list| ==> PairAt(list, pairs, i, j)
  }

  ghost predicate PairAt(list: seq<Pauli>, pairs: nat, i: nat, j: nat)
    requires i < j < |list|
  {
    Anti(list[i], list[j]) <==> i % 2 == 0 && j == i + 1 && j < 2 * pairs
  }

  ghost predicate Commutes(a: seq<Pauli>, b: seq<Pauli>) {
    forall i, j :: 0 <= i < |a| && 0 <= j < |b| ==> !Anti(a[i], b[j])
  }

  // ----- one element against a pair

  /** The element made to commute with the anticommuting pair. */
  function Fix(g: Pauli, x: Pauli, z: Pauli): Pauli {
    var first := if Anti(g, x) then Mul(g, z) else g;
    if Anti(first, z) then Mul(first, x) else first
  }

  lemma FixCommutes(g: Pauli, x: Pauli, z: Pauli)
    requires Anti(x, z)
    ensures !Anti(Fix(g, x, z), x) && !Anti(Fix(g, x, z), z)
  {
    AntiSelf(x);
    AntiSelf(z);
    AntiSym(x, z);
    AntiMul(g, z, x);
    AntiMul(g, z, z);
    var first := if Anti(g, x) then Mul(g, z) else g;
    AntiMul(first, x, x);
    AntiMul(first, x, z);
    hide Mul, Anti;
  }

  /** What commutes with the pair does not see the change. */
  lemma FixUnseen(g: Pauli, x: Pauli, z: Pauli, y: Pauli)
    requires !Anti(x, y) && !Anti(z, y)
    ensures Anti(Fix(g, x, z), y) == Anti(g, y)
  {
    AntiMul(g, z, y);
    var first := if Anti(g, x) then Mul(g, z) else g;
    AntiMul(first, x, y);
    hide Mul, Anti;
  }

  lemma FixOn(g: Pauli, x: Pauli, z: Pauli, n: nat)
    requires On(g, n) && On(x, n) && On(z, n)
    ensures On(Fix(g, x, z), n)
  {
  }

  lemma FixMember(gens: seq<Pauli>, n: nat, g: Pauli, x: Pauli, z: Pauli)
    requires AllOn(gens, n) && On(g, n) && Member(gens, n, x) && Member(gens, n, z)
    ensures Member(gens, n, Fix(g, x, z)) <==> Member(gens, n, g)
  {
    MemberOn(gens, n, x);
    MemberOn(gens, n, z);
    var first := if Anti(g, x) then Mul(g, z) else g;
    FactorMember(gens, n, g, z);
    assert On(first, n);
    FactorMember(gens, n, first, x);
    hide Mul, Anti, Member;
  }

  lemma FactorMember(gens: seq<Pauli>, n: nat, g: Pauli, m: Pauli)
    requires AllOn(gens, n) && On(g, n) && Member(gens, n, m)
    ensures Member(gens, n, Mul(g, m)) <==> Member(gens, n, g)
  {
    MemberOn(gens, n, m);
    MemberInverse(gens, n, m);
    InverseIsInverse(m, n);
    MulAssoc(g, m, Inverted(m));
    MulIdentity(g, n);
    if Member(gens, n, g) {
      MemberMul(gens, n, g, m);
    }
    if Member(gens, n, Mul(g, m)) {
      MemberMul(gens, n, Mul(g, m), Inverted(m));
    }
    hide Mul, Inverted;
  }

  // ----- lists

  function SwapRemove(s: seq<Pauli>, index: nat): seq<Pauli>
    requires index < |s|
  {
    s[index := s[|s| - 1]][..|s| - 1]
  }

  lemma SwapRemoveKeeps(s: seq<Pauli>, index: nat)
    requires index < |s|
    ensures forall p :: p in SwapRemove(s, index) ==> p in s
    ensures forall p :: p in s ==> p == s[index] || p in SwapRemove(s, index)
    ensures forall j :: 0 <= j < index < |s| - 1 ==> SwapRemove(s, index)[j] == s[j]
    ensures forall j :: 0 <= j < index && index == |s| - 1 ==> SwapRemove(s, index)[j] == s[j]
  {
    var r := SwapRemove(s, index);
    forall p | p in s ensures p == s[index] || p in r {
      var k :| 0 <= k < |s| && s[k] == p;
      if k != index {
        assert if k == |s| - 1 then r[index] == p else r[k] == p;
      }
    }
    forall p | p in r ensures p in s {
      var k :| 0 <= k < |r| && r[k] == p;
      assert p == if k == index then s[|s| - 1] else s[k];
    }
  }

  function FixAll(s: seq<Pauli>, x: Pauli, z: Pauli): seq<Pauli> {
    seq(|s|, j requires 0 <= j < |s| => Fix(s[j], x, z))
  }

  /** The first element that anticommutes with `x`, or the length of the list. */
  method PositionOfAnticommuting(s: seq<Pauli>, x: Pauli) returns (index: nat)
    ensures index <= |s| && (index < |s| ==> Anti(x, s[index]))
    ensures forall j :: 0 <= j < index ==> !Anti(x, s[j])
  {
    index := 0;
    while index < |s| && !Anti(x, s[index])
      invariant index <= |s| && forall j :: 0 <= j < index ==> !Anti(x, s[j])
    {
      index := index + 1;
    }
    hide Anti;
  }

  /**
   * Two loops: elements from `index` on are compared with both members of the pair, those before it only with `z`,
   * since they commute with `x` already.
   */
  method FixGenerators(s: seq<Pauli>, index: nat, x: Pauli, z: Pauli) returns (fixed: seq<Pauli>)
    requires index <= |s| && forall j :: 0 <= j < index ==> !Anti(s[j], x)
    ensures fixed == FixAll(s, x, z)
  {
    fixed := s;
    hide Anti, Mul;
    for j := index to |s|
      invariant |fixed| == |s|
      invariant forall k :: 0 <= k < |s| ==> fixed[k] == if index <= k < j then Fix(s[k], x, z) else s[k]
    {
      if Anti(fixed[j], x) {
        fixed := fixed[j := Mul(fixed[j], z)];
      }
      if Anti(fixed[j], z) {
        fixed := fixed[j := Mul(fixed[j], x)];
      }
    }
    for j := 0 to index
      invariant |fixed| == |s|
      invariant forall k :: 0 <= k < |s| ==> fixed[k] == if index <= k || k < j then Fix(s[k], x, z) else s[k]
    {
      if Anti(fixed[j], z) {
        fixed := fixed[j := Mul(fixed[j], x)];
      }
    }
  }

  // ----- the group stays the same

  lemma SameElementsWithin(a: seq<Pauli>, b: seq<Pauli>, n: nat)
    requires AllOn(a, n) && AllOn(b, n) && forall p :: p in a ==> p in b
    ensures GroupWithin(a, b, n)
  {
    forall i | 0 <= i < |a| ensures Member(b, n, a[i]) {
      assert a[i] in b;
      var k :| 0 <= k < |b| && b[k] == a[i];
      MemberGenerator(b, n, k);
    }
    GeneratorsWithin(a, b, n);
  }

  lemma ElementIsMember(a: seq<Pauli>, n: nat, p: Pauli)
    requires AllOn(a, n) && p in a
    ensures Member(a, n, p) && On(p, n)
  {
    var k :| 0 <= k < |a| && a[k] == p;
    MemberGenerator(a, n, k);
  }

  /** Taking the pair out and fixing the rest keeps the group. */
  lemma PairKeepsGroup(gens: seq<Pauli>, index: nat, x: Pauli, rest: seq<Pauli>, n: nat)
    requires index < |gens| && AllOn(gens, n) && On(x, n) && AllOn(rest, n)
    ensures var z := gens[index];
      var before, after := gens + [x] + rest, FixAll(SwapRemove(gens, index), x, z) + [x, z] + rest;
      AllOn(after, n) && SameGroup(before, after, n)
  {
    var z := gens[index];
    var r := SwapRemove(gens, index);
    SwapRemoveKeeps(gens, index);
    var before, after := gens + [x] + rest, FixAll(r, x, z) + [x, z] + rest;
    forall p | p in after ensures On(p, n) {
      AfterOn(gens, r, x, z, rest, p, n);
    }
    assert AllOn(after, n) && AllOn(before, n);
    forall p | p in before ensures p == x || p in gens || p in rest {
    }
    ElementIsMember(before, n, x);
    assert z in before && x in after && z in after;
    ElementIsMember(before, n, z);
    ElementIsMember(after, n, x);
    ElementIsMember(after, n, z);
    forall i | 0 <= i < |after| ensures Member(before, n, after[i]) {
      AfterInBefore(gens, r, x, z, rest, before, after, i, n);
    }
    GeneratorsWithin(after, before, n);
    forall i | 0 <= i < |before| ensures Member(after, n, before[i]) {
      BeforeInAfter(gens, r, x, z, rest, before, after, i, n);
    }
    GeneratorsWithin(before, after, n);
  }

  lemma AfterOn(gens: seq<Pauli>, r: seq<Pauli>, x: Pauli, z: Pauli, rest: seq<Pauli>, p: Pauli, n: nat)
    requires AllOn(gens, n) && AllOn(rest, n) && On(x, n) && On(z, n) && (forall q :: q in r ==> q in gens)
    requires p in FixAll(r, x, z) + [x, z] + rest
    ensures On(p, n)
  {
    if p in FixAll(r, x, z) {
      var k :| 0 <= k < |r| && p == Fix(r[k], x, z);
      assert r[k] in gens;
      FixOn(r[k], x, z, n);
    }
  }

  lemma AfterInBefore(gens: seq<Pauli>, r: seq<Pauli>, x: Pauli, z: Pauli, rest: seq<Pauli>, before: seq<Pauli>,
                      after: seq<Pauli>, i: nat, n: nat)
    requires before == gens + [x] + rest && after == FixAll(r, x, z) + [x, z] + rest && i < |after|
    requires AllOn(before, n) && (forall q :: q in r ==> q in gens) && Member(before, n, x) && Member(before, n, z)
    ensures Member(before, n, after[i])
  {
    if i < |r| {
      assert r[i] in gens;
      assert r[i] in before;
      ElementIsMember(before, n, r[i]);
      FixMember(before, n, r[i], x, z);
    } else if i >= |r| + 2 {
      assert after[i] in rest;
      assert after[i] in before;
      ElementIsMember(before, n, after[i]);
    }
  }

  lemma BeforeInAfter(gens: seq<Pauli>, r: seq<Pauli>, x: Pauli, z: Pauli, rest: seq<Pauli>, before: seq<Pauli>,
                      after: seq<Pauli>, i: nat, n: nat)
    requires before == gens + [x] + rest && after == FixAll(r, x, z) + [x, z] + rest && i < |before|
    requires AllOn(before, n) && AllOn(after, n) && (forall q :: q in gens ==> q == z || q in r)
    requires Member(after, n, x) && Member(after, n, z)
    ensures Member(after, n, before[i])
  {
    var p := before[i];
    if i < |gens| {
      assert p in gens;
      if p != z {
        var k :| 0 <= k < |r| && r[k] == p;
        assert after[k] == Fix(p, x, z);
        ElementIsMember(after, n, after[k]);
        FixMember(after, n, p, x, z);
      }
    } else if i > |gens| {
      assert p in rest;
      assert p in after;
      ElementIsMember(after, n, p);
    }
  }

  // ----- the loop

  /** Pairs so far, commuting elements so far, and generators that are left; everything left commutes with the rest. */
  ghost predicate Progress(gens: seq<Pauli>, conj: seq<Pauli>, comm: seq<Pauli>) {
    && |conj| % 2 == 0 && IsSymplectic(conj, |conj| / 2)
    && Commutes(conj, gens) && Commutes(conj, comm) && Commutes(comm, gens) && Commutes(comm, comm)
  }

  lemma TakeCommuting(gens: seq<Pauli>, conj: seq<Pauli>, comm: seq<Pauli>)
    requires gens != [] && Progress(gens, conj, comm)
    requires var x := gens[|gens| - 1]; forall j :: 0 <= j < |gens| - 1 ==> !Anti(x, gens[j])
    ensures Progress(gens[..|gens| - 1], conj, comm + [gens[|gens| - 1]])
  {
    var x := gens[|gens| - 1];
    AntiSelf(x);
    forall i | 0 <= i < |comm| ensures !Anti(x, comm[i]) && !Anti(comm[i], x) {
      AntiSym(x, comm[i]);
    }
    hide Anti, IsSymplectic;
    assert forall i :: 0 <= i < |conj| ==> !Anti(conj[i], x);
  }

  lemma AppendPair(conj: seq<Pauli>, x: Pauli, z: Pauli)
    requires |conj| % 2 == 0 && IsSymplectic(conj, |conj| / 2) && Anti(x, z)
    requires forall i :: 0 <= i < |conj| ==> !Anti(conj[i], x) && !Anti(conj[i], z)
    ensures IsSymplectic(conj + [x, z], |conj| / 2 + 1)
  {
    var longer, pairs, more := conj + [x, z], |conj| / 2, |conj| / 2 + 1;
    hide Anti;
    forall i, j | 0 <= i < j < |longer| ensures PairAt(longer, more, i, j) {
      if j < |conj| {
        assert PairAt(conj, pairs, i, j);
        assert longer[i] == conj[i] && longer[j] == conj[j];
      } else if i < |conj| {
        assert longer[i] == conj[i];
      }
    }
  }

  lemma TakePair(gens: seq<Pauli>, conj: seq<Pauli>, comm: seq<Pauli>, index: nat)
    requires gens != [] && Progress(gens, conj, comm) && index < |gens| - 1
    requires Anti(gens[|gens| - 1], gens[index])
    ensures var front, x, z := gens[..|gens| - 1], gens[|gens| - 1], gens[index];
      Progress(FixAll(SwapRemove(front, index), x, z), conj + [x, z], comm)
  {
    var front, x, z := gens[..|gens| - 1], gens[|gens| - 1], gens[index];
    var r := SwapRemove(front, index);
    SwapRemoveKeeps(front, index);
    var fixed := FixAll(r, x, z);
    hide Anti, IsSymplectic, Fix, SwapRemove;
    assert forall i :: 0 <= i < |conj| ==> !Anti(conj[i], x) && !Anti(conj[i], z);
    AppendPair(conj, x, z);
    forall i, k | 0 <= i < |conj + [x, z]| && 0 <= k < |fixed| ensures !Anti((conj + [x, z])[i], fixed[k]) {
      FixedCommutes(gens, conj, x, z, r, i, k);
    }
    forall i, k | 0 <= i < |comm| && 0 <= k < |fixed| ensures !Anti(comm[i], fixed[k]) {
      assert r[k] in front;
      UnseenBy(gens, comm, i, x, z, r[k]);
    }
    forall i, k | 0 <= i < |conj + [x, z]| && 0 <= k < |comm| ensures !Anti((conj + [x, z])[i], comm[k]) {
      if i == |conj| {
        AntiSym(x, comm[k]);
      } else if i == |conj| + 1 {
        AntiSym(z, comm[k]);
      }
    }
    assert (|conj| + 2) / 2 == |conj| / 2 + 1;
  }

  /** An element that commutes with all generators commutes with a fixed one. */
  lemma UnseenBy(gens: seq<Pauli>, others: seq<Pauli>, i: nat, x: Pauli, z: Pauli, g: Pauli)
    requires Commutes(others, gens) && i < |others| && x in gens && z in gens && g in gens
    ensures !Anti(others[i], Fix(g, x, z))
  {
    var y := others[i];
    forall p | p in gens ensures !Anti(y, p) && !Anti(p, y) {
      var k :| 0 <= k < |gens| && gens[k] == p;
      AntiSym(p, y);
    }
    FixUnseen(g, x, z, y);
    AntiSym(y, Fix(g, x, z));
    hide Anti, Fix;
  }

  lemma FixedCommutes(gens: seq<Pauli>, conj: seq<Pauli>, x: Pauli, z: Pauli, r: seq<Pauli>, i: nat, k: nat)
    requires Commutes(conj, gens) && Anti(x, z) && x in gens && z in gens && (forall p :: p in r ==> p in gens)
    requires i < |conj| + 2 && k < |r|
    ensures !Anti((conj + [x, z])[i], Fix(r[k], x, z))
  {
    assert r[k] in r;
    if i < |conj| {
      UnseenBy(gens, conj, i, x, z, r[k]);
    } else {
      FixCommutes(r[k], x, z);
      AntiSym(x, Fix(r[k], x, z));
      AntiSym(z, Fix(r[k], x, z));
    }
    hide Anti, Fix;
  }

  lemma FinalForm(conj: seq<Pauli>, comm: seq<Pauli>)
    requires Progress([], conj, comm)
    ensures IsSymplectic(conj + comm, |conj| / 2)
  {
    var list, pairs := conj + comm, |conj| / 2;
    hide Anti;
    forall i, j | 0 <= i < j < |list| ensures PairAt(list, pairs, i, j) {
      if j < |conj| {
        assert PairAt(conj, pairs, i, j);
      } else {
        assert list[j] == comm[j - |conj|];
        assert list[i] == if i < |conj| then conj[i] else comm[i - |conj|];
      }
    }
  }

  lemma SameGroupChain(a: seq<Pauli>, b: seq<Pauli>, c: seq<Pauli>, n: nat)
    requires SameGroup(a, b, n) && SameGroup(b, c, n)
    ensures SameGroup(a, c, n)
  {
    WithinChain(a, b, c, n);
    WithinChain(c, b, a, n);
  }

  lemma SameElementsSameGroup(a: seq<Pauli>, b: seq<Pauli>, n: nat)
    requires AllOn(a, n) && (forall p :: p in a ==> p in b) && (forall p :: p in b ==> p in a)
    ensures AllOn(b, n) && SameGroup(a, b, n)
  {
    forall i | 0 <= i < |b| ensures On(b[i], n) {
      assert b[i] in a;
    }
    SameElementsWithin(a, b, n);
    SameElementsWithin(b, a, n);
  }

  lemma TakePairGroup(gens: seq<Pauli>, conj: seq<Pauli>, comm: seq<Pauli>, index: nat, n: nat)
    requires gens != [] && index < |gens| - 1 && AllOn(gens + conj + comm, n)
    ensures var front, x, z := gens[..|gens| - 1], gens[|gens| - 1], gens[index];
      var after := FixAll(SwapRemove(front, index), x, z) + (conj + [x, z]) + comm;
      AllOn(after, n) && SameGroup(gens + conj + comm, after, n)
  {
    var front, x, z := gens[..|gens| - 1], gens[|gens| - 1], gens[index];
    var whole := gens + conj + comm;
    assert forall i :: 0 <= i < |gens| ==> whole[i] == gens[i];
    assert forall i :: 0 <= i < |conj + comm| ==> (conj + comm)[i] == whole[|gens| + i];
    PairKeepsGroup(front, index, x, conj + comm, n);
    assert front + [x] + (conj + comm) == whole;
    var fixed := FixAll(SwapRemove(front, index), x, z);
    hide FixAll, SwapRemove, SameGroup, AllOn;
    SameElementsSameGroup(fixed + [x, z] + (conj + comm), fixed + (conj + [x, z]) + comm, n);
    SameGroupChain(whole, fixed + [x, z] + (conj + comm), fixed + (conj + [x, z]) + comm, n);
  }

  lemma TakeCommutingGroup(gens: seq<Pauli>, conj: seq<Pauli>, comm: seq<Pauli>, n: nat)
    requires gens != [] && AllOn(gens + conj + comm, n)
    ensures var after := gens[..|gens| - 1] + conj + (comm + [gens[|gens| - 1]]);
      AllOn(after, n) && SameGroup(gens + conj + comm, after, n)
  {
    var front, x := gens[..|gens| - 1], gens[|gens| - 1];
    assert gens == front + [x];
    SameElementsSameGroup(gens + conj + comm, front + conj + (comm + [x]), n);
  }

  /**
   * Takes the last generator; with the first one that anticommutes with it, it forms a pair, and the others are made to
   * commute with the pair. Returns the pairs followed by the commuting elements.
   */
  method SymplecticForm(input: seq<Pauli>, n: nat) returns (form: seq<Pauli>, ghost pairs: nat)
    requires AllOn(input, n)
    ensures |form| == |input| && AllOn(form, n) && SameGroup(input, form, n)
    ensures IsSymplectic(form, pairs)
  {
    var gens := input;
    var conj: seq<Pauli>, comm: seq<Pauli> := [], [];
    assert input + conj + comm == input;
    SameElementsSameGroup(input, input, n);
    hide SameGroup, AllOn, FixAll, SwapRemove, IsSymplectic, Anti;
    while gens != []
      invariant |gens| + |conj| + |comm| == |input|
      invariant AllOn(gens + conj + comm, n) && SameGroup(input, gens + conj + comm, n)
      invariant Progress(gens, conj, comm)
      decreases |gens|
    {
      ghost var whole := gens + conj + comm;
      var x, front := gens[|gens| - 1], gens[..|gens| - 1];
      var index := PositionOfAnticommuting(front, x);
      if index < |front| {
        TakePair(gens, conj, comm, index);
        TakePairGroup(gens, conj, comm, index, n);
        var z := front[index];
        CommutesBefore(front, x, index);
        var removed := SwapRemove(front, index);
        RemovedBefore(front, x, index);
        gens := FixGenerators(removed, index, x, z);
        conj := conj + [x, z];
        FixAllSize(removed, x, z);
        RemovedSize(front, index);
      } else {
        TakeCommuting(gens, conj, comm);
        TakeCommutingGroup(gens, conj, comm, n);
        gens, comm := front, comm + [x];
      }
      SameGroupChain(input, whole, gens + conj + comm, n);
      hide Progress;
    }
    FinalForm(conj, comm);
    assert [] + conj + comm == conj + comm;
    form, pairs := conj + comm, |conj| / 2;
  }

  lemma CommutesBefore(front: seq<Pauli>, x: Pauli, index: nat)
    requires index <= |front| && forall j :: 0 <= j < index ==> !Anti(x, front[j])
    ensures forall j :: 0 <= j < index ==> !Anti(front[j], x)
  {
    forall j | 0 <= j < index ensures !Anti(front[j], x) {
      AntiSym(x, front[j]);
    }
  }

  lemma RemovedBefore(front: seq<Pauli>, x: Pauli, index: nat)
    requires index < |front| && forall j :: 0 <= j < index ==> !Anti(front[j], x)
    ensures index <= |SwapRemove(front, index)|
    ensures forall j :: 0 <= j < index ==> !Anti(SwapRemove(front, index)[j], x)
  {
    hide Anti;
  }

  lemma FixAllSize(s: seq<Pauli>, x: Pauli, z: Pauli)
    ensures |FixAll(s, x, z)| == |s|
  {
  }

  lemma RemovedSize(s: seq<Pauli>, index: nat)
    requires index < |s|
    ensures |SwapRemove(s, index)| == |s| - 1
  {
  }
}
