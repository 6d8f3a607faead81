/** Bit vectors over GF(2), read as if padded with zeros, so that vectors of different length can be combined. */
module Bits {

  type Bits = seq<bool>

  function At(a: Bits, i: nat): bool {
    i < |a| && a[i]
  }

  function Max(a: nat, b: nat): nat {
    if a < b then b else a
  }

  function Zeros(n: nat): Bits {
    seq(n, i => false)
  }

  function Unit(n: nat, q: nat): Bits {
    seq(n, i => i == q)
  }

  function Xor(a: Bits, b: Bits): (c: Bits)
    ensures |c| == Max(|a|, |b|)
    ensures forall i: nat :: At(c, i) == (At(a, i) != At(b, i))
  {
    seq(Max(|a|, |b|), i requires 0 <= i => At(a, i) != At(b, i))
  }

  /** The vector `a` with bit `i` set to `v`; it grows when `i` is past its end. */
  function SetBit(a: Bits, i: nat, v: bool): (c: Bits)
    ensures |c| == Max(|a|, i + 1)
    ensures forall j: nat :: At(c, j) == if j == i then v else At(a, j)
  {
    seq(Max(|a|, i + 1), j requires 0 <= j => if j == i then v else At(a, j))
  }

  predicate IsZero(a: Bits) {
    forall i :: 0 <= i < |a| ==> !a[i]
  }

  /** Parity of the common ones of `a` and `b` below `k`. */
  function DotTo(a: Bits, b: Bits, k: nat): bool {
    if k == 0 then false else DotTo(a, b, k - 1) != (At(a, k - 1) && At(b, k - 1))
  }

  function Dot(a: Bits, b: Bits): bool {
    DotTo(a, b, Max(|a|, |b|))
  }

  /** Vectors of the same length are equal when they have the same bits. */
  lemma Same(a: Bits, b: Bits)
    requires |a| == |b|
    requires forall i: nat :: i < |a| ==> At(a, i) == At(b, i)
    ensures a == b
  {
    forall i | 0 <= i < |a| ensures a[i] == b[i] {
      assert At(a, i) == At(b, i);
    }
  }

  lemma XorComm(a: Bits, b: Bits)
    ensures Xor(a, b) == Xor(b, a)
  {
    Same(Xor(a, b), Xor(b, a));
  }

  lemma XorAssoc(a: Bits, b: Bits, c: Bits)
    ensures Xor(Xor(a, b), c) == Xor(a, Xor(b, c))
  {
    Same(Xor(Xor(a, b), c), Xor(a, Xor(b, c)));
  }

  lemma XorZeros(a: Bits, n: nat)
    requires n <= |a|
    ensures Xor(a, Zeros(n)) == a && Xor(Zeros(n), a) == a
  {
    Same(Xor(a, Zeros(n)), a);
    Same(Xor(Zeros(n), a), a);
  }

  lemma XorSelf(a: Bits)
    ensures Xor(a, a) == Zeros(|a|)
  {
    Same(Xor(a, a), Zeros(|a|));
  }

  lemma DotToStable(a: Bits, b: Bits, k: nat)
    requires |a| <= k || |b| <= k
    ensures DotTo(a, b, k) == Dot(a, b)
    decreases if k < Max(|a|, |b|) then Max(|a|, |b|) - k else k - Max(|a|, |b|)
  {
    if k < Max(|a|, |b|) {
      DotToStable(a, b, k + 1);
    } else if k > Max(|a|, |b|) {
      DotToStable(a, b, k - 1);
    }
  }

  lemma DotToSym(a: Bits, b: Bits, k: nat)
    ensures DotTo(a, b, k) == DotTo(b, a, k)
  {
  }

  lemma DotSym(a: Bits, b: Bits)
    ensures Dot(a, b) == Dot(b, a)
  {
    DotToSym(a, b, Max(|a|, |b|));
  }

  lemma DotToXor(a: Bits, b: Bits, c: Bits, k: nat)
    ensures DotTo(Xor(a, b), c, k) == (DotTo(a, c, k) != DotTo(b, c, k))
  {
  }

  lemma DotXor(a: Bits, b: Bits, c: Bits)
    ensures Dot(Xor(a, b), c) == (Dot(a, c) != Dot(b, c))
    ensures Dot(c, Xor(a, b)) == (Dot(c, a) != Dot(c, b))
  {
    var k := Max(Max(|a|, |b|), |c|);
    DotToStable(a, c, k);
    DotToStable(b, c, k);
    DotToStable(Xor(a, b), c, k);
    DotToXor(a, b, c, k);
    DotSym(Xor(a, b), c);
    DotSym(a, c);
    DotSym(b, c);
  }

  lemma DotToUnit(a: Bits, n: nat, q: nat, k: nat)
    requires q < n
    ensures DotTo(a, Unit(n, q), k) == (q < k && At(a, q))
  {
  }

  lemma DotUnit(a: Bits, n: nat, q: nat)
    requires q < n
    ensures Dot(a, Unit(n, q)) == At(a, q)
    ensures Dot(Unit(n, q), a) == At(a, q)
  {
    DotToUnit(a, n, q, Max(|a|, n));
    DotSym(a, Unit(n, q));
  }

  lemma DotToZero(a: Bits, b: Bits, k: nat)
    requires IsZero(b)
    ensures !DotTo(a, b, k)
  {
  }

  lemma DotZero(a: Bits, b: Bits)
    requires IsZero(b)
    ensures !Dot(a, b) && !Dot(b, a)
  {
    DotToZero(a, b, Max(|a|, |b|));
    DotSym(a, b);
  }

  /** The position of the first one, or the length of the vector when there is none. */
  function FirstOne(a: Bits): (k: nat)
    ensures k <= |a| && (k < |a| ==> a[k]) && (k == |a| <==> IsZero(a))
    ensures forall i :: 0 <= i < k ==> !a[i]
  {
    if a == [] then 0
    else if a[0] then 0
    else
      var k := FirstOne(a[1..]);
      assert forall i :: 0 < i < |a| ==> a[i] == a[1..][i - 1];
      assert k < |a| - 1 ==> a[k + 1];
      assert k == |a| - 1 ==> IsZero(a) by {
        if k == |a| - 1 {
          assert forall i :: 0 <= i < |a[1..]| ==> !a[1..][i];
        }
      }
      k + 1
  }

  /** The positions of the ones below `k`, in increasing order. */
  function SupportTo(a: Bits, k: nat): (s: seq<nat>)
    ensures forall q: nat :: q in s <==> q < k && At(a, q)
    ensures forall i :: 0 <= i < |s| ==> s[i] < k
    ensures forall i, j :: 0 <= i < j < |s| ==> s[i] < s[j]
  {
    if k == 0 then [] else if At(a, k - 1) then SupportTo(a, k - 1) + [k - 1] else SupportTo(a, k - 1)
  }

  lemma SupportStep(a: Bits, k: nat)
    requires k > 0
    ensures SupportTo(a, k) == if At(a, k - 1) then SupportTo(a, k - 1) + [k - 1] else SupportTo(a, k - 1)
  {
  }

  function Support(a: Bits): (s: seq<nat>)
    ensures forall q: nat :: q in s <==> At(a, q)
    ensures forall i, j :: 0 <= i < j < |s| ==> s[i] < s[j]
  {
    SupportTo(a, |a|)
  }

  /** One column of a matrix of rows. */
  function Column(rows: seq<Bits>, column: nat): (c: Bits)
    ensures |c| == |rows|
    ensures forall q: nat :: At(c, q) == (q < |rows| && At(rows[q], column))
  {
    seq(|rows|, q requires 0 <= q < |rows| => At(rows[q], column))
  }
}
