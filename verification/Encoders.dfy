/** The encoder that a simulation owns: the preimages of the generators in two arrays, updated in place. */
module Encoders {
  import opened Bits
  import opened Paulis
  import opened Tableaus
  import opened Measurement
  import opened Gates
  import opened PauliGates
  import opened SupportGates
  import opened Circuits

  /** Whether a key occurs in an increasing list. */
  method BinarySearch(a: seq<nat>, key: nat) returns (found: bool)
    requires forall i, j :: 0 <= i < j < |a| ==> a[i] < a[j]
    ensures found <==> key in a
  {
    var lo, hi := 0, |a|;
    while lo < hi
      invariant 0 <= lo <= hi <= |a|
      invariant forall i :: 0 <= i < lo ==> a[i] < key
      invariant forall i :: hi <= i < |a| ==> key < a[i]
    {
      var mid := (lo + hi) / 2;
      if a[mid] == key {
        return true;
      } else if a[mid] < key {
        lo := mid + 1;
      } else {
        hi := mid;
      }
    }
    found := false;
  }

  class Encoder {
    const preimageX: array<Pauli>
    const preimageZ: array<Pauli>

    ghost predicate Shaped(n: nat) {
      preimageX != preimageZ && preimageX.Length == preimageZ.Length == n
    }

    ghost function Rows(): Tableau
      reads preimageX, preimageZ
    {
      Tableau(preimageX[..], preimageZ[..])
    }

    constructor (n: nat)
      ensures fresh(preimageX) && fresh(preimageZ) && Shaped(n)
      ensures Rows() == IdentityTableau(n)
    {
      preimageX := new Pauli[n](q requires 0 <= q => PauliX(n, q));
      preimageZ := new Pauli[n](q requires 0 <= q => PauliZ(n, q));
    }

    // ----- gates on one or two qubits

    method MulX(q: nat)
      requires Shaped(preimageX.Length) && q < preimageX.Length
      modifies preimageZ
      ensures Rows() == LeftMulX(old(Rows()), q)
    {
      preimageZ[q] := Rotate(2, preimageZ[q]);
    }

    method MulZ(q: nat)
      requires Shaped(preimageX.Length) && q < preimageX.Length
      modifies preimageX
      ensures Rows() == LeftMulZ(old(Rows()), q)
    {
      preimageX[q] := Rotate(2, preimageX[q]);
    }

    method MulHadamard(q: nat)
      requires Shaped(preimageX.Length) && q < preimageX.Length
      modifies preimageX, preimageZ
      ensures Rows() == LeftMulHadamard(old(Rows()), q)
    {
      preimageX[q], preimageZ[q] := preimageZ[q], preimageX[q];
    }

    method MulRootZ(q: nat, k: bv2)
      requires Shaped(preimageX.Length) && q < preimageX.Length
      modifies preimageX
      ensures Rows() == LeftMulRootZ(old(Rows()), q, k)
    {
      preimageX[q] := Mul(preimageZ[q], preimageX[q]);
      preimageX[q] := Rotate(k, preimageX[q]);
    }

    method MulRootX(q: nat, k: bv2)
      requires Shaped(preimageX.Length) && q < preimageX.Length
      modifies preimageZ
      ensures Rows() == LeftMulRootX(old(Rows()), q, k)
    {
      preimageZ[q] := Mul(preimageX[q], preimageZ[q]);
      preimageZ[q] := Rotate(k, preimageZ[q]);
    }

    method MulCX(c: nat, d: nat)
      requires Shaped(preimageX.Length) && c < preimageX.Length && d < preimageX.Length && c != d
      modifies preimageX, preimageZ
      ensures Rows() == LeftMulCX(old(Rows()), c, d)
    {
      preimageX[c] := Mul(preimageX[d], preimageX[c]);
      preimageZ[d] := Mul(preimageZ[c], preimageZ[d]);
    }

    method MulCZ(c: nat, d: nat)
      requires Shaped(preimageX.Length) && c < preimageX.Length && d < preimageX.Length && c != d
      modifies preimageX
      ensures Rows() == LeftMulCZ(old(Rows()), c, d)
    {
      preimageX[c] := Mul(preimageZ[d], preimageX[c]);
      preimageX[d] := Mul(preimageZ[c], preimageX[d]);
    }

    method MulSwap(c: nat, d: nat)
      requires Shaped(preimageX.Length) && c < preimageX.Length && d < preimageX.Length && c != d
      modifies preimageX, preimageZ
      ensures Rows() == LeftMulSwap(old(Rows()), c, d)
    {
      preimageX[c], preimageX[d] := preimageX[d], preimageX[c];
      preimageZ[c], preimageZ[d] := preimageZ[d], preimageZ[c];
    }

    method MulOp(op: UnitaryOp, qubits: seq<nat>)
      requires Shaped(preimageX.Length) && Accepts(op, qubits, preimageX.Length)
      modifies preimageX, preimageZ
      ensures Rows() == LeftMul(old(Rows()), op, qubits)
    {
      match op
      case I =>
      case X => MulX(qubits[0]);
      case Y =>
        MulZ(qubits[0]);
        MulX(qubits[0]);
      case Z => MulZ(qubits[0]);
      case SqrtX => MulRootX(qubits[0], 1);
      case SqrtXInv => MulRootX(qubits[0], 3);
      case SqrtY =>
        MulZ(qubits[0]);
        MulHadamard(qubits[0]);
      case SqrtYInv =>
        MulHadamard(qubits[0]);
        MulZ(qubits[0]);
      case SqrtZ => MulRootZ(qubits[0], 1);
      case SqrtZInv => MulRootZ(qubits[0], 3);
      case Hadamard => MulHadamard(qubits[0]);
      case Swap => MulSwap(qubits[0], qubits[1]);
      case ControlledX => MulCX(qubits[0], qubits[1]);
      case ControlledZ => MulCZ(qubits[0], qubits[1]);
      case PrepareBell =>
        MulHadamard(qubits[0]);
        MulCX(qubits[0], qubits[1]);
    }

    // ----- preimages

    /** The product of the X factors; the first factor is taken over rather than multiplied into the identity. */
    method XFactors(p: Pauli) returns (target: Pauli, started: bool)
      requires Shaped(preimageX.Length) && TableauOn(Rows(), preimageX.Length)
      ensures target == Product(Rows().x, p.x, preimageX.Length, preimageX.Length)
      ensures !started ==> target == Identity(preimageX.Length)
    {
      var n := preimageX.Length;
      started := false;
      target := Identity(n);
      ghost var rows := Rows().x;
      hide Mul, On;
      for q := 0 to n
        invariant target == Product(rows, p.x, q, n)
        invariant !started ==> target == Identity(n)
      {
        if At(p.x, q) {
          FirstFactor(rows, q, n);
          target := if started then Mul(target, preimageX[q]) else preimageX[q];
          started := true;
        }
      }
    }

    /** Multiplies by the Z factors on the right. */
    method ZFactors(p: Pauli, xs: Pauli, begun: bool) returns (target: Pauli)
      requires Shaped(preimageX.Length) && TableauOn(Rows(), preimageX.Length) && On(xs, preimageX.Length)
      requires !begun ==> xs == Identity(preimageX.Length)
      ensures target == Mul(xs, Product(Rows().z, p.z, preimageX.Length, preimageX.Length))
    {
      var n := preimageX.Length;
      var started := begun;
      target := xs;
      ghost var rows := Rows().z;
      MulIdentity(xs, n);
      MulIdentity(Identity(n), n);
      hide Mul, On;
      for q := 0 to n
        invariant target == Mul(xs, Product(rows, p.z, q, n))
        invariant !started ==> target == Identity(n) && xs == Identity(n)
      {
        if At(p.z, q) {
          FirstFactor(rows, q, n);
          MulAssoc(xs, Product(rows, p.z, q, n), rows[q]);
          target := if started then Mul(target, preimageZ[q]) else preimageZ[q];
          started := true;
        }
      }
    }

    /** The preimage of an operator. */
    method AssignPreimage(p: Pauli) returns (target: Pauli)
      requires Shaped(preimageX.Length) && TableauOn(Rows(), preimageX.Length)
      ensures target == Preimage(Rows(), p)
    {
      var xs, started := XFactors(p);
      ProductOn(Rows().x, p.x, preimageX.Length, preimageX.Length);
      target := ZFactors(p, xs, started);
      target := Rotate(p.phase, target);
    }

    // ----- gates given by operators

    method MulPauli(p: Pauli)
      requires Shaped(preimageX.Length)
      modifies preimageX, preimageZ
      ensures Rows() == LeftMulPauli(old(Rows()), p)
    {
      var n := preimageX.Length;
      for q := 0 to n
        invariant preimageX[..] == old(preimageX[..])
        invariant forall j :: 0 <= j < n ==> preimageZ[j] == Sign(j < q && At(p.x, j), old(preimageZ[j]))
      {
        if At(p.x, q) {
          MulX(q);
        }
      }
      for q := 0 to n
        invariant forall j :: 0 <= j < n ==> preimageZ[j] == Sign(At(p.x, j), old(preimageZ[j]))
        invariant forall j :: 0 <= j < n ==> preimageX[j] == Sign(j < q && At(p.z, j), old(preimageX[j]))
      {
        if At(p.z, q) {
          MulZ(q);
        }
      }
    }

    /** Multiplies the selected rows of one array by `factor` on the right. */
    static method MulRowsRight(rows: array<Pauli>, bits: Bits, factor: Pauli)
      modifies rows
      ensures forall q :: 0 <= q < rows.Length ==>
        rows[q] == if At(bits, q) then Mul(old(rows[q]), factor) else old(rows[q])
    {
      for q := 0 to rows.Length
        invariant forall j :: 0 <= j < rows.Length ==>
          rows[j] == if j < q && At(bits, j) then Mul(old(rows[j]), factor) else old(rows[j])
      {
        if At(bits, q) {
          rows[q] := Mul(rows[q], factor);
        }
      }
    }

    /** Multiplies the selected rows of one array by `factor` on the left. */
    static method MulRowsLeft(rows: array<Pauli>, bits: Bits, factor: Pauli)
      modifies rows
      ensures forall q :: 0 <= q < rows.Length ==>
        rows[q] == if At(bits, q) then Mul(factor, old(rows[q])) else old(rows[q])
    {
      for q := 0 to rows.Length
        invariant forall j :: 0 <= j < rows.Length ==>
          rows[j] == if j < q && At(bits, j) then Mul(factor, old(rows[j])) else old(rows[j])
      {
        if At(bits, q) {
          rows[q] := Mul(factor, rows[q]);
        }
      }
    }

    method MulPauliExp(p: Pauli)
      requires Shaped(preimageX.Length) && TableauOn(Rows(), preimageX.Length)
      modifies preimageX, preimageZ
      ensures Rows() == LeftMulPauliExp(old(Rows()), p)
    {
      var preimage := AssignPreimage(p);
      hide Mul, Preimage;
      var factor := Rotate(1, preimage);
      MulRowsRight(preimageZ, p.x, factor);
      MulRowsRight(preimageX, p.z, factor);
    }

    method MulControlledPauli(control: Pauli, target: Pauli)
      requires Shaped(preimageX.Length) && TableauOn(Rows(), preimageX.Length)
      modifies preimageX, preimageZ
      ensures Rows() == LeftMulControlledPauli(old(Rows()), control, target)
    {
      var targetPreimage := AssignPreimage(target);
      var controlPreimage := AssignPreimage(control);
      hide Mul, Preimage;
      MulRowsRight(preimageZ, control.x, targetPreimage);
      MulRowsRight(preimageX, control.z, targetPreimage);
      MulRowsLeft(preimageZ, target.x, controlPreimage);
      MulRowsLeft(preimageX, target.z, controlPreimage);
    }

    /** The new preimages are all computed before the first one is stored. */
    method MulClifford(g: Tableau, support: seq<nat>)
      requires Shaped(preimageX.Length) && TableauOn(Rows(), preimageX.Length)
      requires |support| <= |g.x| && |support| <= |g.z| && Distinct(support) && Below(support, preimageX.Length)
      modifies preimageX, preimageZ
      ensures Rows() == LeftMulClifford(old(Rows()), g, support)
    {
      var n := preimageX.Length;
      var newX: seq<Pauli>, newZ: seq<Pauli> := [], [];
      for e := 0 to |support|
        invariant Rows() == old(Rows()) && |newX| == |newZ| == e
        invariant forall k :: 0 <= k < e ==> newX[k] == Preimage(old(Rows()), OnSupport(g.x[k], support, n))
        invariant forall k :: 0 <= k < e ==> newZ[k] == Preimage(old(Rows()), OnSupport(g.z[k], support, n))
      {
        var x := AssignPreimage(OnSupport(g.x[e], support, n));
        var z := AssignPreimage(OnSupport(g.z[e], support, n));
        newX, newZ := newX + [x], newZ + [z];
      }
      StoreRows(support, newX, newZ);
      hide Preimage, OnSupport;
    }

    /** Stores rows at the qubits of a support. */
    method StoreRows(support: seq<nat>, newX: seq<Pauli>, newZ: seq<Pauli>)
      requires Shaped(preimageX.Length) && Distinct(support) && Below(support, preimageX.Length)
      requires |newX| == |newZ| == |support|
      modifies preimageX, preimageZ
      ensures forall q :: 0 <= q < preimageX.Length ==>
        var e := Position(support, q);
        && preimageX[q] == (if e >= 0 then newX[e] else old(preimageX[q]))
        && preimageZ[q] == (if e >= 0 then newZ[e] else old(preimageZ[q]))
    {
      var n := preimageX.Length;
      for k := 0 to |support|
        invariant forall q :: 0 <= q < n ==>
          var e := Position(support, q);
          && preimageX[q] == (if 0 <= e < k then newX[e] else old(preimageX[q]))
          && preimageZ[q] == (if 0 <= e < k then newZ[e] else old(preimageZ[q]))
      {
        PositionOf(support, k);
        preimageX[support[k]] := newX[k];
        preimageZ[support[k]] := newZ[k];
      }
    }

    method MulPermutation(perm: seq<nat>, support: seq<nat>)
      requires Shaped(preimageX.Length) && |perm| == |support| && IsPermutation(perm)
      requires Distinct(support) && Below(support, preimageX.Length)
      modifies preimageX, preimageZ
      ensures Rows() == LeftMulPermutation(old(Rows()), perm, support)
    {
      var newX: seq<Pauli>, newZ: seq<Pauli> := [], [];
      for e := 0 to |support|
        invariant |newX| == |newZ| == e
        invariant forall k :: 0 <= k < e ==> newX[k] == preimageX[support[perm[k]]] && newZ[k] == preimageZ[support[perm[k]]]
      {
        newX, newZ := newX + [preimageX[support[perm[e]]]], newZ + [preimageZ[support[perm[e]]]];
      }
      StoreRows(support, newX, newZ);
    }

    /** The gate of a unitary instruction. */
    method MulUnitary(i: Instruction, n: nat, ghost count: nat)
      requires Shaped(n) && TableauOn(Rows(), n) && IsUnitary(i) && WellFormed(i, n, count)
      modifies preimageX, preimageZ
      ensures Rows() == ApplyUnitary(old(Rows()), i, n, count)
    {
      hide LeftMul, LeftMulClifford, LeftMulPauli, LeftMulPauliExp, LeftMulPermutation, LeftMulControlledPauli, Valid;
      match i
      case Unitary(op, qubits) => MulOp(op, qubits);
      case Clifford(gate, qubits) =>
        ValidOn(gate, |qubits|);
        MulClifford(gate, qubits);
      case PauliGate(p) => MulPauli(p);
      case PauliExp(p) => MulPauliExp(p);
      case Permute(perm, qubits) => MulPermutation(perm, qubits);
      case ControlledPauli(c, d) => MulControlledPauli(c, d);
    }

    // ----- measurement

    /** The X bits that all rows of one array have on a qubit: one half of the image of Z on that qubit. */
    static method ColumnSupport(rows: array<Pauli>, pivot: nat) returns (s: seq<nat>)
      ensures forall i, j :: 0 <= i < j < |s| ==> s[i] < s[j]
      ensures forall i :: 0 <= i < |s| ==> s[i] < rows.Length
      ensures forall q: nat :: q in s <==> q < rows.Length && At(rows[q].x, pivot)
    {
      s := [];
      for q := 0 to rows.Length
        invariant forall i :: 0 <= i < |s| ==> s[i] < q
        invariant forall i, j :: 0 <= i < j < |s| ==> s[i] < s[j]
        invariant forall k: nat :: k in s <==> k < q && At(rows[k].x, pivot)
      {
        if At(rows[q].x, pivot) {
          s := s + [q];
        }
      }
    }

    /** The rows that anticommute with the replaced stabilizer: multiplied or not, and negated if the outcome is one. */
    static method UpdateAnticommuting(rows: array<Pauli>, generators: seq<nat>, bits: Bits, factor: Pauli, outcome: bool)
      requires forall i, j :: 0 <= i < j < |generators| ==> generators[i] < generators[j]
      requires forall i :: 0 <= i < |generators| ==> generators[i] < rows.Length
      modifies rows
      ensures forall q :: 0 <= q < rows.Length ==>
        rows[q] == if q in generators
                   then Sign(outcome, if At(bits, q) then old(rows[q]) else Mul(old(rows[q]), factor))
                   else old(rows[q])
    {
      for k := 0 to |generators|
        invariant forall q :: 0 <= q < rows.Length ==>
          rows[q] == if q in generators[..k]
                     then Sign(outcome, if At(bits, q) then old(rows[q]) else Mul(old(rows[q]), factor))
                     else old(rows[q])
      {
        var q := generators[k];
        assert q !in generators[..k];
        assert generators[..k + 1] == generators[..k] + [q];
        if !At(bits, q) {
          rows[q] := Mul(rows[q], factor);
        }
        if outcome {
          rows[q] := Rotate(2, rows[q]);
        }
        SignFalse(rows[q]);
      }
      assert generators[..|generators|] == generators;
    }

    /** The remaining rows to multiply: they anticommute with the observable, but were not visited before. */
    static method UpdateRemaining(rows: array<Pauli>, generators: seq<nat>, bits: Bits, factor: Pauli)
      requires forall i, j :: 0 <= i < j < |generators| ==> generators[i] < generators[j]
      modifies rows
      ensures forall q :: 0 <= q < rows.Length ==>
        rows[q] == if At(bits, q) && q !in generators then Mul(old(rows[q]), factor) else old(rows[q])
    {
      for q := 0 to rows.Length
        invariant forall j :: 0 <= j < rows.Length ==>
          rows[j] == if j < q && At(bits, j) && j !in generators then Mul(old(rows[j]), factor) else old(rows[j])
      {
        if At(bits, q) {
          var found := BinarySearch(generators, q);
          if !found {
            rows[q] := Mul(rows[q], factor);
          }
        }
      }
    }

    /**
     * The sparse update for a random outcome. Each row is visited at most once, and the four loops together multiply
     * exactly the rows that anticommute with the product of the observable and the replaced stabilizer, and negate
     * exactly those that anticommute with the replaced stabilizer when the outcome is one.
     */
    method UpdateForRandomOutcome(observable: Pauli, preimage: Pauli, pivot: nat, outcome: bool)
      requires Shaped(preimageX.Length) && pivot < preimageX.Length
      requires preimage == Preimage(Rows(), observable)
      modifies preimageX, preimageZ
      ensures Rows() == AfterRandomOutcome(old(Rows()), observable, Unit(preimageX.Length, pivot), outcome)
    {
      ghost var t := Rows();
      ghost var v := Unit(preimageX.Length, pivot);
      var factor := Mul(preimage, PauliZ(preimageX.Length, pivot));
      ghost var after := AfterRandomOutcome(t, observable, v, outcome);
      assert factor == MeasurementFactor(t, observable, v);
      var xGenerators := ColumnSupport(preimageX, pivot);
      var zGenerators := ColumnSupport(preimageZ, pivot);
      forall q: nat | q < preimageX.Length
        ensures after.x[q] == VisitedRow(t.x[q], factor, q in xGenerators, At(observable.z, q), outcome)
        ensures after.z[q] == VisitedRow(t.z[q], factor, q in zGenerators, At(observable.x, q), outcome)
      {
        RowVisited(t.x[q], factor, At(observable.z, q), preimageX.Length, pivot, outcome);
        RowVisited(t.z[q], factor, At(observable.x, q), preimageX.Length, pivot, outcome);
      }
      hide Preimage, Mul, Dot, MeasurementFactor, AfterRandomOutcome, Sign;
      UpdateAnticommuting(preimageX, xGenerators, observable.z, factor, outcome);
      UpdateAnticommuting(preimageZ, zGenerators, observable.x, factor, outcome);
      UpdateRemaining(preimageX, xGenerators, observable.z, factor);
      UpdateRemaining(preimageZ, zGenerators, observable.x, factor);
      assert |after.x| == preimageX.Length && |after.z| == preimageX.Length by {
        SizeAfter(t, observable, v, outcome);
      }
      assert Rows().x == after.x;
      assert Rows().z == after.z;
    }
  }

  lemma SizeAfter(t: Tableau, p: Pauli, v: Bits, b: bool)
    ensures |AfterRandomOutcome(t, p, v, b).x| == |t.x| && |AfterRandomOutcome(t, p, v, b).z| == |t.z|
  {
  }

  /** What the four loops do to one row, by whether the generator lists contain it. */
  function VisitedRow(row: Pauli, factor: Pauli, listed: bool, bit: bool, outcome: bool): Pauli {
    var first := if listed then Sign(outcome, if bit then row else Mul(row, factor)) else row;
    if bit && !listed then Mul(first, factor) else first
  }

  lemma RowVisited(row: Pauli, factor: Pauli, bit: bool, n: nat, pivot: nat, outcome: bool)
    requires pivot < n
    ensures UpdateRow(row, factor, bit != Dot(row.x, Unit(n, pivot)), Unit(n, pivot), outcome)
         == VisitedRow(row, factor, At(row.x, pivot), bit, outcome)
  {
    DotUnit(row.x, n, pivot);
    SignFalse(row);
    SignFalse(Mul(row, factor));
    hide Mul, Dot;
  }

  lemma FirstFactor(rows: seq<Pauli>, q: nat, n: nat)
    requires RowsOn(rows, n) && q < n
    ensures Mul(Identity(n), rows[q]) == rows[q]
  {
    MulIdentity(rows[q], n);
  }
}
