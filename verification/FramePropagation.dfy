/** The frame propagator: the errors of all shots in two arrays of rows, one row per qubit and one column per shot. */
module FramePropagation {
  import opened Bits
  import opened Paulis
  import opened Tableaus
  import opened Measurement
  import opened Gates
  import opened SupportGates
  import opened Circuits
  import opened SpecificModel
  import opened FrameModel
  import opened FrameExactness

  function ErrorAt(x: seq<Bits>, z: seq<Bits>, shot: nat): Projective {
    Projective(Column(x, shot), Column(z, shot))
  }

  // ----- from row operations to every shot

  lemma ColumnUpdate(rows: seq<Bits>, q: nat, row: Bits, shot: nat)
    requires q < |rows|
    ensures Column(rows[q := row], shot) == Column(rows, shot)[q := At(row, shot)]
  {
  }

  lemma ColumnXor(rows: seq<Bits>, rows': seq<Bits>, mask: Bits, bits: Bits, shot: nat)
    requires |rows| == |rows'| == |bits|
    requires forall q :: 0 <= q < |rows| ==> rows'[q] == if bits[q] then Xor(rows[q], mask) else rows[q]
    ensures Column(rows', shot) == if At(mask, shot) then Xor(Column(rows, shot), bits) else Column(rows, shot)
  {
    var after := if At(mask, shot) then Xor(Column(rows, shot), bits) else Column(rows, shot);
    forall q: nat | q < |rows| ensures At(Column(rows', shot), q) == At(after, q) {
    }
    Same(Column(rows', shot), after);
  }

  class FramePropagator {
    const xFrames: array<Bits>
    const zFrames: array<Bits>
    const outcomeDeltas: array<Bits>
    const qubitCount: nat
    const shotCount: nat
    var nextOutcomeId: nat
    /** The instructions executed so far. */
    ghost var history: seq<Instruction>

    ghost predicate Shaped()
    {
      && xFrames != zFrames && xFrames != outcomeDeltas && zFrames != outcomeDeltas
      && xFrames.Length == zFrames.Length == qubitCount
    }

    ghost function Error(shot: nat): Projective
      reads xFrames, zFrames
    {
      ErrorAt(xFrames[..], zFrames[..], shot)
    }

    ghost function Deltas(shot: nat): seq<bool>
      requires nextOutcomeId <= outcomeDeltas.Length
      reads this, outcomeDeltas
    {
      Column(outcomeDeltas[..nextOutcomeId], shot)
    }

    /** Every shot holds the frame that the instructions so far lead to; rows of later outcomes are still zero. */
    ghost predicate Consistent()
      reads this, xFrames, zFrames, outcomeDeltas
    {
      && Shaped() && nextOutcomeId <= outcomeDeltas.Length
      && (forall k :: nextOutcomeId <= k < outcomeDeltas.Length ==> IsZero(outcomeDeltas[k]))
      && WellFormedCircuit(history, qubitCount) && nextOutcomeId == OutcomeCount(history)
      && (forall shot: nat {:trigger Error(shot)} ::
            shot < shotCount ==> Frame(Error(shot), Deltas(shot)) == RunFrame(history, qubitCount, shot))
    }

    constructor (n: nat, outcomes: nat, shots: nat)
      ensures Consistent() && history == []
      ensures qubitCount == n && shotCount == shots && outcomeDeltas.Length == outcomes
      ensures fresh(xFrames) && fresh(zFrames) && fresh(outcomeDeltas)
    {
      xFrames := new Bits[n](q => Zeros(shots));
      zFrames := new Bits[n](q => Zeros(shots));
      outcomeDeltas := new Bits[outcomes](k => Zeros(shots));
      qubitCount, shotCount, nextOutcomeId := n, shots, 0;
      history := [];
      new;
      forall shot: nat ensures Frame(Error(shot), Deltas(shot)) == InitialFrame(n) {
        Same(Error(shot).x, Zeros(n));
        Same(Error(shot).z, Zeros(n));
      }
    }

    lemma AllDeltas()
      requires Consistent()
      ensures WellFormedCircuit(history, qubitCount)
      ensures nextOutcomeId == OutcomeCount(history) <= outcomeDeltas.Length
      ensures forall shot: nat :: shot < shotCount ==>
        Column(outcomeDeltas[..nextOutcomeId], shot) == RunFrame(history, qubitCount, shot).deltas
    {
      hide Column, RunFrame, OutcomeCount, WellFormedCircuit;
      forall shot: nat | shot < shotCount
        ensures Column(outcomeDeltas[..nextOutcomeId], shot) == RunFrame(history, qubitCount, shot).deltas
      {
        assert Frame(Error(shot), Deltas(shot)) == RunFrame(history, qubitCount, shot);
      }
    }

    // ----- anticommutation

    /** For every shot, whether its error anticommutes with the operator. */
    method AnticommutationMask(p: Projective) returns (mask: Bits)
      requires Shaped() && ProjectiveOn(p, qubitCount)
      ensures forall shot: nat :: At(mask, shot) == AntiBits(p, Error(shot))
    {
      mask := Zeros(shotCount);
      for q := 0 to qubitCount
        invariant forall shot: nat :: At(mask, shot) == DotTo(p.z, Error(shot).x, q)
      {
        if At(p.z, q) {
          mask := Xor(mask, xFrames[q]);
        }
      }
      for q := 0 to qubitCount
        invariant forall shot: nat :: At(mask, shot) == (DotTo(p.z, Error(shot).x, qubitCount) != DotTo(p.x, Error(shot).z, q))
      {
        if At(p.x, q) {
          mask := Xor(mask, zFrames[q]);
        }
      }
    }

    /** Multiplies the error by the operator in the shots of the mask. */
    method MultiplyWhere(p: Projective, mask: Bits)
      requires Shaped() && ProjectiveOn(p, qubitCount)
      modifies xFrames, zFrames
      ensures forall shot: nat :: Error(shot) == AddIf(old(Error(shot)), At(mask, shot), p)
    {
      XorRows(xFrames, p.x, mask);
      XorRows(zFrames, p.z, mask);
      forall shot: nat ensures Error(shot) == AddIf(old(Error(shot)), At(mask, shot), p) {
        ColumnXor(old(xFrames[..]), xFrames[..], mask, p.x, shot);
        ColumnXor(old(zFrames[..]), zFrames[..], mask, p.z, shot);
      }
    }

    static method XorRows(rows: array<Bits>, bits: Bits, mask: Bits)
      requires rows.Length == |bits|
      modifies rows
      ensures forall q :: 0 <= q < rows.Length ==> rows[q] == if bits[q] then Xor(old(rows[q]), mask) else old(rows[q])
    {
      for q := 0 to rows.Length
        invariant forall j :: 0 <= j < rows.Length ==>
          rows[j] == if j < q && bits[j] then Xor(old(rows[j]), mask) else old(rows[j])
      {
        if At(bits, q) {
          rows[q] := Xor(rows[q], mask);
        }
      }
    }

    // ----- gates on one or two qubits

    method ApplyH(q: nat)
      requires Shaped() && q < qubitCount
      modifies xFrames, zFrames
      ensures forall shot: nat :: Error(shot) == FrameH(old(Error(shot)), q)
    {
      var x := xFrames[q];
      xFrames[q] := zFrames[q];
      zFrames[q] := x;
      forall shot: nat ensures Error(shot) == FrameH(old(Error(shot)), q) {
        assert xFrames[..] == old(xFrames[..])[q := old(zFrames[q])];
        assert zFrames[..] == old(zFrames[..])[q := old(xFrames[q])];
      }
    }

    method ApplyS(q: nat)
      requires Shaped() && q < qubitCount
      modifies zFrames
      ensures forall shot: nat :: Error(shot) == FrameS(old(Error(shot)), q)
    {
      zFrames[q] := Xor(zFrames[q], xFrames[q]);
      forall shot: nat ensures Error(shot) == FrameS(old(Error(shot)), q) {
        ColumnUpdate(old(zFrames[..]), q, zFrames[q], shot);
      }
    }

    method ApplySqrtX(q: nat)
      requires Shaped() && q < qubitCount
      modifies xFrames
      ensures forall shot: nat :: Error(shot) == FrameSqrtX(old(Error(shot)), q)
    {
      xFrames[q] := Xor(xFrames[q], zFrames[q]);
      forall shot: nat ensures Error(shot) == FrameSqrtX(old(Error(shot)), q) {
        ColumnUpdate(old(xFrames[..]), q, xFrames[q], shot);
      }
    }

    method ApplyCnot(c: nat, d: nat)
      requires Shaped() && c < qubitCount && d < qubitCount && c != d
      modifies xFrames, zFrames
      ensures forall shot: nat :: Error(shot) == FrameCnot(old(Error(shot)), c, d)
    {
      xFrames[d] := Xor(xFrames[d], xFrames[c]);
      zFrames[c] := Xor(zFrames[c], zFrames[d]);
      forall shot: nat ensures Error(shot) == FrameCnot(old(Error(shot)), c, d) {
        assert xFrames[..] == old(xFrames[..])[d := xFrames[d]];
        assert zFrames[..] == old(zFrames[..])[c := zFrames[c]];
        ColumnUpdate(old(xFrames[..]), d, xFrames[d], shot);
        ColumnUpdate(old(zFrames[..]), c, zFrames[c], shot);
      }
    }

    method ApplyCz(c: nat, d: nat)
      requires Shaped() && c < qubitCount && d < qubitCount && c != d
      modifies zFrames
      ensures forall shot: nat :: Error(shot) == FrameCz(old(Error(shot)), c, d)
    {
      zFrames[d] := Xor(zFrames[d], xFrames[c]);
      ghost var between := zFrames[..];
      zFrames[c] := Xor(zFrames[c], xFrames[d]);
      forall shot: nat ensures Error(shot) == FrameCz(old(Error(shot)), c, d) {
        assert between == old(zFrames[..])[d := zFrames[d]];
        assert zFrames[..] == between[c := zFrames[c]];
        ColumnUpdate(old(zFrames[..]), d, zFrames[d], shot);
        ColumnUpdate(between, c, zFrames[c], shot);
      }
    }

    method ApplySwap(c: nat, d: nat)
      requires Shaped() && c < qubitCount && d < qubitCount && c != d
      modifies xFrames, zFrames
      ensures forall shot: nat :: Error(shot) == FrameSwap(old(Error(shot)), c, d)
    {
      xFrames[c], xFrames[d] := xFrames[d], xFrames[c];
      zFrames[c], zFrames[d] := zFrames[d], zFrames[c];
    }

    method ApplyUnitaryOp(op: UnitaryOp, qubits: seq<nat>)
      requires Shaped() && Accepts(op, qubits, qubitCount)
      modifies xFrames, zFrames
      ensures forall shot: nat :: Error(shot) == FrameOp(old(Error(shot)), op, qubits)
    {
      hide FrameH, FrameS, FrameSqrtX, FrameCnot, FrameCz, FrameSwap;
      match op
      case I | X | Y | Z =>
      case Hadamard | SqrtY | SqrtYInv => ApplyH(qubits[0]);
      case SqrtZ | SqrtZInv => ApplyS(qubits[0]);
      case SqrtX | SqrtXInv => ApplySqrtX(qubits[0]);
      case ControlledX => ApplyCnot(qubits[0], qubits[1]);
      case ControlledZ => ApplyCz(qubits[0], qubits[1]);
      case Swap => ApplySwap(qubits[0], qubits[1]);
      case PrepareBell =>
        ApplyH(qubits[0]);
        ApplyCnot(qubits[0], qubits[1]);
    }

    // ----- general gates

    method ApplyPauliExp(p: Projective)
      requires Shaped() && ProjectiveOn(p, qubitCount)
      modifies xFrames, zFrames
      ensures forall shot: nat :: Error(shot) == FrameExp(old(Error(shot)), p)
    {
      hide AntiBits, ErrorAt;
      var anticommutes := AnticommutationMask(p);
      MultiplyWhere(p, anticommutes);
    }

    method ApplyControlledPauli(control: Projective, target: Projective)
      requires Shaped() && ProjectiveOn(control, qubitCount) && ProjectiveOn(target, qubitCount)
      modifies xFrames, zFrames
      ensures forall shot: nat :: Error(shot) == FrameControlled(old(Error(shot)), control, target)
    {
      hide AntiBits, ErrorAt;
      var anticommutesControl := AnticommutationMask(control);
      var anticommutesTarget := AnticommutationMask(target);
      MultiplyWhere(target, anticommutesControl);
      MultiplyWhere(control, anticommutesTarget);
    }

    /** Copies of the rows of some qubits. */
    static method Snapshot(rows: array<Bits>, qubits: seq<nat>) returns (copies: seq<Bits>)
      requires Below(qubits, rows.Length)
      ensures |copies| == |qubits| && forall k :: 0 <= k < |qubits| ==> copies[k] == rows[qubits[k]]
    {
      copies := [];
      for k := 0 to |qubits|
        invariant |copies| == k && forall j :: 0 <= j < k ==> copies[j] == rows[qubits[j]]
      {
        copies := copies + [rows[qubits[k]]];
      }
    }

    static method AssignRow(rows: array<Bits>, q: nat, row: Bits)
      requires q < rows.Length
      modifies rows
      ensures rows[..] == old(rows[..])[q := row]
    {
      rows[q] := row;
    }

    /** One new row: the old rows whose image has a component on the local qubit. */
    static method CliffordRow(g: Tableau, oldX: seq<Bits>, oldZ: seq<Bits>, local: nat, wantX: bool) returns (row: Bits)
      requires local < |g.x| && local < |g.z| && |oldX| == |oldZ|
      ensures IsCliffordRow(row, g, oldX, oldZ, local, wantX)
    {
      var generator := if wantX then g.z[local] else g.x[local];
      row := [];
      for k := 0 to |oldX|
        invariant forall shot: nat ::
          At(row, shot) == CliffordBit(g, Column(oldX, shot), Column(oldZ, shot), local, wantX, k)
      {
        if At(generator.z, k) {
          row := Xor(row, oldX[k]);
        }
        if At(generator.x, k) {
          row := Xor(row, oldZ[k]);
        }
      }
    }

    /** Computes and stores the new rows of the qubits of a gate; returns them for the proof. */
    method StoreCliffordRows(g: Tableau, qubits: seq<nat>, oldX: seq<Bits>, oldZ: seq<Bits>)
      returns (ghost newX: seq<Bits>, ghost newZ: seq<Bits>)
      requires Shaped() && |g.x| == |g.z| == |qubits| == |oldX| == |oldZ|
      requires Distinct(qubits) && Below(qubits, qubitCount)
      modifies xFrames, zFrames
      ensures |newX| == |newZ| == |qubits|
      ensures xFrames[..] == Stored(old(xFrames[..]), qubits, newX)
      ensures zFrames[..] == Stored(old(zFrames[..]), qubits, newZ)
      ensures forall k :: 0 <= k < |qubits| ==> IsCliffordRow(newX[k], g, oldX, oldZ, k, true)
      ensures forall k :: 0 <= k < |qubits| ==> IsCliffordRow(newZ[k], g, oldX, oldZ, k, false)
    {
      hide Distinct, Stored, IsCliffordRow;
      newX, newZ := [], [];
      StoredNothing(xFrames[..], qubits);
      StoredNothing(zFrames[..], qubits);
      for local := 0 to |qubits|
        invariant |newX| == |newZ| == local
        invariant xFrames[..] == Stored(old(xFrames[..]), qubits, newX)
        invariant zFrames[..] == Stored(old(zFrames[..]), qubits, newZ)
        invariant forall k :: 0 <= k < local ==> IsCliffordRow(newX[k], g, oldX, oldZ, k, true)
        invariant forall k :: 0 <= k < local ==> IsCliffordRow(newZ[k], g, oldX, oldZ, k, false)
      {
        var newXRow := CliffordRow(g, oldX, oldZ, local, true);
        var newZRow := CliffordRow(g, oldX, oldZ, local, false);
        AssignRow(xFrames, qubits[local], newXRow);
        AssignRow(zFrames, qubits[local], newZRow);
        StoredNext(old(xFrames[..]), qubits, newX, newXRow);
        StoredNext(old(zFrames[..]), qubits, newZ, newZRow);
        newX, newZ := newX + [newXRow], newZ + [newZRow];
      }
    }

    method ApplyClifford(g: Tableau, qubits: seq<nat>)
      requires Shaped() && |g.x| == |g.z| == |qubits| && Distinct(qubits) && Below(qubits, qubitCount)
      modifies xFrames, zFrames
      ensures forall shot: nat :: Error(shot) == FrameClifford(old(Error(shot)), g, qubits)
    {
      var oldX := Snapshot(xFrames, qubits);
      var oldZ := Snapshot(zFrames, qubits);
      hide Distinct, Stored, Column, ErrorAt, FrameClifford, IsCliffordRow;
      ghost var newX, newZ := StoreCliffordRows(g, qubits, oldX, oldZ);
      forall shot: nat ensures Error(shot) == FrameClifford(old(Error(shot)), g, qubits) {
        CliffordShot(old(xFrames[..]), old(zFrames[..]), g, qubits, oldX, oldZ, newX, newZ, shot);
      }
    }

    /** The row at position `source` moves to position `permutation[source]`. */
    method MoveRows(permutation: seq<nat>, qubits: seq<nat>, oldX: seq<Bits>, oldZ: seq<Bits>, ghost targets: seq<nat>)
      requires Shaped() && |permutation| == |qubits| == |oldX| == |oldZ| == |targets|
      requires Distinct(targets) && Below(targets, qubitCount)
      requires forall k :: 0 <= k < |permutation| ==> permutation[k] < |qubits| && targets[k] == qubits[permutation[k]]
      modifies xFrames, zFrames
      ensures xFrames[..] == Stored(old(xFrames[..]), targets, oldX)
      ensures zFrames[..] == Stored(old(zFrames[..]), targets, oldZ)
    {
      hide Distinct, Stored;
      StoredNothing(xFrames[..], targets);
      StoredNothing(zFrames[..], targets);
      for source := 0 to |permutation|
        invariant xFrames[..] == Stored(old(xFrames[..]), targets, oldX[..source])
        invariant zFrames[..] == Stored(old(zFrames[..]), targets, oldZ[..source])
      {
        var target := qubits[permutation[source]];
        AssignRow(xFrames, target, oldX[source]);
        AssignRow(zFrames, target, oldZ[source]);
        StoredNext(old(xFrames[..]), targets, oldX[..source], oldX[source]);
        StoredNext(old(zFrames[..]), targets, oldZ[..source], oldZ[source]);
        assert oldX[..source + 1] == oldX[..source] + [oldX[source]];
        assert oldZ[..source + 1] == oldZ[..source] + [oldZ[source]];
      }
      assert oldX[..|permutation|] == oldX && oldZ[..|permutation|] == oldZ;
    }

    method ApplyPermutation(permutation: seq<nat>, qubits: seq<nat>)
      requires Shaped() && |permutation| == |qubits| && IsPermutation(permutation)
      requires Distinct(qubits) && Below(qubits, qubitCount)
      modifies xFrames, zFrames
      ensures forall shot: nat :: Error(shot) == FramePermute(old(Error(shot)), permutation, qubits)
    {
      var oldX := Snapshot(xFrames, qubits);
      var oldZ := Snapshot(zFrames, qubits);
      assert oldX == Picked(xFrames[..], qubits) && oldZ == Picked(zFrames[..], qubits);
      TargetsDistinct(permutation, qubits, qubitCount);
      hide ErrorAt, FramePermute, Stored, Targets, Picked, Distinct, IsPermutation;
      MoveRows(permutation, qubits, oldX, oldZ, Targets(permutation, qubits));
      forall shot: nat ensures Error(shot) == FramePermute(old(Error(shot)), permutation, qubits) {
        PermutedShot(old(xFrames[..]), old(zFrames[..]), permutation, qubits, shot);
      }
    }

    // ----- outcomes

    /** The outcome deltas of every shot get the anticommutation of its error with the observable. */
    method RecordDelta(p: Projective) returns (id: nat)
      requires Shaped() && ProjectiveOn(p, qubitCount) && nextOutcomeId < outcomeDeltas.Length
      requires forall k :: nextOutcomeId <= k < outcomeDeltas.Length ==> IsZero(outcomeDeltas[k])
      modifies this`nextOutcomeId, outcomeDeltas
      ensures id == old(nextOutcomeId) && nextOutcomeId == id + 1 <= outcomeDeltas.Length
      ensures forall k :: nextOutcomeId <= k < outcomeDeltas.Length ==> IsZero(outcomeDeltas[k])
      ensures forall shot: nat :: Deltas(shot) == old(Deltas(shot)) + [AntiBits(p, Error(shot))]
    {
      id := nextOutcomeId;
      nextOutcomeId := nextOutcomeId + 1;
      var anticommutes := AnticommutationMask(p);
      outcomeDeltas[id] := Xor(outcomeDeltas[id], anticommutes);
      assert outcomeDeltas[..id] == old(outcomeDeltas[..id]);
      assert outcomeDeltas[..nextOutcomeId] == outcomeDeltas[..id] + [outcomeDeltas[id]];
      hide AntiBits, ErrorAt;
      forall shot: nat ensures Deltas(shot) == old(Deltas(shot)) + [AntiBits(p, Error(shot))] {
        assert !At(old(outcomeDeltas[id]), shot);
        ColumnAppend(outcomeDeltas[..id], outcomeDeltas[id], shot);
      }
    }

    /** Advances the outcome counter; the row of the skipped outcome is zero. */
    method SkipOutcome() returns (id: nat)
      requires nextOutcomeId < outcomeDeltas.Length
      requires forall k :: nextOutcomeId <= k < outcomeDeltas.Length ==> IsZero(outcomeDeltas[k])
      modifies this`nextOutcomeId
      ensures id == old(nextOutcomeId) && nextOutcomeId == id + 1
      ensures forall shot: nat :: Deltas(shot) == old(Deltas(shot)) + [false]
    {
      id := nextOutcomeId;
      nextOutcomeId := nextOutcomeId + 1;
      assert outcomeDeltas[..nextOutcomeId] == outcomeDeltas[..id] + [outcomeDeltas[id]];
      forall shot: nat ensures Deltas(shot) == old(Deltas(shot)) + [false] {
        assert !At(outcomeDeltas[id], shot);
        ColumnAppend(outcomeDeltas[..id], outcomeDeltas[id], shot);
      }
    }

    /** The shots in which the parity of the listed outcomes is flipped. */
    method FlippedParity(ids: seq<nat>) returns (mask: Bits)
      requires Below(ids, nextOutcomeId) && nextOutcomeId <= outcomeDeltas.Length
      ensures forall shot: nat :: At(mask, shot) == TotalParity(Deltas(shot), ids)
    {
      mask := Zeros(shotCount);
      for k := 0 to |ids|
        invariant forall shot: nat :: At(mask, shot) == ParityTo(Deltas(shot), ids, k)
      {
        mask := Xor(mask, outcomeDeltas[ids[k]]);
      }
    }

    method ApplyConditionalPauli(p: Projective, ids: seq<nat>)
      requires Shaped() && ProjectiveOn(p, qubitCount)
      requires Below(ids, nextOutcomeId) && nextOutcomeId <= outcomeDeltas.Length
      modifies xFrames, zFrames
      ensures forall shot: nat :: Error(shot) == AddIf(old(Error(shot)), TotalParity(Deltas(shot), ids), p)
    {
      hide ErrorAt, ParityTo;
      var flipped := FlippedParity(ids);
      MultiplyWhere(p, flipped);
    }

    // ----- faults

    /** Flips the bits of one shot that the operator selects. */
    static method NegateColumn(rows: array<Bits>, bits: Bits, shot: nat)
      requires rows.Length == |bits|
      modifies rows
      ensures forall s: nat :: Column(rows[..], s) == if s == shot then Xor(old(Column(rows[..], s)), bits) else old(Column(rows[..], s))
    {
      for q := 0 to rows.Length
        invariant forall j :: 0 <= j < rows.Length ==>
          rows[j] == if j < q && bits[j] then SetBit(old(rows[j]), shot, !At(old(rows[j]), shot)) else old(rows[j])
      {
        if At(bits, q) {
          rows[q] := SetBit(rows[q], shot, !At(rows[q], shot));
        }
      }
      forall s: nat
        ensures Column(rows[..], s) == if s == shot then Xor(old(Column(rows[..], s)), bits) else old(Column(rows[..], s))
      {
        Same(Column(rows[..], s), if s == shot then Xor(old(Column(rows[..], s)), bits) else old(Column(rows[..], s)));
      }
    }

    method ApplyPauliToShot(shot: nat, p: Projective)
      requires Shaped() && ProjectiveOn(p, qubitCount)
      modifies xFrames, zFrames
      ensures forall s: nat :: Error(s) == if s == shot then Sum(old(Error(s)), p) else old(Error(s))
    {
      hide Column;
      NegateColumn(xFrames, p.x, shot);
      NegateColumn(zFrames, p.z, shot);
    }

    /** Multiplies each shot by the operator chosen for it. */
    method InjectFaults(faults: seq<Pauli>)
      requires Shaped() && forall k :: 0 <= k < |faults| ==> On(faults[k], qubitCount)
      modifies xFrames, zFrames
      ensures forall s: nat :: s < shotCount ==>
        Error(s) == if s < |faults| then Sum(old(Error(s)), faults[s].bits) else old(Error(s))
    {
      hide ErrorAt, Sum;
      for shot := 0 to shotCount
        invariant forall s: nat :: s < shotCount ==>
          Error(s) == if s < shot && s < |faults| then Sum(old(Error(s)), faults[s].bits) else old(Error(s))
      {
        if shot < |faults| {
          ApplyPauliToShot(shot, faults[shot].bits);
        }
      }
    }

    /** Places one operator in one shot, as if the noise had placed nothing else. */
    method InjectPauli(shot: nat, p: Pauli)
      requires Consistent() && shot < shotCount && On(p, qubitCount)
      modifies this`history, xFrames, zFrames
      ensures Consistent() && history == old(history) + [Noise(OnlyInShot(shot, p, qubitCount))]
    {
      ghost var faults := OnlyInShot(shot, p, qubitCount);
      ApplyPauliToShot(shot, p.bits);
      forall s: nat | s < shotCount
        ensures Error(s) == if s < |faults| then Sum(old(Error(s)), faults[s].bits) else old(Error(s))
      {
        SumIdentity(old(Error(s)), qubitCount);
        assert s < shot ==> faults[s] == Identity(qubitCount);
      }
      forall k | 0 <= k < |faults| ensures On(faults[k], qubitCount) {
        assert k < shot ==> faults[k] == Identity(qubitCount);
      }
      hide ErrorAt, Sum, Column, RunFrame, OutcomeCount, WellFormedCircuit;
      assert WellFormed(Noise(faults), qubitCount, OutcomeCount(history));
      Record(Noise(faults));
    }

    // ----- instructions

    /** Records one instruction, given that every shot has taken its step. */
    ghost method Record(i: Instruction)
      requires Shaped() && nextOutcomeId <= outcomeDeltas.Length
      requires forall k :: nextOutcomeId <= k < outcomeDeltas.Length ==> IsZero(outcomeDeltas[k])
      requires WellFormedCircuit(history, qubitCount) && WellFormed(i, qubitCount, OutcomeCount(history))
      requires nextOutcomeId == OutcomesAfter(i, OutcomeCount(history))
      requires forall shot: nat {:trigger Error(shot)} :: shot < shotCount ==>
        Frame(Error(shot), Deltas(shot)) == FrameStep(RunFrame(history, qubitCount, shot), i, qubitCount, shot)
      modifies this`history
      ensures Consistent() && history == old(history) + [i]
    {
      WellFormedAppend(history, i, qubitCount);
      OutcomeCountAppend(history, i);
      history := history + [i];
      forall shot: nat | shot < shotCount
        ensures Frame(Error(shot), Deltas(shot)) == RunFrame(history, qubitCount, shot)
      {
        RunFrameAppend(old(history), i, qubitCount, shot);
      }
      hide ErrorAt, Column, FrameStep, RunFrame, WellFormed, WellFormedCircuit, OutcomeCount;
    }

    /** A unitary gate; Pauli gates change no frame. */
    method ApplyGate(i: Instruction)
      requires Shaped() && IsUnitary(i) && WellFormed(i, qubitCount, nextOutcomeId)
      modifies xFrames, zFrames
      ensures forall shot: nat :: Error(shot) == FrameUnitary(old(Error(shot)), i, qubitCount, nextOutcomeId)
    {
      hide ErrorAt, FrameOp, FrameClifford, FrameExp, FramePermute, FrameControlled;
      match i {
        case Unitary(op, qubits) => ApplyUnitaryOp(op, qubits);
        case Clifford(g, qubits) =>
          Sizes(g, |qubits|);
          ApplyClifford(g, qubits);
        case PauliGate(_) =>
        case PauliExp(p) => ApplyPauliExp(p.bits);
        case Permute(permutation, qubits) => ApplyPermutation(permutation, qubits);
        case ControlledPauli(control, target) => ApplyControlledPauli(control.bits, target.bits);
      }
    }

    method Execute(i: Instruction)
      requires Consistent() && WellFormed(i, qubitCount, nextOutcomeId)
      requires MakesOutcome(i) ==> nextOutcomeId < outcomeDeltas.Length
      modifies this, xFrames, zFrames, outcomeDeltas
      ensures Consistent() && history == old(history) + [i] && nextOutcomeId == OutcomesAfter(i, old(nextOutcomeId))
    {
      hide ErrorAt, Column, RunFrame, FrameUnitary, AntiBits, AddIf, Sum, ParityTo, OutcomeCount, WellFormedCircuit;
      var id;
      match i {
        case Measure(p, _) => id := RecordDelta(p.bits);
        case MeasureWithHint(p, _, _) => id := RecordDelta(p.bits);
        case AllocateRandomBit(_) => id := SkipOutcome();
        case ConditionalPauli(p, ids, _) => ApplyConditionalPauli(p.bits, ids);
        case Noise(faults) => InjectFaults(faults);
        case _ => ApplyGate(i);
      }
      Record(i);
    }
  }

  /** The faults that place one operator in one shot. */
  function OnlyInShot(shot: nat, p: Pauli, n: nat): (faults: seq<Pauli>)
    ensures |faults| == shot + 1 && faults[shot] == p
    ensures forall s :: 0 <= s < shot ==> faults[s] == Identity(n)
  {
    seq(shot + 1, s => if s == shot then p else Identity(n))
  }

  lemma SumIdentity(e: Projective, n: nat)
    requires ProjectiveOn(e, n)
    ensures Sum(e, IdentityBits(n)) == e
  {
    XorZeros(e.x, n);
    XorZeros(e.z, n);
  }

  lemma ColumnAppend(rows: seq<Bits>, row: Bits, shot: nat)
    ensures Column(rows + [row], shot) == Column(rows, shot) + [At(row, shot)]
  {
  }

  lemma RunFrameAppend(history: seq<Instruction>, i: Instruction, n: nat, shot: nat)
    requires WellFormedCircuit(history, n) && WellFormed(i, n, OutcomeCount(history))
    ensures WellFormedCircuit(history + [i], n)
    ensures RunFrame(history + [i], n, shot) == FrameStep(RunFrame(history, n, shot), i, n, shot)
  {
    WellFormedAppend(history, i, n);
    hide FrameStep, WellFormed;
  }

  // ----- storing rows one by one

  /** The rows with the first new ones stored at the targets. */
  ghost function Stored(rows: seq<Bits>, targets: seq<nat>, stored: seq<Bits>): (result: seq<Bits>)
    ensures |result| == |rows|
  {
    seq(|rows|, q requires 0 <= q < |rows| =>
      var k := Position(targets, q);
      if 0 <= k < |stored| then stored[k] else rows[q])
  }

  lemma StoredNothing(rows: seq<Bits>, targets: seq<nat>)
    ensures Stored(rows, targets, []) == rows
  {
  }

  lemma StoredNext(rows: seq<Bits>, targets: seq<nat>, stored: seq<Bits>, row: Bits)
    requires |stored| < |targets| && Distinct(targets) && Below(targets, |rows|)
    ensures Stored(rows, targets, stored + [row]) == Stored(rows, targets, stored)[targets[|stored|] := row]
  {
    PositionOf(targets, |stored|);
  }

  /** The row holds, for every shot, the image bit of the local qubit. */
  ghost predicate IsCliffordRow(row: Bits, g: Tableau, oldX: seq<Bits>, oldZ: seq<Bits>, local: nat, wantX: bool)
    requires local < |g.x| && local < |g.z|
  {
    forall shot: nat ::
      At(row, shot) == CliffordBit(g, Column(oldX, shot), Column(oldZ, shot), local, wantX, |oldX|)
  }

  lemma CliffordShot(x: seq<Bits>, z: seq<Bits>, g: Tableau, qubits: seq<nat>, oldX: seq<Bits>, oldZ: seq<Bits>,
                     newX: seq<Bits>, newZ: seq<Bits>, shot: nat)
    requires |x| == |z| && |g.x| == |g.z| == |qubits| == |newX| == |newZ| == |oldX| == |oldZ| && Below(qubits, |x|)
    requires forall k :: 0 <= k < |qubits| ==> oldX[k] == x[qubits[k]] && oldZ[k] == z[qubits[k]]
    requires forall k :: 0 <= k < |qubits| ==> IsCliffordRow(newX[k], g, oldX, oldZ, k, true)
    requires forall k :: 0 <= k < |qubits| ==> IsCliffordRow(newZ[k], g, oldX, oldZ, k, false)
    ensures ErrorAt(Stored(x, qubits, newX), Stored(z, qubits, newZ), shot) == FrameClifford(ErrorAt(x, z, shot), g, qubits)
  {
    GatherColumn(x, oldX, qubits, shot);
    GatherColumn(z, oldZ, qubits, shot);
    hide CliffordBit, Gather;
    var after := ErrorAt(Stored(x, qubits, newX), Stored(z, qubits, newZ), shot);
    forall q: nat | q < |x|
      ensures At(after.x, q) == At(FrameClifford(ErrorAt(x, z, shot), g, qubits).x, q)
      ensures At(after.z, q) == At(FrameClifford(ErrorAt(x, z, shot), g, qubits).z, q)
    {
      var k := Position(qubits, q);
      if k >= 0 {
        assert IsCliffordRow(newX[k], g, oldX, oldZ, k, true) && IsCliffordRow(newZ[k], g, oldX, oldZ, k, false);
      }
    }
    SameBitsOf(after, FrameClifford(ErrorAt(x, z, shot), g, qubits), |x|);
  }

  /** Where the rows of a support go. */
  ghost function Targets(permutation: seq<nat>, qubits: seq<nat>): seq<nat>
    requires Below(permutation, |qubits|)
  {
    seq(|permutation|, k requires 0 <= k < |permutation| => qubits[permutation[k]])
  }

  /** The rows of some qubits, in the order of the qubits. */
  ghost function Picked(rows: seq<Bits>, qubits: seq<nat>): seq<Bits>
    requires Below(qubits, |rows|)
  {
    seq(|qubits|, k requires 0 <= k < |qubits| => rows[qubits[k]])
  }

  lemma TargetsDistinct(permutation: seq<nat>, qubits: seq<nat>, n: nat)
    requires |permutation| == |qubits| && IsPermutation(permutation) && Distinct(qubits) && Below(qubits, n)
    ensures Distinct(Targets(permutation, qubits)) && Below(Targets(permutation, qubits), n)
    ensures |Targets(permutation, qubits)| == |permutation| && Below(permutation, |permutation|)
    ensures forall k :: 0 <= k < |permutation| ==> Targets(permutation, qubits)[k] == qubits[permutation[k]]
  {
  }

  lemma PermutedShot(x: seq<Bits>, z: seq<Bits>, permutation: seq<nat>, qubits: seq<nat>, shot: nat)
    requires |x| == |z| && |permutation| == |qubits| && IsPermutation(permutation)
    requires Distinct(qubits) && Below(qubits, |x|)
    ensures var targets := Targets(permutation, qubits);
      ErrorAt(Stored(x, targets, Picked(x, qubits)), Stored(z, targets, Picked(z, qubits)), shot)
      == FramePermute(ErrorAt(x, z, shot), permutation, qubits)
  {
    var targets := Targets(permutation, qubits);
    var oldX, oldZ := Picked(x, qubits), Picked(z, qubits);
    forall q: nat | q < |x|
      ensures Stored(x, targets, oldX)[q] == x[FrameSource(permutation, qubits, q)]
      ensures Stored(z, targets, oldZ)[q] == z[FrameSource(permutation, qubits, q)]
    {
      var k, local := Position(targets, q), Position(qubits, q);
      if k >= 0 {
        PositionOf(qubits, permutation[k]);
        PositionOf(permutation, k);
      }
      if local >= 0 && Position(permutation, local) >= 0 {
        PositionOf(targets, Position(permutation, local));
      }
    }
    hide Stored, FrameSource;
    SameBitsOf(ErrorAt(Stored(x, targets, oldX), Stored(z, targets, oldZ), shot),
               FramePermute(ErrorAt(x, z, shot), permutation, qubits), |x|);
  }

  lemma GatherColumn(rows: seq<Bits>, copies: seq<Bits>, qubits: seq<nat>, shot: nat)
    requires Below(qubits, |rows|) && |copies| == |qubits|
    requires forall k :: 0 <= k < |qubits| ==> copies[k] == rows[qubits[k]]
    ensures Gather(Column(rows, shot), qubits) == Column(copies, shot)
  {
    Same(Gather(Column(rows, shot), qubits), Column(copies, shot));
  }
}
