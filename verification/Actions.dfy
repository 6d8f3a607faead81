/** The maps between circuit outcomes and branch bits in the action of a circuit. */
module Actions {
  import opened Bits
  import Tableaus
  import opened Circuits
  import opened SpecificModel
  import opened CompleteModel
  import opened Branches
  import opened CompleteSimulation
  import opened AffineMaps

  /** Row `j` of the branch bit map: one at the outcome that introduced branch bit `j`. */
  function BranchRow(introduces: seq<bool>, j: nat): Bits {
    seq(|introduces|, k requires 0 <= k < |introduces| => introduces[k] && CountTrue(introduces[..k]) == j)
  }

  function BranchRows(introduces: seq<bool>): seq<Bits> {
    seq(CountTrue(introduces), j requires 0 <= j => BranchRow(introduces, j))
  }

  /** One pass over the outcomes, with the index of the next branch bit. */
  method BranchBitMapMatrix(introduces: seq<bool>, branchBitCount: nat) returns (matrix: seq<Bits>)
    requires branchBitCount == CountTrue(introduces)
    ensures matrix == BranchRows(introduces)
  {
    matrix := seq(branchBitCount, j => Zeros(|introduces|));
    var next := 0;
    for id := 0 to |introduces|
      invariant next == CountTrue(introduces[..id]) && |matrix| == branchBitCount
      invariant forall j :: 0 <= j < branchBitCount ==> |matrix[j]| == |introduces|
      invariant forall j, k :: 0 <= j < branchBitCount && 0 <= k < |introduces| ==>
        matrix[j][k] == (k < id && introduces[k] && CountTrue(introduces[..k]) == j)
    {
      assert introduces[..id + 1][..id] == introduces[..id];
      if introduces[id] {
        CountPrefix(introduces, id + 1);
        matrix := matrix[next := matrix[next][id := true]];
        next := next + 1;
      }
    }
    forall j | 0 <= j < branchBitCount ensures matrix[j] == BranchRow(introduces, j) {
      assert forall k :: 0 <= k < |introduces| ==> matrix[j][k] == BranchRow(introduces, j)[k];
    }
    assert introduces[..|introduces|] == introduces;
  }

  /** The outcome that introduced branch bit `j`. */
  function Location(introduces: seq<bool>, j: nat): (k: nat)
    requires j < CountTrue(introduces)
    ensures k < |introduces| && introduces[k] && CountTrue(introduces[..k]) == j
  {
    var last := |introduces| - 1;
    assert introduces[..last + 1] == introduces;
    if j < CountTrue(introduces[..last]) then
      var k := Location(introduces[..last], j);
      assert introduces[..last][..k] == introduces[..k];
      k
    else last
  }

  lemma CountIsIncreasing(introduces: seq<bool>, k: nat, m: nat)
    requires k < m < |introduces| && introduces[k]
    ensures CountTrue(introduces[..k]) < CountTrue(introduces[..m])
  {
    assert introduces[..m][..k + 1] == introduces[..k + 1] && introduces[..k + 1][..k] == introduces[..k];
    CountPrefix(introduces[..m], k + 1);
  }

  lemma BranchRowIsUnit(introduces: seq<bool>, j: nat)
    requires j < CountTrue(introduces)
    ensures BranchRow(introduces, j) == Unit(|introduces|, Location(introduces, j))
  {
    var k := Location(introduces, j);
    forall m: nat | m < |introduces|
      ensures At(BranchRow(introduces, j), m) == At(Unit(|introduces|, k), m)
    {
      if introduces[m] && m < k {
        CountIsIncreasing(introduces, m, k);
      } else if m > k {
        CountIsIncreasing(introduces, k, m);
      }
    }
    Same(BranchRow(introduces, j), Unit(|introduces|, k));
  }

  // ----- the two maps

  /** A row read with a fixed number of columns. */
  function Fit(a: Bits, columns: nat): (b: Bits)
    ensures |b| == columns && forall j: nat :: At(b, j) == (j < columns && At(a, j))
  {
    seq(columns, j requires 0 <= j => At(a, j))
  }

  function OutcomesFromBranchBits(c: Complete): AffineMap {
    AffineMap(seq(|c.outcomeMatrix|, k requires 0 <= k < |c.outcomeMatrix| => Fit(c.outcomeMatrix[k], c.branchBits)),
              c.branchBits, c.shift)
  }

  function BranchBitsFromOutcomes(c: Complete): AffineMap {
    var rows := BranchRows(c.introduces);
    AffineMap(rows, |c.introduces|, MatrixVector(rows, c.shift))
  }

  /** Builds both maps of a circuit from what its simulation left. */
  method ActionMaps(c: Complete, ghost n: nat) returns (branchBitsFromOutcomes: AffineMap, outcomesFromBranchBits: AffineMap)
    requires CompleteValid(c, n)
    ensures branchBitsFromOutcomes == BranchBitsFromOutcomes(c)
    ensures outcomesFromBranchBits == OutcomesFromBranchBits(c)
  {
    var matrix := BranchBitMapMatrix(c.introduces, c.branchBits);
    var shift := MatrixVector(matrix, c.shift);
    branchBitsFromOutcomes := AffineMap(matrix, |c.introduces|, shift);
    var rows: seq<Bits> := [];
    for k := 0 to |c.outcomeMatrix|
      invariant |rows| == k && forall j :: 0 <= j < k ==> rows[j] == Fit(c.outcomeMatrix[j], c.branchBits)
    {
      rows := rows + [Fit(c.outcomeMatrix[k], c.branchBits)];
    }
    outcomesFromBranchBits := AffineMap(rows, c.branchBits, c.shift);
  }

  lemma DotOfFit(a: Bits, columns: nat, r: Bits)
    requires Bounded(a, columns)
    ensures Dot(Fit(a, columns), r) == Dot(a, r)
  {
    DotToFit(a, columns, r, Max(Max(|a|, columns), |r|));
    DotToStable(a, r, Max(Max(|a|, columns), |r|));
    DotToStable(Fit(a, columns), r, Max(Max(|a|, columns), |r|));
  }

  lemma DotToFit(a: Bits, columns: nat, r: Bits, k: nat)
    requires Bounded(a, columns)
    ensures DotTo(Fit(a, columns), r, k) == DotTo(a, r, k)
  {
  }

  lemma MapShapes(c: Complete, n: nat)
    requires CompleteValid(c, n)
    ensures Shaped(OutcomesFromBranchBits(c)) && Shaped(BranchBitsFromOutcomes(c))
    ensures OutputDimension(OutcomesFromBranchBits(c)) == InputDimension(BranchBitsFromOutcomes(c)) == |c.introduces|
    ensures OutputDimension(BranchBitsFromOutcomes(c)) == InputDimension(OutcomesFromBranchBits(c)) == c.branchBits
  {
  }

  lemma RowBounded(c: Complete, k: nat, n: nat)
    requires CompleteValid(c, n) && k < |c.outcomeMatrix|
    ensures Bounded(c.outcomeMatrix[k], c.branchBits)
  {
    assert OutcomeRowValid(c.outcomeMatrix, c.shift, c.introduces, k);
    CountPrefix(c.introduces, k + 1);
  }

  /** Branch bits can be read back from the outcomes they lead to. */
  lemma BranchBitsRoundTrip(c: Complete, n: nat, r: Bits)
    requires CompleteValid(c, n) && |r| == c.branchBits
    ensures Apply(BranchBitsFromOutcomes(c), Apply(OutcomesFromBranchBits(c), r)) == r
  {
    MapShapes(c, n);
    var outcomes := Apply(OutcomesFromBranchBits(c), r);
    forall j: nat | j < c.branchBits ensures At(Apply(BranchBitsFromOutcomes(c), outcomes), j) == At(r, j) {
      BranchBitReadBack(c, n, r, j);
    }
    hide Apply, CompleteValid;
    ApplySize(BranchBitsFromOutcomes(c), outcomes);
    Same(Apply(BranchBitsFromOutcomes(c), outcomes), r);
  }

  lemma ApplySize(f: AffineMap, x: Bits)
    requires Shaped(f)
    ensures |Apply(f, x)| == OutputDimension(f)
  {
  }

  lemma BranchBitReadBack(c: Complete, n: nat, r: Bits, j: nat)
    requires CompleteValid(c, n) && |r| == c.branchBits && j < c.branchBits
    ensures At(Apply(BranchBitsFromOutcomes(c), Apply(OutcomesFromBranchBits(c), r)), j) == At(r, j)
  {
    MapShapes(c, n);
    var outcomes := Apply(OutcomesFromBranchBits(c), r);
    var k := Location(c.introduces, j);
    assert OutcomeRowValid(c.outcomeMatrix, c.shift, c.introduces, k);
    BranchRowIsUnit(c.introduces, j);
    DotUnit(outcomes, |c.introduces|, k);
    DotUnit(c.shift, |c.introduces|, k);
    RowBounded(c, k, n);
    DotOfFit(c.outcomeMatrix[k], c.branchBits, r);
    DotOfBit(j, r);
    hide Dot, Tableaus.Valid, BranchRow, Location;
  }

  lemma DotOfBit(j: nat, r: Bits)
    ensures Dot(SetBit([], j, true), r) == At(r, j)
  {
    Same(SetBit([], j, true), Unit(j + 1, j));
    DotUnit(r, j + 1, j);
  }

  /** As maps: reading back after producing is the identity. */
  lemma BranchBitsIdentity(c: Complete, n: nat)
    requires CompleteValid(c, n)
    ensures InputDimension(BranchBitsFromOutcomes(c)) == OutputDimension(OutcomesFromBranchBits(c))
    ensures Compose(BranchBitsFromOutcomes(c), OutcomesFromBranchBits(c))
         == Linear(IdentityMatrix(c.branchBits), c.branchBits)
  {
    hide *;
    ComposedShape(c, n);
    forall r: Bits | |r| == c.branchBits
      ensures Apply(Compose(BranchBitsFromOutcomes(c), OutcomesFromBranchBits(c)), r) == r
    {
      ReadBack(c, n, r);
    }
    IdentityIsUnique(Compose(BranchBitsFromOutcomes(c), OutcomesFromBranchBits(c)), c.branchBits);
  }

  lemma IdentityIsUnique(f: AffineMap, n: nat)
    requires Shaped(f) && f.columns == |f.matrix| == n && forall r: Bits :: |r| == n ==> Apply(f, r) == r
    ensures f == Linear(IdentityMatrix(n), n)
  {
    IdentityMapApplies(n);
    hide *;
    SameValues(f, Linear(IdentityMatrix(n), n));
  }

  lemma ReadBack(c: Complete, n: nat, r: Bits)
    requires CompleteValid(c, n) && |r| == c.branchBits
    ensures InputDimension(BranchBitsFromOutcomes(c)) == OutputDimension(OutcomesFromBranchBits(c))
    ensures Apply(Compose(BranchBitsFromOutcomes(c), OutcomesFromBranchBits(c)), r) == r
  {
    MapShapes(c, n);
    hide *;
    ComposeApplies(BranchBitsFromOutcomes(c), OutcomesFromBranchBits(c), r);
    BranchBitsRoundTrip(c, n, r);
  }

  lemma ComposedShape(c: Complete, n: nat)
    requires CompleteValid(c, n)
    ensures InputDimension(BranchBitsFromOutcomes(c)) == OutputDimension(OutcomesFromBranchBits(c))
    ensures var f := Compose(BranchBitsFromOutcomes(c), OutcomesFromBranchBits(c));
      Shaped(f) && f.columns == c.branchBits && |f.matrix| == c.branchBits
  {
    MapShapes(c, n);
    hide CompleteValid, Shaped, BranchBitsFromOutcomes, OutcomesFromBranchBits;
    ComposeApplies(BranchBitsFromOutcomes(c), OutcomesFromBranchBits(c), []);
    ComposeSize(BranchBitsFromOutcomes(c), OutcomesFromBranchBits(c));
  }

  lemma ComposeSize(f: AffineMap, g: AffineMap)
    requires InputDimension(f) == OutputDimension(g)
    ensures InputDimension(Compose(f, g)) == Compose(f, g).columns == InputDimension(g)
    ensures OutputDimension(Compose(f, g)) == |Compose(f, g).matrix| == OutputDimension(f)
  {
  }

  lemma IdentityMapApplies(n: nat)
    ensures var one := Linear(IdentityMatrix(n), n);
      && Shaped(one) && one.columns == n && |one.matrix| == n
      && forall r: Bits :: |r| == n ==> Apply(one, r) == r
  {
    var one := Linear(IdentityMatrix(n), n);
    assert one == Translation(Zeros(n));
    TranslationApplies(Zeros(n), Zeros(n));
    forall r: Bits | |r| == n ensures Apply(one, r) == r {
      TranslationApplies(Zeros(n), r);
      XorZeros(r, n);
    }
  }

  /**
   * For every circuit the maps describe its runs: the first gives the outcomes of the run on those branch bits, and
   * from the outcomes of any run the second recovers the bits that were drawn.
   */
  lemma ActionMapsDescribeRuns(circuit: seq<Instruction>, n: nat, r: Bits)
    requires WellFormedCircuit(circuit, n) && |r| == RunComplete(circuit, n).branchBits
    ensures var c, outcomes := RunComplete(circuit, n), RunSpecific(circuit, n, SourceOf(r)).outcomes;
      && outcomes == Apply(OutcomesFromBranchBits(c), r)
      && r == Apply(BranchBitsFromOutcomes(c), outcomes)
  {
    var c := RunComplete(circuit, n);
    var outcomes := Apply(OutcomesFromBranchBits(c), r);
    MapShapes(c, n);
    ApplySize(OutcomesFromBranchBits(c), r);
    BranchBitsRoundTrip(c, n, r);
    hide RunComplete, RunSpecific, Tableaus.Valid, Dot, SourceOf, OutcomeRowValid;
    forall k | 0 <= k < |outcomes| ensures outcomes[k] == (Dot(c.outcomeMatrix[k], r) != c.shift[k]) {
      RowBounded(c, k, n);
      DotOfFit(c.outcomeMatrix[k], c.branchBits, r);
      assert At(outcomes, k) == outcomes[k];
    }
    ShotIsRun(circuit, n, r, outcomes);
  }
}
