# Stabilizer simulation and Pauli groups

This Dafny project models the stabilizer-simulation engine of the `pauliverse` crate and the Pauli-group algebra of the
`paulimer` crate, and proves what they promise for every qubit count, every circuit, every placement of faults and every
choice of random bits.

A Pauli operator is i^k X^x Z^z with bit vectors x and z and k modulo four. A simulation owns an encoder: the preimages
of the X and Z generators, updated in place. A run is the list of calls made so far; each simulator class records its
calls in a ghost field and proves after every call that its fields hold the state that those calls lead to.

| files | what they hold |
|---|---|
| Bits, Paulis, PauliMutation | bit vectors over GF(2), the Pauli group, operators changed in place |
| Tableaus, Measurement, Gates, PauliGates, SupportGates, Encoders | encoders, the measurement update, gates, and their in-place loops |
| GateActions, SupportActions | the signed images of every gate, on generators and on all operators |
| Circuits, SpecificModel, CompleteModel, FreeModel | instructions and runs of the three simulators as state machines |
| SpecificSimulation, CompleteSimulation, FreeSimulation | the simulators as classes |
| Meaning | what each instruction does to stabilizers and outcomes, without encoders |
| Branches, Queries, Agreement | how the three simulators relate on every run |
| FrameModel, FrameFastPaths, FrameExactness, FramePropagation, PermutationDirection | Pauli frames of one shot, their exactness, and the propagator for all shots |
| FaultySimulation | recording circuits and sampling noisy outcomes |
| AffineMaps, Actions | affine maps and the outcome maps of a circuit action |
| LinearAlgebra, Spans | row reduction with transforms, uniqueness of the reduced form, solving |
| Groups, StandardForms, CanonicalForms, GroupEquality, StandardCharacterization, PauliGroups | Pauli groups: standard form, phases, membership, equality and inclusion |
| CosetReduction, Enumeration, SymplecticForms | coset representatives, enumeration, symplectic Gram-Schmidt |

Main results:

- **The random measurement update** (Measurement, Encoders). The four sparse loops equal the dense update, the result is a
  valid encoder, and its signed stabilizers are exactly those of the projective measurement.
- **Gates and instructions mean what they say** (GateActions, SupportActions, Meaning). Signed images of every opcode, of
  Clifford gates and permutations on a support; and for every run, in the specific simulation and in every branch of the
  complete one, what the last instruction did to the signed stabilizers and to the outcomes, stated without encoders.
- **One run, three simulators** (Branches, Queries, Agreement). Every specific run is a branch of the complete run, with
  outcomes M r + v0; the outcome-free run is both without phases; queries of the complete simulator hold iff they hold in
  every branch.
- **Frames are exact** (FrameExactness, FaultySimulation). Adding the propagated deltas to clean outcomes is really running
  the faulty circuit, conditional Paulis and hints included. Clean and faulty encoders need not be related beyond their
  stabilizers, so the invariant compares stabilizers only.
- **Groups** (GroupEquality, StandardCharacterization, PauliGroups and their neighbours). Standard generators are canonical
  including phases and are characterized without their construction; equality, membership, inclusion, coset reduction and
  enumeration are exact, for non-abelian groups too.

Two promises do not hold of the code. First, `permute` is documented to map old indices to new ones
(pauliverse/src/lib.rs:162-167), which is what `apply_permutation` does to frames (pauliverse/src/frame_propagator.rs:297-301),
but `left_mul_permutation` (paulimer/src/clifford/clifford_impl.rs:794-811) moves the rows of the encoder the other way.
The two agree exactly for involutions, such as swaps. So frame propagation is proved exact for circuits whose permutations are
involutions, `PermutationExactIffInvolution` shows that a permutation passes every fault-permute-measure circuit iff it is an
involution, and `ThreeCycleIsMispredicted` is a concrete circuit on which noisy sampling gives wrong outcomes.

Second, `controlled_pauli` is documented to apply its second operator where the first one is in the +1 eigenstate
(pauliverse/src/lib.rs:151-154). The code applies it where the first one is -1, as controlled X does; `ControlledOnEigenstates`
proves this, and `PlusEigenstatePromise` that the documented rule holds of a state iff the second operator commutes with all of
its stabilizers.

Observables, exponents and operands of controlled Paulis are required to have order two, operands of a controlled Pauli to
commute, and hints to anticommute with their observable, as the code asserts or needs to stay unitary.

## Model

| member | source | states |
|---|---|---|
| Paulis.MulAssoc | paulimer/src/pauli/generic.rs:797-819 | the product, with a sign for each Z moved past an X, is associative with phases |
| Paulis.MulComm | paulimer/src/pauli.rs:242-247 | two products in opposite order differ by the sign that `anti_commutes_with` computes |
| Paulis.Square | paulimer/src/pauli/generic.rs:453-455 | an operator squares to plus or minus the identity, by `is_order_two` |
| PauliMutation.UnitProducts | paulimer/src/pauli/generic.rs:562-583 | the in-place bit flips and phase changes are left and right multiplication by X and Z |
| PauliMutation.InverseIsInverse | paulimer/src/pauli/generic.rs:537-542 | conjugating the phase and negating on odd Y parity gives a two-sided inverse |
| PauliMutation.OwnInverse | paulimer/src/pauli/generic.rs:537-542 | an operator is its own inverse iff it has order two |
| PauliMutation.PauliUnitary.MulAssignLeftY | paulimer/src/pauli.rs:229-233 | Z, X and a phase, in that order, multiply by Y on the left exactly |
| PauliMutation.PauliUnitary.MulAssignRightY | paulimer/src/pauli.rs:235-239 | X, Z and a phase, in that order, multiply by Y on the right exactly |
| PauliMutation.PauliUnitary.MulAssignRight | paulimer/src/pauli/generic.rs:797-808 | in-place right multiplication is the product |
| PauliMutation.PauliUnitary.MulAssignLeft | paulimer/src/pauli/generic.rs:810-819 | in-place left multiplication is the product in the other order |
| PauliMutation.PauliUnitary.Invert | paulimer/src/pauli/generic.rs:537-542 | in-place inversion leaves the inverse |
| Tableaus.PreimageMul | pauliverse/src/outcome_free_simulation.rs:309-327 | on every valid tableau the preimage of a product is the product of preimages, phase exact |
| Tableaus.PreimageAnti | pauliverse/src/outcome_free_simulation.rs:309-327 | preimages commute iff the operators do |
| Tableaus.PreimageOrderTwo | pauliverse/src/outcome_free_simulation.rs:309-327 | preimages have order two iff the operators do |
| Tableaus.PreimageInjective | pauliverse/src/outcome_free_simulation.rs:309-327 | distinct operators have distinct preimages |
| Tableaus.GeneratedPreimage | paulimer/src/clifford/generic_algos.rs:335-353 | a phase-respecting homomorphism is determined by its values on the generators |
| Tableaus.GeneratedValid | paulimer/src/clifford/generic_algos.rs:89-112 | the values of a homomorphism on the generators form a valid tableau |
| Tableaus.ComposePreimage | paulimer/src/clifford/generic_algos.rs:294-318 | the composed tableau is valid and maps every operator through both |
| Tableaus.ProductXor | pauliverse/src/outcome_free_simulation.rs:309-327 | commuting rows of order two multiply like bit vectors |
| Gates.GateStep | paulimer/src/clifford/clifford_impl.rs:699-764 | every unitary opcode keeps the encoder valid and is composition with its gate, whose signed images the next rows state |
| GateActions.XThenZ | paulimer/src/pauli.rs:71-73 | every operator is its phase times its X factors times its Z factors, in this order |
| GateActions.YIsProduct | paulimer/src/pauli.rs:229-239 | Y is i X Z and -i Z X |
| GateActions.PauliOps | paulimer/src/clifford/generic_algos.rs:154-168 | on every encoder the opcodes X, Y and Z are the gates of the operators X, Y and Z |
| GateActions.RootOps | paulimer/src/clifford/generic_algos.rs:126-152 | on every encoder the six square roots are exponentials: of -X, -Y, -Z, and for the inverses of X, Y, Z |
| GateActions.ControlledOps | paulimer/src/clifford/generic_algos.rs:114-124 | on every encoder controlled X and controlled Z are the controlled Paulis (Z, X) and (Z, Z) |
| GateActions.OneQubitActs | paulimer/src/clifford/clifford_impl.rs:699-742 | the signed preimages of X and Z under each one-qubit opcode; every other qubit is fixed |
| GateActions.TwoQubitActs | paulimer/src/clifford/clifford_impl.rs:743-763 | the signed preimages of the four generators under each two-qubit opcode; every other qubit is fixed |
| GateActions.OpPreimage | paulimer/src/clifford/clifford_impl.rs:699-764 | on any encoder an opcode sends every operator through these preimages first |
| GateActions.BellState | paulimer/src/clifford/generic_algos.rs:266-276 | from \|00> the Bell preparation leaves +XX and +ZZ as stabilizers |
| PauliGates.StepPauli | paulimer/src/clifford/clifford_impl.rs:775-782 | a Pauli gate negates exactly the operators that anticommute with it |
| PauliGates.StepPauliExp | paulimer/src/clifford/generic_algos.rs:383-407 | a Pauli exponential is a transvection on every operator, phase included |
| PauliGates.StepControlledPauli | paulimer/src/clifford/generic_algos.rs:409-446 | a controlled Pauli with commuting order-two operands is a valid gate with the stated images |
| SupportGates.StepClifford | paulimer/src/clifford/clifford_impl.rs:1021-1054 | a Clifford gate on a support keeps the encoder valid and is composition with the embedded gate, whose signed images later rows state |
| SupportGates.StepPermutation | paulimer/src/clifford/clifford_impl.rs:794-811 | a permutation keeps the encoder valid and is composition with its gate, whose signed images later rows state |
| SupportActions.OnSupportGenerators | paulimer/src/clifford/clifford_impl.rs:824-835 | moved to a support, generators are the generators of its qubits, without a sign |
| SupportActions.OnSupportMul | paulimer/src/clifford/clifford_impl.rs:824-835 | moving operators to a support respects products and phases |
| SupportActions.OnSupportInjective | paulimer/src/clifford/clifford_impl.rs:824-835 | different operators stay different on the support |
| SupportActions.AgreeEverywhere | paulimer/src/clifford/generic_algos.rs:335-353 | maps that respect products and phases and agree on the generators agree on every operator |
| SupportActions.EmbeddedActs | paulimer/src/clifford/clifford_impl.rs:1021-1054 | for every operator on the support, preimage after moving is moving the preimage, phases included |
| SupportActions.EmbeddedElsewhere | paulimer/src/clifford/clifford_impl.rs:1021-1054 | a Clifford gate on a support fixes the generators of the other qubits, signs included |
| SupportActions.CliffordIsOp | paulimer/src/clifford/clifford_impl.rs:1021-1054 | an opcode is the Clifford gate of its own tableau on its qubits, on every encoder, phases included |
| SupportActions.PermutationActs | paulimer/src/clifford/clifford_impl.rs:794-811 | for every permutation the preimages of X and Z at support[e] are X and Z at support[perm[e]], without a sign |
| SupportActions.PermutationElsewhere | paulimer/src/clifford/clifford_impl.rs:794-811 | qubits outside the support are fixed |
| SupportActions.PermutationRelabels | paulimer/src/clifford/clifford_impl.rs:794-811 | a permutation relabels the qubits of every operator and keeps its phase |
| SupportActions.SwapIsPermutation | paulimer/src/clifford/clifford_impl.rs:743-746 | the opcode Swap is the permutation that exchanges two qubits |
| Circuits.UnitaryStep | pauliverse/src/circuit.rs:188-198 | every unitary instruction composes the encoder with its gate |
| Encoders.BinarySearch | pauliverse/src/outcome_free_simulation.rs:379-389 | search in an increasing list finds exactly its members |
| Encoders.Encoder.AssignPreimage | pauliverse/src/outcome_free_simulation.rs:309-327 | taking over the first factor instead of multiplying the identity gives the ordered product with its phase |
| Encoders.Encoder.MulOp | paulimer/src/clifford/clifford_impl.rs:699-764 | in-place gates equal the specified update of all rows |
| Encoders.Encoder.MulPauliExp | paulimer/src/clifford/generic_algos.rs:383-407 | in-place exponential equals its row-by-row specification |
| Encoders.Encoder.MulControlledPauli | paulimer/src/clifford/generic_algos.rs:409-446 | in-place controlled Pauli equals its row-by-row specification, with factors on the correct sides |
| Encoders.Encoder.MulClifford | paulimer/src/clifford/clifford_impl.rs:1021-1054 | all new rows are computed from the old encoder before any is stored |
| Encoders.Encoder.MulPermutation | paulimer/src/clifford/clifford_impl.rs:794-811 | the row at support[e] becomes the old row at support[perm[e]] |
| Encoders.Encoder.UpdateAnticommuting | pauliverse/src/outcome_free_simulation.rs:397-410 | each listed row is multiplied or not and negated for outcome one; no other row changes |
| Encoders.Encoder.UpdateRemaining | pauliverse/src/outcome_free_simulation.rs:379-389 | the rows skipped by the first loops are multiplied once iff they anticommute with the observable |
| Encoders.Encoder.UpdateForRandomOutcome | pauliverse/src/outcome_free_simulation.rs:347-390 | the four sparse loops equal the dense update of every row |
| Measurement.CollapseIsHomomorphism | pauliverse/src/outcome_free_simulation.rs:337-346 | multiplying what anticommutes with the factor and negating by the outcome is a homomorphism |
| Measurement.AfterRandomOutcomePreimage | pauliverse/src/outcome_free_simulation.rs:347-390 | the encoder stays valid and every operator (not only generators) has the collapsed preimage |
| Measurement.MeasurementRule | pauliverse/src/outcome_free_simulation.rs:337-390 | after outcome b an operator is a stabilizer iff it commutes with P and it, or (-1)^b P times it, was one |
| Measurement.MeasuredOperator | pauliverse/src/outcome_free_simulation.rs:340-346 | the image of Z on the pivot is exactly (-1)^b P |
| Measurement.UpToSign | pauliverse/src/outcome_specific_simulation.rs:260-266 | an order-two operator is a stabilizer up to phase iff it or its negative is a stabilizer; the phase gives the sign |
| Measurement.StabilizerMul | pauliverse/src/outcome_free_simulation.rs:337-346 | stabilizers are closed under products |
| SpecificModel.HintIsUpdate | pauliverse/src/outcome_specific_simulation.rs:247-257 | exponential and conditional hint are the measurement update with the hint as the replaced stabilizer |
| SpecificModel.HintReplaces | pauliverse/src/outcome_specific_simulation.rs:247-257 | a true hint qualifies as the replaced stabilizer |
| SpecificModel.SpecificStepValid | pauliverse/src/outcome_specific_simulation.rs:294-351 | every instruction keeps the encoder valid and the bookkeeping consistent |
| Meaning.InitialMeans | pauliverse/src/outcome_specific_simulation.rs:146-159 | a run starts in the state that exactly the unsigned products of Z stabilize |
| Meaning.MeasureMeans | pauliverse/src/outcome_specific_simulation.rs:323-345 | random iff neither P nor -P is a stabilizer; outcome the next random bit, or one iff -P is a stabilizer; projection with that sign |
| Meaning.HintMeans | pauliverse/src/outcome_specific_simulation.rs:236-258 | the hinted measurement has the same meaning, whether or not the hint is true |
| Meaning.ParityCounts | pauliverse/src/outcome_specific_simulation.rs:396-402 | the accumulated parity is odd iff the number of listed positions with outcome one is |
| Meaning.CorrectionMeans | pauliverse/src/outcome_specific_simulation.rs:268-277 | if the number of ones is odd, or even, as `parity` asks, stabilizers anticommuting with the correction change sign; else nothing changes |
| Meaning.UnitaryPreimage | pauliverse/src/circuit.rs:188-198 | each unitary instruction undoes its explicit image of every operator |
| Meaning.ControlledOnEigenstates | paulimer/src/clifford/generic_algos.rs:409-446 | a controlled Pauli does nothing where the control is +1 and applies the target where the control is -1 |
| Meaning.PlusEigenstatePromise | pauliverse/src/lib.rs:151-154 | applying the target where the control is +1, as documented, holds iff the target commutes with every stabilizer |
| Meaning.PlusEigenstateExample | pauliverse/src/lib.rs:151-154 | a state with control +1 on which the target is not applied |
| Meaning.RunMeans | pauliverse/src/lib.rs:124-216 | for every run and source of bits the last instruction did to stabilizers and outcomes what it means |
| Meaning.BranchMeans | pauliverse/src/outcome_complete_simulation.rs:464-521 | the same in every branch of the complete run |
| Meaning.MeaningDetermines | pauliverse/src/lib.rs:124-216 | from one observed state an instruction leads to exactly one observed state |
| Meaning.ConditionalSignMeans | pauliverse/src/outcome_specific_simulation.rs:315-321 | a conditional sign holds iff the operator, negated when the number of ones is odd, is a stabilizer |
| SpecificSimulation.OutcomeSpecificSimulation.constructor | pauliverse/src/outcome_specific_simulation.rs:146-159 | a new simulation holds the initial state |
| SpecificSimulation.OutcomeSpecificSimulation.Measure | pauliverse/src/outcome_specific_simulation.rs:323-345 | the fields move to the state after the measurement; returns the new outcome identifier |
| SpecificSimulation.OutcomeSpecificSimulation.MeasureWithHint | pauliverse/src/outcome_specific_simulation.rs:236-258 | the fields move to the state after the hinted measurement, whether or not the hint is true |
| SpecificSimulation.OutcomeSpecificSimulation.AllocateRandomBit | pauliverse/src/outcome_specific_simulation.rs:295-302 | takes the next bit of the source as an outcome |
| SpecificSimulation.OutcomeSpecificSimulation.ComputeParity | pauliverse/src/outcome_specific_simulation.rs:396-402 | the loop computes the parity of the listed outcomes |
| SpecificSimulation.OutcomeSpecificSimulation.ConditionalPauli | pauliverse/src/outcome_specific_simulation.rs:268-277 | applies the correction iff the number of ones among the listed outcomes is odd, or even, as `parity` asks |
| SpecificSimulation.OutcomeSpecificSimulation.ApplyGate | pauliverse/src/outcome_complete_simulation.rs:420-452 | each unitary call moves the fields to the state after its gate |
| SpecificSimulation.OutcomeSpecificSimulation.IsStabilizerOf | pauliverse/src/outcome_specific_simulation.rs:310-313 | decides whether the operator stabilizes the current state |
| SpecificSimulation.OutcomeSpecificSimulation.IsStabilizerWithConditionalSign | pauliverse/src/outcome_specific_simulation.rs:315-321 | decides the conditional sign in the current state |
| SpecificSimulation.OutcomeSpecificSimulation.Simulate | pauliverse/src/circuit.rs:188-224 | runs every instruction, or stops right after the first one whose identifier is wrong and reports both identifiers |
| CompleteModel.CompleteStepValid | pauliverse/src/outcome_complete_simulation.rs:464-521 | outcomes depend only on branch bits introduced no later, and a branch-introducing outcome is its own bit |
| CompleteSimulation.SumRows | pauliverse/src/outcome_complete_simulation.rs:576-585 | the loop adds up the listed rows |
| CompleteSimulation.SupportRowSum | pauliverse/src/outcome_complete_simulation.rs:576-585 | adding the rows at the ones of a vector is the product with the vector |
| CompleteSimulation.OutcomeCompleteSimulation.constructor | pauliverse/src/outcome_complete_simulation.rs:299-315 | a new simulation holds the initial state |
| CompleteSimulation.OutcomeCompleteSimulation.AllocateBranch | pauliverse/src/outcome_complete_simulation.rs:387-399 | a new outcome whose row is the unit vector of a new branch bit |
| CompleteSimulation.OutcomeCompleteSimulation.XorSignRows | pauliverse/src/outcome_complete_simulation.rs:294-296 | adds the indicator to exactly the selected sign rows |
| CompleteSimulation.OutcomeCompleteSimulation.ApplyPauliConditionedOnBranchBits | pauliverse/src/outcome_complete_simulation.rs:288-297 | adds the indicator to the sign rows where the preimage has an X bit |
| CompleteSimulation.OutcomeCompleteSimulation.OutcomeParity | pauliverse/src/outcome_complete_simulation.rs:22-35 | mask and constant of the parity of the listed outcomes |
| CompleteSimulation.OutcomeCompleteSimulation.MeasureDeterministic | pauliverse/src/outcome_complete_simulation.rs:347-361 | records the outcome as an affine function of the branch bits |
| CompleteSimulation.OutcomeCompleteSimulation.MeasureRandom | pauliverse/src/outcome_complete_simulation.rs:363-385 | new branch bit, sign rows and encoder after a random outcome |
| CompleteSimulation.OutcomeCompleteSimulation.Measure | pauliverse/src/outcome_complete_simulation.rs:502-515 | the fields move to the state after the measurement in all branches |
| CompleteSimulation.OutcomeCompleteSimulation.MeasureWithHint | pauliverse/src/outcome_complete_simulation.rs:317-345 | the fields move to the state after the hinted measurement in all branches |
| CompleteSimulation.OutcomeCompleteSimulation.AllocateRandomBit | pauliverse/src/outcome_complete_simulation.rs:465-467 | a branch bit without a measurement |
| CompleteSimulation.OutcomeCompleteSimulation.ConditionalPauli | pauliverse/src/outcome_complete_simulation.rs:471-478 | in every branch, applies the correction iff the number of ones among the listed outcomes of that branch is odd, or even, as asked |
| CompleteSimulation.OutcomeCompleteSimulation.ApplyGate | pauliverse/src/outcome_complete_simulation.rs:420-452 | unitary calls change only the encoder |
| CompleteSimulation.OutcomeCompleteSimulation.IsStabilizerOf | pauliverse/src/outcome_complete_simulation.rs:480-488 | the query of the complete state |
| CompleteSimulation.OutcomeCompleteSimulation.IsStabilizerWithConditionalSign | pauliverse/src/outcome_complete_simulation.rs:490-500 | the conditional-sign query of the complete state |
| CompleteSimulation.OutcomeCompleteSimulation.Sample | pauliverse/src/outcome_complete_simulation.rs:230-255 | each sampled row is the outcome vector of the specific run fed with the random bits of that row |
| FreeSimulation.OutcomeFreeSimulation.MeasureProjective | pauliverse/src/outcome_free_simulation.rs:124-144 | the state after a measurement modulo phase |
| FreeSimulation.OutcomeFreeSimulation.Measure | pauliverse/src/outcome_free_simulation.rs:240-244 | the fields hold the run of the calls so far, with this measurement |
| FreeSimulation.OutcomeFreeSimulation.MeasureWithHint | pauliverse/src/outcome_free_simulation.rs:99-118 | the hinted path modulo phase |
| FreeSimulation.OutcomeFreeSimulation.AllocateRandomBit | pauliverse/src/outcome_free_simulation.rs:181-185 | counts a branch bit and marks the outcome random |
| FreeSimulation.OutcomeFreeSimulation.ConditionalPauli | pauliverse/src/outcome_free_simulation.rs:200-200 | corrections leave the encoder alone, and the state is still that of the whole run |
| FreeSimulation.OutcomeFreeSimulation.ApplyGate | pauliverse/src/outcome_free_simulation.rs:196-223 | unitary calls act modulo phase |
| FreeSimulation.OutcomeFreeSimulation.IsStabilizerUpToSign | pauliverse/src/outcome_free_simulation.rs:232-234 | the sign-blind query of the current state |
| Branches.TwistPreimage | pauliverse/src/outcome_complete_simulation.rs:77-87 | a branch differs from the reference branch by commutation signs with one Pauli |
| Branches.TwistMeasurement | pauliverse/src/outcome_complete_simulation.rs:363-385 | measuring a branch is measuring the reference branch and updating the separating Pauli |
| Branches.DeterministicOutcome | pauliverse/src/outcome_complete_simulation.rs:347-361 | a deterministic outcome in a branch is the recorded affine function |
| Branches.BranchStep | pauliverse/src/outcome_complete_simulation.rs:464-521 | every instruction commutes with selecting a branch |
| Branches.CompleteRunIsEverySpecificRun | pauliverse/src/outcome_complete_simulation.rs:77-87 | for every circuit and every assignment of branch bits the specific run is the selected branch of the complete run |
| Branches.OutcomesAreAffine | pauliverse/src/outcome_complete_simulation.rs:82-87 | the outcomes of every run are M r + v0 |
| Branches.PreimagesAgreeUpToSigns | pauliverse/src/outcome_complete_simulation.rs:116-120 | every preimage agrees up to commutation with a Pauli whose X part is A r |
| Queries.ConstantFunction | pauliverse/src/outcome_complete_simulation.rs:483-484 | a linear function of the branch bits is constantly b iff it is zero and b is false |
| Queries.StabilizerInEveryBranch | pauliverse/src/outcome_complete_simulation.rs:480-488 | the complete query holds iff the specific one holds for every assignment of branch bits |
| Queries.ConditionalSignInEveryBranch | pauliverse/src/outcome_complete_simulation.rs:490-500 | the same for conditional signs |
| FreeModel.ForgetStep | pauliverse/src/outcome_free_simulation.rs:180-250 | forgetting phases commutes with every instruction |
| FreeModel.FreeRunIsProjection | pauliverse/src/outcome_free_simulation.rs:60-74 | the outcome-free run is the specific run without phases, for every source of bits |
| Agreement.ThreeSimulatorsAgree | pauliverse/src/lib.rs:186-197 | all three simulators have the same random outcomes, branch bits and preimages modulo phase |
| Agreement.RandomnessIsFixed | pauliverse/src/outcome_free_simulation.rs:200-208 | which outcomes are random depends neither on random bits nor on Pauli gates and corrections |
| Agreement.FreeStabilizer | pauliverse/src/outcome_free_simulation.rs:225-234 | the sign-blind query holds iff the operator or its negative is a stabilizer in any branch |
| Agreement.HintsDoNotMatterInBranches | pauliverse/src/outcome_complete_simulation.rs:322-345 | with and without hints every branch has the same outcomes and the same signed stabilizers |
| Agreement.HintsDoNotMatterToQueries | pauliverse/src/outcome_complete_simulation.rs:322-345 | with and without hints the complete query has the same answer |
| FrameExactness.HintsDoNotMatter | pauliverse/src/outcome_specific_simulation.rs:236-258 | with and without hints a run has the same outcomes and the same signed stabilizers |
| FrameModel.ImageAnti | pauliverse/src/frame_propagator.rs:127-134 | the image of an error commutes with an operator iff the error commutes with its preimage |
| FrameModel.FrameUnitaryIsImage | pauliverse/src/frame_propagator.rs:190-331 | every gate rule is the image of the error under the gate, for involutions among the permutations |
| FrameModel.OpImage | pauliverse/src/frame_propagator.rs:190-231 | the fast rule of every opcode is the image under its tableau |
| FrameModel.CliffordImage | pauliverse/src/frame_propagator.rs:235-268 | the general gate rule is the image under the embedded tableau |
| FrameModel.ControlledImage | pauliverse/src/frame_propagator.rs:304-331 | the controlled-Pauli rule is the image under the gate |
| FrameModel.PermutationAgreesIffInvolution | pauliverse/src/frame_propagator.rs:289-302 | frames and encoder move qubits alike iff the permutation is an involution |
| FrameModel.CyclicPermutationDisagrees | pauliverse/src/frame_propagator.rs:289-302 | a cyclic permutation of three qubits on which they differ |
| PermutationDirection.PermutationExactIffInvolution | pauliverse/src/frame_propagator.rs:289-302 | frames predict every fault-permute-measure circuit of a permutation iff it is an involution |
| PermutationDirection.ThreeCycleIsMispredicted | pauliverse/src/frame_propagator.rs:289-302 | a concrete circuit whose predicted flip does not happen |
| FrameFastPaths.RootsAreExponentials | pauliverse/src/frame_propagator.rs:136-188 | S, root X and H (root Y) equal the exponentials of Z, X and Y on frames |
| FrameFastPaths.PairsAreControlled | pauliverse/src/frame_propagator.rs:152-171 | CNOT and CZ equal the controlled Paulis (Z, X) and (Z, Z) on frames |
| FrameFastPaths.ControlledIsThreeExponentials | pauliverse/src/frame_propagator.rs:304-331 | a controlled Pauli with commuting operands is three exponentials |
| FrameFastPaths.FastPathIsClifford | pauliverse/src/frame_propagator.rs:190-268 | every fast path equals the general gate with the tableau of the operation, wherever its qubits are |
| FramePropagation.FramePropagator.constructor | pauliverse/src/frame_propagator.rs:50-61 | no error in any shot |
| FramePropagation.FramePropagator.AnticommutationMask | pauliverse/src/frame_propagator.rs:98-110 | the row sums give, for every shot, whether its error anticommutes |
| FramePropagation.FramePropagator.ApplyUnitaryOp | pauliverse/src/frame_propagator.rs:190-231 | the row operations apply the gate rule in every shot |
| FramePropagation.FramePropagator.ApplyClifford | pauliverse/src/frame_propagator.rs:233-268 | the double loop applies the general rule in every shot |
| FramePropagation.FramePropagator.ApplyPauliExp | pauliverse/src/frame_propagator.rs:270-287 | anticommuting shots are multiplied |
| FramePropagation.FramePropagator.ApplyPermutation | pauliverse/src/frame_propagator.rs:289-302 | row source goes to row permutation[source] in every shot |
| FramePropagation.FramePropagator.ApplyControlledPauli | pauliverse/src/frame_propagator.rs:304-331 | both masks are taken before either multiplication |
| FramePropagation.FramePropagator.RecordDelta | pauliverse/src/frame_propagator.rs:335-351 | appends the anticommutation with the observable to the deltas of every shot; later rows stay zero |
| FramePropagation.FramePropagator.ApplyConditionalPauli | pauliverse/src/frame_propagator.rs:353-380 | multiplies the shots whose condition is flipped |
| FramePropagation.FramePropagator.SkipOutcome | pauliverse/src/frame_propagator.rs:382-389 | a random bit is never flipped |
| FramePropagation.FramePropagator.ApplyPauliToShot | pauliverse/src/frame_propagator.rs:508-519 | multiplies one shot and no other |
| FramePropagation.FramePropagator.InjectPauli | pauliverse/src/frame_propagator.rs:534-541 | injecting an operator is running a noise instruction that places it in one shot |
| FramePropagation.FramePropagator.Execute | pauliverse/src/frame_propagator.rs:577-620 | after every instruction every shot holds the frame of the instructions so far |
| FrameExactness.MeasurementKeepsError | pauliverse/src/frame_propagator.rs:335-351 | measuring clean and faulty states with outcomes that differ by the delta keeps them separated by the same error, on stabilizers |
| FrameExactness.SameRandomness | pauliverse/src/frame_propagator.rs:335-351 | clean and faulty state agree on which measurements are random and on deterministic outcomes up to the delta |
| FrameExactness.FaultMultipliesError | pauliverse/src/frame_propagator.rs:501-519 | a fault multiplies the separating error |
| FrameExactness.GateMovesError | pauliverse/src/frame_propagator.rs:127-134 | a gate moves the separating error to its image |
| FrameExactness.RelatedStep | pauliverse/src/frame_propagator.rs:577-620 | one instruction keeps clean run, faulty run and frame together |
| FrameExactness.FaultyRunFollows | pauliverse/src/frame_propagator.rs:8-16 | for all circuits and all bit sources that differ by the deltas the faulty run follows the clean one |
| FrameExactness.FramePropagationIsExact | pauliverse/src/faulty_simulation.rs:159-187 | clean outcomes with the deltas added are the outcomes of really running the faulty circuit |
| FaultySampling.CircuitBuilder.Push | pauliverse/src/circuit.rs:350-362 | an instruction with the next identifier keeps the circuit correctly numbered |
| FaultySampling.CircuitBuilder.Measure | pauliverse/src/circuit.rs:441-449 | records the measurement with the next identifier |
| FaultySampling.CircuitBuilder.MeasureWithHint | pauliverse/src/circuit.rs:451-457 | records the measurement without its hint |
| FaultySampling.CircuitBuilder.AllocateRandomBit | pauliverse/src/circuit.rs:366-371 | records the random bit with the next identifier |
| FaultySampling.RecordedCircuitReplays | pauliverse/src/circuit.rs:295-305 | replaying a recorded circuit from the start never fails and repeats every instruction |
| FaultySampling.FlippedSampleIsFaultyRun | pauliverse/src/faulty_simulation.rs:159-187 | flipping a clean run with hints is running the recorded circuit, which has none, with the faults |
| FaultySampling.FaultySimulation.Measure | pauliverse/src/faulty_simulation.rs:265-273 | both parts assign the same identifier and stay in step |
| FaultySampling.FaultySimulation.MeasureWithHint | pauliverse/src/faulty_simulation.rs:275-283 | the same, with the hint only in the noiseless part |
| FaultySampling.FaultySimulation.AllocateRandomBit | pauliverse/src/faulty_simulation.rs:211-216 | the same for random bits |
| FaultySampling.FaultySimulation.ConditionalPauli | pauliverse/src/faulty_simulation.rs:223-226 | corrections go to both parts |
| FaultySampling.FaultySimulation.ApplyGate | pauliverse/src/faulty_simulation.rs:218-251 | gates go to both parts |
| FaultySampling.FaultySimulation.ApplyFault | pauliverse/src/faulty_simulation.rs:132-137 | a fault is recorded and leaves the noiseless state alone |
| FaultySampling.FaultySimulation.SimulateCircuit | pauliverse/src/faulty_simulation.rs:172-187 | the columns of the delta matrix are the deltas of each shot |
| FaultySampling.FaultySimulation.Sample | pauliverse/src/faulty_simulation.rs:156-168 | each noisy sample is a run of the recorded circuit with the faults of its shot |
| AffineMaps.ComposeApplies | binar/src/affine_map.rs:52-63 | the composed map is one map after the other, for every input |
| AffineMaps.TranslationApplies | binar/src/affine_map.rs:33-38 | a translation adds its shift |
| AffineMaps.ZeroMapApplies | binar/src/affine_map.rs:40-45 | the zero map is zero everywhere |
| AffineMaps.SameValues | binar/src/affine_map.rs:7-12 | maps of one shape with the same values have the same matrix and shift |
| Actions.BranchBitMapMatrix | pauliverse/src/action.rs:412-418 | row j of the matrix has its ones where branch bit j was introduced |
| Actions.BranchRowIsUnit | pauliverse/src/action.rs:412-418 | each branch bit was introduced by exactly one outcome |
| Actions.ActionMaps | pauliverse/src/action.rs:148-151 | builds both maps |
| Actions.BranchBitsRoundTrip | pauliverse/src/action.rs:148-151 | branch bits are read back from the outcomes they lead to, on every reachable state |
| Actions.BranchBitsIdentity | pauliverse/src/action.rs:148-151 | the composed map is the identity, matrix and shift |
| Actions.ActionMapsDescribeRuns | pauliverse/src/action.rs:26-29 | the maps give the outcomes of every run and recover its random bits |
| LinearAlgebra.PivotOf | binar/src/matrix/aligned_bitmatrix.rs:1274-1290 | finds the next pivot column by column, or shows that nothing is left |
| LinearAlgebra.ReduceWithTransforms | binar/src/matrix/aligned_bitmatrix.rs:1352-1380 | clears the pivot column and keeps both transforms |
| LinearAlgebra.Echelonize | binar/src/matrix/aligned_bitmatrix.rs:33-66 | reduced row echelon form, with T times the original equal to it and T invertible by the inverse transpose |
| LinearAlgebra.AddRowKeepsCombo | binar/src/matrix/aligned_bitmatrix.rs:1367-1380 | adding a row to T and conversely to the inverse transpose keeps their product |
| Spans.ReductionKeepsSpan | binar/src/matrix/aligned_bitmatrix.rs:33-66 | the row space does not change |
| Spans.ReducedFormIsUnique | binar/src/matrix/aligned_bitmatrix.rs:20-31 | reduced row echelon form is determined by the row space |
| Spans.SameRankSameSpan | paulimer/src/pauli_group.rs:344-352 | a subspace of the same rank is the whole space |
| Spans.SolveReduced | binar/src/matrix/aligned_bitmatrix.rs:121-137 | a combination of the rows equal to the target, or none exists |
| Spans.TransposeSolve | binar/src/matrix/aligned_bitmatrix.rs:84-102 | coefficients over the original rows, or none exist |
| Groups.WordRow | paulimer/src/pauli_group.rs:870-886 | the bits of a product of generators are the sum of their rows, by how often each occurs |
| Groups.SameBitsDifferByPhase | paulimer/src/pauli_group.rs:265-279 | given one member, an operator with the same bits is a member iff the phase between them is in the group |
| Groups.WordIsProduct | paulimer/src/pauli_group.rs:798-804 | over commuting generators of order two a word depends only on how often each generator occurs |
| PauliGroups.ProductOfSelected | paulimer/src/pauli_group.rs:798-804 | the loop computes the ordered product of the selected generators |
| PauliGroups.AreAllCommuting | paulimer/src/pauli_group.rs:736-745 | one look at each pair decides whether all commute |
| PauliGroups.PhaseModulusOf | paulimer/src/pauli_group.rs:747-763 | the backward scan finds the modulus of the phases of all zero rows |
| PauliGroups.AsStandardGenerators | paulimer/src/pauli_group.rs:765-796 | the loops keep the bits of every row, reduce its exponent to the remainder by the modulus, and add the pure phase |
| PauliGroups.New | paulimer/src/pauli_group.rs:614-633 | a group with its standard form and phases |
| StandardForms.PhasesAreExact | paulimer/src/pauli_group.rs:722-734 | the listed phases are exactly those generated, for lists with independent rows and at most one pure phase |
| StandardForms.ReduceIsRemainder | paulimer/src/pauli_group.rs:765-782 | reducing is the remainder of the exponent by the modulus |
| StandardCharacterization.StandardPhasesAreSmall | paulimer/src/pauli_group.rs:765-790 | each generator with a pivot has its phase below the modulus of the group |
| StandardCharacterization.RowsHaveAllPhases | paulimer/src/pauli_group.rs:784-793 | when the rows alone generate every phase of the group, so that no pure phase follows |
| StandardCharacterization.PivotsOnQubits | paulimer/src/pauli_group.rs:870-886 | rows are reduced on X bits first and then on Z bits of the qubits |
| StandardCharacterization.StandardIsUnique | paulimer/src/pauli_group.rs:46-52 | reduced rows, smallest phases and a pure phase only when needed determine the list |
| StandardCharacterization.StandardFormIsCharacterized | paulimer/src/pauli_group.rs:614-633 | the construction gives exactly the list with these properties |
| CanonicalForms.StandardGeneratesGroup | paulimer/src/pauli_group.rs:614-633 | the standard generators generate exactly the group, phases included |
| GroupEquality.GroupPhasesAreExact | paulimer/src/pauli_group.rs:171-174 | the phases of the group are exactly the listed ones |
| GroupEquality.SameGroupSameStandard | paulimer/src/pauli_group.rs:46-52 | any two generating lists of one group have the same standard generators |
| GroupEquality.StandardDecidesEquality | paulimer/src/pauli_group.rs:331-335 | standard generators are equal iff the groups are |
| PauliGroups.EqualityIsExact | paulimer/src/pauli_group.rs:331-335 | `eq` holds iff the groups are the same |
| PauliGroups.Factorize | paulimer/src/pauli_group.rs:265-279 | a factorization is returned iff the element is in the group, and it multiplies out to the element |
| PauliGroups.RanksDecideInclusion | paulimer/src/pauli_group.rs:337-352 | a subgroup is the whole group iff it has as many phases and the same rank |
| PauliGroups.JoinWithin | paulimer/src/pauli_group.rs:524-532 | the join is inside a group iff both parts are |
| PauliGroups.PartialCmp | paulimer/src/pauli_group.rs:337-355 | Less, Equal, Greater or None iff proper subgroup, same group, proper supergroup or incomparable |
| CosetReduction.ModulusOf | paulimer/src/pauli_group.rs:418-419 | the minimum of four minus the phases |
| CosetReduction.ModulusIsGroupModulus | paulimer/src/pauli_group.rs:418-419 | that minimum is how far phases can be reduced in the group |
| CosetReduction.Sweep | paulimer/src/pauli_group.rs:402-416 | after the sweep every element is in its coset and has no bit at any pivot |
| CosetReduction.Modulo | paulimer/src/pauli_group.rs:398-426 | each generator is in the coset of a standard generator, has no bit at any pivot and a phase below the modulus of the other group; the join is unchanged |
| CosetReduction.ReductionIsCanonical | paulimer/src/pauli_group.rs:375-384 | reduced elements of one coset are equal, so each coset has one representative |
| Enumeration.Elements | paulimer/src/pauli_group.rs:281-319 | every member exactly once, nothing else, and two to the power `log2_size` of them |
| Enumeration.SubsetsDiffer | paulimer/src/pauli_group.rs:289-301 | different subsets of standard generators have products with different bits |
| SymplecticForms.FixGenerators | paulimer/src/pauli_group.rs:696-709 | both loops together fix every remaining generator against the pair |
| SymplecticForms.FixCommutes | paulimer/src/pauli_group.rs:696-703 | a fixed generator commutes with both members of the pair |
| SymplecticForms.PairKeepsGroup | paulimer/src/pauli_group.rs:693-712 | taking a pair out and fixing the rest keeps the generated group |
| SymplecticForms.SymplecticForm | paulimer/src/pauli_group.rs:683-719 | terminates, keeps count and group with phases, and returns anticommuting pairs and then commuting elements |

## Left out

- Random number generation, noise distributions and the sampler of fault positions: sources of random bits and the operators
  placed by noise are arbitrary inputs, one operator for each shot.
- Capacity growth and the automatic growth of the qubit count: the number of qubits is fixed, and operators have that size.
- Word-level storage, alignment and unchecked indexing: bit vectors are sequences of booleans.
- The outcome-free encoder is updated by value rather than row by row in place; the loops it shares with the other simulators
  are proved on the encoder with phases.
- `reset_qubit` and `inject_outcome_flip` of the frame propagator, which no circuit instruction reaches.
- `Simulate` over an arbitrary simulator: it is proved for the outcome-specific one; the others run instruction by instruction.
- FaultySampling.FaultySimulation.Sample: states that samples are faulty runs only when all permutations are involutions, because
  it is false otherwise; without that it still states that they are clean outcomes with the deltas added.
- FrameExactness.FramePropagationIsExact: assumes that permutations are involutions, for the same reason.
- The support of a group and the sparse storage of its elements: rows have two bits for every qubit, so that columns of unused
  qubits are zero instead of absent.
- Enumeration.Elements: does not fix the order of enumeration, and the list is built at once rather than lazily.
- The order of the two loops over pairs in `are_all_commuting` is kept, but lazily cached values are computed when a group is built.
- `BitAnd`, `centralizer_of`, `with_promise`, `symplectic_form_of` for sparse operators and `Display` of groups.
- The restriction of stabilizers to subsets of qubits and the comparison of circuit actions.
- The inverse transpose as an output used elsewhere: it is kept by row reduction and used here to recover the original rows.
