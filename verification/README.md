# SeQuant core algorithms

This project models the algorithmic core of SeQuant, a symbolic algebra of tensors and second-quantized operators, and
proves what its functions promise about every input and every run:

- the **Wick contraction engine**: the backtracking search over a sequence of normal operators, the connectivity and
  topology pruning, the phases and weights of the reported terms, normal ordering of what is left, and the partner
  indices of each term;
- the **block assignments** of the extended expansion, which group surviving operators into cumulant blocks;
- the **reduction of products** by Kronecker deltas: rule collection, application, folding, and the loop over them;
- the **exact number theory** behind radicals: integer roots, coprime bases, the simplest radical form;
- **sorting and stepping permutations** with their parity;
- the **full binary tree** with parent links and cached sizes: move and copy assignment, deep copy, stackless visit;
- the **version table** that tells configurations apart by object identity.

Operators are records of an index, an action and the number of their normal operator, and `can_contract` is an
arbitrary relation (`Problem.contractible`). A set of contractions is a sequence of pairs of input ordinals. Index
spaces are finite sets of values, a Kronecker delta is equality of values, and other tensors are uninterpreted
functions of the values of their slots. Code that changes state in place is a class, an array or a loop here
(`WickEngine.NontensorWickState`, `RangeNest.Cursor`, `DeltaTable.RuleTable`, `BlockAssignments.BlockSearch`,
`BinaryNodes.Node`, `ContextVersions.VersionTable`, the arrays of `DeltaReduction.Reduce` and of the sorts); each such
method is proved against a function of its input or old state, and the lemmas below are about that function.

The files build on each other in this order: `Sequences`, `Parity`, `Options`; `WickProblem`, `WickSearch`,
`WickMatchings`, `WickPhase`, `WickDegrees`, `WickClasses`, `WickRepresentatives`, `Factorials`, `WickWeights`,
`WickExchanges`, `WickSigns`; `RangeNest`, `UpperTriangle`, `PartnerIndices`, `PartnerCycles`, `NormalOrder`,
`NormalColumns`; `WickState`, `WickTerms`, `WickDegeneracy`, `NopPartitions`, `WickEngine`, `WickTheorem`, `WickTotals`,
`WickColumns`, `WickScalars`, `WickMasks`, `WickConnections`; `BlockFamilies`, `BlockTree`, `BlockUniqueness`,
`BlockSigns`, `BlockAssignments`; `DeltaValues`, `DeltaSubstitution`, `DeltaRules`, `DeltaFold`, `DeltaZeros`,
`DeltaTable`, `DeltaPasses`, `DeltaReduction`, `DeltaVanishing`, `DeltaLeftovers`; `IntegerRoots`, `Divisibility`,
`CoprimeBases`, `Rationals`, `RadicalTerms`, `RadicalParts`, `RadicalWidths`, `Primes`, `PowerRoots`, `RadicalKeys`,
`RadicalTables`, `RadicalForms`, `RadicalUniqueness`; `BubbleSorting`, `PermutationSteps`, `PermutationOrders`;
`BinaryNodes`, `TreeAssignments`, `TreeWalks`, `TreeVisits`; `ContextVersions`.
`dafny verify dfyconfig.toml` checks all of them.

## Findings

Where an expected property does not hold, the code is modelled as it is and the exact condition is proved.

- **Required connections, full contractions.** The pruning is exact except for a required pair of two normal operators
  that both have no operators: the search never looks at it (`WickMatchings.FullRequirements`;
  `WickMatchings.EmptyPairSurvives` names an input).
- **Required connections, partial contractions.** A term may be reported while a required pair is not connected
  (`WickMatchings.PartialTermMayMissRequiredPair` names an input). All terms join all required pairs exactly if every
  contraction that may come first already does, and nothing is required if the term without contractions is wanted
  (`WickMatchings.PartialRequirements`). The set of all terms is still exactly characterised
  (`WickMatchings.EmittedOncePerAdmissibleSet`).
- **Taking required pairs back.** An empty list of required pairs lifts none that were given before, but it takes their
  count back to 0 if the input is known, so that the term without contractions is reported while the pairs are still
  enforced. Mask and count stay in step exactly if no empty list is given, with a known input, after a nonempty one
  (`WickMasks.EmptyListKeepsMask`, `WickMasks.StaysInStep`).
- **Deltas that stay.** The comment at SeQuant/core/wick.impl.hpp:100-106 says that a delta is removed whenever the space
  of its dummy includes that of its external. A delta like that can stay (`DeltaLeftovers.RemovableDeltaStays` names an
  input): two externals of different spaces narrow one dummy, which becomes a fresh index; neither delta folds, so the
  passes end. None stays if no dummy is bound to externals of different spaces (`DeltaLeftovers.UncontestedReduces`).
  Conversely one stays if, in a product without deltas between dummies, a dummy first meets an external of another space
  than the least one it meets (`DeltaLeftovers.ContestedStays`). Between the two conditions the outcome depends on the
  order of the factors and on whether an unrelated delta causes one more pass.
- **A zero that is missed.** The comment at SeQuant/core/wick.impl.hpp:117-119 says that a product that is zero for any
  reason is found out. A product whose externals have values vanishes exactly if the deltas leave one of its indices none
  (`DeltaVanishing.VanishesIff`). That is found out at once, or not at all (`DeltaReduction.ZeroAtOnce`): always, if a
  delta joins different indices of disjoint spaces, or if a chain of deltas through dummies leaves a dummy no value
  (`DeltaReduction.ZeroIsFound`). Through an external it can be missed (`DeltaVanishing.MissedZero` names an input). If no
  space is empty and no external is joined with two other indices, zero is reported exactly for the products that vanish
  (`DeltaVanishing.ZeroIffVanishes`). No condition that is blind to the order of the factors decides it for all products:
  of two orders of the same factors one can be found to be zero, the other not (`DeltaVanishing.OrderDecides`).
- **Bubble sort and reflexive orders.** The note at SeQuant/core/algorithm.hpp:33 says that the comparison need not be
  strict. For any weak order, strict or not, the passes come to rest exactly if no two elements each compare less than
  the other (`BubbleSorting.SettlesIffUntied`); with a reflexive order two equal elements are swapped for ever
  (`BubbleSorting.ReflexiveNeverSettles`).
- **Parity of permutation steps.** The parity that `next_permutation_parity` carries stays in step with the pairs out
  of order exactly if an even number of pairs of the moved elements compare neither way
  (`PermutationOrders.NextPermutationParity`); on two such elements it does not (`PermutationOrders.AlikePairFlips`).
- **One value, two radical forms.** The documentation at SeQuant/core/math.hpp:196-204 lets the form depend on more than
  the value only if a cofactor has different large prime factors and is no perfect power. What decides is whether each
  cofactor is a power of a number without square factors: then the form is the only one of its value
  (`RadicalForms.SimplestRadicalForm`, `RadicalUniqueness.SameForm`), which is sure if no numerator or denominator has
  two different large prime factors (`RadicalUniqueness.LevelIfLonePrimes`). A perfect power need not be one: with the
  trial bound 1, the fourth root of 144 has two reduced forms (`RadicalUniqueness.PerfectPowerWithTwoForms`).
- **Moving from an ancestor.** A tree node may take over any node but a proper ancestor of its own; from an ancestor it
  would become its own descendant, and no cached sizes make that a tree (`TreeAssignments.AncestorMakesCycle`).
- **Visits from inside a tree.** Where assertions are checked, a visit that starts at an inner node below the root is
  refused at once, and no other is (`TreeVisits.Visit`). A visit from a leaf, or where assertions are ignored, goes on
  with what the ancestors of the start have left: from the right child of a root it announces the root
  (`TreeVisits.BeyondStart`). To a visitor that wants post-order events, it is the recursive traversal of the start
  exactly if the start is a root (`TreeVisits.OnlyFromRoot`).
- **Weights without topology.** The weight of a term is the quotient of factorials also when topology is not used. Then
  every plain term is reported, and the weights add up to more than their number (`WickTotals.PlainTermWeighsTwice`
  names an input) unless no term contracts an operator of a partition of two or more (`WickTotals.WeightsOvercount`).
  A caller can tell: for full contractions, if there are any, all partitions must be singletons
  (`WickTotals.UnitWeightsFull`); for partial ones, no contraction that may come first may touch a partition of two or
  more (`WickTotals.UnitWeightsPartial`). With topology the weights always add up to the number of plain terms
  (`WickTotals.WeightsAddUp`).

## Model

| member | source | states |
|---|---|---|
| WickSearch.EmittedAreRuns | SeQuant/core/wick.hpp:1327-1751 | the nested loops report every path of accepted contractions (complete for full contractions) exactly once, and nothing else; the empty one only if no connection is required |
| WickMatchings.EmittedOncePerAdmissibleSet | SeQuant/core/wick.hpp:1343-1751 | without topology the terms are exactly the sets of contractible, not avoided, disjoint pairs from different normal operators (perfect ones for full contractions) whose contracted normal operators can still meet their required connections; each is reported once |
| WickMatchings.FullRequirements | SeQuant/core/wick.hpp:1129-1186 | for full contractions the connectivity pruning keeps exactly the sets that join every required pair, apart from pairs of two empty normal operators |
| WickMatchings.EmptyPairSurvives | SeQuant/core/wick.hpp:1129-1186 | an input on which a full contraction is reported although two empty normal operators were to be connected |
| WickMatchings.PartialRequirements | SeQuant/core/wick.hpp:1129-1186 | for partial contractions all terms join all required pairs if and only if every contraction that may come first does, and nothing is required if the term without contractions is wanted |
| WickMatchings.PartialTermMayMissRequiredPair | SeQuant/core/wick.hpp:1129-1186 | an input on which a partial contraction is reported with a required pair unconnected |
| WickRepresentatives.OneRepresentativePerClass | SeQuant/core/wick.hpp:1384-1528 | with topology, every reported set is one the plain search reports, no two have the same contraction degrees between operator partitions, and every plain one has a reported one with its degrees |
| WickWeights.ClassSize | SeQuant/core/wick.hpp:1532-1562 | the number of plain sets with the same contraction degrees, times the factorials of the degrees and of the uncontracted counts, is the product of the factorials of the partition sizes |
| WickDegeneracy.OpPermutationalDegeneracy | SeQuant/core/wick.hpp:1532-1562 | the loop over the packed degree matrix returns that quotient of factorials |
| WickTheorem.WeightIsClassSize | SeQuant/core/wick.hpp:1532-1562 | the weight of a reported term is the number of plain terms with its contraction degrees |
| WickExchanges.ClassIsSingle | SeQuant/core/wick.hpp:1532-1562 | a plain term is the only one with its degrees if and only if every operator it contracts is alone in its partition |
| WickTotals.UnitWeight | SeQuant/core/wick.hpp:1532-1562 | with or without topology, a term has weight 1 if and only if every operator it contracts is alone in its partition |
| WickTotals.UnitWeightsFull | SeQuant/core/wick.hpp:1532-1562 | if there is a full contraction, all weights are 1 if and only if all partitions are singletons |
| WickTotals.UnitWeightsPartial | SeQuant/core/wick.hpp:1532-1562 | without topology, all weights of partial contractions are 1 if and only if no contraction that may come first touches a partition of two or more |
| WickTotals.WeightsAddUp | SeQuant/core/wick.hpp:1532-1562 | with topology the weights of the reported terms add up to the number of plain terms |
| WickTotals.WeightsOvercount | SeQuant/core/wick.hpp:1532-1562 | without topology they add up to at least that number, and to it if and only if no term contracts an operator of a partition of two or more |
| WickTotals.PlainTermWeighsTwice | SeQuant/core/wick.hpp:1532-1562 | an input without topology on which both of two equivalent contractions are reported, with weight 2 or more |
| WickSigns.ExchangeTurnsSign | SeQuant/core/wick.hpp:1583-1592 | exchanging a contracted operator with another of its partition, among the contractions and the operators kept, gives another plain term with the same degrees and the opposite sign |
| WickPhase.PhaseIsPermutationSign | SeQuant/core/wick.hpp:1583-1592 | the product of the local signs is the sign of the permutation that moves all contracted pairs to the front |
| WickPhase.PhaseIsCrossingSign | SeQuant/core/wick.hpp:1583-1592 | that product is determined by the set of pairs: by its crossings and the uncontracted operators between partners |
| WickPhase.PhaseOrderFree | SeQuant/core/wick.hpp:1583-1592 | the order in which the same pairs are contracted does not change the sign |
| WickPhase.FullPhaseIsCrossingParity | SeQuant/core/wick.hpp:1583-1592 | for full contractions the sign is the parity of the number of crossing pairs |
| WickEngine.NontensorWickState.Connect | SeQuant/core/wick.hpp:1071-1187 | accepts a contraction exactly if its pair is not avoided and both normal operators keep enough operators for their unmet connections; then all bitmasks, counters, degrees and sets of unconnected normal operators are those of the longer list, else nothing has changed |
| WickEngine.NontensorWickState.Disconnect | SeQuant/core/wick.hpp:1191-1256 | all bitmasks, counters, degrees and sets of unconnected normal operators are those of the list without the last contraction |
| NopPartitions.InitTopologicalPartitions | SeQuant/core/wick.hpp:1031-1051 | before anything is connected each partition of normal operators holds exactly the members assigned to it |
| WickEngine.NontensorWickState.ConnectNop | SeQuant/core/wick.hpp:1098-1114 | counts a connection and keeps each partition equal to its members without connections: the first connection takes a normal operator out |
| WickEngine.NontensorWickState.DisconnectNop | SeQuant/core/wick.hpp:1205-1219 | takes a connection off and keeps the same: the last one undone puts the normal operator back |
| WickEngine.NontensorWickState.PartitionMembers | SeQuant/core/wick.hpp:946-950 | at every node of the search a partition holds exactly its members that no contraction made so far touches |
| WickState.CountersUnique | SeQuant/core/wick.hpp:921-962 | the list of contractions determines every counter and bitmask, so that undoing restores exact values |
| WickEngine.NontensorWickState.IsTopologicallyUnique | SeQuant/core/wick.hpp:1384-1528 | decides from the counters whether both operators are the next ones of their partitions and no later partition has been contracted with the left one |
| WickEngine.NontensorWickState.RemovePair | SeQuant/core/wick.hpp:1604-1614 | erasing right, then left takes the two operators and their ordinals out of the nest and the ordinal list |
| WickEngine.NontensorWickState.RestorePair | SeQuant/core/wick.hpp:1724-1736 | inserting left, then right gives back the nest, the ordinals and the size that were there before the removal |
| WickEngine.NontensorWickState.RecursiveNontensorWick | SeQuant/core/wick.hpp:1327-1751 | one activation reports exactly what the search tree has below its node, in order, and leaves the operator nest, ordinals, prefactor, level, sizes and all counters as they were |
| WickTheorem.NumberOperators | SeQuant/core/wick.hpp:746-756 | numbers the operators by their positions in the flattened input |
| WickTheorem.ComputeNontensorWick | SeQuant/core/wick.hpp:1262-1321 | returns the terms of all reported sets in order (`WickScalars.TermWrittenOut` writes a term out), the contraction-free one last if partial contractions are wanted and none is required, or their number |
| WickTheorem.ContractionFree | SeQuant/core/wick.hpp:1290-1311 | the contraction-free term is the normal-ordered input with its sign |
| WickTheorem.TermIsSignedClassSize | SeQuant/core/wick.hpp:1622-1700 | a term keeps the uncontracted operators, and its scalar is the number of sets it stands for, times its cycle factor, times for fermions the sign of the permutation from the input to the contracted pairs followed by the normal-ordered rest |
| WickScalars.TermWrittenOut | SeQuant/core/wick.hpp:1604-1700 | a term in terms of the input alone: the contracted operators pair by pair, the creators and annihilators at the positions left, each once, and the scalar as class size, times 2 for each closed cycle of a spin-free term (fermionic or partial), times the permutation's sign for fermions |
| WickMasks.HasDuplicates | SeQuant/core/algorithm.hpp:113-123 | finds out whether two pairs are equal |
| WickMasks.PairList.SetNopPairMask | SeQuant/core/wick.hpp:563-623 | duplicates, then (if the input is known) indices out of range, are refused without a change; else the pairs wait if the input is unknown, or an empty list takes the count to 0, or mask, count and waiting pairs are those of the list |
| WickMasks.PairList.Replay | SeQuant/core/wick.hpp:800-807 | the waiting pairs are given again once the input is known, if there are any |
| WickMasks.PairList.NopPairs | SeQuant/core/wick.hpp:625-639 | reads back the waiting pairs, or each pair i < j that the mask names, once |
| WickMasks.MaskNames | SeQuant/core/wick.hpp:604-614 | the recorded mask is symmetric and names exactly the given pairs, in both directions |
| WickMasks.ReplayIsGiving | SeQuant/core/wick.hpp:800-807 | giving a nonempty list before the input is known comes to the same as giving it after, errors included |
| WickMasks.EmptyListKeepsMask | SeQuant/core/wick.hpp:604-616 | an empty list leaves the mask as it was, and sets the count to 0 if the input is known, and only then |
| WickMasks.StaysInStep | SeQuant/core/wick.hpp:1291-1292 | the count is 0 exactly if there is no mask, and this is kept by every list but an empty one given, with a known input, after a nonempty one |
| WickMasks.ReadBack | SeQuant/core/wick.hpp:625-639 | the pairs read back name what was given except a normal operator paired with itself, and the same if and only if there is none |
| WickConnections.PairsEnforced | SeQuant/core/wick.hpp:1071-1187 | the search rejects exactly the pairs given as avoided, and requires exactly those given as required, unless the vacuum is multi-product |
| WickConnections.FullTermsOfPairs | SeQuant/core/wick.hpp:563-616 | from lists to terms: without topology, the full contractions reported are exactly the perfect matchings by contractible pairs of different normal operators none of which is listed as avoided and which, where enforced, join every listed pair (none of two empty normal operators) |
| WickConnections.FreeTermsOfPairs | SeQuant/core/wick.hpp:563-616 | the same for full and partial contractions where none is required |
| WickConnections.EmptyTerm | SeQuant/core/wick.hpp:1290-1292 | the term without contractions is reported exactly for partial contractions without required pairs, or where these are not enforced |
| UpperTriangle.UptriIdxBijective | SeQuant/core/wick.hpp:837-845 | packing the pairs i < j of n numbers is a bijection onto the first n(n-1)/2 numbers |
| RangeNest.Cursor.Next | SeQuant/core/ranges.hpp:147-160 | the cursor points at the element whose position in the flattened nest is one higher, skipping empty ranges |
| RangeNest.Cursor.EraseAt | SeQuant/core/ranges.hpp:175-184 | erasing in a range erases the element at the cursor's position from the flattened nest |
| PartnerIndices.MakeTargetPartnerIndices | SeQuant/core/wick.hpp:971-1028 | the loop over contractions with erasures in either direction computes the joined pairs and the cycle count |
| PartnerIndices.TargetsArePaths | SeQuant/core/wick.hpp:971-1028 | as a set, the list of pairs is what joining pair by pair makes of the input pairs, and no index is in two of them |
| PartnerIndices.PairsLeftArePaths | SeQuant/core/wick.hpp:971-1028 | each pair left consists of the two ends of a path of input pairs and contractions |
| PartnerIndices.PairsLeft | SeQuant/core/wick.hpp:971-1028 | if every contracted operator has a partner, as many pairs are left as there are pairs less contractions, with exactly the uncontracted indices |
| PartnerIndices.CyclesOrderFree | SeQuant/core/wick.hpp:971-1028 | pairs left and cycle count do not depend on the order of the contractions |
| PartnerCycles.ClosedCountsCycles | SeQuant/core/wick.hpp:1014-1016 | the counter equals the number of cycles, defined as closed chains of distinct input pairs and contractions up to rotation |
| PartnerCycles.SameCycleRotates | SeQuant/core/wick.hpp:971-1028 | two lists of one cycle's pairs are rotations of each other |
| PartnerCycles.CyclesCounted | SeQuant/core/wick.hpp:971-1028 | the number returned with the target pairs is the number of these cycles |
| NormalOrder.Normalize | SeQuant/core/op.hpp:1451-1582 | returns all creators and all annihilators in storage order after the partner swaps, with the multiset of operators kept; for fermions the phase is the sign of the permutation from the flattened input to the storage order |
| NormalOrder.Collect | SeQuant/core/op.hpp:1471-1513 | before the swaps the creators come in input order and the annihilators in reverse order of their normal operators, with the matching sign |
| NormalColumns.CollectedOrder | SeQuant/core/op.hpp:1471-1513 | before the swaps creators are in input order; read by columns, an annihilator comes before another exactly if its normal operator is earlier, or is the same and it stands later there |
| NormalColumns.PartnersShareColumns | SeQuant/core/op.hpp:1515-1577 | every target pair both of whose operators are present ends up in one column |
| WickColumns.TermColumns | SeQuant/core/wick.hpp:1662-1679 | in every reported partial term, a partner pair left by its contractions and both of whose operators are kept shares a column |
| WickColumns.TermPairs | SeQuant/core/wick.hpp:1662-1679 | if every operator has a partner, both operators of every pair left are kept, and there are as many as input pairs less contractions |
| WickColumns.TermCycles | SeQuant/core/wick.hpp:1633-1673 | the factor of a spin-free term is 2 to the number of its cycles if it is fermionic or partial, and 1 otherwise |
| BlockAssignments.ForEachBlockAssignment | SeQuant/core/wick_extended.cpp:78-175 | reports every family of disjoint legal blocks exactly once (for full contractions those that leave nothing); each report's remainder is increasing and holds exactly what no block holds, and its sign for fermions is that of the permutation from all operators to the blocks' legs followed by the remainder, and 1 for bosons |
| BlockAssignments.BlockSearch.Recurse | SeQuant/core/wick_extended.cpp:128-172 | reports what the tree of choices has from its position on, and leaves the assignment array and the list of blocks as they were |
| BlockAssignments.BlockSearch.Emit | SeQuant/core/wick_extended.cpp:106-124 | reports the current blocks with the remainder, which is increasing and holds exactly what no block holds, and with the sign of legs and remainder together, unless full contractions are wanted and something remains |
| BlockAssignments.WantedIs | SeQuant/core/wick_extended.cpp:106-173 | what is to be reported, written out: disjoint blocks of active operators, each with as many creators as annihilators, from 2 to the maximal rank, not all of one normal operator, ordered by lowest leg, and holding all operators if only full contractions are wanted |
| BlockUniqueness.ReportedOnce | SeQuant/core/wick_extended.cpp:126-173 | the tree of choices holds every family of disjoint legal blocks, ordered by lowest leg, once and nothing else |
| BlockSigns.BlockOrderFree | SeQuant/core/wick_extended.cpp:110-122 | however the blocks of a family are ordered, the sign is the same |
| BlockSigns.ArrangementPermutes | SeQuant/core/wick_extended.cpp:112-122 | the legs of disjoint blocks followed by the remainder are a permutation of all operators |
| DeltaTable.ComputeRules | SeQuant/core/wick.impl.hpp:128-530 | the shared, mutable destinations represent the map from dummies to destinations that the deltas imply, factor by factor; a null result only if an index has no value, and always if a delta joins different indices of disjoint spaces or a chain through dummies leaves a dummy no value; other rules are sound and settle every delta |
| DeltaRules.CollectSound | SeQuant/core/wick.impl.hpp:153-530 | dummies share a destination only if a chain of deltas binds them, every destination's space is contained in that of each source and has every value the deltas leave to it, every delta is settled; a null intersection means that no value is left (the converse is `DeltaZeros.MustBeZero`) |
| DeltaZeros.MustBeZero | SeQuant/core/wick.impl.hpp:485-530 | a delta of different indices of disjoint spaces, two externals included, or a chain of deltas through dummies that leaves a dummy no value, makes the result null |
| DeltaRules.MergedIsLeast | SeQuant/core/wick.impl.hpp:374-405 | merging two rules invents no index if one of the three destinations has the merged space, and takes the least one that has |
| DeltaSubstitution.ApplyKeepsValue | SeQuant/core/wick.impl.hpp:584-635 | applying sound rules keeps the sum over all dummies, for all tensors and all values of the externals |
| DeltaSubstitution.EmptyIsZero | SeQuant/core/wick.impl.hpp:485-530 | if the deltas leave no value to an index, the sum is zero |
| DeltaFold.FoldDeltas | SeQuant/core/wick.impl.hpp:651-728 | replaces by 1 exactly the self-deltas of externals and of indices bound elsewhere, repeated self-deltas, and deltas between externals that earlier kept ones identify; tells whether anything changed |
| DeltaFold.FoldKeepsValue | SeQuant/core/wick.impl.hpp:637-728 | folding keeps the sum over all dummies |
| DeltaPasses.PassReduces | SeQuant/core/wick.impl.hpp:856-880 | after a pass that folds nothing, no delta joins two dummies and a removable delta has a dummy that meets externals of different spaces |
| DeltaPasses.IdlePassRenames | SeQuant/core/wick.impl.hpp:865-873 | a pass that folds nothing has only renamed dummies to indices that are new |
| DeltaReduction.Reduce | SeQuant/core/wick.impl.hpp:734-880 | terminates; a product reported as zero vanishes, any other keeps its value for all tensors and externals and is reduced; a product with a delta of different indices of disjoint spaces is reported as zero, and deltas left in any other join an external with an external whose space meets its own, or with a dummy within it |
| DeltaReduction.ZeroIsFound | SeQuant/core/wick.impl.hpp:485-530 | zero is reported if a delta joins different indices of disjoint spaces, or if a chain of deltas through dummies leaves a dummy no value |
| DeltaReduction.ZeroAtOnce | SeQuant/core/wick.impl.hpp:856-880 | zero is reported exactly if the first pass finds it; in what is left otherwise no delta joins disjoint spaces |
| DeltaVanishing.VanishesIff | SeQuant/core/wick.impl.hpp:117-119 | a product whose externals have values vanishes, for all tensors and all of these values, exactly if the deltas leave one of its indices no value |
| DeltaVanishing.ZeroIffVanishes | SeQuant/core/wick.impl.hpp:117-119 | if no space is empty and no external is joined with two other indices, zero is reported exactly for the products that vanish |
| DeltaVanishing.MissedZero | SeQuant/core/wick.impl.hpp:117-119 | an input that vanishes and is not reported as zero |
| DeltaVanishing.OrderDecides | SeQuant/core/wick.impl.hpp:485-530 | two orders of the same vanishing factors, of which one is reported as zero and the other is not |
| DeltaLeftovers.UncontestedReduces | SeQuant/core/wick.impl.hpp:100-106 | if no dummy is bound to externals of different spaces, no removable delta is left |
| DeltaLeftovers.ContestedStays | SeQuant/core/wick.impl.hpp:856-880 | a dummy that meets an external of least space, but first one of another space, keeps a removable delta through all passes |
| DeltaLeftovers.RemovableDeltaStays | SeQuant/core/wick.impl.hpp:100-106 | an input on which the reduction leaves a removable delta |
| IntegerRoots.NewtonNotBelow | SeQuant/core/math.hpp:135-139 | a Newton step from any positive number does not go below the root |
| IntegerRoots.Descend | SeQuant/core/math.hpp:135-139 | the descent ends, at a number not above the root; from a seed not below the root it ends at the root |
| IntegerRoots.Repair | SeQuant/core/math.hpp:140-141 | reaches the root from below, and makes no step if it is there |
| IntegerRoots.Iroot | SeQuant/core/math.hpp:116-142 | for any positive seed the result x is the integer root: x^k <= n < (x+1)^k |
| IntegerRoots.RootUnique | SeQuant/core/math.hpp:113-115 | there is only one such x |
| CoprimeBases.CoprimeBase | SeQuant/core/math.hpp:145-170 | terminates with pairwise coprime numbers above 1 of which every positive input is a product of powers |
| CoprimeBases.Refine | SeQuant/core/math.hpp:156-168 | one round lowers the product of the elements, or finds them pairwise coprime |
| RadicalTerms.ElementsKeepValue | SeQuant/core/math.hpp:230-239 | collecting exponents by the elements of a coprime base keeps the value of a product of powers |
| RadicalTables.TrialDivision | SeQuant/core/math.hpp:254-260 | moves all small prime factors to the exponent table, keeping the value, and leaves a cofactor without divisors below the last candidate |
| RadicalTables.IsPrime | SeQuant/core/math.hpp:271-275 | decides primality |
| RadicalTables.PerfectPower | SeQuant/core/math.hpp:262-284 | replaces the cofactor by a root that is no perfect power itself, and keeps the value |
| RadicalForms.NoSmallPower | SeQuant/core/math.hpp:308-320 | no prime up to the trial bound has its root_order-th power dividing the radicand |
| RadicalForms.RadicandReduced | SeQuant/core/math.hpp:307-320 | no root of the radicand would do with a smaller order |
| RadicalWidths.ElementsWeigh | SeQuant/core/math.hpp:228-247 | collecting exponents by the elements of a coprime base does not add to the widths of the integers weighted with the exponents |
| RadicalForms.SimplestRadicalForm | SeQuant/core/math.hpp:213-322 | a base that is not positive is refused; any other input has a form if and only if no element's whole part, and none of the width sums of numerator, denominator and radicand, is above the bit budget, where these sums are those of the one table of the elements' exponents; a form returned has the value of the input: raised to any number that clears all exponent denominators, both sides agree as reals; it is in lowest terms and reduced, its radicand is 1 if and only if its root order is, no small prime power divides the radicand, and no prime power at all if the base is level |
| RadicalKeys.TableUnique | SeQuant/core/math.hpp:228-297 | an ascending table is determined by its entries, so that the entries of the elements of the base (`RadicalKeys.IsTable`: an element with a whole exponent whole, any other as its small primes and the primitive root of the rest) determine it |
| RadicalUniqueness.SameForm | SeQuant/core/math.hpp:196-204 | two reduced forms in lowest terms with nothing left to take out of the root have the same value only if they are the same |
| RadicalUniqueness.LevelIfLonePrimes | SeQuant/core/math.hpp:196-204 | if no numerator or denominator has two different prime factors above the trial bound, the base is level |
| RadicalUniqueness.PerfectPowerWithTwoForms | SeQuant/core/math.hpp:196-204 | a perfect power that is not level has two reduced forms without small prime powers in the radicand |
| BubbleSorting.BubbleSort | SeQuant/core/algorithm.hpp:34-99 | sorts in place, with as many swaps as pairs were out of order |
| BubbleSorting.SettlesIffUntied | SeQuant/core/algorithm.hpp:29-39 | repeated passes come to rest if and only if no two elements each compare less than the other |
| BubbleSorting.ReflexiveNeverSettles | SeQuant/core/algorithm.hpp:33 | an input on which a reflexive order never comes to rest |
| BubbleSorting.BubbleSortParity | SeQuant/core/algorithm.hpp:140-155 | returns the parity of the pairs out of order |
| BubbleSorting.DisorderIsInversions | SeQuant/core/algorithm.hpp:140-155 | for numbers these pairs are the inversions |
| BubbleSorting.CompositeIsStrict | SeQuant/core/algorithm.hpp:76-95 | the comparison of zipped elements is a strict weak order if that of single ones is |
| BubbleSorting.ZippedSorted | SeQuant/core/algorithm.hpp:76-95 | zipped elements are sorted exactly if first elements are, and second ones wherever first ones do not differ |
| PermutationOrders.NextPermutationParity | SeQuant/core/algorithm.hpp:157-198 | for any strict weak order, steps to the lexicographic successor, or from the last arrangement to the first; the parity stays in step with the pairs out of order if and only if an even number of pairs of the moved elements compare neither way |
| PermutationOrders.AscendingIsFirst | SeQuant/core/algorithm.hpp:191-196 | no arrangement comes before the ascending one, to which the step wraps round |
| PermutationOrders.DescendingIsLast | SeQuant/core/algorithm.hpp:191-196 | no arrangement comes after the descending one, from which it does |
| PermutationOrders.DistinctHaveNoAlikePairs | SeQuant/core/algorithm.hpp:157-166 | for elements that are all told apart by the order that condition holds |
| PermutationOrders.AlikePairFlips | SeQuant/core/algorithm.hpp:157-166 | two elements that compare neither way: the parity changes although their order cannot |
| BinaryNodes.SizeIsCount | SeQuant/core/binary_node.hpp:244-258 | if every node agrees with its neighbours, the cached size is the number of nodes below and at it |
| BinaryNodes.SizeCountsValue | SeQuant/core/binary_node.hpp:513-522 | the cached size is the number of nodes of the tree's value |
| BinaryNodes.RefreshSizeUp | SeQuant/core/binary_node.hpp:260-269 | after refreshing a node and its ancestors, its stale size is the only one that has been corrected and all others still hold |
| TreeAssignments.MoveAssign | SeQuant/core/binary_node.hpp:406-449 | every live node of every tree has correct parent links and a correct cached size; the target has the source's old value; self-moves change nothing; allowed for any source but a proper ancestor, also for descendants of the target and children of other trees |
| TreeAssignments.SourceLeft | SeQuant/core/binary_node.hpp:435-444 | a source that survives is a leaf of size 1 under its old parent |
| TreeAssignments.ElsewhereKept | SeQuant/core/binary_node.hpp:406-449 | trees that hold neither node keep their values |
| TreeAssignments.AncestorMakesCycle | SeQuant/core/binary_node.hpp:406-449 | moving from a proper ancestor leaves links that no sizes make a tree |
| TreeAssignments.DeepCopy | SeQuant/core/binary_node.hpp:271-310 | the loop with its own stack makes a separate tree of the same value, without touching the original |
| TreeAssignments.CopyAssign | SeQuant/core/binary_node.hpp:382-396 | the target gets the value of the other node, wherever that is; all other live nodes keep their links, and all sizes are correct |
| TreeVisits.Visit | SeQuant/core/binary_node.hpp:148-219 | the loop with a current and a previous node terminates; where assertions are checked it is refused, before anything is announced, exactly if it starts at an inner node below the root; else it announces the events of the start's subtree that were asked for and that no event answered with false cuts off, each once, a node before, between and after its subtrees, and then in the same way what the ancestors of the start have left |
| TreeWalks.WalkContents | SeQuant/core/binary_node.hpp:188-217 | an event of the subtree is announced exactly if it was asked for and no earlier event answered with false cuts it off: a pre-order event all else at and below its node, an in-order event the right subtree and the post-order event, other events nothing |
| TreeWalks.WalkOrder | SeQuant/core/binary_node.hpp:188-217 | at every node, events come in the order pre-order, left subtree, in-order, right subtree, post-order |
| TreeVisits.RestIsBeyond | SeQuant/core/binary_node.hpp:188-217 | beyond the start, exactly the post-order events of its ancestors, and the in-order events and right subtrees of those with the start on their left, are announced, as far as they were asked for and not cut off |
| TreeVisits.OnlyFromRoot | SeQuant/core/binary_node.hpp:196-219 | to a visitor that wants post-order events of inner nodes, nothing follows the traversal of the start if and only if the start is a root |
| TreeVisits.BeyondStart | SeQuant/core/binary_node.hpp:188-199 | from the right child of a root, exactly the root's post-order event follows |
| ContextVersions.VersionTable.Version | SeQuant/core/context.cpp:98-108 | answers with the version of a living equal key and changes nothing, or, if there is none, gives the next number and keeps exactly the living entries and the new one |
| ContextVersions.VersionsIdentify | SeQuant/core/context.cpp:96-108 | in every run of creation, destruction, address reuse, setters, copies and requests, two answers are equal if and only if their keys name the same objects and equal settings |
| ContextVersions.CachedAgrees | SeQuant/core/context.cpp:431-465 | in every run the version cached by a context is what a new request for its configuration gets |
| ContextVersions.AnswersConfigured | SeQuant/core/context.cpp:431-465 | in every run, a context's version is the answer for the configuration it was given last |
| ContextVersions.AnswersCopied | SeQuant/core/context.cpp:431-465 | a copy is answered for the configuration of its source at the time of copying, whatever becomes of the source |
| ContextVersions.AnswerIsForRequest | SeQuant/core/context.cpp:98-108 | a request for a key of living objects is answered for that key |

## Left out

- WickTheorem.ComputeNontensorWick: threads, statistics, logging and the optional prefactor are not modelled, and the input has at least one operator, as the packed matrices of the engine demand.
- WickTheorem.TermIsSignedClassSize: that `can_contract` is constant on operator partitions and that partitions lie in one normal operator and are ordered by first element is required, since graph automorphisms supply them.
- WickColumns.TermColumns: that contractions join a creator and an annihilator is required, as `can_contract` sees to.
- WickColumns.TermCycles: `Input.spinfree` stands for the tests of vacuum and SP basis, and the shift that computes the power of two does not overflow.
- BlockAssignments.ForEachBlockAssignment: the selections are stepped through in the order of `std::prev_permutation` as a list, `std::sort` is a function, and an operator without provenance, which makes the original throw, does not occur.
- DeltaReduction.Reduce: one basis with many spaces; protoindices, basis instances, overlaps of non-orthonormal bases and the choice of index labels are left out, and expanded sums are reduced product by product.
- IntegerRoots.Iroot: the floating-point estimate is an arbitrary positive seed.
- RadicalUniqueness.PerfectPowerWithTwoForms: names two forms that meet what is promised, not the run that returns either.
- PermutationOrders.NextPermutationParity: the parity does not overflow.
- TreeAssignments.MoveAssign: what the moved-from data are is left open, and the destruction of what the target owned is the removal of these nodes from the live ones.
- TreeVisits.Visit: the visitor may depend on all it has seen but does not change the tree.
- ContextVersions.VersionsIdentify: the lock is taken as given, so that requests come one after the other.
- Graph automorphisms, tensor networks and canonicalization: they rest on code outside these files.
- Expression expansion and simplification: reported terms are records of a scalar, contractions and operators.
- `make_nop`, `subset`, `extend_provenance` and the cumulant expansion around the block assignments: they build and multiply the tensors of a chosen assignment, and which assignments are chosen does not depend on them.
- `set_op_partitions`: it completes the partitions given with singletons and sorts them; `WellFormed` states what it leaves.
- `factorial`, `bipartitions` and `transform_node`: a table of products, for which `Factorials.Fact` stands, an enumeration of bit masks for the cost model, and a map over tree nodes for evaluation; nothing modelled calls the last two.
- `adjoint` of a normal operator: it reverses and conjugates an operator before the search starts, which takes its input as given.
- Text output, hashing, the index registry and cost models.
