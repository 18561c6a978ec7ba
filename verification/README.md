# Partitioned join-order search, modelled in Dafny

This project models the sequential core of a partitioned join-order
optimiser that runs inside a PostgreSQL planner. The space of join orders
for a query over `levels_needed` relations is split among `n_workers`
workers. Each worker finds the cheapest plan in its own part by dynamic
programming over relation subsets.

- **Partition constraints.** Bit `i` of a worker's `part_id` orients
  relation pair `(2i, 2i+1)` in left-deep mode, or relation triple
  `(3i, 3i+1, 3i+2)` in bushy mode. A constraint `(a, b)` means `a` is
  joined before `b` (`part_constraints`, `part_constraints_b`).
- **Admissible join results.** `constrained_power_set(_b)` lists, for each
  pair or triple, the subsets an intermediate result may contain.
  `adm_join_results(_b)` combines those local choices with
  `cartesian_product`. The result is the list of relation subsets that
  may occur as intermediate join results.
- **The DP.** The table `P` is indexed by subset bitmaps. It starts with
  the leaf plans of the single relations at cost 0. The worker sorts the
  admissible subsets by size with `ptr_less`. For every subset of two or
  more relations, `try_splits` tries each relation `u` that the
  constraints allow to be joined last. The candidate is
  `merge(P[bitmap without u], leaf u)`. It replaces `P[bitmap]` only when
  the entry is empty or the candidate is strictly cheaper. The worker's
  answer is the entry for the full bitmap `(1 << levels_needed) - 1`.
- **Join trees and plan rebuilding.** `create_leaf`, `merge`,
  `create_parallel_plan` and `tree_2_bitmap` build and read join trees.
  `merge_clump` and `construct_rel_based_on_plan` walk a tree and ask
  the host planner to build the join relations.

Modules:

- `Bits` (bits.dfy): the C bitmap operations (`1 << i`, `|=`, `& ~`) on
  non-negative values.
- `ParallelUtils` (parallel_utils.dfy): list helpers and `cartesian_product`.
- `ParallelTree` (parallel_tree.dfy): join trees and plans.
- `WorkerSpace` (worker_space.dfy): `ptr_less` and the size sort,
  `constrained_power_set(_b)` and `part_constraints(_b)`.
- `JoinResults` (join_results.dfy): `adm_join_results(_b)`. Both are
  proved sound, complete, duplicate-free and of exact size.
- `ParallelEval` (parallel_eval.dfy): `merge_clump`,
  `construct_rel_based_on_plan` and `desirable_join`.
- `WorkerDP` (worker_dp.dfy): `try_splits` and `worker`, as methods that
  update the table array in place.
- `Partition` (partition.dfy): how `part_constraints` divides the
  orderings of the relations among the left-deep workers.
- `Wrappers` (wrappers.dfy): `Option`.

Bitmaps are natural numbers, with `HasBit`, `BitOr` and `BitClear` defined
arithmetically. Costs are `real`. The cost function (`parallel_eval`) is a
parameter `eval` of the model. The host planner's join builder and its
two join heuristics are the fields of a `Host` value.

The code and its comments disagree in a few places. The model follows the
code:

- With an odd number of relations, `adm_join_results` puts the last
  relation in no group (`parallel_worker.c:222`). No admissible subset
  therefore covers the whole query, and in left-deep mode the worker
  returns NULL for any odd count of three or more
  (`WorkerDP.Outcome`, `WorkerDP.OddEmpty`). This holds for three
  relations too, so a three-relation query gets no plan.
- The example in the comment on `cartesian_product`
  (`parallel_utils.c:36-39`) shows only the pairwise concatenations. The
  code first copies `a` and then `b`, and it builds each concatenation as
  `b[i] ++ a[j]`. The code also does not free its inputs.
- The comment on `part_constraints` (`parallel_worker.c:127-130`)
  describes the partition by the bits of `part_id`. The orderings are
  split among the workers without gap or overlap only when `n_workers` is
  a power of two (`Partition.PartitionExact`). With three workers, the
  orderings that reverse both of the first two pairs belong to no worker
  (`Partition.PartitionGap`).
- `part_constraints_b` never reads `levels_needed`
  (`parallel_worker.c:185`). Its triples can therefore name relations
  beyond the query.

## Model

| member | source | states |
|---|---|---|
| Bits.ShiftBound | src/backend/optimizer/parallel/parallel_worker.c:185 | if `1 << i` is still below an `n_workers` of at most 2^30, then `i` is below 30, so the shift in the bushy loop condition never overflows |
| Bits.Int32Bits | src/backend/optimizer/parallel/parallel_worker.c:142 | gives the bit pattern of a 32-bit `part_id` as an unsigned value below 2^32; a non-negative `part_id` is its own pattern |
| Bits.BitOr | src/backend/optimizer/parallel/parallel_worker.c:287 | `m \| (1 << i)` has bit `j` set exactly when `m` has it or `j == i` |
| Bits.BitClear | src/backend/optimizer/parallel/parallel_worker.c:318 | `m & ~(1 << i)` has exactly the bits of `m` other than `i`, and it is never larger than `m` |
| Bits.SingleBit | src/backend/optimizer/parallel/parallel_worker.c:382 | `1 << i` has exactly bit `i` set |
| Bits.FullMaskBits | src/backend/optimizer/parallel/parallel_worker.c:411 | `(1 << n) - 1` has exactly bits `0 .. n-1` set |
| Bits.BitsBelowBound | src/backend/optimizer/parallel/parallel_worker.c:373 | a value below the table size `1 << w` has no bit at `w` or above |
| Bits.Bitmap | src/backend/optimizer/parallel/parallel_worker.c:283-291 | the bitmap accumulated over `sub_rels` has bit `j` set exactly when `j` occurs in `sub_rels` |
| Bits.BitmapBound | src/backend/optimizer/parallel/parallel_worker.c:283-291 | the bitmap of relations below `w` is below `1 << w`, so it indexes the table |
| Bits.BitmapEqual | src/backend/optimizer/parallel/parallel_worker.c:283-291 | two lists of relations below `w` have the same bitmap exactly when they hold the same relations |
| ParallelUtils.DeepCopy | src/backend/optimizer/parallel/parallel_utils.c:7-14 | the copy has the same length and, position by position, the same inner lists |
| ParallelUtils.CopyConcatSets | src/backend/optimizer/parallel/parallel_utils.c:24-28 | the concatenation has length `\|a\|+\|b\|` and holds the relations of both lists; it is duplicate-free exactly when both lists are and they share no relation |
| ParallelUtils.Lunion | src/backend/optimizer/parallel/parallel_utils.c:50-54 | the inner loop for `b[i]` yields one entry per element of `a`; entry `j` is `b[i] ++ a[j]` |
| ParallelUtils.Mixed | src/backend/optimizer/parallel/parallel_utils.c:49-56 | the nested loops yield `\|b\| * \|a\|` entries |
| ParallelUtils.MixedAt | src/backend/optimizer/parallel/parallel_utils.c:49-56 | entry `i * \|a\| + j` of the nested loops is `b[i] ++ a[j]`, with `i` the outer and `j` the inner index |
| ParallelUtils.MixedMembers | src/backend/optimizer/parallel/parallel_utils.c:49-56 | a list is produced by the nested loops exactly when it is `b[i] ++ a[j]` for some `i` and `j` |
| ParallelUtils.MixedIndex | src/backend/optimizer/parallel/parallel_utils.c:49-56 | every entry of the nested loops is `b[i] ++ a[j]` for some `i` and `j` |
| ParallelUtils.CartesianLength | src/backend/optimizer/parallel/parallel_utils.c:41-59 | `\|r\| + 1 == (\|a\|+1) * (\|b\|+1)` for all inputs; when both are non-empty, `\|r\| == \|a\| + \|b\| + \|a\|*\|b\|` |
| ParallelUtils.CartesianOrder | src/backend/optimizer/parallel/parallel_utils.c:46-56 | the product starts with `a` and then `b`; entry `\|a\|+\|b\|+i*\|a\|+j` is `b[i] ++ a[j]` |
| ParallelUtils.CartesianCopies | src/backend/optimizer/parallel/parallel_utils.c:47-48 | for non-empty inputs, the product begins with a copy of `a` followed by a copy of `b` |
| ParallelUtils.CartesianMixed | src/backend/optimizer/parallel/parallel_utils.c:49-56 | after the two copies, the product continues with the entries of the nested loops in order |
| ParallelUtils.CartesianIsConcat | src/backend/optimizer/parallel/parallel_utils.c:46-58 | for non-empty inputs, the product is `a`, then `b`, then the nested-loop entries |
| ParallelUtils.CartesianEmpty | src/backend/optimizer/parallel/parallel_utils.c:42-45 | an empty `a` gives `b`, and an empty `b` gives `a` |
| ParallelUtils.CartesianMembers | src/backend/optimizer/parallel/parallel_utils.c:41-59 | a list is in the product exactly when it is in `a`, in `b`, or equal to some `b[i] ++ a[j]` |
| ParallelUtils.LunionDistinct | src/backend/optimizer/parallel/parallel_utils.c:50-54 | prefixing a non-empty, duplicate-free `b[i]` that is disjoint from every `a[j]` keeps the entries non-empty, duplicate-free and pairwise different as sets |
| ParallelUtils.MixedDistinct | src/backend/optimizer/parallel/parallel_utils.c:49-56 | if the entries of `a` and `b` are non-empty, duplicate-free, set-distinct and disjoint across the two lists, the nested-loop entries are non-empty, duplicate-free and pairwise different as sets |
| ParallelUtils.CartesianDistinct | src/backend/optimizer/parallel/parallel_utils.c:41-59 | under the same conditions, every entry of the product is non-empty and duplicate-free, and no two entries stand for the same set |
| ParallelTree.CreateLeaf | src/backend/optimizer/parallel/parallel_tree.c:5-12 | a leaf is a tree without children (`is_leaf` holds) whose relids are `[relid]` |
| ParallelTree.Merge | src/backend/optimizer/parallel/parallel_tree.c:14-20 | the node is not a leaf, its children are `l` and `r`, and its relids are `l`'s followed by `r`'s |
| ParallelTree.CreateParallelPlan | src/backend/optimizer/parallel/parallel_tree.c:22-27 | the plan holds the given tree and cost unchanged |
| ParallelTree.Tree2BitmapLeaf | src/backend/optimizer/parallel/parallel_tree.c:29-35 | the bitmap of the leaf of relation `i` (0 ≤ i < 31) is `1 << i` |
| ParallelTree.Tree2BitmapMerge | src/backend/optimizer/parallel/parallel_tree.c:29-35 | the bitmap of `merge(l, r)` is the bitwise OR of the bitmaps of `l` and `r` |
| ParallelTree.BuiltByConstructors | src/backend/optimizer/parallel/parallel_tree.c:5-20 | leaves and merges of such trees are trees whose relids agree with their children's |
| ParallelTree.BuiltRelids | src/backend/optimizer/parallel/parallel_tree.c:5-20 | in a tree built by `create_leaf` and `merge`, a node's relids are its leaves from left to right, so their number is the leaf count |
| WorkerSpace.PtrLess | src/backend/optimizer/parallel/parallel_worker.c:15-19 | the comparison is negative, zero or positive exactly when the first list is shorter than, as long as, or longer than the second |
| WorkerSpace.InsertBySize | src/backend/optimizer/parallel/parallel_worker.c:385 | inserting into a list sorted by length keeps it sorted and adds exactly that one element |
| WorkerSpace.SortBySize | src/backend/optimizer/parallel/parallel_worker.c:385-386 | the sorted list has non-decreasing lengths and is a permutation of the input |
| WorkerSpace.ScanFlags | src/backend/optimizer/parallel/parallel_worker.c:38-44 | after the scan, `include_q1` holds exactly when no constraint has `q1` second; `include_q2` holds exactly when `q1 == q2` or no constraint has `q2` second |
| WorkerSpace.ConstrainedPowerSet | src/backend/optimizer/parallel/parallel_worker.c:34-61 | the result has one to three entries and always ends with `[q1, q2]` |
| WorkerSpace.ConstrainedPowerSetChoices | src/backend/optimizer/parallel/parallel_worker.c:34-61 | for `q1 != q2`, the result is `[q1]` if no constraint has `q1` second, then `[q2]` if none has `q2` second, then `[q1, q2]` |
| WorkerSpace.ConstrainedPowerSetB | src/backend/optimizer/parallel/parallel_worker.c:64-111 | the result has five to seven entries: first `[q1], [q2], [q3], [q1, q2]`, and last `[q1, q2, q3]` |
| WorkerSpace.ConstrainedPowerSetBChoices | src/backend/optimizer/parallel/parallel_worker.c:64-111 | for `q1 != q2`, `[q1, q3]` is included exactly when no constraint has `q1` second and `[q2, q3]` exactly when none has `q2` second, in that order, before `[q1, q2, q3]` |
| WorkerSpace.PartConstraintsFrom | src/backend/optimizer/parallel/parallel_worker.c:140-153 | the loop stops at the first index where its condition `(1 << i) < n_workers && 2i+1 < levels_needed` fails |
| WorkerSpace.PairLoopBound | src/backend/optimizer/parallel/parallel_worker.c:140-141 | while the loop condition holds, `i < 30`, so the shift `1 << (i + 1)` of the next test is defined as well |
| WorkerSpace.PairLoopShifts | src/backend/optimizer/parallel/parallel_worker.c:140-141 | the loop stops by index 30, so every shift the condition computes, including the one in the failing test, is `1 << i` with `i <= 30` |
| WorkerSpace.PartConstraintsFromAt | src/backend/optimizer/parallel/parallel_worker.c:140-153 | the pair the loop emits at index `k` is pair `k` oriented by bit `k` of `part_id`, and the condition held at `k` |
| WorkerSpace.PartConstraintsFromStart | src/backend/optimizer/parallel/parallel_worker.c:138-155 | from index 0, pair `i` of the result is `(2i, 2i+1)` when bit `i` of `part_id` is clear and `(2i+1, 2i)` when it is set |
| WorkerSpace.PartConstraints | src/backend/optimizer/parallel/parallel_worker.c:138-155 | one pair for each `i` with `(1 << i) < n_workers` and `2i+1 < levels_needed`, up to the first `i` where that fails; pair `i` is `(2i, 2i+1)`, reversed when bit `i` of `part_id` is set |
| WorkerSpace.PartConstraintsExample | src/backend/optimizer/parallel/parallel_worker.c:133-136 | with four workers, `part_id` 2 and at least four relations, the constraints are `[(0,1), (3,2)]` |
| Partition.PartOfBits | src/backend/optimizer/parallel/parallel_worker.c:127-130 | bit `i` of the worker id read off an ordering is set exactly when the ordering puts relation `2i+1` before `2i` |
| Partition.PartLength | src/backend/optimizer/parallel/parallel_worker.c:138-155 | with `n_workers = 2^b` and at least `2b` relations, every worker receives exactly `b` constraints |
| Partition.PartsDistinct | src/backend/optimizer/parallel/parallel_worker.c:127-155 | with `n_workers = 2^b` and at least `2b` relations, two different worker ids below `n_workers` receive different constraint lists |
| Partition.PartitionExact | src/backend/optimizer/parallel/parallel_worker.c:127-155 | with `n_workers = 2^b` and at least `2b` relations, an ordering of all the relations obeys the constraints of worker `part_id` exactly when `part_id` is the one id that orients each pair the way the ordering does, so the workers split the orderings without gap or overlap |
| Partition.PartitionGap | src/backend/optimizer/parallel/parallel_worker.c:138-155 | with three workers and four relations, the ordering `1, 0, 3, 2` obeys the constraints of none of the workers 0, 1 and 2 |
| WorkerSpace.PartConstraintsBFrom | src/backend/optimizer/parallel/parallel_worker.c:185-203 | the bushy loop stops at the first index where `(1 << i) < n_workers` fails |
| WorkerSpace.PartConstraintsBFromAt | src/backend/optimizer/parallel/parallel_worker.c:185-203 | the triple emitted at index `k` is triple `k` oriented by bit `k` of `part_id` |
| WorkerSpace.PartConstraintsBFromStart | src/backend/optimizer/parallel/parallel_worker.c:183-204 | from index 0, triple `i` is `(3i, 3i+1, 3i+2)`, with the first two swapped when bit `i` of `part_id` is set |
| WorkerSpace.PartConstraintsB | src/backend/optimizer/parallel/parallel_worker.c:183-204 | one triple for each `i` with `(1 << i) < n_workers`, whatever `levels_needed` is; its third entry is `3i+2`, and the first two are swapped when bit `i` is set |
| WorkerSpace.PartConstraintsBExample | src/backend/optimizer/parallel/parallel_worker.c:177-180 | with four workers and `part_id` 2, the triples are `[(0,1,2), (4,3,5)]`, for any `levels_needed` |
| JoinResults.FoldSound | src/backend/optimizer/parallel/parallel_worker.c:220-229 | folding `cartesian_product` over groups drawn from disjoint blocks yields non-empty, duplicate-free, set-distinct subsets; each meets every block either not at all or in one of that group's choices |
| JoinResults.FoldComplete | src/backend/optimizer/parallel/parallel_worker.c:220-229 | every non-empty set that meets each block either not at all or in one of its group's choices is produced by the fold |
| JoinResults.FoldCount | src/backend/optimizer/parallel/parallel_worker.c:220-229 | the fold yields the product of `(\|group\| + 1)` over all groups, minus one |
| JoinResults.PairGroups | src/backend/optimizer/parallel/parallel_worker.c:222-225 | the groups are `k` in number, and group `i` is `constrained_power_set(constr, 2i, 2i+1)` |
| JoinResults.PairBlocks | src/backend/optimizer/parallel/parallel_worker.c:222-224 | block `i` of the left-deep enumeration is `{2i, 2i+1}` |
| JoinResults.UnionPairBlocks | src/backend/optimizer/parallel/parallel_worker.c:222 | the first `k` pairs cover exactly relations `0 .. 2k-1` |
| JoinResults.PairChoices | src/backend/optimizer/parallel/parallel_worker.c:34-61 | the local choices of pair `i` are non-empty, duplicate-free and set-distinct subsets of `{2i, 2i+1}` |
| JoinResults.PairBlocksDisjoint | src/backend/optimizer/parallel/parallel_worker.c:222-224 | different pairs share no relation |
| JoinResults.PairBlocksOK | src/backend/optimizer/parallel/parallel_worker.c:220-229 | the groups of adm_join_results are local choices within pairwise disjoint blocks |
| JoinResults.AdmJoinResultsSound | src/backend/optimizer/parallel/parallel_worker.c:220-229 | every produced subset is non-empty, duplicate-free, admissible under the constraints and below `2 * (levels_needed / 2)`; no two stand for the same set |
| JoinResults.AdmJoinResultsComplete | src/backend/optimizer/parallel/parallel_worker.c:220-229 | every admissible set of relations is produced |
| WorkerDP.AdmissibleMeans | src/backend/optimizer/parallel/parallel_worker.c:206-229 | under left-deep pair constraints, a set is one of the admissible join results exactly when it is non-empty, lies within relations `0 .. 2*(levels_needed/2) - 1`, and contains the first relation of every constraint whose second relation it contains |
| JoinResults.AdmJoinResultsCount | src/backend/optimizer/parallel/parallel_worker.c:220-229 | the number of subsets is the product over pairs of `(\|cps_i\| + 1)`, minus one |
| JoinResults.AdmJoinResultsMasks | src/backend/optimizer/parallel/parallel_worker.c:220-229 | no two produced subsets have the same bitmap |
| JoinResults.TripleGroups | src/backend/optimizer/parallel/parallel_worker.c:241-245 | the groups are `k` in number, and group `i` is `constrained_power_set_b(constr, 3i, 3i+1, 3i+2)` |
| JoinResults.TripleBlocks | src/backend/optimizer/parallel/parallel_worker.c:242-244 | block `i` of the bushy enumeration is `{3i, 3i+1, 3i+2}` |
| JoinResults.UnionTripleBlocks | src/backend/optimizer/parallel/parallel_worker.c:241 | the first `k` triples cover exactly relations `0 .. 3k-1` |
| JoinResults.TripleChoices | src/backend/optimizer/parallel/parallel_worker.c:64-111 | the local choices of triple `i` are non-empty, duplicate-free and set-distinct subsets of `{3i, 3i+1, 3i+2}` |
| JoinResults.TripleBlocksDisjoint | src/backend/optimizer/parallel/parallel_worker.c:241-244 | different triples share no relation |
| JoinResults.TripleBlocksOK | src/backend/optimizer/parallel/parallel_worker.c:239-249 | the groups of adm_join_results_b are local choices within pairwise disjoint blocks |
| JoinResults.AdmJoinResultsBSound | src/backend/optimizer/parallel/parallel_worker.c:239-249 | every produced subset is non-empty, duplicate-free, meets every triple either not at all or in one of that triple's `constrained_power_set_b` choices, and uses only relations below `3 * (levels_needed / 3)`; no two produced subsets stand for the same set or have the same bitmap |
| JoinResults.AdmJoinResultsBComplete | src/backend/optimizer/parallel/parallel_worker.c:239-249 | every non-empty set that meets each triple either not at all or in one of its `constrained_power_set_b` choices is produced |
| JoinResults.AdmJoinResultsBCount | src/backend/optimizer/parallel/parallel_worker.c:239-249 | the number of subsets is the product over triples of `(\|cps_i\| + 1)`, minus one |
| ParallelEval.DesirableJoin | src/backend/optimizer/parallel/parallel_eval.c:170-184 | a join is desirable exactly when a relevant join clause or a join-order restriction exists |
| ParallelEval.MergeClumpStep | src/backend/optimizer/parallel/parallel_eval.c:118-165 | a leaf yields its one relation. When either child yields several fragments, the result is the left fragments then the right ones. Two single fragments joined with success become one; a refused join keeps both; an unattempted join yields the empty list |
| ParallelEval.MergeClumpForced | src/backend/optimizer/parallel/parallel_eval.c:118-165 | with `force` set, the walk never fails its assertion and yields between one fragment and one per leaf |
| ParallelEval.MergeClumpJoinsAll | src/backend/optimizer/parallel/parallel_eval.c:118-165 | when the join builder accepts every join, the forced walk yields exactly the relation of all leaves joined along the tree |
| ParallelEval.ConstructRelBasedOnPlan | src/backend/optimizer/parallel/parallel_eval.c:81-116 | the result is the lone fragment of the forced walk when exactly one remains, and NULL otherwise |
| ParallelEval.ConstructRelOfLeaf | src/backend/optimizer/parallel/parallel_eval.c:81-116 | the tree of a single leaf is rebuilt as that relation of `initial_rels` |
| ParallelEval.ConstructRelJoinsAll | src/backend/optimizer/parallel/parallel_eval.c:81-116 | when the join builder accepts every join, every tree is rebuilt as its leaves joined along the tree |
| ParallelEval.MergeClumpNoJoins | src/backend/optimizer/parallel/parallel_eval.c:118-165 | when the join builder refuses every join, the forced walk yields every leaf's relation as a fragment of its own, left to right |
| ParallelEval.ConstructRelNoJoins | src/backend/optimizer/parallel/parallel_eval.c:81-116 | when the join builder refuses every join, a tree of two or more leaves is rebuilt as NULL |
| WorkerDP.ValidAmongMeans | src/backend/optimizer/parallel/parallel_worker.c:297-309 | after the constraint scan, `u` is still valid exactly when no scanned constraint `(u, w)` has both `u` and `w` in `sub_rels` |
| WorkerDP.Candidate | src/backend/optimizer/parallel/parallel_worker.c:318-323 | the candidate for right-most `u` is a merge of the plan for `bitmap` without `u` (left) and the leaf plan of `u` (right); its relids are theirs in that order and its cost is the evaluator's |
| WorkerDP.Keep | src/backend/optimizer/parallel/parallel_worker.c:324-325 | the entry becomes the candidate or stays as it was; it is filled afterwards, its cost never increases, and it changes only on a strict decrease |
| WorkerDP.SplitsBest | src/backend/optimizer/parallel/parallel_worker.c:312-327 | after the first `k` relations, the entry costs no more than its old value and no more than any valid candidate among them |
| WorkerDP.SplitsChoice | src/backend/optimizer/parallel/parallel_worker.c:312-327 | the entry is either the old one or the candidate of a valid `u`; it is the first valid candidate of least cost, so ties keep the earlier one |
| WorkerDP.SplitsStep | src/backend/optimizer/parallel/parallel_worker.c:312-327 | one iteration applies the update rule for `u = sub_rels[k]` if `u` is valid, and changes nothing otherwise |
| WorkerDP.SplitIndices | src/backend/optimizer/parallel/parallel_worker.c:318-320 | for a subset of two or more relations, `bitmap`, `1 << u` and `bitmap & ~(1 << u)` index the table, and neither part is the subset's own entry |
| WorkerDP.NotSingleton | src/backend/optimizer/parallel/parallel_worker.c:393-394 | a subset of two or more relations never has a singleton bitmap, so the leaf entries are never overwritten |
| WorkerDP.MarkValid | src/backend/optimizer/parallel/parallel_worker.c:270-309 | the filled `valid` array marks exactly the relations that no constraint inside `sub_rels` forbids on the right, and `bitmap` is the subset's bitmap |
| WorkerDP.TrySplits | src/backend/optimizer/parallel/parallel_worker.c:260-328 | only `P[bitmap]` changes; its new value is the result of the update rule over the valid right-most relations of `sub_rels` |
| WorkerDP.TryRight | src/backend/optimizer/parallel/parallel_worker.c:312-327 | one iteration of the split loop moves the table from the state after `i` relations to the state after `i + 1` |
| WorkerDP.LeafOK | src/backend/optimizer/parallel/parallel_worker.c:380-383 | the leaf plan of relation `v` at cost 0 is a correct entry for bitmap `1 << v` |
| WorkerDP.CandidateOK | src/backend/optimizer/parallel/parallel_worker.c:318-323 | a candidate for a valid `u` is a left-deep tree over exactly the subset's relations, each once, that keeps every constraint and is priced by the evaluator |
| WorkerDP.SplitsOK | src/backend/optimizer/parallel/parallel_worker.c:312-327 | whatever the split loop stores is a correct entry for the subset's bitmap |
| WorkerDP.PartFacts | src/backend/optimizer/parallel/parallel_worker.c:138-155 | constraint `i` of a left-deep partition relates `2i` and `2i+1`, in one order or the other, and names relations of the query |
| WorkerDP.PartSecond | src/backend/optimizer/parallel/parallel_worker.c:138-155 | relation `q` is the second of some constraint exactly when pair `q / 2` is constrained and its second entry is `q` |
| WorkerDP.PairChoiceSets | src/backend/optimizer/parallel/parallel_worker.c:34-61 | the sets pair `i` offers are `{2i}` unless `2i` is constrained second, `{2i+1}` unless `2i+1` is constrained second, and `{2i, 2i+1}` |
| WorkerDP.RemoveValidAdmissible | src/backend/optimizer/parallel/parallel_worker.c:318 | removing a valid right-most relation from an admissible set of two or more relations leaves an admissible set |
| WorkerDP.ValidExists | src/backend/optimizer/parallel/parallel_worker.c:297-316 | every non-empty set of relations has a relation the constraints allow on the right |
| WorkerDP.FullAdmissible | src/backend/optimizer/parallel/parallel_worker.c:220-229 | the set of all relations of the pairs is admissible, and it is exactly relations `0 .. 2*(levels_needed/2) - 1` |
| WorkerDP.AddLeaf | src/backend/optimizer/parallel/parallel_worker.c:380-383 | storing the leaf of relation `i` keeps the leaves of relations `0 .. i-1` in place |
| WorkerDP.AddOnlyLeaf | src/backend/optimizer/parallel/parallel_worker.c:380-383 | storing at `1 << i` leaves only singleton entries filled |
| WorkerDP.InitTable | src/backend/optimizer/parallel/parallel_worker.c:373-383 | the new table has `1 << levels_needed` entries; entry `1 << i` holds the leaf of relation `i` at cost 0, and every other entry is NULL |
| WorkerDP.LinearSubsets | src/backend/optimizer/parallel/parallel_worker.c:385-386 | the sorted join results are sorted by size and are exactly the admissible sets |
| WorkerDP.SortedSound | src/backend/optimizer/parallel/parallel_worker.c:385-386 | every sorted join result is non-empty, duplicate-free, in range and admissible |
| WorkerDP.SortedComplete | src/backend/optimizer/parallel/parallel_worker.c:385-386 | every admissible set is some sorted join result |
| WorkerDP.StartState | src/backend/optimizer/parallel/parallel_worker.c:373-386 | the initialised table is a correct DP state before the first subset |
| WorkerDP.LeftPartEarlier | src/backend/optimizer/parallel/parallel_worker.c:385-394 | for a valid `u`, the subset without `u` is a join result sorted strictly earlier |
| WorkerDP.LeftPartFilled | src/backend/optimizer/parallel/parallel_worker.c:319 | when a subset is processed, `P[bitmap & ~(1 << u)]` is already filled for every valid `u` |
| WorkerDP.ReadyForSplits | src/backend/optimizer/parallel/parallel_worker.c:393-394 | when the loop reaches a subset of two or more relations, both parts of every valid split are filled |
| WorkerDP.SplitsFill | src/backend/optimizer/parallel/parallel_worker.c:312-327 | after the split loop, the subset's entry is filled |
| WorkerDP.StoreEntry | src/backend/optimizer/parallel/parallel_worker.c:389-396 | storing a correct entry for subset `i` extends the DP state to `i + 1` |
| WorkerDP.AfterSplits | src/backend/optimizer/parallel/parallel_worker.c:389-396 | running the split loop on subset `i` extends the DP state to `i + 1` |
| WorkerDP.SkipSubset | src/backend/optimizer/parallel/parallel_worker.c:393 | skipping a single-relation subset extends the DP state to `i + 1` |
| WorkerDP.FullNotSingleton | src/backend/optimizer/parallel/parallel_worker.c:411 | with two or more relations, the full bitmap is no leaf's bitmap |
| WorkerDP.FullBitmap | src/backend/optimizer/parallel/parallel_worker.c:411 | a list holding every relation of the query has the full bitmap |
| WorkerDP.NotFullBitmap | src/backend/optimizer/parallel/parallel_worker.c:411 | a list that leaves out the last relation does not have the full bitmap |
| WorkerDP.AllRelations | src/backend/optimizer/parallel/parallel_worker.c:411 | a list of exactly the query's relations, two or more of them, has the full bitmap |
| WorkerDP.FullSubset | src/backend/optimizer/parallel/parallel_worker.c:222-228 | with an even count of at least two, the whole query is one of the sorted join results |
| WorkerDP.EvenFull | src/backend/optimizer/parallel/parallel_worker.c:388-413 | with an even count of at least two, the full entry is filled after the loop |
| WorkerDP.OddEmpty | src/backend/optimizer/parallel/parallel_worker.c:222 | with an odd count of at least three, the full entry stays NULL |
| WorkerDP.NoRelations | src/backend/optimizer/parallel/parallel_worker.c:411 | with no relations, the only entry stays NULL |
| WorkerDP.LinearResult | src/backend/optimizer/parallel/parallel_worker.c:388-413 | the full entry after the loop has the shape the worker promises (see Worker): NULL, the single leaf, or a left-deep plan over all relations that keeps the constraints; its cost is the subject of TopCheapest |
| WorkerDP.FullRelids | src/backend/optimizer/parallel/parallel_worker.c:411-413 | a correct entry for the full bitmap mentions exactly the relations `0 .. levels_needed-1` |
| WorkerDP.LinearStep | src/backend/optimizer/parallel/parallel_worker.c:389-396 | one iteration of the worker's loop extends the DP state by one subset, and keeps every processed subset of two or more relations solved: its entry is what the split loop computes from the table's other entries |
| WorkerDP.LinearLoop | src/backend/optimizer/parallel/parallel_worker.c:388-396 | after the loop over all sorted join results, the table is in the final DP state and every join result of two or more relations is solved from the table's other entries |
| WorkerDP.LinearStart | src/backend/optimizer/parallel/parallel_worker.c:380-386 | the sorted admissible sets and the initialised table meet the loop's preconditions |
| WorkerDP.LinearDP | src/backend/optimizer/parallel/parallel_worker.c:388-413 | the left-deep loop followed by the read of the full entry meets the worker's promise, and the result is the full entry of a final table in which every join result is solved (`TopOfTable`) |
| WorkerDP.SplitsFrame | src/backend/optimizer/parallel/parallel_worker.c:312-327 | the split loop reads only the subset's own entry and the entries of its valid parts, so two tables that agree there give the same result |
| WorkerDP.SortedMasks | src/backend/optimizer/parallel/parallel_worker.c:385-386 | no two sorted join results have the same bitmap |
| WorkerDP.EntryEmpty | src/backend/optimizer/parallel/parallel_worker.c:389-394 | when the loop reaches a subset of two or more relations, its entry is still NULL |
| WorkerDP.NewSolved | src/backend/optimizer/parallel/parallel_worker.c:389-394 | running the split loop on an empty entry solves that subset |
| WorkerDP.KeepSolved | src/backend/optimizer/parallel/parallel_worker.c:389-394 | storing into an entry that a solved subset neither owns nor reads keeps it solved |
| WorkerDP.OptimalStep | src/backend/optimizer/parallel/parallel_worker.c:389-394 | running the split loop on subset `i` solves it and keeps the earlier subsets solved |
| WorkerDP.SolvedMeans | src/backend/optimizer/parallel/parallel_worker.c:312-327 | a solved subset's entry is the candidate of some valid relation, costs no more than the candidate of any valid relation, and strictly less than those before it in `sub_rels` |
| WorkerDP.TableCheapest | src/backend/optimizer/parallel/parallel_worker.c:385-396 | in the final table, every admissible set of two or more relations has an entry that is the cheapest plan joining the entry of the set without one valid relation with the leaf of that relation, the first such plan on a tie |
| WorkerDP.TopCheapest | src/backend/optimizer/parallel/parallel_worker.c:388-413 | with an even number of relations, the entry of the full bitmap in the final table is the cheapest such plan over all relations |
| WorkerDP.TopOfTableCheapest | src/backend/optimizer/parallel/parallel_worker.c:388-413 | with an even number of relations, the plan the left-deep worker returns is the cheapest plan joining the final entry of all relations but one valid relation with the leaf of that relation |
| WorkerDP.LeavesTop | src/backend/optimizer/parallel/parallel_worker.c:397-413 | in bushy mode the table keeps only its leaves, so the result is the leaf for one relation and NULL otherwise |
| WorkerDP.Worker | src/backend/optimizer/parallel/parallel_worker.c:343-414 | left-deep mode returns NULL with no relations, the leaf of relation 0 for one, a plan for an even count and NULL for an odd count of three or more. A returned plan is a left-deep tree over exactly relations `0 .. levels_needed-1`, each once; it keeps every constraint of the partition and is priced by the evaluator. Bushy mode returns the single leaf or NULL. In left-deep mode the result is also the full entry of a final table in which every join result is solved (`TopOfTable`) |

## Left out

- `parallel_main.c` is not part of this model. It holds thread orchestration: it starts the workers and keeps the cheapest result, the first worker winning ties.
- `parallel_list.c` is not part of this model. It holds mutex-guarded wrappers of host list primitives.
- `parallel_eval` (`parallel_eval.c:36-79`) is the parameter `eval` of the model. It takes a global mutex, switches memory contexts and saves and restores host planner state, none of which the model can see.
- The host planner routines are abstract. `make_join_rel`, `have_relevant_joinclause` and `have_join_order_restriction` are the fields of `Host`. `generate_partitionwise_join_paths`, `generate_gather_paths` and `set_cheapest` only add paths to a relation the model does not look inside, so they are left out.
- The bushy split step `try_splits_b` is commented out in the source, so the bushy branch of the worker's loop does nothing and is modelled as such.
- The invalid-`p_type` branches that print an error: `PlanType` has only the two valid values.
- Allocation (`palloc`, memory contexts) and the global mutexes.
- `WorkerSpace.SortBySize`: `list_qsort` is not stable, while the model sorts by stable insertion. The worker's result depends only on the list being sorted by size and being a permutation, which both satisfy; the order among equal-size subsets may differ.
- `WorkerDP.Worker`: requires `levels_needed <= 30`, because `1 << levels_needed` is computed on a C `int`. Bushy mode also requires `n_workers <= 2^30`, because otherwise the shift in the loop condition of `part_constraints_b` overflows.
- `WorkerSpace.PartConstraints`: requires the shift in the loop condition to stay defined (`n_workers <= 2^30` or `levels_needed <= 61`). The condition computes `1 << i` before it tests `levels_needed`, so with 62 relations and more than 2^30 workers the final test at `i = 31` would already overflow.
- `WorkerSpace.PartConstraintsB`: requires `n_workers <= 2^30`.
- `ParallelTree.Tree2BitmapLeaf`: stated for relations below 31 only, where `1 << x` fits a C `int`.
- `ParallelEval.MergeClumpStep`: when one child yields no fragment and neither yields several, the source's `Assert` fails. The model returns `None` in that case and states nothing more.
- Costs are `real`, not `double`: the model has no rounding, infinity or NaN. Only the strict comparison in the update rule matters.
