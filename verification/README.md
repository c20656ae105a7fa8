# A model of grmpl's engine and store, with proofs

grmpl is a world kept as relations: facts with integer weights, committed edition by
edition, queried by plans whose answers are maintained from changes. This project models the
parts where a mistake would be hardest to see, and proves that they do what they are for.
The modules fall into four groups.

**The query engine** (`Multisets`, `Plans`, `Operators`, `Traces`, `Deltas`, `LinearLaws`,
`ReduceLaws`, `DeltaLaws`, `DeltaEngine`, `Positive`, `Fixpoints`, `Recursive`,
`StaleViews`). A plan has a meaning at each edition (`Plans.Eval`), an evaluator that
computes it with hash-map loops (`Operators`), and an incremental evaluator (`Deltas` as a
function, `DeltaEngine` as it runs). The main theorem is that the increment is exactly the
difference of the two meanings. `Recursive` is the maintained recursive view, which deletes
what a lost row may have supported and grows back; `StaleViews` runs it on the input where
that is not enough.

**The tree** (`Displacements`, `MarkLists`, `Measures`, `Trees`, `TreeEdits`, `TreeCuts`,
`TreeReads`, `TreeFloors`, `TreeSearches`, `Grafts`, `TreeDiffs`). A persistent B+ tree
whose nodes keep keys in a frame of their own and whose edges carry displacements. A tree is
read as a list of marks, rows with the separators between them, and every order invariant is
that this list is ordered. Each operation is proved to act on the rows as the plain sorted
map would, and to keep order, separator spans, uniform depth, occupancy and cached sizes.

**The store** (`GroupCommit`, `Granfilades`, `Logs`, `Arrangements`, `Stores`,
`CanopyTrees`, `CanopyEdits`, `Canopies`, `Routing`, `Dags`, `Histories`, `Lineages`). A
branch with its versions, raw log, secondary orderings and interest routing; the queue that
takes staged worlds to disk; the node store with its collector; the branch graph; and the
inverted history index. Each is an index or a protocol that must agree with something simple
on every run, and is proved to.

**The codec** (`Readers`, `Wire`, `Behaviors`, `BehaviorCursors`). Values and stored
behaviors on the wire, printed and parsed by mutual recursion to a bounded depth: as
functions on byte sequences, about which the round trips are proved, and as the cursor and
buffer code that computes them.

The code and its own words part in three places, and the model follows the code.

The recursive view is described as needing only a step linear in the recursion variable
(`crates/grmpl-diff/src/recursive.rs:41-43`). It can go stale when a relation that lost a
row is joined with itself: `StaleViews.StaleView` is such a run.
`Recursive.IncrementalFixpoint.Advance` says exactly when it does not: if and only if the
facts the overdeletion leaves are facts of the new fixpoint, which they are whenever no
relation that lost a row stands on both sides of a join.

A delta can fail to return where both full evaluations do. The condition,
`DeltaLaws.Answers`, is that the rows the per-group `reduce` looks at are long enough for
the projections above them, and `DeltaLaws.DeltaIsExact` has it both ways.

A group whose write reports an error is said never to have reached disk
(`crates/grmpl-ent/src/store.rs:1772-1773`). `GroupCommit.OnDiskIff` says which commits are
on disk, whatever their callers were told, and `GroupCommit.NoMayStillBeDurable` and
`GroupCommit.LandedMayBeToldNo` are the two ways to be told no and be there.

## Model

| member | source | states |
|---|---|---|
| Multisets.FromPairs | crates/grmpl-diff/src/multiset.rs:36-43 | the consolidated multiset of a stream of weighted rows: each tuple at the sum of its weights, no zero entries |
| Operators.PushRows | crates/grmpl-diff/src/query.rs:489-510 | `map` and `project`: every row pushed through, weights of equal results summed |
| Operators.BucketRows | crates/grmpl-diff/src/query.rs:338-351 | bucketing rows by key: each row in exactly one bucket, once, and no bucket empty |
| Operators.JoinMultisets | crates/grmpl-diff/src/query.rs:300-315 | index-and-probe equals the bilinear join: the weight of `x ++ y` is the product of the weights, summed over the pairs whose keys agree |
| Operators.FoldAgg | crates/grmpl-diff/src/query.rs:354-374 | one pass over a group's members gives the count, the 64-bit wrapped sum, the least or the greatest cell, whatever order they are met in |
| Operators.ReduceSnapshot | crates/grmpl-diff/src/query.rs:338-351 | one weight-1 row per non-empty group: its key, then the aggregate of the rows present in it |
| Operators.InheritRows | crates/grmpl-diff/src/query.rs:607-633 | each row extended with the value of the most specific scope covering its entity, and dropped when none does |
| Operators.BestScope | crates/grmpl-diff/src/query.rs:607-633 | one pass over the scopes finds the most specific covering one, and answers none only when none covers |
| Operators.EvalInner | crates/grmpl-diff/src/query.rs:464-597 | the evaluator returns whenever the plan has a meaning, and returns that meaning, for every operator |
| Operators.Settle | crates/grmpl-diff/src/query.rs:530-553 | the loop of `iterate` stops at a round that repeats, and its answer does not depend on when it noticed |
| Plans.SettledForever | crates/grmpl-diff/src/query.rs:538-553 | a recursion that repeats one round has the same value at every later round |
| Traces.ScanIsDifference | crates/grmpl-core/src/store.rs:52-56 | the raw updates of an interval sum to the difference of the states at its ends |
| LinearLaws.JoinDifference | crates/grmpl-diff/src/query.rs:1041-1064 | the three-term join rule `dA * B_to + A_to * dB - dA * dB` is the difference of the two joins |
| DeltaLaws.MatchingRight | crates/grmpl-diff/src/query.rs:792-810 | probing a base relation only by the delta's keys loses no row that joins |
| DeltaLaws.JoinTerms | crates/grmpl-diff/src/query.rs:1041-1064 | the three terms with their empty-delta and keyed-probe shortcuts are the three full products |
| DeltaLaws.JoinDeltaCorrect | crates/grmpl-diff/src/query.rs:1041-1064 | the join's delta, shortcuts included, is the difference of the join's meanings at the two ends |
| DeltaLaws.CrossingsCorrect | crates/grmpl-diff/src/query.rs:1073-1116 | the compare-based delta of a `distinct` over a base relation: exactly the rows whose weight crosses zero, signed |
| DeltaLaws.InheritRestricted | crates/grmpl-diff/src/query.rs:1169-1185 | reading only the scopes that contain one of the input's entities changes nothing an `inherit` gives |
| DeltaLaws.QuietMeansUnchanged | crates/grmpl-diff/src/query.rs:982-988 | a plan none of whose relations was touched means the same at both ends |
| DeltaLaws.EvalDependsOnly | crates/grmpl-diff/src/query.rs:185-216 | a plan's meaning depends only on the base relations collected from it |
| ReduceLaws.RowsMeaning | crates/grmpl-diff/src/query.rs:816-876 | a stack of filters and projections over a base relation means that relation with each row replaced by its image |
| ReduceLaws.OnlyChangedGroups | crates/grmpl-diff/src/query.rs:909-967 | two inputs that differ only within some groups: folding just those groups at both ends gives the whole change |
| ReduceLaws.LookupFindsMembers | crates/grmpl-diff/src/query.rs:909-967 | one keyed lookup on the source column of the leading key finds every row whose image falls in a changed group |
| ReduceLaws.PuttingBack | crates/grmpl-diff/src/query.rs:909-967 | the members at `from` are the members at `to` with the changed weights put back |
| ReduceLaws.ReduceByKeyCorrect | crates/grmpl-diff/src/query.rs:909-967 | the per-group delta returns if and only if the rows it looks at are long enough for the projections above them, and then it is the full recompute at both ends, for every aggregate |
| ReduceLaws.StackedRowsLongEnough | crates/grmpl-diff/src/query.rs:830-846 | no row is too short when no projection names a column the one beneath it removed |
| DeltaLaws.DeltaIsExact | crates/grmpl-diff/src/query.rs:995-1195 | for every plan with a meaning at both editions: the incremental delta returns if and only if no per-group `reduce` meets a row too short, and then it equals snapshot(to) minus snapshot(from) |
| DeltaLaws.DeltaIsDifference | crates/grmpl-diff/src/query.rs:995-1195 | a plan whose projections fit always has its delta, and it is the difference of the snapshots |
| DeltaLaws.UnstackedReduceHasNoDelta | crates/grmpl-diff/src/query.rs:830-846 | a plan and a store where both snapshots exist and the delta does not: rows that cancel under one projection are shown to the next one by one |
| DeltaLaws.CommitsAgree | crates/grmpl-core/src/store.rs:28-34 | a store that only gains updates after an edition reads the same through it |
| DeltaLaws.MeaningStands | crates/grmpl-core/src/store.rs:52-56 | an edition's answer does not change as the store moves on |
| DeltaEngine.ReduceDelta | crates/grmpl-diff/src/query.rs:909-967 | the per-group loops compute the delta the algebra is about, including when they give up |
| DeltaEngine.RunDelta | crates/grmpl-diff/src/query.rs:995-1195 | the incremental evaluator computes the delta the exactness theorem is about |
| DeltaEngine.ToSortedVec | crates/grmpl-diff/src/multiset.rs:47-51 | the sorted view: strictly ascending tuples whose weights add up to the multiset |
| DeltaEngine.DeltaStream.Poll | crates/grmpl-diff/src/watch.rs:36-49 | the first batch is the answer at the starting edition, each later one the change since; what was delivered always adds up to the answer at the cursor, whenever the delta asked for answers |
| DeltaEngine.Follow | crates/grmpl-diff/src/watch.rs:36-49 | over any run of polls against a growing store whose deltas answer, the batches add up to the query's answer at the last cursor |
| Positive.EvalPositive | crates/grmpl-diff/src/query.rs:464-597 | on non-negative inputs a positive plan returns exactly when its rows are long enough, and returns its meaning on sets |
| Positive.SetEvalMonotone | crates/grmpl-diff/src/recursive.rs:41-46 | positive plans are monotone in the recursion variable and in every base relation |
| Positive.StepDistributes | crates/grmpl-diff/src/recursive.rs:41-46 | a step linear in the recursion variable distributes over unions of it |
| Fixpoints.IterateIsLeast | crates/grmpl-diff/src/query.rs:538-553 | the value of `iterate(init, step)` is a set and the least fixpoint of the two plans |
| Fixpoints.IterateReturnsIff | crates/grmpl-diff/src/query.rs:538-553 | the loop of a positive recursion stops, with rows, exactly when some finite set of facts is closed under the plans and its rows are long enough for them |
| Fixpoints.SurvivorsInside | crates/grmpl-diff/src/recursive.rs:204-261 | when no relation that lost a row is joined with itself, what an overdeletion leaves lies inside every set closed under the new plans, even when facts support each other in a cycle |
| Fixpoints.GrowthInside | crates/grmpl-diff/src/recursive.rs:164-196 | when no base row is lost the old fixpoint is inside the new one |
| Fixpoints.GrownIsLeast | crates/grmpl-diff/src/recursive.rs:267-291 | the least closed set over a start is the fixpoint if and only if the start lies inside the fixpoint |
| Fixpoints.OverdeletionCovers | crates/grmpl-diff/src/recursive.rs:204-261 | what has to go, with what it supports, covers every fact whose last derivation rests on a lost row |
| Fixpoints.LeastCover | crates/grmpl-diff/src/recursive.rs:204-261 | a set that covers the loss, every fact of which has to go, is the whole overdeletion: the least cover |
| Fixpoints.NothingLostNothingGoes | crates/grmpl-diff/src/recursive.rs:164-196 | when no base row is lost nothing is overdeleted, self-joins or not |
| Fixpoints.SelfJoinHidesALoss | crates/grmpl-diff/src/recursive.rs:204-261 | a relation joined with itself that loses a row: the overdeletion is empty while the new fixpoint has lost the old one's only fact |
| StaleViews.StaleView | crates/grmpl-diff/src/recursive.rs:178-261 | that input run through the view: it ends holding the stale fact at an edition where the full recursion holds nothing |
| Recursive.IncrementalFixpoint.constructor | crates/grmpl-diff/src/recursive.rs:140-156 | the view starts as the full evaluation at its edition |
| Recursive.IncrementalFixpoint.IsMonotone | crates/grmpl-diff/src/recursive.rs:164-175 | true exactly when no present row of a base relation is lost between the editions |
| Recursive.IncrementalFixpoint.Overdelete | crates/grmpl-diff/src/recursive.rs:204-261 | terminates, and what survives is the old fixpoint without exactly the least set that must go, for every positive plan |
| Recursive.IncrementalFixpoint.SeedOverdeletion | crates/grmpl-diff/src/recursive.rs:204-261 | every fact with a derivation resting on a lost row is in the seed, and nothing that need not go |
| Recursive.IncrementalFixpoint.GrowFrom | crates/grmpl-diff/src/recursive.rs:267-291 | semi-naive regrowth from any start ends with the least set over it closed under the new plans |
| Recursive.IncrementalFixpoint.SurvivorsAreInside | crates/grmpl-diff/src/recursive.rs:204-261 | the survivors lie inside the new fixpoint whenever no relation that lost a row stands on both sides of a join |
| Recursive.IncrementalFixpoint.Advance | crates/grmpl-diff/src/recursive.rs:178-196 | the view becomes the least closed set over the survivors; it is what the full recursion gives at the new edition if and only if every survivor is, and always when no relation that lost a row stands on both sides of a join; the rows returned are new minus old, and the cheap path is taken exactly when nothing was lost |
| Recursive.SetDifferenceIsMinus | crates/grmpl-diff/src/recursive.rs:104-120 | the signed set difference of two sets is their multiset difference |
| Displacements.ShiftAdd | crates/grmpl-ent/src/dsp.rs:98-111 | displacements add |
| Displacements.ShiftOrder | crates/grmpl-ent/src/dsp.rs:98-111 | a displacement keeps order and equality of keys, both ways |
| Displacements.CmpMeans | crates/grmpl-ent/src/dsp.rs:116-131 | comparing cell by cell without building the moved key answers as comparing the moved key would |
| TreeEdits.FinishLeaf | crates/grmpl-ent/src/tree.rs:823-833 | a leaf's entries become one or two nodes within the occupancy bounds |
| TreeEdits.Finish | crates/grmpl-ent/src/tree.rs:836-847 | an internal node's children become one or two nodes within the occupancy bounds, rows unchanged |
| TreeEdits.Fuse | crates/grmpl-ent/src/tree.rs:1011-1043 | two neighbouring children merged or rebalanced: the run keeps its rows, its order and its height |
| TreeEdits.Fix | crates/grmpl-ent/src/tree.rs:994-1005 | one child below the floor repaired against a neighbour: every child at least half full again, rows unchanged |
| TreeEdits.InsertInto | crates/grmpl-ent/src/tree.rs:913-938 | insertion under a displaced node: the rows of the result are the map update, in one or two nodes of the same height |
| TreeEdits.Insert | crates/grmpl-ent/src/tree.rs:347-362 | insertion is exactly the map update read through the displacements, and keeps order, separator spans, uniform depth, occupancy and cached sizes |
| TreeEdits.Rem | crates/grmpl-ent/src/tree.rs:948-978 | removal under a displaced node: nothing exactly when the key is absent, otherwise the map removal with at most one node below the floor |
| TreeEdits.ShrinkRootKeeps | crates/grmpl-ent/src/tree.rs:983-991 | collapsing a lone child restores the root's shape and keeps the rows |
| TreeEdits.Remove | crates/grmpl-ent/src/tree.rs:410-417 | removal is exactly the map removal with every invariant kept; an absent key gives back the same tree |
| Trees.SizeIsRows | crates/grmpl-ent/src/tree.rs:764-786 | a cached size is the number of rows beneath |
| TreeCuts.SplitAt | crates/grmpl-ent/src/tree.rs:1059-1086 | both sides of a cut are trees with every invariant, holding the rows below the key and the rest |
| TreeCuts.Cut | crates/grmpl-ent/src/tree.rs:596-608 | split partitions the rows at the key, and a cut outside the span gives the tree itself |
| TreeCuts.JoinSame | crates/grmpl-ent/src/tree.rs:1089-1098 | two roots of one height fused as siblings: one or two nodes holding both in order |
| TreeCuts.JoinRight | crates/grmpl-ent/src/tree.rs:1101-1121 | a shorter tree hung off the right spine of a taller one keeps the invariants and concatenates the rows |
| TreeCuts.JoinLeft | crates/grmpl-ent/src/tree.rs:1124-1143 | a shorter tree hung off the left spine of a taller one keeps the invariants and concatenates the rows |
| TreeCuts.Join | crates/grmpl-ent/src/tree.rs:613-633 | the join of two trees of any heights whose keys do not interleave has every invariant and holds both in order |
| TreeCuts.ExtremeKey | crates/grmpl-ent/src/tree.rs:894-907 | the least or greatest key of a subtree in the caller's frame |
| TreeCuts.MeasureHeight | crates/grmpl-ent/src/tree.rs:869-880 | walking the leftmost spine gives the uniform height |
| Grafts.Normalized | crates/grmpl-ent/src/tree.rs:316-325 | the same rows with the root at displacement zero |
| Grafts.RelocateKeeps | crates/grmpl-ent/src/tree.rs:305-310 | moving a tree is one number: every invariant kept, every row moved |
| Grafts.Graft | crates/grmpl-ent/src/tree.rs:647-668 | refused exactly when the span holds something and its target is occupied; otherwise a valid tree holding the original rows and the moved copy of the span |
| Grafts.PutIsUpdate | crates/grmpl-ent/src/tree.rs:347-349 | insertion on the row list is the map update |
| Grafts.DropIsRemoval | crates/grmpl-ent/src/tree.rs:410-417 | removal on the row list is the map removal |
| Grafts.SplitPartitions | crates/grmpl-ent/src/tree.rs:596-608 | the two sides of a split divide the map |
| Grafts.JoinIsUnion | crates/grmpl-ent/src/tree.rs:613-633 | a join is the disjoint union of the maps |
| Grafts.GraftIsUnion | crates/grmpl-ent/src/tree.rs:647-668 | a graft is the original map plus, at free keys, the moved copy of the span |
| Grafts.Canonical | crates/grmpl-ent/src/tree.rs:575-582 | two trees with one map list the same rows, whatever their shapes and displacements |
| TreeReads.Get | crates/grmpl-ent/src/tree.rs:329-343 | lookup answers what the rows hold at the key |
| TreeReads.BoundsDecide | crates/grmpl-ent/src/tree.rs:1572-1581 | a subtree whose bounds are outside a span holds none of it, and one inside holds nothing else |
| TreeReads.Window | crates/grmpl-ent/src/tree.rs:1591-1603 | only the children whose spans can meet a range hold anything in it |
| TreeReads.CountRange | crates/grmpl-ent/src/tree.rs:496-501 | the range count, mostly read from cached sizes, is the number of rows in the range |
| TreeReads.AnyIn | crates/grmpl-ent/src/tree.rs:517-519 | true exactly when some row lies in the range |
| TreeFloors.LastLeIn | crates/grmpl-ent/src/tree.rs:1272-1289 | descending, and falling back to preceding siblings, finds the greatest row at or below the key |
| TreeFloors.LastLe | crates/grmpl-ent/src/tree.rs:526-528 | the greatest entry at or below the key, or none when every entry lies past it |
| TreeFloors.FloorIsUnique | crates/grmpl-ent/src/tree.rs:521-528 | sorted rows have at most one greatest entry at or below a key |
| TreeSearches.CachedIsFold | crates/grmpl-ent/src/tree.rs:764-786 | for any lawful measure, what a node caches is the fold of the rows beneath it, displacements included |
| TreeSearches.FoldRange | crates/grmpl-ent/src/tree.rs:1156-1202 | the walk's accumulator is combined with exactly the fold of the rows in the range |
| TreeSearches.MeasureRange | crates/grmpl-ent/src/tree.rs:422-427 | the range measure is the fold of the rows in the range |
| TreeSearches.Search | crates/grmpl-ent/src/tree.rs:442-491 | measure-pruned search returns exactly the kept rows, in key order |
| TreeSearches.ExtentAgrees | crates/grmpl-ent/src/measure.rs:201-203 | pruning a search on one column by the extent never hides a match |
| TreeDiffs.StepIsSound | crates/grmpl-ent/src/tree.rs:1359-1375 | a key is claimed absent from a side only when everything left there is greater, stale separators notwithstanding |
| TreeDiffs.OpenOnto | crates/grmpl-ent/src/tree.rs:1402-1421 | opening a node replaces it by its contents: the same rows left to visit, less work left |
| TreeDiffs.DiffTrees | crates/grmpl-ent/src/tree.rs:1291-1341 | terminates, and returns exactly the keys whose values differ, with both values, in strictly ascending order, whatever the shapes of the trees |
| TreeDiffs.CompareExact | crates/grmpl-ent/src/tree.rs:542-573 | the merge of two row lists reports exactly the differing keys, ascending |
| Measures.FoldConcat | crates/grmpl-ent/src/measure.rs:23-45 | a fold over concatenated rows combines the folds |
| Measures.FoldShift | crates/grmpl-ent/src/measure.rs:40-42 | displacing a fold is folding the displaced rows |
| Measures.ProductLawful | crates/grmpl-ent/src/measure.rs:76-113 | two lawful measures carried together are lawful |
| Measures.CountIsLength | crates/grmpl-ent/src/measure.rs:117-141 | the count measure is the number of rows |
| Measures.ExtentLawful | crates/grmpl-ent/src/measure.rs:241-303 | the extent is associative with an identity and commutes with displacement |
| Measures.ExtentDescribes | crates/grmpl-ent/src/measure.rs:172-197 | the bounds of each column hold every entity in it and are reached, and the counts are right |
| Measures.MeetsIsSound | crates/grmpl-ent/src/measure.rs:201-203 | a no is a proof that nothing beneath has an entity of that column in the range |
| Measures.SideOfIsSound | crates/grmpl-ent/src/measure.rs:319-329 | an answer is true of every key beneath; and where every row has an entity in the column, none is withheld unless both sides are inhabited |
| Measures.RunExtentIsFold | crates/grmpl-ent/src/measure.rs:211-232 | the constant-time extent of a run is the fold of its rows, strides of either sign included |
| GroupCommit.StepKeeps | crates/grmpl-ent/src/store.rs:1663-1785 | every step under the durability lock keeps the machine's invariant |
| GroupCommit.EveryRunKeeps | crates/grmpl-ent/src/store.rs:1663-1785 | every run keeps the invariant, whatever the interleaving of threads |
| GroupCommit.GroupsReachDiskInOrder | crates/grmpl-ent/src/store.rs:1663-1785 | queued numbers contiguous and in order; the root on disk is the world as of a prefix of the stages; durable never past disk, disk never past current; the 'neither pending nor durable' error never returned |
| GroupCommit.YesMeansDurable | crates/grmpl-ent/src/store.rs:1700-1785 | a commit told yes is on disk with every stage before it, then and after any further steps |
| GroupCommit.WaitersHaveALeader | crates/grmpl-ent/src/store.rs:1725-1785 | a thread whose turn does nothing waits for a leader that has a step to take |
| GroupCommit.NeverLost | crates/grmpl-ent/src/store.rs:1725-1785 | a stage neither landed nor failed is still queued, so a thread that must lead has something to lead |
| GroupCommit.OnDiskIff | crates/grmpl-ent/src/store.rs:1751-1781 | in every run, stage n is on disk if and only if some leader's batch whose last number reaches n got there, reported written or not |
| GroupCommit.NoMeans | crates/grmpl-ent/src/store.rs:432-438 | a commit told no: some group carrying its stage or a later one failed, and its edition is on disk if some batch reaching it got there |
| GroupCommit.DurableTells | crates/grmpl-ent/src/store.rs:1762-1768 | a branch marked durable at an edition has that edition, or a later one, on disk |
| GroupCommit.NoMayStillBeDurable | crates/grmpl-ent/src/store.rs:1770-1777 | a failed batch may have reached disk: a run in which a commit told no is there |
| GroupCommit.LandedMayBeToldNo | crates/grmpl-ent/src/store.rs:432-438 | the failure mark outlives its group: a run in which a commit whose own group landed cleanly is told no, because a later group failed before it woke |
| Granfilades.Granfilade.Build | crates/grmpl-ent/src/tree.rs:750-786 | a node built in memory gets a fresh id and a content key made of its payload and its children's keys; no other node changes |
| Granfilades.Granfilade.Collect | crates/grmpl-ent/src/granfilade.rs:1103-1195 | the frames collected, with those stored, are closed under references and hold the node; a keyed and present node is passed over |
| Granfilades.Granfilade.Stage | crates/grmpl-ent/src/store.rs:1651-1690 | staging queues the new frames and the root keys, and changes memory only by working out keys |
| Granfilades.Granfilade.WriteGroup | crates/grmpl-ent/src/granfilade.rs:541-560 | the group's frames and last root reach disk together; frames count as present only once durable |
| Granfilades.Granfilade.Stub | crates/grmpl-ent/src/granfilade.rs:758-775 | an unread node is remembered, so the collector keeps its frame |
| Granfilades.Granfilade.ReadNode | crates/grmpl-ent/src/granfilade.rs:628-641 | reading a frame gives one unread node per reference and disturbs nothing else |
| Granfilades.Granfilade.Load | crates/grmpl-ent/src/granfilade.rs:611-624 | a stored key loads to its node, reading one frame; a key not stored loads to nothing |
| Granfilades.Granfilade.PageIn | crates/grmpl-ent/src/granfilade.rs:969-985 | the first read of an unread node always finds its frame |
| Granfilades.Granfilade.Drop | crates/grmpl-ent/src/granfilade.rs:403-420 | dropping handles keeps every invariant of what remains |
| Granfilades.Mark | crates/grmpl-ent/src/granfilade.rs:846-861 | the mark loop terminates with exactly the frames the roots reach |
| Granfilades.Granfilade.Gc | crates/grmpl-ent/src/granfilade.rs:813-840 | removes exactly the frames reached neither from the root record nor from an unread node in memory |
| Granfilades.Granfilade.UnreadIsReadable | crates/grmpl-ent/src/granfilade.rs:758-775 | in every reachable state an unread node in memory can be read to the bottom |
| Granfilades.Granfilade.RootIsReadable | crates/grmpl-ent/src/granfilade.rs:541-560 | everything the root record reaches is stored |
| Granfilades.Granfilade.PresentIsReadable | crates/grmpl-ent/src/granfilade.rs:122-124 | every key marked present has its frame and all its descendants stored |
| Logs.TraceLaw | crates/grmpl-ent/src/store.rs:2107-2132 | for editions a <= b at or above the watermark the state at b is the state at a plus the raw log of (a, b], grafts read back from their own edition's root |
| Logs.WriteKeeps | crates/grmpl-ent/src/store.rs:1808-1831 | a write at the newest edition keeps that law |
| Logs.ConsolidationKeeps | crates/grmpl-ent/src/store.rs:2423-2451 | consolidation keeps that law above the new watermark and leaves the log there adding up as it did |
| Logs.ConsolidatedReads | crates/grmpl-ent/src/store.rs:2423-2451 | no state at or above the new watermark changes |
| Logs.AsOfKeeps | crates/grmpl-ent/src/store.rs:1495-1551 | a fork's roots obey that law of their own |
| Arrangements.RotateRoundTrip | crates/grmpl-ent/src/store.rs:330-355 | rotate and unrotate undo each other |
| Arrangements.RotateInjective | crates/grmpl-ent/src/store.rs:330-343 | rotation never confuses two tuples |
| Arrangements.SuccessorSpan | crates/grmpl-ent/src/store.rs:2611-2617 | between a value and its successor there is only the value |
| Arrangements.ArrangedRange | crates/grmpl-ent/src/store.rs:2178-2228 | a span of an ordering, turned back, is the relation filtered on the column |
| Stores.Refold | crates/grmpl-ent/src/store.rs:1808-1831 | one fact's new weight brings every ordering in step with the primary order |
| Stores.Store.Apply | crates/grmpl-ent/src/store.rs:1848-1861 | a patch adds its consolidated updates to each relation at the next edition and changes no earlier one; orderings and routing stay in step |
| Stores.Store.Commit | crates/grmpl-ent/src/store.rs:2056-2070 | an unconditional patch as the next edition |
| Stores.Store.CommitIf | crates/grmpl-ent/src/store.rs:2072-2093 | committed exactly when every precondition holds in the state it would apply to; otherwise nothing changes |
| Stores.Store.ReadAt | crates/grmpl-ent/src/store.rs:2095-2105 | the facts at an edition, refused below the watermark |
| Stores.Store.ScanUpdates | crates/grmpl-ent/src/store.rs:2107-2132 | the raw updates of an interval add up to the difference of the two states, in every reachable store |
| Stores.Store.Consolidate | crates/grmpl-ent/src/store.rs:2423-2451 | the watermark rises to the edition asked for, never past the present nor back; no read at or above it changes |
| Stores.Store.ForkAt | crates/grmpl-ent/src/store.rs:1495-1551 | a fork agrees with its parent on every edition up to the fork point and leaves it unchanged |
| Stores.Store.EnsureOrder | crates/grmpl-ent/src/store.rs:960-976 | an ordering built on demand is the current facts keyed by its column; nothing readable changes |
| Stores.Store.ReadRangeOn | crates/grmpl-ent/src/store.rs:2178-2228 | a range on any column, by whichever index, gives the rows a read and filter would |
| Stores.Store.Lookup | crates/grmpl-ent/src/store.rs:2243-2299 | a keyed lookup, by probes or by a filtered read, gives the rows whose column is one of the keys |
| Stores.Store.TouchedSince | crates/grmpl-ent/src/store.rs:2150-2165 | true exactly when something was logged in the interval, and always below the watermark |
| Stores.Store.TouchedRangeSince | crates/grmpl-ent/src/store.rs:2343-2382 | below the watermark yes, registering nothing; past it, if a row of the span changed in the interval the answer is yes, midway registration included, and a yes by routing names an edition that touched the span |
| Stores.Store.InstanceTemplate | crates/grmpl-ent/src/store.rs:1888-1940 | refused, with nothing changed, exactly when some block names an outside entity or meets an occupied target; otherwise each asked relation gains the moved copy of its block and nothing else changes |
| Stores.Store.ApplyGrafts | crates/grmpl-ent/src/store.rs:1866-1882 | new roots become the next edition, each logged as a span and routed whole |
| Stores.GraftExpands | crates/grmpl-ent/src/store.rs:1866-1882 | what a graft's log entry reads back is exactly the moved block |
| Stores.UntouchedAddsNothing | crates/grmpl-ent/src/store.rs:1837-1844 | a log entry that does not touch an interest changes no row it covers |
| CanopyTrees.ReachIsMonoid | crates/grmpl-ent/src/canopy.rs:88-108 | the canopy's summary has an identity and is associative |
| CanopyTrees.ReachOfSpans | crates/grmpl-ent/src/canopy.rs:88-108 | no interest beneath reaches past the summary or holds a flag it lacks |
| Canopies.OutOfReachMisses | crates/grmpl-ent/src/canopy.rs:300-325 | a subtree pruned on its summary holds no interest asked for |
| Canopies.RestMisses | crates/grmpl-ent/src/canopy.rs:326-345 | once a separator is past the point or span, no child from there on holds one |
| Canopies.Stab | crates/grmpl-ent/src/canopy.rs:300-350 | the pruned point walk appends exactly what a linear scan of the interests would, in the same order |
| Canopies.Overlap | crates/grmpl-ent/src/canopy.rs:260-294 | the pruned span walk appends exactly what a linear scan for spans that meet would, in the same order |
| CanopyEdits.InsertInto | crates/grmpl-ent/src/tree.rs:913-938 | insertion of an interest beneath a node: one or two nodes of the same height inside the same separators, holding the old interests and the new one |
| CanopyEdits.Insert | crates/grmpl-ent/src/tree.rs:347-362 | insertion adds exactly the interest, and keeps key order, separators, uniform depth, occupancy and every cached reach |
| CanopyEdits.Fuse | crates/grmpl-ent/src/tree.rs:1011-1043 | two neighbouring nodes merged or rebalanced: the interests in order, within the separators around the two |
| CanopyEdits.Mended | crates/grmpl-ent/src/tree.rs:994-1005 | a child below the floor repaired against a neighbour: a well-shaped node holding the same interests in order |
| CanopyEdits.RemoveFrom | crates/grmpl-ent/src/tree.rs:948-978 | removal beneath a node: none exactly when the key is absent, otherwise the same interests without it, at most one entry short |
| CanopyEdits.Remove | crates/grmpl-ent/src/tree.rs:410-417 | removal takes out exactly the interest with the key and keeps the same invariants; an absent key gives back the same tree |
| Canopies.Canopy.Register | crates/grmpl-ent/src/canopy.rs:172-174 | a fresh id, and one more interest that holds every flag |
| Canopies.Canopy.RegisterEndorsed | crates/grmpl-ent/src/canopy.rs:180-191 | a fresh id, and the tree holds one more interest; the others untouched |
| Canopies.Canopy.Unregister | crates/grmpl-ent/src/canopy.rs:195-204 | exactly the interests with another id remain, and an unknown id changes nothing |
| Canopies.Canopy.RouteEndorsed | crates/grmpl-ent/src/canopy.rs:232-244 | sorted and without repeats, exactly the interests that cover a changed row and hold every required flag, in every reachable canopy |
| Canopies.Canopy.RouteSpan | crates/grmpl-ent/src/canopy.rs:251-258 | sorted and without repeats, exactly the interests whose span meets the block |
| Routing.RouteUpdates | crates/grmpl-ent/src/store.rs:1837-1844 | the canopy's walk finds exactly the interests a patch touches in the branch |
| Routing.RouteGraft | crates/grmpl-ent/src/store.rs:1866-1882 | the canopy's walk finds exactly the interests a copied block's span overlaps in the branch |
| Dags.Dag.Fork | crates/grmpl-ent/src/dag.rs:104-110 | a fresh branch on an existing point, older ones untouched |
| Dags.Dag.Merge | crates/grmpl-ent/src/dag.rs:116-126 | a fresh branch with two parents, older ones untouched |
| Dags.Dag.Lineage | crates/grmpl-ent/src/dag.rs:151-174 | the worklist terminates and lists each branch that flows into the point once, with the greatest edition over all parent and merge paths; among forks, the chain to the root in order |
| Dags.Dag.IsAncestor | crates/grmpl-ent/src/dag.rs:182-189 | true exactly when some path back reaches the branch at that edition or later |
| Dags.AncestorReflexive | crates/grmpl-ent/src/dag.rs:176-189 | every point is its own ancestor |
| Dags.AncestorTransitive | crates/grmpl-ent/src/dag.rs:176-189 | ancestry is transitive, merges included |
| Dags.Dag.CommonAncestor | crates/grmpl-ent/src/dag.rs:211-223 | always found and an ancestor of both; among forks alone, every common ancestor is one of its own |
| Histories.History.IndexVersion | crates/grmpl-ent/src/history.rs:102-113 | after indexing, every node of the version was born on its lineage, and a root already visible adds nothing |
| Histories.History.Visit | crates/grmpl-ent/src/history.rs:115-137 | stopping at a node already born on the lineage leaves nothing beneath it unrecorded |
| Histories.History.IsVisible | crates/grmpl-ent/src/history.rs:141-143 | true exactly when the node was born on the lineage by then |
| Histories.History.Reach | crates/grmpl-ent/src/history.rs:172-184 | exactly the indexed versions whose tree holds the node, with the offset of each occurrence; memoized answers are used and change nothing |
| Histories.History.OffsetsIn | crates/grmpl-ent/src/history.rs:189-213 | exactly the offsets of the node in the target tree |
| Histories.ClimbIsExact | crates/grmpl-ent/src/history.rs:172-184 | climbing every recorded parent of a node finds exactly what holds it |
| Histories.History.HeldIsVisible | crates/grmpl-ent/src/history.rs:102-113 | every node of every indexed version was visible at that version |
| Lineages.GraphFlows | crates/grmpl-ent/src/dag.rs:176-189 | ancestry in a branch graph is a flow of history the index may be kept over |
| Lineages.LineageStands | crates/grmpl-ent/src/dag.rs:151-174 | a lineage walked in one graph says what flows into its point in every later graph |
| Lineages.IndexOn | crates/grmpl-ent/src/history.rs:102-113 | indexing with the lineage the branch graph gives |
| Wire.ValueRoundTrip | crates/grmpl-core/src/wire.rs:214-310 | a value within the depth limit, the length limits and the cell ranges is read back, leaving what follows |
| Wire.ReadValueFits | crates/grmpl-core/src/wire.rs:265-310 | whatever is read is within those limits |
| Wire.ValueSurvivesIffFits | crates/grmpl-core/src/wire.rs:214-310 | exactly the values within the limits survive being written and read |
| Wire.EncodeValue | crates/grmpl-core/src/wire.rs:214-255 | appending to the buffer gives the encoding the round trip is about |
| Wire.DecodeValueAt | crates/grmpl-core/src/wire.rs:265-310 | the cursor reads what the bytes from it stand for and never moves past the end |
| Wire.DecodeCells | crates/grmpl-core/src/wire.rs:199-208 | the counted loop of cells reads what the bytes stand for, and fails when one of them does |
| Behaviors.PredRoundTrip | crates/grmpl-lang/src/behavior.rs:323-358 | a guard within the limits is read back at its depth, leaving what follows |
| Behaviors.TermRoundTrip | crates/grmpl-lang/src/behavior.rs:610-650 | a value expression within the limits is read back at its depth, leaving what follows |
| Behaviors.BoolRoundTrip | crates/grmpl-lang/src/behavior.rs:652-705 | a boolean expression within the limits is read back at its depth, leaving what follows |
| Behaviors.OpRoundTrip | crates/grmpl-lang/src/behavior.rs:397-531 | an operation within the limits is read back, through every mutually recursive list it holds |
| Behaviors.BehaviorRoundTrip | crates/grmpl-lang/src/behavior.rs:299-321 | a stored behavior within the limits decodes back to itself |
| Behaviors.DecodedFits | crates/grmpl-lang/src/behavior.rs:308-321 | whatever decodes is within the limits |
| Behaviors.SurvivesIffFits | crates/grmpl-lang/src/behavior.rs:290-321 | exactly the behaviors within the limits survive |
| Behaviors.ReencodesTheSame | crates/grmpl-lang/src/behavior.rs:299-321 | bytes that decode can be written again and decode to the same behavior |
| Wire.ValueBytesSurviveIffPlain | crates/grmpl-core/src/wire.rs:265-310 | bytes that read as a value are what writing it gives back if and only if they are plain: every bool byte 0 or 1, no float with only its sign bit, and every cell plain |
| Behaviors.BytesSurviveIffPlain | crates/grmpl-lang/src/behavior.rs:299-321 | bytes that decode are what encoding gives back if and only if they are plain throughout, nested lists included |
| Behaviors.BytesNeedNotSurvive | crates/grmpl-core/src/wire.rs:265-310 | the bytes themselves need not come back: a flag byte of 2 reads as true and is written as 1 |
| BehaviorCursors.WriteOp | crates/grmpl-lang/src/behavior.rs:397-471 | pushing an operation onto the buffer appends its encoding |
| BehaviorCursors.WriteBehavior | crates/grmpl-lang/src/behavior.rs:299-306 | the buffer holds the encoding, and decodes to the behavior when it is within the limits |
| BehaviorCursors.ReadTerm | crates/grmpl-lang/src/behavior.rs:631-650 | the cursor reads the value expression the bytes stand for, or fails with it, never past the end |
| BehaviorCursors.ReadBool | crates/grmpl-lang/src/behavior.rs:681-705 | the cursor reads the boolean expression the bytes stand for, or fails with it, never past the end |
| BehaviorCursors.ReadOps | crates/grmpl-lang/src/behavior.rs:392-395 | the counted loop reads the list of operations the bytes stand for, or fails with it |
| BehaviorCursors.ReadOp | crates/grmpl-lang/src/behavior.rs:473-531 | the cursor reads the operation the bytes stand for, or fails with it, never past the end |
| BehaviorCursors.ReadBehavior | crates/grmpl-lang/src/behavior.rs:308-321 | the whole decoder computes the decoding, refuses trailing bytes, and gives only behaviors within the limits |

## Left out

- `Query::Materialized` and the stored views behind it: their maintainer lives in another crate, and is not part of this model.
- The memo cache behind `Shared`: a shared plan is evaluated where it stands, which gives the same rows.
- Kinds of value other than entities and integers are one kind in the engine and the tree, kept in order by rank; the codec has them all.
- Integer width: weights, editions, entity ids and displacements are unbounded, so nothing wraps. `Sum` wraps to 64 bits as the source does. A graft's refusal of ids that would wrap therefore never arises.
- Panics: a row too short for a column makes a meaning or a delta undefined, rather than a panic. Where one compare meets both a row too short for a projection and a row too short for the key, the source panics or recomputes by the order it meets them; the model counts both as not returning.
- Recursive.IncrementalFixpoint.Advance: asks for positive plans, non-negative weights and a step linear in the recursion variable, as the source does; and, where a relation that lost a row is joined with itself, that some finite closed set holds the survivors, without which regrowth need not stop.
- Leaf runs, holes and the k-d layout: a leaf is a sorted sequence of rows. Only the constant-time extent of a run is modelled.
- Sharing and cost: which nodes two trees share, and the logarithmic bounds, are not stated; only that an absent key, an empty span or an outside cut gives back the same tree.
- `range_collect` and the iterator's own stack: reading a tree from left to right is taken as its list of rows.
- A node's cached measure is a function of the node, rather than a field kept beside it; cached sizes are fields.
- TreeDiffs.DiffTrees: the test that two nodes are the same, by pointer or by content key, is a parameter that may answer no freely and yes only of equal nodes.
- The trees behind the store are plain maps in `Logs`, `Arrangements` and `Stores`; the tree modules are what justifies it. Order of the rows a read returns is not captured there, and a log insertion is an append.
- The patch log, `merge`, contexts, the catalog, schemas, relation shapes, the spanfilade of copies, comparisons and back-following across branches.
- Group commit keeps the steps taken under the durability lock; fsync, condition variables and the batch format are one atomic write that may fail before or after reaching disk.
- Granfilades.Granfilade.Gc: runs as one step, after whatever was staged has landed, as the source's locks arrange. Frame bytes and their hash are content terms that are equal exactly when the frames are. The offline `verify` pass is left out.
- The canopy is the same tree over other keys. `CanopyEdits` has its insertion and removal without displacements, which a canopy never makes; the walks and edits are written out for it rather than shared with the tree modules.
- Histories.History.IndexVersion: takes the flow of history as an abstract relation; `Lineages` supplies it from the branch graph. The cursor map and the indexing order over branches are left out.
- The dag's persisted form, and looking up a branch that was never made.
- Behavior guards as tests, selection, dispatch and running of behaviors; only the stored form is modelled.
- Schemas and messages on the wire; the memory reserved for a counted list, which is a bound and not a result.
