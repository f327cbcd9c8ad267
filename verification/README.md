# The cell-space engine of Palo, modelled and proved in Dafny

Palo is an in-memory OLAP server. Its core works on cells: keys with one element id per dimension. A query is a
region of cells; the planner partitions it by cell type, rules and caches; streaming operators evaluate the parts
in key order; paged copy-on-write containers hold the data underneath. Each of these parts is a clever
representation of something simple (a set of ids, a map from cell to value, a weighted sum), and what is proved here
is that the representation always denotes the simple thing.

| module | what it models |
|---|---|
| Ids, Streams, CellLists | keys and their order; sorted cell streams with a cursor |
| Ranges, IdSets, Areas, SubCubes, CubeAreas, AreaBlocks | id sets as sorted ranges, boxes, merging lists of boxes, box intersection and complement, lexicographic split, split into blocks of cells |
| TypeSplit, Planner, Plans | partition of an area by cell type, by the first matching rule and by cached regions; the shortcut for base cells; the base cells of an aggregation |
| WeightedRanges, WeightedSets | run-length weighted id sets and their algebra |
| TargetIndexes, Sweeps, AggregationMaps | the compressed base-to-targets index and the sweep line that builds it |
| Reals, Combinations, Operands, Arithmetics | left-biased k-way merge, leapfrog join, union walk, arithmetic on streams |
| PathIterators, Completes, FilteredReaders | mixed-radix cell iterator, default filling, filtering with missing cells |
| CellMaps, HashStorages, ResultStorages | capped result map, array storage, the choice between them |
| Aggregations, AggregationMT, AggregationResults | weighted aggregation, its multi-threaded form, and what both amount to in terms of parents and weights |
| SlimPages, SlimLayouts, SlimVectors, SlimMaps | paged vectors with copy-on-write, and the sorted map kept as two of them |
| Caches | recording and publishing of query results |
| PathTranslators | packing of cell keys into 64-bit bins |

The form follows the source. Objects whose methods change fields are classes with those fields, loops are loops
with invariants, the page of `SlimPage` and the result arrays of `HashValueStorage` are arrays. Each method is proved
against a specification on plain values, and the properties of the specifications are lemmas. Multi-threaded
aggregation and the publishing of caches are state machines, with theorems about every run. Doubles are `real`
numbers; ids are natural numbers up to 32 bits, and wrap-around is written out where it is reached.

## Where the code does not do what is expected of it

- **`splitbyTypes` passes over ids that have no element,** where `getType` raises an error.
  `TypeSplit.SplitAgreesWithType` says that both agree wherever `getType` gives a type, and that any other cell is in
  some box if and only if a shortcut takes it whole; `TypeSplit.LostExample` and `TypeSplit.KeptExample` show both cases.
  A plan then leaves out exactly the cells that the split loses: `Planner.EveryCellOnce`.
- **`isOverlapping` and `intersection` differ on a region with an empty dimension:** the former takes an empty set for
  no restriction, the latter finds nothing, and the carving loops of the planner would drop the whole area.
  `Planner.CarveArea` states that cells are kept if and only if the area is not `Swallowed`. No caller gets there: a
  rule's destination names an element or leaves the dimension open (`Planner.DestinationArea`), and caches record no
  empty box (`Caches.SharingStaysTrue`), as a split from the first cell emits none (`CubeAreas.Split`).
- **The value cache keeps areas per rule, but one value per cell for all rules.** A cell recorded under two rules reads
  under both what was stored last: `Caches.ClashExample`. `Caches.RunTrueExactly` says that all caches are true over a
  whole run if and only if none ever has two rules recorded for a cell on which they differ; `Caches.InsertsTrue` and
  `Caches.PublishedTrue` say so for single steps. It cannot happen while all recording queries share rules, start and the
  use of direct rules (`Planner.OwnedOnce`, `Planner.SharedCachesPlan`); the query of a rule's CONTINUE leaves direct rules
  out, uses the caches all the same, and then records under another id a cell that the rule is recorded for:
  `Planner.ContinueOwnsTwice`.
- **A recording stream that is moved to the begin of its area counts this as its first `next`,** also if it has been
  moved elsewhere before, and then passes the cell it stands at: `Caches.CacheWriteProcessor.Move` states for which
  moves only smaller keys are passed, `Caches.CacheWriteProcessor.MoveBackExample` shows one that ends the stream early.
- **`split` by cell count gives one cell more than the count,** since the stop is included: `AreaBlocks.SplitCells`.
- **`subtract` undoes `add` only without zero weights.** `WeightedSets.SubtractUndoesAdd` gives the exact condition,
  `WeightedSets.VanishedExample` an input.
- **`SlimVector::erase` can leave an empty page** on pages of less than four elements, since a single element is then
  not "almost empty": `SlimLayouts.EmptyPagesExactly`. The map is modelled for pages of at least four elements.
- **Packing fails for the two greatest 32-bit ids.** The sum "greatest id + 2" wraps, so that the dimension gets no bit
  or one bit; `PathTranslators.PackableExactly` says that packing can be undone exactly for all other greatest ids.
- **`Set::limit` with start behind end** enters a reversed range with a wrapped size if some range reaches over both
  bounds, and returns the empty set otherwise; `IdSets.Limit` states this for all bounds, `IdSets.ReversedExample` gives
  some. Its one caller passes them in order.
- **`CellArrayMap::setLimit` on a map in use** neither drops anything nor forgets the last key of an earlier limit, so
  that keys behind it are refused even where a greater limit has room: `CellMaps.CellArrayMap.SetLimit` and `Apply`,
  with an input in `CellMaps.RaisedLimitExample`.
- **`nextAll` over constants only** succeeds every time, at no key: `Arithmetics.Arithmetic.NextAll`.
- **The flags of `CombinationProcessor` are never cleared,** as the clearing loop runs over an empty range;
  `Combinations.FlaggedIsEqual` and `Combinations.AdvanceFlags` show why this is harmless.

## Model

| member | source | states |
|---|---|---|
| `Ids.CompareKeys` | Library/Engine/Streams.h:57-73 | -1, 0 or 1 as the first key is below, equal to or above the second in lexicographic order; an error exactly if they differ in length |
| `Ids.CompareIds` | Library/Engine/Streams.cpp:36-55 | the place of the first dimension in which the keys differ, counted from 1 and signed; the empty key is below all others; an error exactly for two non-empty keys of different lengths |
| `Ids.DecidedSign` | Library/Engine/Streams.cpp:36-55 | the sign of the deciding place is the lexicographic order of the keys |
| `Ids.LexTotal` | Library/Engine/Streams.h:57-73 | the key order is total: of two keys exactly one of less, equal and greater holds |
| `Streams.RankOrder` | Library/Engine/Streams.h:57-73 | comparing keys is comparing their places among all keys of their length, so the order can be counted with |
| `Streams.Stream.Next` | Library/Engine/Streams.h:46 | what every operator relies on: one cell further and whether there is one; behind the end it stays there |
| `Streams.Stream.Move` | Library/Engine/Streams.cpp:57-78 | goes forward to the first cell at or behind the key, skips only smaller ones, stays if already there, and reports an exact hit |
| `IdSets.IdSet.Insert` | Library/Engine/Area.cpp:304-376 | exactly the id is added, ranges stay sorted, disjoint and non-adjacent, the cached size stays the number of ids, and the result says whether the id was new |
| `IdSets.IdSet.Erase` | Library/Engine/Area.cpp:424-452 | exactly the id is removed, by shrinking or splitting its range; the canonical form and the size are kept |
| `IdSets.Find` | Library/Engine/Area.cpp:388-402 | finds a position if and only if the id is in the set, and the position is on the id inside its range |
| `IdSets.LowerBound` | Library/Engine/Area.cpp:404-422 | the position of the least id of the set that is not below the given one, or the end if and only if all ids are smaller |
| `IdSets.Limit` | Library/Engine/Area.cpp:686-705 | for all bounds the result holds exactly the ids of the set between them; it is a valid set with the right size unless the bounds are reversed and a range reaches over both, when it is that one reversed range with a wrapped size |
| `IdSets.ReversedExample` | Library/Engine/Area.cpp:686-705 | limiting the ids 1 to 5 from 4 to 2 gives the range from 4 to 2 with a size of 2^32 - 1 |
| `IdSets.Intersect` | Library/Engine/Area.cpp:586-684 | the sweep returns exactly the common ids and exactly the remaining ids as valid sets, and tells whether there is a common id, for every combination of wanted results |
| `IdSets.Splice` | Library/Engine/Area.cpp:304-376 | replacing the ranges next to a fresh id by the grown range adds this id only, one to the count, and leaves no touching ranges |
| `IdSets.EraseOne` | Library/Engine/Area.cpp:424-452 | removing one id from its range removes this id only, one from the count, and keeps the gaps |
| `Ranges.CountIsCardinality` | Library/Engine/Area.cpp:454-466 | the size added up range by range is the cardinality of the set of ids denoted |
| `Ranges.CanonicalUnique` | Library/Engine/Area.cpp:511-514 | comparing range lists is comparing sets: canonical lists with the same ids are equal |
| `Areas.AreaUnique` | Library/Engine/Area.cpp:1550-1553 | areas with the same cells are equal, dimension by dimension |
| `SubCubes.SubCubeList.InsertAndMerge` | Library/Olap/SubCubeList.cpp:49-74 | the cells of the list grow by exactly those of the area, and disjoint boxes stay disjoint; afterwards the first box cannot be joined with any other, and no two boxes can if none could before |
| `SubCubes.RanksClose` | Library/Olap/SubCubeList.cpp:54-59 | boxes that can be joined differ by at most 1 in rank, so that comparing ranks first loses no join |
| `SubCubes.JoinSubCubes` | Library/Olap/SubCubeList.cpp:76-116 | joins if and only if the boxes differ in at most one dimension; then the joined box holds exactly the cells of both |
| `SubCubes.GetRank` | Library/Olap/SubCubeList.cpp:137-146 | the number of dimensions holding more than one element |
| `SubCubes.MergeFront` | Library/Olap/SubCubeList.cpp:54-74 | replacing two boxes of the list by a box of exactly their cells changes neither the cells nor disjointness |
| `CubeAreas.IsOverlapping` | Library/Engine/Area.cpp:1364-1401 | true exactly if every dimension has a common id, no restriction, or an empty restricting set |
| `CubeAreas.MeetsEverywhere` | Library/Engine/Area.cpp:1364-1401 | every dimension has a common id if and only if some cell lies in both regions |
| `CubeAreas.Intersection` | Library/Engine/Area.cpp:1501-1538 | one box with exactly the common cells, and complement boxes added to the list that hold exactly the other cells of the area, no cell twice; nothing is touched when no cell is common |
| `CubeAreas.CollectComplement` | Library/Engine/Area.cpp:1515-1536 | one box per dimension with something left over: together exactly the cells outside the restriction, pairwise disjoint |
| `CubeAreas.CutCells` | Library/Engine/Area.cpp:1101-1158 | head, middle and tail slice of one recursion level cover exactly the interval, and no cell lies in two of them |
| `CubeAreas.Split` | Library/Engine/Area.cpp:1101-1158 | pairwise disjoint boxes that hold exactly the area's cells from start to stop, for any number of dimensions and gappy sets; from the area's first cell on, no box is empty |
| `CubeAreas.CellBounds` | Library/Engine/Area.cpp:1101-1158 | two cells of the area in order, or a cell and plus infinity, are bounds the recursion can rely on |
| `CubeAreas.SplitIsLexInterval` | Library/Engine/Area.cpp:1101-1158 | from the first dimension on, a cell lies in some box if and only if start <= cell <= stop in key order |
| `AreaBlocks.SplitCells` | Library/Engine/Area.cpp:1160-1182 | exactly the cells at the positions from begin to begin + cellCount, both included, so cellCount + 1 of them; all the rest of the area where there are not that many or the count is 0, and only then the flag is set |
| `AreaBlocks.SpaceCells` | Library/Engine/Area.cpp:1160-1182 | iterating over an area's sets meets exactly the cells of its boxes, so that positions and box membership speak of the same cells |
| `TypeSplit.GetType` | Library/Engine/Area.cpp:1757-1783 | a string element makes the cell a string if no unknown id comes before it; an unknown id is otherwise an error; then one consolidated element makes the cell consolidated, if the cube aggregates |
| `TypeSplit.TypeByFields` | Library/Engine/Area.cpp:1757-1783 | which type a cell has, in terms of the type and the string consolidation of its elements |
| `TypeSplit.SplitDimension` | Library/Engine/Area.cpp:1207-1258 | sorts the elements of one dimension into exactly the right sets by type; ids without an element are in none |
| `TypeSplit.CombineSets` | Library/Engine/Area.cpp:1261-1334 | the staircase of boxes: disjoint boxes with exactly the cells that have a first picked component, earlier ones from one column and later ones from another |
| `TypeSplit.StairsMeaning` | Library/Engine/Area.cpp:1261-1334 | the staircase holds exactly the cells that have a picked component with nothing foreign to both columns ahead of it |
| `TypeSplit.SplitByTypes` | Library/Engine/Area.cpp:1184-1345 | three lists of disjoint boxes for any area, unknown ids included, each holding exactly the cells of its kind, with the shortcuts that take areas whole |
| `TypeSplit.SplitAgreesWithType` | Library/Engine/Area.cpp:1184-1345 | wherever getType gives a type, the cell lies in a box of that type and of no other; a cell for which getType raises an error lies in a box if and only if a shortcut takes it whole |
| `TypeSplit.KindsExclusive` | Library/Engine/Area.cpp:1184-1345 | no cell goes to two of the lists, whatever shortcuts are taken |
| `TypeSplit.LostExample` | Library/Engine/Area.cpp:1220-1224 | an area with an unknown id beside a numeric and a consolidated element: the id's cell is in no box |
| `TypeSplit.KeptExample` | Library/Engine/Area.cpp:1220-1224 | the same id beside a numeric element only: its cell is in a numeric box |
| `Planner.CarveArea` | Library/Engine/Planner.cpp:134-155 | carving a region out of one area keeps every cell of it, split into the part inside and the rest, if and only if the area is not swallowed by a region with an empty dimension |
| `Planner.OverlapCases` | Library/Engine/Planner.cpp:134-155 | the overlap test says yes exactly if there is a common cell or the area is swallowed |
| `Planner.RulesAreas.InsertAndMerge` | Library/Engine/Planner.cpp:113-121 | exactly the area's cells join the list of the rule; no cell is in two lists |
| `Planner.StartRule` | Library/Engine/Planner.cpp:69-97 | a continued search starts behind the first rule with the id, and fails exactly if there is none |
| `Planner.DestinationArea` | Library/Parser/AreaNode.cpp:295-307 | a rule's destination restricts to one element each, never to none: it matches exactly the cells with the named elements |
| `Planner.ExtractRules` | Library/Engine/Planner.cpp:69-132 | a cell moves to a rule's list if and only if that rule is the first in list order that is active, has an option and a destination that match the search and the cell, said on the rules' own fields; all others stay |
| `Planner.TakenByFields` | Library/Engine/Planner.cpp:98-119 | which rule takes a cell, and whether into the list of marked rules, in terms of activity, option, destination and markers of the rules |
| `Planner.InactiveIsDeleted` | Library/Engine/Planner.cpp:98-102 | switching a rule off has the same effect on what every rule takes as deleting it |
| `Planner.ExtractCached` | Library/Engine/Planner.cpp:134-176 | exactly the cells recorded under the rule id move to the cached areas, and the result says whether there are any |
| `Planner.ExtractCachedRules` | Library/Engine/Planner.cpp:505-525 | for the areas of all rules: cells recorded in the value cache, then those recorded in the query cache, leave for the cached areas; all others stay with their rule |
| `Planner.PlanBySplitting` | Library/Engine/Planner.cpp:466-642 | where the area is split by type: the nodes hold exactly the cells selected by the cell type, each in a node of its rightful kind, and no cell in two nodes |
| `Plans.CreatePlan` | Library/Engine/Planner.cpp:418-642 | for every argument each cell that is due in some kind of node is in a node of that kind, and rule, cache and aggregation nodes hold nothing else; with empty cells or indirect rules asked for the nodes are exactly the due ones; sources over the whole area exactly if base cells alone are asked for, without rules and without empty cells |
| `Plans.DueUnderShortcut` | Library/Engine/Planner.cpp:466-469 | where the shortcut is taken nothing is due in an aggregation, rule or cache node |
| `Plans.ShortcutDeliversSame` | Library/Engine/Planner.cpp:466-473 | wherever the shortcut is taken, and strings and numbers are stored for cells of their type only, it delivers the same stored cells as the plan that splits the area |
| `Plans.RuledKind` | Library/Engine/Planner.cpp:98-119 | a cell is evaluated under the first active rule for its type that writes to it: from the value cache if that has it recorded under the rule, else from the query cache, else by the node of the rule in the group of the type; text is never cached |
| `Plans.UnruledKind` | Library/Engine/Planner.cpp:485-642 | a cell no such rule writes to comes from the source of its type, or is aggregated unless a cache has it recorded for plain aggregation |
| `Plans.ExpandAggregation` | Library/Engine/Planner.cpp:563-589 | the base area of an aggregation: each cell that an indirect rule hits goes to the first such rule, all others to the source |
| `Plans.EveryBaseCellOnce` | Library/Engine/Planner.cpp:563-589 | a base cell comes into the aggregate from the source or from one rule, never from both, from two rules or from none |
| `Planner.RightfulUnique` | Library/Engine/Planner.cpp:466-642 | no two kinds of node have a claim on the same cell |
| `Planner.RightfulExists` | Library/Engine/Planner.cpp:466-642 | every cell of the area that the split by type keeps is claimed by some kind of node |
| `Planner.EveryCellOnce` | Library/Engine/Planner.cpp:466-642 | a plan for all cell types: a cell is in exactly one node, of the kind the first matching rule, the caches and its type call for, if it is in the area and the split by type keeps it; and in none otherwise |
| `Planner.SharedCachesPlan` | Library/Engine/Cache.cpp:157-252 | where all recording queries share rules, start and the use of direct rules, and record cells of existing elements: after any run, planning over the shared cache and the query's own is within what the planner relies on, and every cell planned into a cache node reads from that cache what the node's rule gives |
| `Planner.OwnedOnce` | Library/Engine/Planner.cpp:466-642 | under the same rules, start and use of direct rules a cell of existing elements is computed under one id only, in whatever areas |
| `Planner.NodeOwns` | Library/Engine/Planner.cpp:554-603 | what an aggregation or rule node is read for is computed under the id that its node is recorded with |
| `Planner.ContinueOwnsTwice` | Library/Engine/Legacy/VirtualMachine.cpp:729-742 | a consolidated cell computed by a rule is aggregated under another id by the query of the rule's CONTINUE |
| `WeightedSets.WeightedSet.PushSorted` | Library/Engine/Area.cpp:1879-1903 | a range behind all others is appended, or merged into the last one if it continues it with equal weight |
| `WeightedSets.WeightedSet.FastAdd` | Library/Engine/Area.cpp:1905-1926 | adds to the weight of exactly one id, from 0 if it had none |
| `WeightedSets.WeightedSet.Consolidate` | Library/Engine/Area.cpp:1928-1962 | no id changes its weight, the size stays, and no two runs are left that could be joined |
| `WeightedSets.WeightedSet.Multiply` | Library/Engine/Area.cpp:1964-1978 | same ids, every weight times the factor |
| `WeightedSets.WeightedSet.Add` | Library/Engine/Area.cpp:1980-2011 | a new set in maximal runs with exactly the ids of both; per id its weight is the weight here plus factor times the weight there, a missing one counting as 0 |
| `WeightedSets.WeightedSet.Subtract` | Library/Engine/Area.cpp:2013-2047 | a new set in maximal runs where per id the result plus factor times the weight there is the weight here, a missing one counting as 0; missing are the ids of neither set, and those of both whose weight vanishes |
| `WeightedSets.CombinedWeights` | Library/Engine/Area.cpp:1980-2047 | sums and differences as equations between the weights, with the ids that are missing |
| `WeightedSets.SubtractUndoesAdd` | Library/Engine/Area.cpp:1980-2047 | subtracting what was added gives back the very same runs if and only if no id of both sets had weight 0 in the first one |
| `WeightedSets.VanishedExample` | Library/Engine/Area.cpp:1980-2047 | an id of weight 0 in one set, and in the other as well, is gone after adding and subtracting |
| `WeightedSets.MaximalUnique` | Library/Engine/Area.cpp:1928-1962 | maximal runs are determined by the weights of the single ids |
| `WeightedSets.CollectBases` | Library/Olap/Dimension.cpp:2434-2456 | after any run of fastAdd calls and consolidate each base element has the sum of its children's weighted contributions, in maximal runs |
| `WeightedSets.OneChildMore` | Library/Olap/Dimension.cpp:2440-2452 | a child that is a base itself brings in its weight in the parent, any other the weights of its base elements times that weight |
| `WeightedSets.FilterRange` | Library/Engine/Area.cpp:2108-2147 | the sweep of one filter over one range keeps exactly the common part and leaves the filter's position where the next range needs it |
| `WeightedSets.SplitByFilter` | Library/Engine/Area.cpp:2108-2147 | for every filter exactly the weights inside it and none outside, as sorted runs, and no set exactly where nothing is common |
| `AggregationMaps.AggregationMap.SetBasesByParent` | Library/Engine/AggregationMap.cpp:77-95 | enters or replaces one parent, no other one; all base ids stay inside the recorded bounds, the weights flag says whether some set entered so far had a weight other than 1, and a parent that is its own base is noted as its own target |
| `AggregationMaps.WithoutWeights` | Library/Engine/AggregationMap.cpp:78-82 | where no parent has weights every target of every base id has weight 1 |
| `TargetIndexes.AppendedReads` | Library/Engine/AggregationMap.cpp:101-184 | a stored sequence reads back as it was given, although weights of 1 may not have been written |
| `TargetIndexes.AppendedKeeps` | Library/Engine/AggregationMap.cpp:101-184 | storing a sequence, even one that fills in weights left out before, does not change what earlier ones read |
| `TargetIndexes.ConvertToVector` | Library/Engine/AggregationMap.cpp:148-168 | the dense vector maps every id the sorted list maps to the same sequence |
| `TargetIndexes.LocateAppended` | Library/Engine/AggregationMap.cpp:186-211 | a range appended to the sorted list is found for the ids from its begin on, and no earlier id is mapped differently |
| `AggregationMaps.AggregationMap.StoreDistributionSequence` | Library/Engine/AggregationMap.cpp:101-184 | the ids of the segment are mapped to the new sequence, all earlier ids as before; the index becomes a vector exactly when the list would take more bytes, and stays one |
| `AggregationMaps.StoredKeeps` | Library/Engine/AggregationMap.cpp:101-184 | the answers for earlier ids survive another sequence and the switch from list to vector |
| `AggregationMaps.StoredAnswers` | Library/Engine/AggregationMap.cpp:101-184 | the ids of a new segment are answered with the new sequence's targets |
| `Sweeps.Enqueue` | Library/Engine/AggregationMap.cpp:350-370 | a cursor joins the queue behind all with the same or a smaller begin; nothing else moves |
| `Sweeps.FindActive` | Library/Engine/AggregationMap.cpp:284-308 | exactly the cursors whose range has begun, the least and greatest end among them, the next begin, and target ids with weights that read as the cursors' current targets although weights of 1 are left out |
| `Sweeps.FindNextStart` | Library/Engine/AggregationMap.cpp:311-344 | the segment grows strictly, ends at the next begin at the latest, and inside it the targets are all or nothing with one weight each |
| `Sweeps.FindOtherWeight` | Library/Engine/AggregationMap.cpp:322-338 | the first range of a lone target, before the next begin, with another weight |
| `Sweeps.SegmentTargets` | Library/Engine/AggregationMap.cpp:229-382 | inside a segment every id has either no target or exactly the current targets of the active cursors |
| `Sweeps.RemoveFinished` | Library/Engine/AggregationMap.cpp:350-370 | finished cursors leave or go on; for ids behind the segment nothing changes |
| `AggregationMaps.CollectTuples` | Library/Engine/AggregationMap.cpp:251-261 | the cursors and the shared set of self targets together have, for every source id, exactly the targets the parents ask for |
| `AggregationMaps.TargetsAtOnce` | Library/Engine/AggregationMap.cpp:229-382 | in the multiset of wanted targets each one occurs exactly once if some parent takes it and not at all otherwise |
| `AggregationMaps.SegmentAnswered` | Library/Engine/AggregationMap.cpp:229-382 | what is stored for a segment answers every id of it with exactly its targets |
| `AggregationMaps.AggregationMap.BuildBaseToParentMap` | Library/Engine/AggregationMap.cpp:229-382 | the sweep terminates, and then every base id is answered with exactly the multiset of parents and weights whose sets contain it, itself included where it is its own base |
| `AggregationMaps.AggregationMap.CompactSourceToTarget` | Library/Engine/AggregationMap.cpp:535-556 | the map rebuilt from a list of targets per source answers each source, and the ids up to the next one, with the list of the source; the reserved id stands for the id asked for, and a list without it is answered as it is |
| `AggregationMaps.AggregationMap.GetTargets` | Library/Engine/AggregationMap.cpp:186-211 | the reader delivers exactly the targets the map answers with; it fails exactly for an id the vector has no entry for |
| `AggregationMaps.TargetReader.Next` | Library/Engine/AggregationMap.h:130-160 | one target further; target and weight read are those of the sequence at that place, the reserved id read as the source itself |
| `AggregationMaps.TargetReader.Reset` | Library/Engine/AggregationMap.h:130-160 | back to the first target |
| `AggregationMaps.ReaderDelivers` | Library/Engine/AggregationMap.cpp:186-211 | a sequence whose weights lie behind the end of the weight buffer reads as one with weights of 1 |
| `Combinations.FlaggedIsEqual` | Library/Engine/CombinationProcessor.cpp:103-155 | although flags are never cleared, at a delivered cell an input behind the index is flagged exactly if it stands at the same key |
| `Combinations.AdvanceFlags` | Library/Engine/CombinationProcessor.cpp:103-155 | advancing the inputs at the delivered key keeps the meaning of all flags left over |
| `Combinations.Combination.Leave` | Library/Engine/CombinationProcessor.cpp:103-130 | exactly the inputs standing at the delivered cell advance |
| `Combinations.Combination.Select` | Library/Engine/CombinationProcessor.cpp:131-155 | goes to the smallest cell of the inputs, the one of the first input that has it |
| `Combinations.Combination.Next` | Library/Engine/CombinationProcessor.cpp:103-155 | the next key of the union of all inputs, none skipped, with the value of the first input holding it; false exactly when the union has no more |
| `Combinations.Combination.ReadAll` | Library/Engine/CombinationProcessor.cpp:103-155 | the whole stream is strictly ascending, has exactly the keys of the union, and each value is that of the lowest-indexed input holding the key |
| `Combinations.Combination.FirstToHave` | Library/Engine/CombinationProcessor.cpp:103-155 | each delivered cell is a cell of some input, and no input before that has its key |
| `Arithmetics.Arithmetic.AlignAll` | Library/Engine/ArithmeticProcessors.cpp:98-125 | the realignment terminates at the least key all streams have, or finds that there is none |
| `Arithmetics.Arithmetic.NextAll` | Library/Engine/ArithmeticProcessors.cpp:75-125 | the least greater key all non-constant operands have, none skipped; false exactly when there is none; with constants only it succeeds every time, at no key |
| `Arithmetics.Arithmetic.MoveAll` | Library/Engine/ArithmeticProcessors.cpp:165-222 | the least common key at or behind the given one, and whether it was met exactly; with constants only it succeeds at no key |
| `Arithmetics.Arithmetic.NextAny` | Library/Engine/ArithmeticProcessors.cpp:127-163 | the next key of the union of all streams, with exactly the operands active that hold it |
| `Arithmetics.Arithmetic.MoveAny` | Library/Engine/ArithmeticProcessors.cpp:224-279 | the first key of the union at or behind the given one, its holders active, and whether it was met exactly |
| `Arithmetics.Arithmetic.ReadActive` | Library/Engine/ArithmeticProcessors.cpp:414-436 | the values of the active operands are exactly what the streams have at the key, missing elsewhere |
| `Arithmetics.Arithmetic.NextSum` | Library/Engine/ArithmeticProcessors.cpp:410-436 | pointwise sum over the union of keys, a missing operand counting as 0; a sum of 0 is the empty value; the first error is passed on, a text is an exception |
| `Arithmetics.Arithmetic.NextDifference` | Library/Engine/ArithmeticProcessors.cpp:466-496 | pointwise difference over the union of keys, a missing first operand counting as 0; a difference of 0 is the empty value |
| `Arithmetics.Arithmetic.NextProduct` | Library/Engine/ArithmeticProcessors.cpp:288-311 | product of all operands, constants included, at exactly the common keys; a product of 0 is the empty value |
| `Arithmetics.Arithmetic.NextQuotient` | Library/Engine/ArithmeticProcessors.cpp:338-372 | quotient of the operands at exactly the common keys; 0, that is the empty value, if a divisor is 0 |
| `Operands.AddValues` | Library/Engine/ArithmeticProcessors.cpp:414-436 | the sum of the values present, empty if it is 0; the first value that is no number decides: an error is passed on, a text is an exception |
| `Operands.SubtractValues` | Library/Engine/ArithmeticProcessors.cpp:470-496 | the first value minus all others, missing ones as 0, empty if the result is 0; the first value that is no number decides |
| `Operands.MultiplyValues` | Library/Engine/ArithmeticProcessors.cpp:288-311 | the product of all values, empty if it is 0; the first value that is no number decides |
| `Operands.DivideValues` | Library/Engine/ArithmeticProcessors.cpp:338-372 | the numerator over all divisors; a divisor of 0 makes the quotient 0; an empty operand makes it 0 and hides what follows; before that the first error is passed on, a text is an exception; a quotient of 0 is the empty value |
| `Operands.SumOfParts` | Library/Engine/ArithmeticProcessors.cpp:414-436 | the sum of a single operand is its number, and the sum over two lists of operands is the sum of both sums |
| `Operands.DifferenceAndSum` | Library/Engine/ArithmeticProcessors.cpp:470-496 | the difference plus the sum of all later operands is the number of the first, a missing one counting as 0 |
| `Operands.ProductOfParts` | Library/Engine/ArithmeticProcessors.cpp:288-311 | the product of a single operand is its number, and the product over two lists of operands is the product of both products |
| `Operands.QuotientAndProduct` | Library/Engine/ArithmeticProcessors.cpp:338-372 | the quotient times the product of the divisors is the numerator; with a divisor of 0 the quotient is 0 |
| `CellMaps.CellArrayMap.Apply` | Library/Collections/CellMap.h:252-291 | set and add under any limit and state: exactly one entry changes or comes in, the last one is dropped if a new one is too many, keys behind the last key remembered are not taken; as long as the limit has been kept the entries become the least maxCount ones, and the result says whether the map has grown |
| `CellMaps.CellArrayMap.ApplyAll` | Library/Collections/CellMap.h:252-291 | after any run of set and add the map holds the least maxCount entries of the unlimited map of the same run |
| `CellMaps.CappedIsLeast` | Library/Collections/CellMap.h:252-291 | dropping the greatest entry after each insertion is the same as limiting the unlimited map at the end, from any start |
| `CellMaps.CapPut` | Library/Collections/CellMap.h:252-291 | what was dropped before an operation cannot matter after it |
| `CellMaps.CapKeepsLeast` | Library/Collections/CellMap.h:252-291 | every kept key has its unlimited value; a dropped key is greater than all kept ones, and the map is full |
| `CellMaps.RunMeaning` | Library/Collections/CellMap.h:252-291 | the unlimited map is sorted and holds, for every key, what the key's own operations amount to |
| `CellMaps.CellArrayMap.SetLimit` | Library/Collections/CellMap.h:307-310 | the limit applies to later insertions, nothing stored is dropped; the map keeps to its limit exactly if what is stored fits and nothing was dropped under another limit |
| `CellMaps.RaisedLimitExample` | Library/Collections/CellMap.h:307-310 | after key 1 was the last one left under a limit of 1, key 2 is refused under a limit of 2 |
| `AggregationMT.StepKeeps` | Library/Engine/EngineCpuMT.cpp:135-262 | every step (beginning a source, reading a value, handing off a range's tail, merging under the lock) keeps every source value in exactly one worker's log, one unread range or one source not yet begun |
| `AggregationMT.RunInv` | Library/Engine/EngineCpuMT.cpp:135-262 | the invariant holds in every state of every run |
| `AggregationMT.MergeCapped` | Library/Engine/EngineCpuMT.cpp:135-170 | merging two limited maps gives the limited map of everything added to either |
| `AggregationMT.AddEntries` | Library/Engine/EngineCpuMT.cpp:135-170 | adding the entries of a map is adding what had been added to it |
| `AggregationMT.ParallelIsSequential` | Library/Engine/EngineCpuMT.cpp:135-262 | for several sources, every split, every order of steps and of finishing, maps or arrays, limited or not: the joined result is the map of a single reader |
| `AggregationMT.SequentialSums` | Library/Engine/EngineCpuMT.cpp:194-262 | that map is the least part of the sums of the added values per target cell |
| `AggregationResults.ParallelAggregates` | Library/Engine/EngineCpuMT.cpp:135-262 | any run of the parallel aggregation of the same cells delivers what the sequential one leaves in its map: the least cells up to the limit that take some source cell, each with its weighted sum; without a limit all of them |
| `PathIterators.PathIterator.Increment` | Library/Engine/Area.cpp:781-805 | one position further, the last dimension fastest; from the last cell to the end, which stays the end |
| `PathIterators.PathIterator.Plus` | Library/Engine/Area.cpp:853-878 | the iterator as many positions further, or the end |
| `PathIterators.PathIterator.Minus` | Library/Engine/Area.cpp:880-883 | the number of cells one iterator has passed in key order and the other has not: positive exactly if this one is ahead, 0 exactly if both stand at the same cell or at the end |
| `PathIterators.PathIterator.PassedCells` | Library/Engine/Area.cpp:908-921 | the position of an iterator is the number of cells of the area it has passed in key order |
| `PathIterators.PathIterator.Begin` | Library/Engine/Area.cpp:981-994 | the first cell, at position 0 |
| `PathIterators.PathIterator.End` | Library/Engine/Area.cpp:996-1000 | the position behind all cells is the size of the area |
| `PathIterators.PathOfPosition` | Library/Engine/Area.cpp:908-921 | the path at a path's position is that path |
| `PathIterators.PositionOfPath` | Library/Engine/Area.cpp:853-878 | and the position of the path at a position is that position: a bijection |
| `PathIterators.KeyAtOrder` | Library/Engine/Area.cpp:908-921 | greater positions are exactly the greater cells in key order |
| `PathIterators.FindPath` | Library/Engine/Area.cpp:1038-1065 | the iterator at the cell, or the end if and only if the area does not contain it |
| `Completes.Complete.Next` | Library/Engine/EngineCpu.cpp:175-213 | one more cell of the area in key order, with the source's value or the default; false exactly after the last cell, an error exactly if more defaults are due than can be counted |
| `Completes.Complete.SetRepetition` | Library/Engine/EngineCpu.cpp:254-284 | the default is repeated from behind one key up to the other, or to the end, and the count is that distance; an error and no repetition exactly if the counter cannot hold it |
| `Completes.Complete.NextRepetition` | Library/Engine/EngineCpu.h:56-61 | one repetition less, one cell further; false, and nothing changes, if there is none left |
| `Completes.Complete.ReadAll` | Library/Engine/EngineCpu.cpp:175-213 | the whole stream has every cell of the area exactly once in lexicographic order, with the source's value where present and the default elsewhere; only areas too large to be counted can fail |
| `Completes.PositionsAscend` | Library/Engine/EngineCpu.cpp:254-284 | sorted source cells have ascending positions, so no distance is negative |
| `HashStorages.CreateHashValueStorage` | Library/Engine/AggregationProcessor.cpp:36-71 | an empty array over the area, or the error exactly if the area is too large for the offsets |
| `HashStorages.HashValueStorage.OffsetFromPath` | Library/Engine/AggregationProcessor.cpp:73-88 | the mixed-radix offset is the cell's position in the area |
| `HashStorages.HashValueStorage.Apply` | Library/Engine/AggregationProcessor.cpp:145-161 | set and add change exactly the cell given and report whether it was new |
| `HashStorages.HashValueStorage.ApplyNext` | Library/Engine/AggregationProcessor.cpp:145-161 | one more operation: every cell holds what its own operations so far amount to |
| `HashStorages.HashValueStorage.ApplyAll` | Library/Engine/AggregationProcessor.cpp:145-161 | after any run of operations every cell holds what a map would hold: the outcome of its own operations |
| `HashStorages.Reader.Next` | Library/Engine/AggregationProcessor.cpp:175-191 | the next cell that has a value, in key order, none skipped |
| `ResultStorages.CreateStorage` | Library/Engine/AggregationProcessor.cpp:395-406 | an empty array for an area of less than 1000 cells, otherwise an empty map limited to one cell more than asked for |
| `ResultStorages.ResultStorage.Add` | Library/Engine/AggregationProcessor.cpp:357-363 | array or map, the storage then holds what all additions so far amount to, a limited map the least part of it |
| `Aggregations.Aggregator.InitParentKey` | Library/Engine/AggregationProcessor.cpp:437-481 | the first combination of targets, the dimensions with several targets, and the product of the fixed weights, memo or not |
| `Aggregations.Aggregator.LookUp` | Library/Engine/AggregationProcessor.cpp:443-462 | the remembered targets are those of the element, so the memo changes nothing |
| `Aggregations.Aggregator.NextParentKey` | Library/Engine/AggregationProcessor.cpp:483-500 | the next combination in the odometer's order, or the last one has been reached |
| `Aggregations.NextChoice` | Library/Engine/AggregationProcessor.cpp:483-500 | one digit up and all behind it back: exactly the next position in the cross product of the targets |
| `Aggregations.Aggregator.AggregateCell` | Library/Engine/AggregationProcessor.cpp:346-367 | every combination of targets is visited exactly once and gets the value times the product of its weights, in an array as in a map |
| `Aggregations.Aggregator.Aggregate` | Library/Engine/AggregationProcessor.cpp:395-435 | after any number of sources the storage holds what all additions of all their cells amount to, a limited map the least part of it |
| `Aggregations.CellsInTurn` | Library/Engine/AggregationProcessor.cpp:409-433 | the cells aggregated are those of every source, each source as it is, one after the other |
| `Aggregations.WeightSplits` | Library/Engine/AggregationProcessor.cpp:346-367 | the fixed weight times the weights of the other dimensions is the whole product |
| `Aggregations.AggregatedValue` | Library/Engine/AggregationProcessor.cpp:346-500 | a target cell exists if and only if some source value reaches it, and holds the sum over the source of value times product of weights |
| `AggregationResults.TargetTable` | Library/Engine/AggregationProcessor.cpp:443-462 | read from the compressed map of a dimension, the targets of an element are one per parent that takes it, with the parent's weight |
| `AggregationResults.ReachIsWeight` | Library/Engine/AggregationProcessor.cpp:346-367 | a source cell reaches a target cell once, with the product of the weights its parents take it with, if every dimension takes it, and not at all otherwise |
| `AggregationResults.AggregatedFromParents` | Library/Engine/AggregationProcessor.cpp:346-500 | over the tables of the parents, a target cell exists if and only if it takes some source cell, and holds the sum of value times product of weights over all it takes; a limited map holds the least of these cells |
| `AggregationResults.AggregateArea` | Library/Engine/AggregationProcessor.cpp:395-435 | the whole aggregation, storage chosen by the size of the area: an array, or a map without a limit, has for every cell of the area exactly the sum over all source cells it takes, or no value if it takes none; a map limited to maxCount has the least maxCount + 1 of the cells that take any, each with its sum |
| `AggregationResults.CapDelivers` | Library/Engine/AggregationProcessor.cpp:395-435 | limiting all sums leaves the least cells that take some source cell, each with its whole sum |
| `FilteredReaders.FilteredReader.Next` | Library/Engine/AggregationProcessor.cpp:264-299 | the next cell of the area whose value, null if missing, meets the condition; none skipped, false exactly when there is no more |
| `FilteredReaders.FilteredReader.NextOfArea` | Library/Engine/AggregationProcessor.cpp:266-289 | where null meets the condition the missing cells are delivered as well, in key order with those of the source |
| `FilteredReaders.FilteredReader.NextOfStream` | Library/Engine/AggregationProcessor.cpp:290-297 | where null does not meet it, only cells of the source can, and they are delivered in order |
| `FilteredReaders.FilteredReader.ReadAll` | Library/Engine/AggregationProcessor.cpp:264-299 | the whole stream is, in key order, exactly the area's cells whose value, empty where the source has none, meets the condition |
| `SlimPages.SlimPage.InsertBefore` | Library/Collections/SlimPage.h:188-197 | the value goes to the offset, the elements behind it move up, only on a checked-out page |
| `SlimPages.SlimPage.Erase` | Library/Collections/SlimPage.h:224-234 | exactly the element at the offset goes |
| `SlimPages.SlimPage.MoveValues` | Library/Collections/SlimPage.h:207-221 | the tail of one page is appended to the other and cut off |
| `SlimPages.SlimPage.GetCopy` | Library/Collections/SlimPage.h:200-204 | a new checked-out page with the same elements and memory of its own |
| `SlimPages.SlimPage.PushBack` | Library/Collections/SlimPage.h:170-176 | the value is appended |
| `SlimLayouts.FlatInserted` | Library/Collections/SlimVector.h:310-328 | page division or not, the elements as a whole get the value at the corresponding index |
| `SlimLayouts.FlatErased` | Library/Collections/SlimVector.h:214-240 | whatever is joined or dropped, the elements as a whole lose exactly the one erased |
| `SlimLayouts.SameInserted` | Library/Collections/SlimVector.h:310-328 | two vectors of the same page shape keep the same shape |
| `SlimLayouts.EmptyPagesExactly` | Library/Collections/SlimVector.h:214-240 | erasing never leaves an empty page if and only if pages have at least four elements |
| `SlimVectors.SlimVector.PushBack` | Library/Collections/SlimVector.h:243-260 | the value is appended, on a new page if the last is full; only new or checked-out pages are written |
| `SlimVectors.SlimVector.InsertBefore` | Library/Collections/SlimVector.h:310-328 | pages as the layout says, dividing a full one in the middle; only new or checked-out pages are written |
| `SlimVectors.SlimVector.Erase` | Library/Collections/SlimVector.h:214-240 | pages as the layout says, almost empty ones joined with a neighbour; only new or checked-out pages are written |
| `SlimVectors.SlimVector.JoinPages` | Library/Collections/SlimVector.h:338-349 | the second page's elements follow the first one's, and the second page goes |
| `SlimVectors.SlimVector.CheckOutPage` | Library/Collections/SlimVector.h:310-314 | a page that is not checked out is replaced by a copy; contents stay |
| `SlimVectors.SlimVector.Merge` | Library/Collections/SlimVector.h:393-410 | succeeds exactly if nobody else has made a version from the same one; then no page is checked out any more, and no contents change |
| `SlimVectors.ChangeCopy` | Library/Collections/SlimVector.h:413-418 | any run of changes to a copy of a checked-in vector has its full effect on the copy and none on what existed before |
| `SlimVectors.ChangeAndMerge` | Library/Collections/SlimVector.h:393-418 | copy, change and merge: every version in use keeps its contents and stays closed for writing, whether the merge succeeds or not |
| `SlimMaps.Find` | Library/Collections/SlimMap.h:289-331 | the recursive two-level search terminates at a valid place |
| `SlimMaps.FindMeaning` | Library/Collections/SlimMap.h:289-331 | the closest place is the lower bound of the key; without it the place of the key, or the end if and only if the key is absent |
| `SlimMaps.ErasedLockstep` | Library/Collections/SlimMap.h:256-263 | erasing the same place in both vectors removes exactly that key; keys stay ascending, shapes equal, and no page empty |
| `SlimMaps.InsertedLockstep` | Library/Collections/SlimMap.h:334-354 | inserting a new key at its lower bound adds exactly that key with its value; keys stay ascending, shapes equal |
| `SlimMaps.PushedLockstep` | Library/Collections/SlimMap.h:377-399 | appending a greater key adds exactly that key; keys stay ascending, shapes equal |
| `SlimMaps.SlimMap.FindPlace` | Library/Collections/SlimMap.h:266-273 | the lower bound, or the place of the key |
| `SlimMaps.SlimMap.At` | Library/Collections/SlimMap.h:217-229 | the value of the key; a missing key is inserted with the default, nothing else changes |
| `SlimMaps.SlimMap.Insert` | Library/Collections/SlimMap.h:334-354 | the map gets the new key with its value; neither of the two exceptions, for a place before the key's and for a key that is there already, is ever raised |
| `SlimMaps.SlimMap.InsertLast` | Library/Collections/SlimMap.h:377-399 | the map gets a key greater than all others |
| `SlimMaps.SlimMap.Erase` | Library/Collections/SlimMap.h:247-253 | the map loses exactly the key, if it is there |
| `Caches.CachedStream` | Library/Engine/Cache.cpp:62-84 | reading an area of cells recorded under a rule delivers exactly what the rule's source tells of it, in key order: recording and reading undo each other |
| `Caches.QueryCache.Insert` | Library/Engine/Cache.cpp:197-252 | the list of the rule gains exactly the cells of the areas, merged into it, the other rules keep theirs; the values are set over those of all rules; no area is empty and no value is of an unrecorded cell |
| `Caches.Publish` | Library/Engine/Cache.cpp:157-195 | the published cache has the cells of both caches under each rule, merged into valid areas, and the values of both |
| `Caches.SetAllLookup` | Library/Engine/Cache.cpp:242-252 | after setting, a cell has its new value if there is one and otherwise its old one, and the values stay sorted |
| `Caches.CacheWriteProcessor.Next` | Library/Engine/Cache.cpp:313-337 | hands on the input's cells unchanged and keeps exactly the values read; recording goes on exactly if the value is empty, or a number for which there is room below the barrier; at the end, and only then, the area is inserted |
| `Caches.CacheWriteProcessor.Move` | Library/Engine/Cache.cpp:366-383 | never backwards, at or behind the key if true, found exactly if at the key, and passing smaller keys only, except where a move to the begin, which counts as reading on, comes after a move elsewhere; any move but to the begin ends the recording and leaves the cache as it is |
| `Caches.CacheWriteProcessor.MoveBackExample` | Library/Engine/Cache.cpp:366-383 | moved to its second cell and back to the first, a stream of two cells is said to have ended |
| `Caches.CacheWriteProcessor.Reset` | Library/Engine/Cache.cpp:354-364 | starts at the begin of the input with an empty value map, or none if nothing may be kept; a processor that has recorded already stays one that does not record again |
| `Caches.CacheWriteProcessor.OnComplete` | Library/Engine/Cache.cpp:263-286 | inserts exactly the area if read to the end, exactly the cells up to the last key if read in part, with values that read as the source gives them and no others; nothing otherwise |
| `Caches.WholeArea` | Library/Engine/Cache.cpp:263-286 | a stream read to its end has told of every cell of the area whether it is empty and what it holds |
| `Caches.PartOfArea` | Library/Engine/Cache.cpp:263-286 | the boxes split off for a partial read hold exactly the cells up to the last key, and all of those have been told |
| `Caches.SharingStaysTrue` | Library/Engine/Cache.cpp:157-252 | in every interleaving of recording queries with both sections of publishing ones, lost updates included: if rules that may be recorded for the same cell agree on it, every recorded cell of every cache reads as its rule gives it |
| `Caches.RunTrueExactly` | Library/Engine/Cache.cpp:157-252 | for every run: all caches are true all the time if and only if none ever has two rules recorded for a cell on which they differ |
| `Caches.InsertsTrue` | Library/Engine/Cache.cpp:197-252 | inserting what was read under a rule keeps a cache true if and only if the rules recorded before agree with it on all common cells |
| `Caches.PublishedTrue` | Library/Engine/Cache.cpp:157-195 | publishing keeps the value cache true if and only if the query's rules agree with the snapshot's on all common cells |
| `Caches.ClashExample` | Library/Engine/Cache.cpp:242-252 | a cell recorded for aggregation with 1 and then under a rule with 2: read for aggregation it gives 2 |
| `Caches.QueryCache.GetFilteredValues` | Library/Engine/Cache.cpp:228-240 | exactly the kept values of the area's cells, in key order; of a single cell without one the default value, if there is one |
| `Caches.FilteredCellMapStream.Next` | Library/Engine/Cache.cpp:62-94 | the next cell of the input inside the area; exactly the cells outside are skipped |
| `Caches.FilteredCellMapStream.Test` | Library/Engine/Cache.cpp:62-94 | the remembered test of an unchanged id gives the same answer as a lookup |
| `PathTranslators.PathTranslator.constructor` | Library/Engine/Area.cpp:59-128 | positions, masks and bins of the greedy packing, from greatest ids or from given widths |
| `PathTranslators.PackBins` | Library/Engine/Area.cpp:86-101 | every dimension in order, each in the last bin as long as it fits |
| `PathTranslators.PathTranslator.PathToBinPath` | Library/Engine/Area.cpp:145-159 | shifting and or-ing yields the packed form, no bit set twice and none lost |
| `PathTranslators.PathTranslator.BinPathToPath` | Library/Engine/Area.cpp:161-175 | masking and shifting reads each dimension's bits from its bin |
| `PathTranslators.PathTranslator.DimIdToBinDim` | Library/Engine/Area.cpp:135-138 | the id at the dimension's position, cut to 64 bits |
| `PathTranslators.PathTranslator.BinDimToDimId` | Library/Engine/Area.cpp:140-143 | the dimension's bits of the bin, cut to 32 bits |
| `PathTranslators.RoundTrip` | Library/Engine/Area.cpp:145-175 | unpacking a packed path gives the path back, whenever its ids fit their widths |
| `PathTranslators.OrderKept` | Library/Engine/Area.cpp:145-159 | packed paths compare as the paths do, and are equal only if the paths are |
| `PathTranslators.NeverInvalid` | Library/Engine/Area.cpp:67-73 | no bin of a path within the greatest ids is all ones, the value that marks an unused entry |
| `PathTranslators.PackableExactly` | Library/Engine/Area.cpp:59-78 | every path within the greatest ids has a packed form that gives it back if and only if no greatest id is one of the two greatest 32-bit values |
| `PathTranslators.WidthFits` | Library/Engine/Area.cpp:67-73 | the two values kept free above the greatest id are there exactly as long as the 32-bit sum does not wrap |

## Left out

- Floating point: doubles are reals, so rounding and the bit pattern of special values are not modelled; the page fill test `<= 0.3` is `10 * filled <= 3 * size`.
- Plans.CreatePlan: remembered plans of single cells, saving of nodes, the inner plans of rule nodes, default values of nodes and the check for infinite recursion are left out; the base area of an aggregation is a parameter of Plans.ExpandAggregation.
- Planner.EveryCellOnce: a rule's destination has no empty set, as Planner.DestinationArea builds it; regions with an empty dimension are covered per area by Planner.CarveArea.
- CubeAreas.Split: bounds are those its callers pass, a stop id is not below the first id of its dimension; where the start is not the area's first cell, some of the boxes may be empty.
- AreaBlocks.SplitCells: the cell count is a natural number, which the source converts to a double.
- WeightedSets.WeightedSet.Consolidate: ranges are single ids on entry, as between fastAdd calls.
- TypeSplit.SplitByTypes: a dimension is the map of the elements that can be looked up; deleting an element takes its id out of that map (Library/Olap/Dimension.cpp:2224-2228), and editing dimensions is left out.
- AggregationMaps.AggregationMap.BuildBaseToParentMap: empty base sets are excluded, where the source reads behind their end; index width of 32 bits, `singleTarget`, `anyMultiMap`, merge lists, the GPU form, the one-to-one and all-to-one shortcuts and the iterator over sources are left out; the search for equal sequences is disabled in the source.
- Streams.Stream: streams are lists of cells with a cursor; the virtual functions of single operators other than those modelled, binary keys and `getDouble` are left out.
- Combinations.Combination.Next: the state after the end, and the creation of inputs from plan nodes, are left out.
- Arithmetics.Arithmetic.NextAny: every operand is a stream, since the source dereferences each of them; calls of any operation after it has returned false are left out.
- Completes.Complete.Next: a source, an area and a default value are given; without them the processor passes its source through. `reset` does not reset the source and is left out.
- PathIterators.FindPath: areas are products of sets; single-path areas, which no caller creates that way, are left out, as is `lowerBound` on areas.
- HashStorages.Reader.Next: `move`, `reset` and `offsetMoveToPath` of the reader are left out.
- Aggregations.Aggregator.Aggregate: targets come as a table per dimension, which AggregationResults.TargetTable reads from the compressed map; each element has at least one target; the byte-code storage that aggregates into an array by itself and the aggregation functions other than sum are left out.
- AggregationMT.ParallelIsSequential: modelled on values, one step at a time; when a range is handed off depends on heuristics in the source, so any hand-off is allowed, and sources may begin at any boundaries; an array is represented by its entries and no limit, as HashStorages.HashValueStorage.ApplyAll justifies; threads, locks and exceptions are left out.
- SlimMaps.SlimMap: keys are natural numbers with `<`; writing through the reference `at` returns bypasses copy-on-write and is not modelled; unsorted insertion of keys that are not greater than all others, with the `sort` it calls for, and `merge`, `clear`, iterators, full pages, load and save are left out.
- SlimVectors.SlimVector.Merge: whether a vector may be merged is decided from the version it was copied from and the latest one, given as parameters; the bookkeeping of `Commitable` is left out.
- Caches.SharingStaysTrue: what a rule, or plain aggregation, gives a cell is the same for every query that records it; so all of them use indirect rules, or none does.
- Caches.QueryCache.Insert: value maps are values, so that the sharing of one map between writer and cache is not captured; dependencies on other cubes, statistics and `clear` between the two sections of publishing are left out.
- PathTranslators.PathTranslator.constructor: bins of 64 bits, not the 32-bit build; `enlargeDimension` and shifts by the full width, which the language leaves undefined, are left out (given widths are below 64).
- FilteredReaders.FilteredReader.Next: the condition is any predicate on values; `reset` is left out.
- DisjunctiveCombinationProcessor, TransformationProcessor, LegacySource, DFilterProcessor, RoundCorrectProcessor, ConstantProcessor: no simple specification, or built on parts that are left out.
- StorageCpu: the byte-code storage is not part of this model; sources and stores are sorted lists of cells.
- Programs, HTTP interface, jobs, options, logging, file formats, string handling and the GPU build: they would only add easy members or foreign calls.
