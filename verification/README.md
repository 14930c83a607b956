# Verified model of ruleix

ruleix compiles stored rules into immutable posting sets over dense IDs and answers which stored rules match a query.
Much of it replaces a plain set definition by something fast: block indexes with aggregates and routing, a planner that
switches between bitmaps and ID checks, algebraic rewrites, lossy representations under a memory budget, and caches. This
project states what each of these must compute and proves it, in Dafny 4.11. Check it with `dafny verify dfyconfig.toml`.

Where the source updates objects in place, the model does: `OrderedIndex`, the ordered, `Between` and `CompareBy` rules,
the `All` executor over its ranked entries, the interner, the caches, the quantized equality, the build state, the adaptive
leaf, the block buffers and the memory controller are classes or methods over arrays. Values, pure functions and laws are
functions and lemmas.

- `Bitmaps` - posting sets, the bitmap object narrowed in place, iteration order.
- `OrderedItems`, `OrderedBlocks`, `OrderedIndexes` - the sorted item list as reference, blocks, and the index over them.
- `OrderedRounding`, `OrderedRebuild`, `OrderedBuffers` - outward rounding after merges, the merge of two neighbouring
  boundaries, and the recycled block arrays.
- `OrderedRules`, `CompareByRules`, `RuleObjects` - the four ordered rules, `Between` and the five-operator `CompareBy`, and
  these rules as leaves of a rule tree.
- `AllExecution`, `AllSearch` - the executor of `All` and its nested and root search.
- `EqualityLeaves`, `EqualityAntonyms`, `EqualityClasses` - equality leaves, the wildcard-complement rewrite, interning and classes.
- `LossyEquality`, `PostingGenerations`, `AdaptiveLeaves`, `AdaptiveEquality`, `AdaptiveOrdered` - reduced precision and its
  two kinds of leaves.
- `LossyTrees`, `LossySteps`, `LossyController` - trees of memory policies, the steps that their limits ask for, and the
  controller that takes them.
- `LocalCache`, `ResultCache` - node caches and remembered results of a search context.
- `Plans`, `RuleTrees` - dense IDs, simplification of `All`, exclusions; direct checks and estimates of a rule tree.
- `BuiltSearch`, `EntrySearch` - from a schema to the children that are searched, and from stored entries to results.
- `Powers`, `ScalarKeys` - order-preserving keys of integers and floating-point numbers (IEEE 754-2019, section 3.4).

The comparator is any total preorder, the checksum and the hash are arbitrary functions, and the serialized size of a
bitmap is an arbitrary function of its contents. Cost comparisons are arbitrary booleans, so contracts hold for all of
their outcomes; limits that depend on data (eight candidates, sixteen, 512) are kept.

Two results span the whole pipeline. `BuiltSearch.BuildAndSearch` discharges what the executor and the root search assume
about their children: the interner, the class compiler, the rewrite, the wildcard groups, the estimates and the direct
checks are composed as in a build. `EntrySearch.SearchEntries` starts from (constraint, external ID) entries: a search
appends the IDs for which, leaf by leaf, some entry with this ID matches and none forbids, once each and in the order of
first insertion. Leaves that have lost precision can only add IDs, and an exact index adds none.

The documentation says that a missing stored value of `Exclude` forbids nothing. The code keeps an `Exclude` that stores no
value at all inside the positive tree when no other exclusion stores one, and then finds nothing; `Plans.BuildMeaning` gives
the exact condition and `Plans.EmptyExclusionHidesEverything` a concrete schema.

## Model

| member | source | states |
|---|---|---|
| Bitmaps.AscendingListsBitmap | search_materialization.go:121-138 | iteration over a bitmap yields each of its IDs below the bound once, in strictly increasing order |
| Bitmaps.InAny | compare_by.go:300-308 | asking the visited bitmaps one after the other decides membership in their union |
| OrderedItems.CutAt | ordered_index.go:315-326 | a query cuts a sorted list: an item not above it forces every earlier item strictly below, for any total preorder |
| OrderedItems.SelectMember | ordered_index_lookup.go:31-76 | the reference scan contains an ID exactly when an item with this ID has a value below, not above, above or not below the query, one relation for each direction and strictness |
| OrderedItems.LookupAtRank | ordered_index_lookup.go:5-29 | the item at the rank of a query decides both the equal lookup and the ceiling lookup |
| OrderedBlocks.BlockForUnique | ordered_index.go:328-348 | at most one block satisfies the specification of block search |
| OrderedBlocks.LocatedScan | ordered_index_lookup.go:31-76 | a whole scan is the scan of the located block together with all blocks on one side of it |
| OrderedBlocks.AccountingReplace | ordered.go:152-186 | replacing blocks changes the accounting of the whole index by exactly the accounting of the replaced and the new blocks |
| OrderedBlocks.BlockCardsBound | ordered_index.go:82-100 | block cardinalities never undercount the union, are zero only for an empty one, and count it exactly if no ID is in two postings |
| OrderedIndexes.OrderedIndex.SearchedBlockFor | ordered_index.go:328-348 | binary search finds the first block whose last value reaches the query, or the last block |
| OrderedIndexes.OrderedIndex.RoutedBlockFor | ordered_index.go:350-375 | the routed search finds the same block for every in-range routing table, even one whose keys contradict the comparator |
| OrderedIndexes.OrderedIndex.BlockFor | ordered_index.go:328-375 | with or without a routing table the located block is the one of the comparator's binary search |
| OrderedIndexes.OrderedIndex.RoutingTable | ordered_index.go:118-160 | a table exists exactly if two blocks and the keys of the outermost values allow it; no slot key leaves 64 bits, and each slot leads to the first block that may reach its key, for arbitrary keys |
| OrderedIndexes.OrderedIndex.PrepareRouting | ordered_index.go:118-160 | such a table is published exactly under that condition, and the items stay as they are |
| OrderedIndexes.OrderedIndex.PrepareRangeSearch | ordered_index.go:102-116 | the eight-block aggregates are the unions of the blocks they cover |
| OrderedIndexes.OrderedIndex.RangeAggregates | ordered_index.go:102-116 | each aggregate covers eight blocks from a multiple of eight and holds their union |
| OrderedIndexes.OrderedIndex.PrepareSearch | ordered_index.go:82-160 | search preparation records the prefix sums of the block cardinalities and publishes a routing table where the keys support one, without changing the items |
| OrderedIndexes.OrderedIndex.Exact | ordered_index_lookup.go:5-15 | the posting of the value that compares equal to the query, if there is one |
| OrderedIndexes.OrderedIndex.Ceiling | ordered_index_lookup.go:19-29 | the posting of the smallest value not below the query, if there is one |
| OrderedIndexes.OrderedIndex.Walk | ordered_index_lookup.go:31-76 | the union of the visited bitmaps is the scan of all items: the IDs that some value <, <=, > or >= the query holds |
| OrderedIndexes.OrderedIndex.WalkBlock | ordered_index_lookup.go:36-74 | one aggregate or single items: the boundary block contributes exactly its own scan |
| OrderedIndexes.OrderedIndex.WalkBlockRange | ordered_index_lookup.go:78-95 | visiting single blocks and eight-block aggregates adds up to the union of the whole range |
| OrderedIndexes.OrderedIndex.Matches | ordered_index_lookup.go:97-150 | deciding one ID without materializing agrees with the scan |
| OrderedIndexes.OrderedIndex.BlockRangeContains | ordered_index_lookup.go:152-176 | membership in a block range, decided by aggregates and blocks, is membership in its union |
| OrderedIndexes.OrderedIndex.EstimateCardinality | ordered_index.go:179-232 | the estimate is at least the cardinality of the scan, zero exactly when the scan is empty, and exact if no ID is in two postings |
| OrderedIndexes.OrderedIndex.Insert | ordered_index.go:242-260 | inserting a pair is insertion into the sorted item list; blocks stay sorted, bounded, non-empty and aggregated |
| OrderedIndexes.OrderedIndex.InsertItem | ordered_index.go:377-406 | placing an item, with a split of a full block, keeps the sorted list and every block but the item's aggregate |
| OrderedIndexes.OrderedIndex.InsertPosting | ordered_index.go:280-303 | adding a whole posting is one insertion of the value with that posting |
| OrderedIndexes.OrderedIndex.CloneBuild | ordered_index.go:305-313 | the clone has the same items and the source keeps its own |
| OrderedIndexes.OrderedIndex.Account | ordered.go:152-174 | cached or recomputed, the accounting is that of the current blocks |
| OrderedRounding.InsertTracks | ordered_index.go:270-275 | storing a late value under its rounded boundary keeps each posting equal to the IDs that round to it |
| OrderedRounding.MergeTracks | ordered_rebuild.go:86-163 | merging two neighbours outward keeps each posting equal to the IDs that round to its boundary |
| OrderedRounding.InsertUnmerged | ordered_index.go:242-260 | before any merge an insert keeps each posting equal to the IDs stored under an equal value |
| OrderedRounding.UnmergedTracksEqual | ordered_rebuild.go:11-38 | an unmerged list is the special case in which every value is its own boundary |
| OrderedRounding.SelectKeepsMatches | ordered_index_lookup.go:31-76 | a walk in the rounding direction loses no stored pair, whatever was merged or inserted late |
| OrderedRounding.SelectExact | ordered_index_lookup.go:31-76 | before any merge the walk returns exactly the qualifying pairs |
| OrderedRounding.CeilingKeepsMatches | ordered_index_lookup.go:19-29 | the ceiling lookup loses no stored pair equal to the query |
| OrderedRounding.CeilingTracks | compare_by.go:140-150 | the ceiling posting is exactly the IDs of which a stored value shares the query's boundary |
| OrderedRounding.EqualToTracks | ordered_index_lookup.go:5-15 | before any merge the exact lookup returns exactly the IDs stored under an equal value |
| OrderedRebuild.RoundedBoundary | ordered_rebuild.go:11-38 | the boundary of a value: the ceiling or the floor, or the value itself beyond the outermost boundary |
| OrderedRebuild.InsertOrdered | ordered_index.go:270-275 | build-time insertion rounds once boundaries have been merged, otherwise it stores the exact value |
| OrderedRebuild.BestMerge | ordered_rebuild.go:40-70 | the chosen neighbours have the globally smallest union, then the largest footprint, then the first position |
| OrderedRebuild.PlanMerge | ordered_rebuild.go:86-163 | the replaced blocks, within one block or across two, hold exactly the merged list, with an emptied block dropped |
| OrderedRebuild.RebuildSelected | ordered_rebuild.go:80-163 | the merged index is valid with one key fewer, its incremental accounting is the recomputed one, and the source index is unchanged |
| OrderedRules.OrderedPart.Insert | ordered.go:224-231 | an insert keeps the postings equal to the stored pairs that round to each boundary |
| OrderedRules.OrderedPart.Merge | ordered_streaming.go:26-42 | a downgrade step keeps them too, on a fresh index with one boundary fewer |
| OrderedRules.OrderedPart.FoundMatches | ordered_rebuild.go:11-163 | after any history no qualifying pair is lost, and before the first merge none is added |
| OrderedRules.OrderedPart.BestIs | ordered_rebuild.go:40-70 | the best merge has the smallest union, then the largest footprint, then the first position, and no other merge is better |
| OrderedRules.OrderedRule.ResultMatches | ordered.go:318-342 | the rule's result contains every ID with a missing stored value or one on the requested side of the query, and only those while it is exact |
| OrderedRules.OrderedRule.FourRelations | ordered.go:9-56 | for an exact rule, an ID is found iff it is a wildcard or some stored value compares to the query as < 0, <= 0, > 0 or >= 0: Greater, GreaterOrEqual, Less and LessOrEqual |
| OrderedRules.OrderedRule.Search | ordered.go:292-331 | an uncached search adds every ID that the relation admits, and adds nothing else while the rule is exact |
| OrderedRules.OrderedRule.FilterCandidates | ordered.go:343-351 | filtering keeps exactly the candidates in the rule's result |
| OrderedRules.OrderedRule.MatchesID | ordered.go:318-324 | the direct ID check agrees with the rule's result |
| OrderedRules.OrderedRule.EstimateCardinality | ordered.go:241-248 | the estimate is an upper bound, zero exactly for an empty result, and exact if no ID is stored twice |
| OrderedRules.OrderedRule.Downgrade | ordered_streaming.go:15-42 | a step is taken exactly when two boundaries are left; it merges exactly the best neighbours outward and forgets no stored pair |
| OrderedRules.BetweenRule.ResultMatches | between.go:343-345 | an interval search loses no ID whose both bounds accept the query, and is exact while both sides are |
| OrderedRules.BetweenRule.Covers | between.go:343-345 | for an exact rule, an ID is found iff stored from <= low and stored until >= high, a missing bound being a wildcard |
| OrderedRules.BetweenRule.Search | between.go:374-430 | starting from either side, the search adds the intersection of both sides: every ID whose interval covers the query, and only those while both sides are exact |
| OrderedRules.BetweenRule.FilterCandidates | between.go:347-372 | filtering by both sides keeps exactly the candidates in the result |
| OrderedRules.BetweenRule.MatchesID | between.go:343-345 | the direct check agrees with the result |
| OrderedRules.BetweenRule.EstimateCardinality | between.go:94-101 | the estimate is an upper bound of the intersection, and the smaller side if no ID is stored twice |
| OrderedRules.BetweenRule.Downgrade | between_streaming.go:34-88 | while a side can step, exactly the best neighbours of both sides are merged, on the upper side when both are equally good; the other side keeps its boundaries |
| CompareByRules.CompareByRule.Insert | compare_by.go:111-138 | each pair is kept under its own operator, a missing value is a wildcard, and no other operator changes |
| CompareByRules.CompareByRule.Downgrade | compare_by_streaming.go:51-112 | while some operator can step, exactly the globally best neighbours are merged under their operator, the first one among equals; no pair is forgotten, the other operators keep their boundaries, and merged equality is looked up by ceiling |
| CompareByRules.CompareByRule.SelectIndex | compare_by_streaming.go:51-66 | the selected merge outranks every merge under every operator, the first operator and position deciding between equal ones |
| CompareByRules.CompareByRule.OperatorMatches | operator.go:8-19 | no operator loses a stored pair that its own relation accepts - code 0 stored == query, 1 >, 2 >=, 3 <, 4 <= - and none is added before a merge |
| CompareByRules.CompareByRule.ResultMatches | compare_by.go:153-178 | the five operators together lose no match, and are exact until something is merged |
| CompareByRules.CompareByRule.FiveOperators | operator.go:8-19 | while nothing is merged, an ID is found iff it is a wildcard or has a pair stored under code 0, 1, 2, 3 or 4 whose value is ==, >, >=, < or <= the query |
| CompareByRules.CompareByRule.Search | compare_by.go:276-299 | an uncached search adds every ID of which a stored pair or wildcard accepts the query, and adds nothing else until something is merged |
| CompareByRules.CompareByRule.FilterCandidates | compare_by.go:309-320 | filtering keeps exactly the candidates in that union |
| CompareByRules.CompareByRule.MatchesID | compare_by.go:300-308 | the direct check agrees with that union |
| CompareByRules.CompareByRule.EstimateCardinality | compare_by.go:207-231 | the sum over the operators is an upper bound, zero exactly for an empty result, and exact if no ID is stored twice |
| AllExecution.HoldsAnd | all_execution.go:137 | one more intersection turns the conjunction of a prefix into that of the longer prefix |
| AllExecution.AllRule.MaterializeUnsupported | all_execution.go:203-218 | acquiring unsupported children keeps every meaning; an early stop has met an empty child |
| AllExecution.AllRule.OrderCandidateValidation | all_execution.go:226-232 | for every outcome of the score tests only the order of the remaining entries changes |
| AllExecution.AllRule.ValidateCandidates | all_execution.go:164-198 | the candidates become those that every remaining entry accepts, and false means none is left |
| AllExecution.AllRule.GroupResult | all_execution.go:326-342 | wildcard plus intersected concrete postings is the intersection of the members' complete results |
| AllExecution.AllRule.CombineGroup | all_execution.go:341-349 | giving the combined bitmap to every member keeps the conjunction |
| AllExecution.AllRule.CompactGroups | all_execution.go:355-373 | the kept prefix represents every entry of the slice and holds one entry of each group |
| AllExecution.AllRule.CollectSharedWildcards | all_execution.go:311-374 | grouping and compaction keep the conjunction, both of the returned prefix and of the caller's whole slice, and leave one entry of each group |
| AllExecution.AllRule.SwitchToValidation | all_execution.go:108-113 | switching to ID checks on a small result yields the complete conjunction |
| AllExecution.AllRule.AndStep | all_execution.go:117-137 | range pruning and intersection both narrow the candidates to the longer conjunction |
| AllExecution.AllRule.FilterStep | all_execution.go:69-70 | in-place filtering narrows the candidates to the longer conjunction |
| AllExecution.AllRule.AfterNarrowing | all_execution.go:141-152 | stopping, switching to ID checks or going on are all right after a narrowing step |
| AllExecution.AllRule.Narrow | all_execution.go:58-158 | for every outcome of the cost tests the destination becomes the conjunction of the entries, and false means that it is empty |
| AllExecution.AllRule.Intersect | all_execution.go:47-158 | the whole executor: destination equal to the intersection of all children, false exactly when it is empty |
| AllSearch.RankCheaply | all_planning.go:53-85 | the constant-time pass makes one entry per child in schema order, with its planning bitmap and constant-time cardinality; it stops early exactly for a cardinality of zero, which means an empty child |
| AllSearch.RankInOrder | all_planning.go:53-110 | so does the second pass, which asks the other estimates exactly if no child is small enough to be scanned |
| AllSearch.SortByCardinality | all_planning.go:113-119 | a stable sort: ascending cardinality, schema order for equal ones |
| AllSearch.RankChildren | all_planning.go:45-123 | ranking keeps one entry for every child with the estimate that was asked for it, ascending and in schema order where equal; it stops early exactly for an estimate of zero, and then nothing matches |
| AllSearch.DeduplicateEqualityClasses | all_planning.go:5-34 | dropping repeated classes keeps the conjunction of all children and leaves no class twice |
| AllSearch.Search | all.go:387-438 | a nested All finds exactly the rules that match every child |
| AllSearch.PrepareCandidates | search_materialization.go:5-34 | each of the four preparations leaves the conjunction intact and ends early only when it is empty |
| AllSearch.MaterializeAfterFirst | search_materialization.go:36-58 | after an underestimated first child every entry gets its bitmap, unless nothing can match |
| AllSearch.BuildAllExclusions | search_materialization.go:60-76 | no exclusion bitmap is missing on the bitmap path |
| AllSearch.AppendBitmapAllMatches | search_materialization.go:78-114 | the appended values are those in every bitmap and not excluded |
| AllSearch.AppendScannedAllMatches | search_materialization.go:140-174 | scanning a small source against all other entries appends exactly the answer |
| AllSearch.SearchAllMatches | index_search.go:131-249 | the root search appends exactly the rules that match every child and no exclusion, whichever branch it takes |
| AllSearch.ListedInInsertionOrder | builder.go:139-144 | each result value is appended once, in the order of first insertion |
| EqualityLeaves.BuiltMeaning | eq.go:297-304 | an equality leaf matches an ID exactly when some entry with that ID has no value or the query's value |
| EqualityLeaves.BuiltUniverse | eq.go:297-304 | a leaf knows exactly the inserted IDs, and its keys stay distinct with non-empty postings |
| EqualityAntonyms.ComplementsExactly | equality_antonym.go:131-140 | the XOR count succeeds if and only if the wildcards partition the IDs and neither leaf counts an ID twice |
| EqualityAntonyms.AntonymPreservesConjunction | equality_antonym.go:22-68 | AND of ORs equals OR of ANDs for two sides of which only the first operands were counted |
| EqualityAntonyms.SideCandidate | equality_antonym.go:360-369 | the first operand with the smallest concrete posting |
| EqualityAntonyms.SetAllMatches | equality_antonym.go:296-325 | true exactly when the candidate posting lies in the intersection of the side |
| EqualityAntonyms.FilterSet | equality_antonym.go:327-347 | adds exactly the intersection of the side |
| EqualityAntonyms.IntersectByCardinality | equality_antonym.go:269-294 | terminates, applies operands in ascending (cardinality, index) order, and all of them unless the candidates ran out |
| EqualityAntonyms.AddSideMatches | equality_antonym.go:225-264 | every branch adds the same intersection of the side's concrete postings |
| EqualityAntonyms.AddMatches | equality_antonym.go:215-223 | the compiled operand adds exactly the union of its two sides |
| EqualityAntonyms.MatchesID | equality_antonym.go:202-207 | the direct check agrees with that union |
| EqualityAntonyms.EstimateCardinality | equality_antonym.go:169-174 | the smallest postings of the two sides: the estimate never undercounts, so zero proves an empty result |
| EqualityAntonyms.LookupPlanningBitmap | equality_antonym.go:411-457 | a planning bitmap is offered exactly if one side is a single bitmap and the other is known to be empty, and is the complete result |
| EqualityAntonyms.CollectClasses | equality_antonym.go:86-105 | every equality child lies in a class, classes have different wildcard pointers and are ordered by their first children |
| EqualityAntonyms.PairClass | equality_antonym.go:33-55 | an unconsumed class is compiled with a later unconsumed complement if there is one, at the position of its first child |
| EqualityAntonyms.Compile | equality_antonym.go:22-68 | replacing complementary classes by components preserves the conjunction of the children; what is not consumed stays in order, and of two complementary classes one is always consumed |
| EqualityAntonyms.Emit | equality_antonym.go:58-67 | components and unconsumed children together, each in its place, stand for all children |
| EqualityClasses.BitmapInterner.InternSource | bitmap_intern.go:44-86 | one source per bitmap whatever the checksum does; a bitmap is refused only when all 2^32 - 1 sources are taken by other bitmaps |
| EqualityClasses.InternAll | bitmap_intern.go:44-86 | over a whole build two sources are equal if and only if the bitmaps are; it stops exactly when all sources are taken by other bitmaps |
| EqualityClasses.InternLeaf | eq.go:469-474 | the sources of an interned leaf stand for its wildcard and its bitmap postings; it fails only if the index has 2^32 different bitmaps |
| EqualityClasses.CountOwners | bitmap_intern.go:181-189 | each pair is counted once per owning child |
| EqualityClasses.CompileClasses | bitmap_intern.go:115-169 | a pair gets a class exactly when at least two children own it, and no two pairs share one |
| EqualityClasses.ClassesDecideResults | eq.go:427-436 | children with the same nonzero class at a query have the same result there |
| EqualityClasses.SameClassSameResult | bitmap_intern.go:115-169 | two leaves with the same nonzero class find the same IDs |
| EqualityClasses.PrepareSharedWildcardGroups | all.go:168-196 | two children share a group exactly when they share a non-empty wildcard bitmap |
| LocalCache.ValueBitmapCache.Lookup | local_cache.go:172-189 | a hit is the uncached result and becomes the latest use; a miss changes nothing |
| LocalCache.ValueBitmapCache.Peek | local_cache.go:191-200 | an observational hit is the uncached result |
| LocalCache.ValueBitmapCache.Admit | local_cache.go:289-325 | admitted exactly when an earlier miss is remembered, which means at least two misses and is forgotten then |
| LocalCache.ValueBitmapCache.Remember | local_cache.go:307-325 | a missed key takes the next position of the ring of remembered keys, which has room for four from the eighth miss on |
| LocalCache.ValueBitmapCache.LeastRecentlyUsed | local_cache.go:272-284 | a free slot, otherwise the slot whose last use is the oldest |
| LocalCache.ValueBitmapCache.Grow | local_cache.go:263-270 | growing keeps the entries and the order of their last uses |
| LocalCache.ValueBitmapCache.Replace | local_cache.go:202-236 | the new key takes a free slot or that of the true least recently used key, every other entry stays, keys stay distinct |
| LocalCache.ValueBitmapCache.Search | ordered.go:292-317 | a search through the cache returns the uncached result after any history, and retains a key only if it was remembered |
| ResultCache.SearchContext.ReplaceInPlace | local_cache.go:202-236 | refilling a cached bitmap invalidates every remembered result before the contents change |
| ResultCache.SearchContext.Load | all_planning.go:266-294 | a hit by input identity is the intersection of what the inputs hold now, and a remembered result of the epoch with these inputs always hits |
| ResultCache.SearchContext.LoadQuery | all_planning.go:296-351 | a hit by query keys is the result that the keys determine, and remembered keys of the epoch always hit |
| ResultCache.SearchContext.Store | all_planning.go:381-432 | a result is remembered with its inputs and keys exactly when no operand is missing or temporary, and stays right until the epoch changes |
| ResultCache.SearchContext.Reset | bitmap_pool.go:151-161 | closing forgets every result |
| LossyEquality.CoarsenKey | equality_codec.go:53-55 | coarsening a stored key gives the key of the exact hash at the next level |
| LossyEquality.KeysNest | equality_codec.go:42-55 | values that share a key share it at every later level |
| LossyEquality.SameKey | equality_codec.go:42-51 | two hashes share a key iff they are equal (level 0), agree in the bits above the lowest 47 + level (levels 1 to 16), or always (level 17) |
| LossyEquality.PrefixBits | equality_codec.go:42-51 | of a 64-bit hash these are the top 17 - level bits, 16 of them at level 1 |
| LossyEquality.FirstGeneration | equality_streaming.go:53-77 | the first downgrade groups exactly the inserted entries by hash key |
| LossyEquality.NextGeneration | quantized_equality.go:39-71 | coarsening a generation gives the next generation of the same entries, merging colliding postings |
| LossyEquality.InsertIntoGeneration | eq.go:297-304 | a late insert at the current level keeps the generation exact |
| LossyEquality.QuantizedEquality.constructor | equality_streaming.go:53-77 | the approximate leaf starts as the exact entries grouped at level one |
| LossyEquality.QuantizedEquality.Insert | eq.go:297-304 | inserts keep every posting equal to the IDs of its key class |
| LossyEquality.QuantizedEquality.PreviewNext | quantized_equality.go:29-37 | the previewed usage is that of the next generation, and the current one is not changed |
| LossyEquality.QuantizedEquality.RebuildNext | quantized_equality.go:39-71 | one level coarser with the same entries, at exactly the previewed usage |
| LossyEquality.QuantizedEquality.Search | eq.go:369-375 | an ID is found iff it has a wildcard entry, or a value whose hash agrees with the query's in the bits kept at the level; so no match is lost at any level |
| PostingGenerations.ComputeKey | lossy_levels.go:14-20 | the key loop computes the composed level function |
| PostingGenerations.TotalUpdated | posting_rebuild.go:54-87 | replacing one posting changes the total charge by the difference of its charges |
| PostingGenerations.Account | posting_rebuild.go:136-166 | the usage of a generation, failing exactly when it does not fit into 64 bits |
| PostingGenerations.Rebuild | posting_rebuild.go:136-166 | a rebuilt posting is the union of the old postings whose keys coarsen to its key |
| PostingGenerations.NextLevel | posting_rebuild.go:93-117 | the rebuilt generation is the inserted pairs grouped one level later |
| PostingGenerations.LossyBuildState.Insert | posting_rebuild.go:54-87 | an insert adds one pair with exact accounting or changes nothing, and fails only on overflow |
| PostingGenerations.LossyBuildState.RebuildNext | posting_rebuild.go:93-117 | a rebuild publishes the next generation with its exact charge or changes nothing |
| AdaptiveLeaves.AdaptiveLeaf.Insert | lossy_streaming_adaptive.go:22-25 | an insert drops the preview, so no stale generation can be applied |
| AdaptiveLeaves.AdaptiveLeaf.NextStreamingUsage | lossy.go:197-219 | the preview is the usage after the next step and changes nothing |
| AdaptiveLeaves.AdaptiveLeaf.FitStreamingNext | lossy.go:231-242 | a previewed step reaches the previewed generation and usage, and every entry ever inserted is still found |
| AdaptiveLeaves.AdaptiveLeaf.FitStreamingLimit | lossy.go:221-229 | a leaf stops at the first state along its steps that is within the limit, or at the last one |
| AdaptiveEquality.EqualityIsLawful | quantized_equality.go:12-71 | equality leaves satisfy everything the controller assumes, for every hash and size function |
| AdaptiveEquality.NextRepresents | quantized_equality.go:12-71 | a step of an equality leaf goes exactly one level further: the same entries, grouped by the keys of the next level |
| AdaptiveEquality.InsertRepresents | eq.go:297-304 | an insert adds its entry at any level and changes no level |
| AdaptiveEquality.EqualityShrinks | quantized_equality.go:39-71 | if the size of a union is at most that of its parts, no step makes an equality leaf larger |
| LossyTrees.BuildTarget | lossy.go:120-126 | the soft target is the largest 64-bit value up to 125 percent of the limit |
| LossyTrees.ClampSettled | lossy_policy.go:175-195 | clamping a fitting tree leaves every nested node within its smaller limit |
| LossyTrees.ClampNests | lossy_policy.go:175-195 | after clamping no nested limit exceeds the limit above it |
| LossyTrees.ClampMeaning | lossy_policy.go:175-195 | whatever the leaves use, a clamped tree within the outer limit meets its limits iff the tree met its own |
| LossyTrees.CompilesPolicy | lossy_policy.go:128-142 | a compiled policy uses as much as its schema and is within its limits iff the schema is, for every usage of the leaves |
| LossyController.SelectCandidate | lossy.go:392-427 | smallest release, then largest usage, then first |
| LossySteps.LevelsRunOut | lossy.go:392-427 | a step that changes a leaf lowers the sum of remaining levels, even when memory does not fall |
| LossySteps.SelectedIsBest | lossy.go:412-421 | the selected candidate is the best leaf of the whole tree: smallest release, then largest usage, then first |
| LossySteps.NeededOver | lossy_streaming_leaf.go:44-79 | a step that a limit asks for means that some policy node is over its limit |
| LossySteps.FittingStays | lossy_streaming_leaf.go:44-79 | where every policy node is within its limit, no leaf is stepped |
| LossySteps.DescentAllows | lossy_streaming_leaf.go:44-79 | if no leaf exceeds the limit by itself at first, none does during the steps towards it, unless steps can make leaves larger |
| LossySteps.RelievedStays | lossy.go:465-483 | policies brought within their soft targets stay there while others are stepped, if steps never make leaves larger |
| LossySteps.FittedRun | lossy.go:313-328 | fitting leaves one by one takes exactly steps of leaves that exceed the limit by themselves |
| LossyController.Controller.Collect | lossy.go:337-373 | the reported usage is that of the tree, and the candidates are exactly the leaves with a step left, from left to right, with what they use and release |
| LossyController.Controller.FitRule | lossy.go:313-328 | each leaf is stepped to its first state within the limit, or its last, and no other leaf moves |
| LossyController.Controller.FitAggregateTo | lossy.go:392-427 | it returns the run of states: every state before the last is over the limit, every step moves the best leaf of that state and no other; it ends within the limit or with no step left |
| LossyController.Controller.StepSelected | lossy.go:412-427 | exactly one leaf takes its next step: smallest release among all leaves of the tree with a step left, then largest usage, then first position |
| LossyController.Controller.TerminalPass | lossy.go:392-427 | the request for a terminal representation never frees anything |
| LossyController.Controller.FitPolicies | lossy.go:465-483 | every step is one that a soft target asks for; a pressured policy ends within its soft target or without a step left, and if steps never make leaves larger, so does every nested policy |
| LossyController.Controller.Refresh | lossy_streaming_leaf.go:27-85 | every step is one that a limit asks for, so a tree within its limits passes unchanged; on success every nested policy node is within its limit and records its usage; a refusal means that some policy node is over its limit in the end, with no step left if steps never make leaves larger; no entry is lost |
| LossyController.Controller.RefreshPolicy | lossy_streaming_leaf.go:44-79 | a policy node passes the gate within its limit and is refused only if it, or one below it, exceeds its limit in the end; the best leaf is stepped only after the leaves that exceed the limit by themselves |
| LossyController.Controller.Compile | lossy_policy.go:89-173 | a compiled schema stands for its source: same usage, limits that ask for the same, all of them met and nested; a supported schema within its limits compiles without a step, and one is rejected only for an unsupported leaf or a policy over its limit in the end |
| Plans.AssignDenseIDs | builder.go:124-146 | dense IDs follow first insertion, each entry gets the ID of its external ID, and an entry after 2^32 known IDs is refused |
| Plans.OptimizeKeeps | all.go:230-273 | flattening, deduplication and match-all removal answer every question about the rule as before |
| Plans.OptimizeReduces | all.go:230-273 | what is left is everything, one part, or at least two with no nested All, no part that matches everything and no descriptor twice |
| Plans.AppendOptimizedKeeps | all.go:230-273 | each way of adding an optimized child keeps what the kept children stand for |
| Plans.CollectedForbid | rule.go:191-209 | the collected exclusions forbid exactly what the tree forbids, and are empty exactly when none stores a value |
| Plans.RemovedFinds | rule.go:214-232 | without its exclusions the tree finds exactly what it includes |
| Plans.BuildMeaning | builder.go:209-237 | the built index finds what the schema accepts if some exclusion stores a value or there is none, and nothing otherwise |
| Plans.EmptyExclusionHidesEverything | builder.go:221-225 | a concrete schema whose exclusion stores no value accepts a rule that its index never finds |
| ScalarKeys.SignedKeysOrdered | canonical_value.go:94-108 | signed keys are ordered strictly as the values at every width, and fit into 64 bits |
| ScalarKeys.FloatKeysOrdered | canonical_value.go:144-156 | on all pairs of bit patterns float keys agree with NaN-first, equal-zeros order of the decoded values |
| ScalarKeys.FormatsInUse | canonical_value.go:130-142 | both formats fill their widths, and the shifted 32-bit key keeps the order |
| RuleTrees.DirectAnswers | all.go:341-349 | checking an ID agrees with searching in every rule tree, and a tree that cannot be checked, because an exclusion is left in it, finds nothing |
| RuleTrees.EstimateBounds | all.go:277-329 | no estimate of a rule tree is below the number of IDs found, so zero proves an empty result |
| RuleTrees.PlainChildren | execution_capabilities.go:17-52 | every rule tree is a child that the root search can rely on: checkable or empty, never estimated too low, with the tree's own result |
| BuiltSearch.InternChildren | bitmap_intern.go:96-110 | interning all children gives every equality its sources and every bitmap one; it fails only for 2^32 different bitmaps |
| BuiltSearch.NodesFaithful | equality_antonym.go:22-68 | as nodes, the children still find what the rules find, equal pointers mean equal wildcards and equal classes equal results |
| BuiltSearch.CompileRoot | builder.go:247-254 | interning, class compilation and the wildcard-complement rewrite keep the conjunction of the root |
| BuiltSearch.ChildOf | execution_capabilities.go:17-52 | the child that stands for a node searches, checks and estimates one result |
| BuiltSearch.GroupNodes | all.go:168-196 | the groups put together exactly nodes with one non-empty wildcard |
| BuiltSearch.RootReady | all_execution.go:311-374 | the built children satisfy all that the executor and the root search assume about groups, classes, estimates and checks |
| BuiltSearch.SearchRoot | index_search.go:131-249 | searching a built All appends exactly the IDs that its rules find and no exclusion forbids |
| BuiltSearch.SearchIndex | index_search.go:96-127 | so does searching any built root |
| BuiltSearch.BuildAndSearch | builder.go:209-254 | from a schema to the appended values: exactly what the schema accepts, or nothing when an exclusion without values is left |
| RuleObjects.OrderedLeaf | ordered.go:241-248 | an ordered rule is a leaf whose result, estimate and wildcards are those that its own search and estimate give |
| RuleObjects.OrderedLeafAccepts | ordered.go:318-342 | the leaf accepts every match of the rule, and only matches before a merge |
| RuleObjects.BetweenLeaf | between.go:94-101 | the same for interval rules |
| RuleObjects.BetweenLeafAccepts | between.go:343-345 | the leaf accepts every ID whose both bounds match, and only those before a merge |
| RuleObjects.CompareByLeaf | compare_by.go:207-231 | the same for the five-operator rule |
| RuleObjects.CompareByLeafAccepts | compare_by.go:276-308 | the leaf accepts every match of any operator, and only matches before a merge |
| EntrySearch.LeafKeepsMatches | equality_codec.go:42-55 | keys and merged boundaries reach every entry that the plain comparison admits, and only those in an exact leaf |
| EntrySearch.NoMatchLost | builder.go:124-146 | a rule selected by the plain meaning of the schema is selected after any loss of precision |
| EntrySearch.IncludeMeaning | eq.go:297-304 | an equality leaf built from the entries finds the IDs of which some entry reaches the query |
| EntrySearch.CompareMeaning | ordered.go:318-342 | an ordered leaf finds the IDs of which some entry's value is missing or rounds to a boundary <, <=, > or >= the query |
| EntrySearch.ExcludeMeaning | not.go:37-90 | an exclusion forbids exactly the IDs of which some entry stores the query's value |
| EntrySearch.RuleMeaning | builder.go:139-145 | the tree at a query accepts an ID exactly when, leaf by leaf, some entry with this ID matches |
| EntrySearch.RuleSound | rule.go:356-380 | a tree built from entries under a schema meets everything that building an index assumes |
| EntrySearch.ExclusionsAt | not.go:90 | whether the tree keeps an exclusion without values can be read off the schema and the entries |
| EntrySearch.SelectedRenamed | builder.go:139-144 | dense and external IDs name the same entries |
| EntrySearch.ChosenMembers | index_search.go:5-10 | the expected result holds exactly the selected IDs, each once |
| EntrySearch.ExpectedKeepsMatches | index_search.go:5-10 | no expected ID is missing after a loss of precision, and an exact index expects the same list |
| EntrySearch.SearchEntries | index_search.go:5-12 | building from entries and searching appends the selected external IDs once each, in the order of first insertion; it can fail only for 2^32 rules or bitmaps |
| EntrySearch.BuildBoundaries | ordered_streaming.go:26-42 | any interleaving of inserts and merges leaves boundaries of the kind that the search relies on |
| EntrySearch.MergeBest | ordered_streaming.go:26-42 | one lossy step merges exactly the best neighbours, if two boundaries are left |
| AdaptiveOrdered.HeldTracks | ordered_rebuild.go:86-163 | what an ordered index holds is what its boundaries track, before and after merges |
| AdaptiveOrdered.MergeHolds | ordered_rebuild.go:86-163 | merging any neighbours keeps every entry found |
| AdaptiveOrdered.StoreHolds | ordered_index.go:270-275 | an insert, exact or rounded, is found and loses nothing |
| AdaptiveOrdered.OrderedIsLawful | ordered_streaming.go:5-69 | ordered, interval and five-operator leaves satisfy what the controller assumes, for every choice of merges and every accounting |
| AdaptiveOrdered.StepsEnd | ordered_streaming.go:26-30 | steps end exactly when no index has two boundaries left |
| OrderedBuffers.BlockBuffers.Prepare | ordered_streaming.go:26-37 | a preview is built in the spare array and leaves the live blocks alone |
| OrderedBuffers.BlockBuffers.TakeScratch | ordered_streaming.go:44-48 | the spare array is reused whenever it is large enough |
| OrderedBuffers.BlockBuffers.Apply | ordered_streaming.go:37-42 | the preview becomes live unchanged, and the cleared array of the replaced generation is no longer referenced by it |
| OrderedBuffers.BlockBuffers.Insert | lossy_streaming_adaptive.go:22-25 | a late insert drops the preview and touches neither the spare array nor the preview's |
| OrderedBuffers.StepIsMerge | ordered_rebuild.go:86-163 | the blocks put into the buffer are the merged boundaries |

## Left out

- EntrySearch.SearchEntries: its schemas hold equality, one-sided ordered, exclusion and nested All rules; interval and five-operator rules enter the same search as leaves through `RuleObjects`, with their constraints given by what was inserted into the rule objects.
- The error that ends a build when an entry has no valid `CompareBy` operator; `CompareByRules.CompareByRule.Acceptable` says when there is one.
- BuiltSearch.BuildAndSearch: the postings of exclusions draw sources from the same 32-bit counter after the tree has been interned; their running out is not modelled.
- AllSearch.DeduplicateEqualityClasses: the words of the class mask are a set of class numbers.
- EqualityClasses.CompileClasses: numbers the pairs in any order; the source sorts them, which only fixes which number a class gets.
- LocalCache.ValueBitmapCache.Search: cached bitmaps are values here; their refilling in place is modelled by `ResultCache`.
- LossyEquality.QuantizedEquality.RebuildNext: the 64-bit overflow of its byte counter, which makes the source skip the step, is not modelled; `PostingGenerations` models it for the build state.
- LossyController.Controller.Refresh: usage is summed without the 64-bit wrap of the source, and every leaf belongs to one subtree, so canonical leaves shared by two policies are not covered.
- LossyController.Controller.Compile: the mode without limits used by benchmarks and the validation of option lists are not modelled.
- Plans.OptimizeKeeps: inspection wrappers, which are transparent to results, are not nodes of the tree.
- OrderedRebuild.RebuildSelected: posting sets are values, so the sharing of a block aggregate with its only item and its detaching before a late insert are not captured; `OrderedBuffers` models the sharing of block arrays.
- OrderedIndexes.OrderedIndex.EstimateCardinality: 64-bit overflow of the sums is not modelled.
- The three representations of an equality posting and the inline keys of the equality index: plain sets and key lists stand for them.
- Reuse of a learned child order by a search context, and with it the claim that cached and uncached `All` searches agree.
- Which pooled bitmaps are released and when, capacity hints, telemetry and inspection.
- Roaring containers, codec compilation, time values and the quality of the hash.
- The older deduplication of equality results that is off once classes are compiled.
