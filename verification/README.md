# 4store segment storage, verified

This project models the storage engine of a 4store segment and proves what it promises. A segment keeps
every quad (model, subject, predicate, object) three times: in a tree keyed by subject, in a tree keyed by
object, and in a chain of triples per model. The proofs say that these on-disk structures denote what they
should after every run of updates, and that the algorithms that load, sort and read them are correct.

Files are modelled as sequences that can grow, ids as indices into them, integers as unbounded except where
a width matters (the length counter of MD5, the bits of a resource identifier), and the mutexes and answers
of the cluster client as nondeterministic choices.

| file | about |
|---|---|
| `Rids.dfy` | resource identifiers, pairs, quads; the multimap that one tree denotes and its updates |
| `PTable.dfy` | the table of linked rows shared by all trees: disjoint acyclic lists that cover the table |
| `Addresses.dfy`, `Slots.dfy`, `TreeShape.dfy`, `PTree.dfy` | the radix tree: paths, the slot allocator, the shape invariant, and the operations |
| `TreeScan.dfy`, `Forest.dfy`, `TreeFamilies.dfy` | search and traversal; many trees over one table; the two tree families of a segment |
| `TripleChain.dfy`, `ChainScan.dfy` | block chains of triples, and the iterator that prunes them |
| `Indexes.dfy`, `SegmentSpec.dfy`, `Segment.dfy`, `Deletion.dfy`, `ModelQuery.dfy`, `Runs.dfy` | the segment: import, deferred import, deletion of quads and models, reading models, whole runs |
| `StoredSegment.dfy` | a segment together with its tree objects |
| `Bind.dfy` | answering quad patterns |
| `Lists.dfy`, `Quicksort.dfy`, `MergeSort.dfy` | chunked sort with merge, and the two sorting algorithms |
| `Literals.dfy`, `PrefixTrie.dfy`, `Lexicon.dfy`, `RHash.dfy` | compact literals, prefix codes, the forms of an entry, and the resource hash |
| `StopImport.dfy` | the cluster-wide stop-import loop |
| `Md5.dfy` | the streaming part of MD5 |

How the parts fit together. `PTree` is a class over the slot array and the row table; each of its methods is
proved to change the multimap it denotes by `TreeAdd`, `TreeRemove` or `TreeRemoveAll`, and `Forest` shows that
trees sharing a table do not disturb each other. `SegmentTrees` puts the subject and object trees of all
predicates on one such table and shows that opening, adding, removing, sweeping and searching change or read
the two maps from predicate to multimap exactly by `Opened`, `AddTo`, `RemoveFrom`, `SweepFrom` and `Select`.
`Segment` holds these two maps, works on them with the same functions and logs each update; `StoredSegment`
carries the log out on a `SegmentTrees`, so that the theorems about runs hold down to slots and rows. Chains,
lists and sorts are used by the segment through their methods.

Some results about the code are worth knowing:

- A deletion pattern that leaves exactly one of subject and object open removes quads from one tree family
  only. `Indexes.DeletionAgrees` gives the exact condition under which the families still agree for one
  pattern, `Deletion.DeleteQuads` for a list.
- While an import is deferred, a model's chain may list quads that are not indexed yet. Reading a marked chain
  then strikes them out, and deleting the model forgets them, so that they come back unlisted.
  `SegmentRuns.Do` states which steps do that, and `SegmentRuns.PruningWhileWaiting` is a run from the empty
  segment in which it happens, for every quad. As long as no models are deleted after such a step, a segment
  still does what its simple form does (`SegmentRuns.Run`).
- The macro that extracts a branch number does not parenthesise its argument, so the call with `i-1` in
  src/backend/ptree.c:459 selects the branch of level i + 1. That is the level of the new node, and it is what
  the model does.
- A quad that two commits bring in is stored twice, in both families, because a tree looks for duplicates only
  in builds with a switch that is off by default. Within one commit, or one deferred import, it is stored once.
- Merging a node into its only leaf happens in sweeps only. Removing single rows culls bare nodes and leaves
  longer paths in place, which the shape invariant allows; no operation ever leaves a bare node below the root.

## Model

| member | source | states |
|---|---|---|
| `RowTable.PTable.NewRow` | src/backend/ptable.c:284-326 | a row from the free list, or the next unused one of a table that grows as needed, is set aside; all lists stay acyclic, disjoint and cover the table, and no chain changes |
| `RowTable.PTable.AddPair` | src/backend/ptable.c:359-384 | the pair is prepended to its chain and every other chain is untouched |
| `RowTable.PTable.Unlink` | src/backend/ptable.c:468-510 | one row is taken out of its chain and freed; the rest of the chain keeps its order and no other chain changes |
| `RowTable.PTable.RemoveChain` | src/backend/ptable.c:328-357 | all rows of the chain are freed and no other chain changes |
| `RowTable.PTable.RemovePair` | src/backend/ptable.c:431-514 | exactly the rows matching the wildcard pattern go, in order; the number removed and the models touched are reported; no other chain changes |
| `RowTable.PushStep` | src/backend/ptable.c:527-540 | pushing a detached row on a list (the free list or a chain) restores the partition of the table into lists |
| `RowTable.DetachStep` | src/backend/ptable.c:465-506 | bypassing a row anywhere in a chain leaves every list well formed and drops exactly its pair |
| `Addresses.PathStep` | src/backend/ptree.c:53 | the branch taken at each level extends the path of the key by its next two bits |
| `Slots.GrowNodeStep` | src/backend/ptree.c:251-271 | a new arena for nodes overlaps no slot of either kind |
| `Slots.GrowLeafStep` | src/backend/ptree.c:273-293 | a new arena for leaves overlaps no slot of either kind |
| `Slots.FreeNodeStep` | src/backend/ptree.c:295-310 | a freed node is on the free list and in no other use |
| `Slots.FreeLeafStep` | src/backend/ptree.c:344-354 | a freed leaf is on the free list and in no other use |
| `TreeShape.SplitLeaf` | src/backend/ptree.c:452-463 | replacing a leaf by a node that holds it keeps every leaf on the path of its key |
| `TreeShape.MergeNode` | src/backend/ptree.c:546-563 | replacing a node by its only leaf keeps every leaf on the path of its key and loses no slot |
| `TreeShape.PathEnds` | src/backend/ptree.c:385-417 | where the path of a key leaves the nodes decides whether the key is in the tree |
| `TreeShape.BushyLess` | src/backend/ptree.c:595-620 | taking a leaf or a bare node away can leave only the node above it bare |
| `PairTree.PTree.constructor` | src/backend/ptree.c:209-249 | a new tree is empty and its allocator is consistent |
| `PairTree.PTree.NewNode` | src/backend/ptree.c:312-342 | a node slot is handed out that nothing else uses |
| `PairTree.PTree.NewLeaf` | src/backend/ptree.c:356-383 | a leaf slot is handed out that nothing else uses |
| `PairTree.PTree.GetLeaf` | src/backend/ptree.c:385-423 | finds the leaf of a key exactly when the key is in the tree |
| `PairTree.PTree.GetOrCreateLeaf` | src/backend/ptree.c:425-480 | always ends with the leaf of the key within 32 levels, adds that key only, keeps all other leaves and leaves no bare node behind |
| `PairTree.PTree.Add` | src/backend/ptree.c:482-506 | the multimap gains the pair in front of the key's list; allocator, shape, row count and other trees are kept right, and every node below the root has something below it |
| `PairTree.PTree.RemoveAllRecurse` | src/backend/ptree.c:510-576 | below one node, every list is filtered and the rows removed are counted; no node below stays bare; the node is to be culled exactly if nothing is left on it, and merged exactly if a single leaf is left that was there before |
| `PairTree.PTree.CollapseKey` | src/backend/ptree.c:578-620 | the emptied leaf goes and nodes above it that become bare are culled, so that none is left bare, without losing a slot; all other leaves stay |
| `PairTree.PTree.RemoveAll` | src/backend/ptree.c:622-640 | every list is filtered, emptied keys vanish; the result is 1 exactly when nothing changed |
| `PairTree.PTree.Remove` | src/backend/ptree.c:642-695 | the key's list is filtered and vanishes when empty, all others stay; result and touched models are exact |
| `TreeScan.Search` | src/backend/ptree.c:697-755 | a search yields exactly the matching rows of the key, in order |
| `TreeScan.Traversal.Next` | src/backend/ptree.c:778-826 | one step of the traversal: the row it yields is the next of those left, although nodes are pushed beneath the stack's top and branches resume part-way |
| `TreeScan.Traverse` | src/backend/ptree.c:764-826 | the traversal terminates and yields, for each key, exactly the rows of the model, each once and with its key |
| `PairForest.Forest.Apply` | src/backend/ptree.c:482-695 | an update of one tree changes its multimap alone, however many trees share the table |
| `PairForest.Forest.Run` | src/backend/ptree.c:482-695 | over every run of updates of any trees, the trees hold exactly what the multimaps hold |
| `TreeFamilies.SegmentTrees.Open` | src/backend/backend.c:536-561 | a new predicate gets two empty trees, and what the families denote is otherwise unchanged |
| `TreeFamilies.SegmentTrees.Add` | src/backend/import-backend.c:301-302 | adding through a predicate's tree changes that list of that family only, although all trees share the rows |
| `TreeFamilies.SegmentTrees.Remove` | src/backend/import-backend.c:417-419 | removing from one tree filters one list of one family and reports the models that lost rows |
| `TreeFamilies.SegmentTrees.Sweep` | src/backend/import-backend.c:571-572 | sweeping one tree filters all its lists, touches nothing else, and tells whether anything was removed |
| `TreeFamilies.SegmentTrees.Search` | src/backend/query-backend.c:410 | a search gives exactly the matching rows that the family lists for the key |
| `TreeFamilies.SegmentTrees.Apply` | src/backend/import-backend.c:228-585 | any update of the tree objects changes what both families denote exactly as the update of the two maps does |
| `Quicksort.Scan` | src/common/qsort.c:146-150 | the two unguarded scans stop inside the partition |
| `Quicksort.Partition` | src/common/qsort.c:126-169 | after collapsing the walls nothing left of the split exceeds the pivot and nothing right of it is below |
| `Quicksort.StackBound` | src/common/qsort.c:176-199 | the stack height h satisfies 2^h <= n, because the larger part is always pushed |
| `Quicksort.StackFits` | src/common/qsort.c:58-63 | for any number of elements that a 64-bit size can hold, that is fewer entries than the stack has |
| `Quicksort.QuickPhase` | src/common/qsort.c:105-201 | the partitioning loop ends, stays within a stack of log2 n entries, rearranges the array and leaves its smallest elements among the first five |
| `Quicksort.FindPlace` | src/common/qsort.c:233-237 | the unguarded insertion scan is stopped by the smallest element in front |
| `Quicksort.InsertionPhase` | src/common/qsort.c:230-253 | with the smallest element in front, insertion yields a sorted rearrangement |
| `Quicksort.Quicksort` | src/common/qsort.c:94-255 | for every array and total preorder: an ascending rearrangement, with a stack of log2 n entries |
| `MergeSort.SortRun` | src/common/msort.c:62-184 | sorting a run through the scratch buffer gives the stable merge sort of that run and leaves the rest of the array |
| `MergeSort.SortCorrect` | src/common/msort.c:62-184 | the sort is an ascending rearrangement in which ties keep their order |
| `MergeSort.StableUnique` | src/common/msort.c:62-184 | there is only one stable sort: two ascending sequences with the same ties are equal |
| `MergeSort.Rearrange` | src/common/msort.c:241-261 | following cycles puts at each index exactly the element its sorted pointer names |
| `MergeSort.SortIndirect` | src/common/msort.c:220-262 | for large elements, sorting pointers and rearranging in place gives the same result as sorting directly |
| `MergeSort.QsortR` | src/common/msort.c:187-281 | ascending rearrangement in all cases; stable unless memory for the scratch buffer is missing |
| `QuadOrders.PsmoOrders` | src/backend/sort.c:111-124 | the comparison is the lexicographic order of predicate, subject, model, object, and a total order |
| `QuadOrders.PomsOrders` | src/backend/sort.c:126-137 | the comparison is the lexicographic order of predicate, object, model, subject, and a total order |
| `QuadOrders.MspoOrders` | src/backend/sort.c:86-109 | the comparison is the lexicographic order of model, subject, predicate, object, and a total order |
| `SortedLists.FsList.Add` | src/backend/list.c:157-174 | the row is appended, through the buffer, and its position returned |
| `SortedLists.FsList.SortChunked` | src/backend/list.c:446-469 | every chunk of the file is sorted by itself and the rows are kept |
| `SortedLists.FsList.NextSortUniqed` | src/backend/list.c:227-322 | each call delivers the next row of the merge that differs from the last; at the end all rows have been read and every distinct row but the all-zero one was delivered once, in strictly ascending order |
| `SortedLists.Drain` | src/backend/list.c:227-322 | reading to the end gives the distinct rows without the all-zero one, strictly ascending, for any number of chunks |
| `TripleChains.TBChain.constructor` | src/backend/tbchain.c:226-230 | blocks 2 and up are free, blocks 0 and 1 are set aside, no model has a chain |
| `TripleChains.TBChain.NewBlock` | src/backend/tbchain.c:288-327 | a cleared block comes off the free list, which is refilled by doubling; all chains are kept |
| `TripleChains.TBChain.AddTriple` | src/backend/tbchain.c:422-457 | the triple joins the first block or a new one that takes over the flags; other chains are untouched |
| `TripleChains.TBChain.RemoveChain` | src/backend/tbchain.c:337-366 | every block of the chain is freed and no other chain changes |
| `TripleChains.TBChain.PutSuperset` | src/backend/tbchain.c:368-404 | only the mark on the head of this chain changes |
| `TripleChains.TBChain.Length` | src/backend/tbchain.c:478-500 | the number of triples in the chain, struck-out ones included |
| `ChainScan.ChainIterator.Next` | src/backend/tbchain.c:682-749 | returns the next triple that is alive and, in a marked chain, still indexed; the others passed are struck out; at the end the mark is cleared |
| `ChainScan.ReturnedIff` | src/backend/tbchain.c:682-749 | a complete scan returns a triple exactly when it is listed, alive and (if marked) indexed |
| `ChainScan.ReturnedCount` | src/backend/tbchain.c:682-749 | and as often as it is listed |
| `ChainScan.SweptIff` | src/backend/tbchain.c:713-747 | a triple stays alive in a scanned chain exactly when the scan would return it |
| `Indexes.DeletionAgrees` | src/backend/import-backend.c:414-420 | deleting one pattern keeps the families in agreement if and only if it leaves both or neither of subject and object open, or means nothing stored |
| `Indexes.DeletionExact` | src/backend/import-backend.c:414-420 | a pattern with subject and object given, model given or open, removes from both families exactly the quads it means |
| `Indexes.InIndexIff` | src/backend/tbchain.c:718-735 | the lookup of a listed triple succeeds exactly when the quad is indexed |
| `Segments.BufferOrders` | src/backend/import-backend.c:174-226 | the three buffer comparisons are total preorders by their columns, and the first ties only equal quads |
| `Segments.MarkDuplicates` | src/backend/import-backend.c:264-271 | after sorting, exactly one of each group of equal quads stays unmarked |
| `Segments.ListsCycle` | src/backend/import-backend.c:251-258 | the waiting lists take turns, each for a stretch of 2^40 predicates |
| `Segments.Segment.TreePass` | src/backend/import-backend.c:276-310 | one pass adds every unmarked quad once to one tree family, through a cursor that always stands for the quad's predicate |
| `Segments.Segment.ChainPass` | src/backend/import-backend.c:315-364 | every unmarked quad is appended once to its model's chain |
| `Segments.Segment.CommitDirect` | src/backend/import-backend.c:259-364 | both families and the chains gain each distinct quad of the buffer once; agreement and mirroring are kept |
| `Segments.Segment.CommitDeferred` | src/backend/import-backend.c:251-258 | the quads join the list of their predicate and the chains; the trees stay |
| `Segments.Segment.ImportCommit` | src/backend/import-backend.c:228-379 | either way, what is indexed or waiting grows by exactly the buffered quads: directly, each different one once in both families |
| `Segments.Segment.Import` | src/backend/import-backend.c:120-172 | the queued and the new quads together: whole buffers of them wait, in order of arrival, and the rest stays buffered; the trees are not touched; a deferred import is under way exactly if it was or a buffer has filled up |
| `Segments.Segment.PushAll` | src/backend/backend.c:362-416 | the cursor carried from list to list never selects a wrong tree, because the lists divide the predicates; each distinct waiting quad is added once to both families |
| `Segments.Segment.StopImport` | src/backend/backend.c:349-426 | the waiting quads reach both families once each; agreement and mirroring are kept |
| `Deletion.ReadChain` | src/backend/import-backend.c:441-447 | a complete scan returns the present triples, prunes the rest and clears the mark |
| `Deletion.DeleteByWalk` | src/backend/import-backend.c:438-488 | walking the chain removes from both families exactly the listed rows of the model, which are all of them if the chain mirrors the index; other models' rows stay in order |
| `Deletion.SkipStep` | src/backend/import-backend.c:564-573 | if the subject sweep finds nothing of a model, the object tree holds nothing of it either |
| `Deletion.DeleteBySweep` | src/backend/import-backend.c:545-576 | sweeping every tree, with the object sweep left out where the subject sweep found nothing, removes from both families exactly the rows of the models |
| `Deletion.DeleteModels` | src/backend/import-backend.c:490-585 | whichever strategy is chosen, and whatever models turn out not to exist, both families are left without exactly the given models' rows as long as the chains list what is indexed; in any case all that is listed of them goes, and nothing of other models; their chains go; the wildcard empties everything |
| `Deletion.DeleteQuads` | src/backend/import-backend.c:383-436 | both families lose exactly what the patterns hit in them; they go on agreeing if and only if the patterns together hit the same stored quads in both; chains of all models named are marked, other chains only if their model loses a quad, and mirroring is kept |
| `Deletion.AgreeLost` | src/backend/import-backend.c:396-422 | deleting any list of patterns keeps agreement exactly when they hit the same stored quads in both families |
| `Deletion.BalancedEven` | src/backend/import-backend.c:396-422 | patterns that leave both or neither of subject and object open do hit the same |
| `Deletion.StruckOutSubject` | src/backend/tbchain.c:710-711 | a quad whose subject is the struck-out mark would be missed by a walk, so such quads are not storable |
| `ModelQueries.ReadModel` | src/backend/import-backend.c:441-447 | reading a model to its end returns its present triples, prunes its chain, and keeps the chains mirroring the index exactly when no quad of the model is only waiting |
| `ModelQueries.ReadsExactly` | src/backend/tbchain.c:682-749 | when chains mirror the index, reading a model returns exactly its indexed triples, marked or not |
| `ModelQueries.ShownKnown` | src/backend/tbchain.c:682-749 | while quads wait, a scan of a mirroring chain shows all indexed quads, and besides them only waiting ones |
| `ModelQueries.MirroredPruned` | src/backend/tbchain.c:682-749 | pruning a chain keeps mirroring if and only if it was not marked or no quad of the model is only waiting |
| `ModelQueries.MirroredPart` | src/backend/query-backend.c:317-331 | a scan left part-way keeps mirroring under the same condition; the mark stays |
| `ModelQueries.ReadSome` | src/backend/query-backend.c:317-331 | one model of the model-index branch: the result grows by the wanted quads of the model up to the limit, its chain is pruned as far as it was read, other chains are untouched |
| `ModelQueries.BindModels` | src/backend/query-backend.c:293-337 | each quad of the models that is asked for is returned as often as its chain shows it, or less often if the limit (-1 for none, 1 without columns) cuts in; when chains mirror the index these are the indexed quads and at most waiting ones besides; mirroring is kept unless a quad of a marked model is only waiting |
| `SegmentRuns.Do` | src/backend/import-backend.c:228-585 | any step, during a deferred import too, does to each family what it does to the simple form: copies of each quad, waiting quads, buffer and deferral (a deletion of models if chains list what is indexed); balanced steps keep agreement; a step keeps mirroring unless it loses waiting quads, and then (except for a query stopped by its limit) it does not; reads and queries answer from what is indexed |
| `SegmentRuns.Run` | src/backend/import-backend.c:120-585 | over every run, with direct and deferred imports: the segment ends as the simple form does, unless models are deleted after a step that lost waiting quads; agreement as long as deletions are balanced; mirroring as long as no step is hasty; every answer until then is right |
| `SegmentRuns.NotHasty` | src/backend/tbchain.c:713-747 | a step that the simple form calls harmless loses no waiting quads |
| `SegmentRuns.DirectCalm` | src/backend/import-backend.c:120-172 | if no import fills the buffer nothing ever waits, so that no step of the run is hasty |
| `SegmentRuns.ImportAll` | src/backend/backend.c:362-419 | an import of any size, deferred or not, adds each different quad once to both families |
| `StoredSegments.StoredSegment.CatchUp` | src/backend/ptree.c:482-695 | carrying out the logged updates on the tree objects makes them denote what the segment holds |
| `StoredSegments.StoredSegment.Do` | src/backend/import-backend.c:228-585 | any step of the segment, down to slots, rows and free lists of its trees: afterwards they denote what the segment holds, which is what the simple form says |
| `StoredSegments.StoredSegment.Search` | src/backend/ptree.c:697-755 | a search of the tree objects answers exactly from what the segment holds |
| `StoredSegments.RunFromEmpty` | src/backend/import-backend.c:120-585 | every run from the empty segment ends with tree objects that denote what the segment holds, and that is what the simple form gets from nothing; the answers are its answers |
| `StoredSegments.RunStored` | src/backend/import-backend.c:120-585 | over every run, direct or deferred, the tree objects denote what the segment holds, with the simple form, agreement, mirroring and answers as for `Run` |
| `SegmentRuns.PruningWhileWaiting` | src/backend/backend.c:349-426 | for every quad, a run from the empty segment (fill the buffer, delete, read, stop) after which the quad is indexed and its unmarked chain does not list it |
| `Binding.BindSameUniform` | src/backend/query-backend.c:82-136 | each code of the same-variable test means that columns with the same letter are equal |
| `Binding.WantedIff` | src/backend/query-backend.c:70-80 | a row is let through exactly if its columns are equal as asked and it is not of a default graph that is left out |
| `Binding.Uniq` | src/common/datatypes.c:249-267 | compacting in place keeps the last entry of each run |
| `Binding.KeptOnce` | src/common/datatypes.c:249-267 | of a sorted vector exactly the different entries are kept, once each |
| `Binding.Counted` | src/backend/query-backend.c:398-424 | for any vectors, a quad is returned once per copy and per combination of entries that lets it through |
| `Binding.BothWays` | src/backend/query-backend.c:456-488 | with concrete subjects and objects, looking up by object returns the same multiset as by subject |
| `Binding.Bind` | src/backend/query-backend.c:393-488 | every quad that has equal columns where the request wants that, and is not of a graph left out, is returned once per copy and per way in which the vectors let it through (once per copy if they hold no wildcard), or less often if the limit (-1 for none, 1 without columns) cuts in; the returned vectors are the requested columns of these rows |
| `Binding.ExpectedConcrete` | src/backend/query-backend.c:393-424 | without wildcards in the vectors, a quad they let through is expected as often as it is stored |
| `Binding.BindResults` | src/backend/query-backend.c:138-153 | each requested column's vector is the list of that component of the rows bound so far |
| `Literals.Compress` | src/backend/rhash.c:883-1103 | fails exactly for strings that are too long or have other characters; otherwise the codes are packed in order with zeros after them |
| `Literals.Uncompress` | src/backend/rhash.c:1105-1143 | recovers every packed string exactly |
| `PrefixTries.Trie.AddCode` | src/backend/prefix-trie.c:184-213 | unless the node pool runs out, the trie stays consistent, all edges and other codes stay, and the code is on the node before the string's last byte or a node on the way has no room for another edge |
| `PrefixTries.Trie.GetCode` | src/backend/prefix-trie.c:147-182 | a non-zero code is that of exactly the reported prefix, which is the longest coded one; there is one exactly if some prefix is coded and no node on the way has all its edges used for other bytes |
| `PrefixTries.Trie.CodedExact` | src/backend/prefix-trie.c:171-174 | a code on a node with a single edge belongs to the bytes passed |
| `Lexicon.GetEntry` | src/backend/rhash.c:555-700 | every entry, inline or in the lexical file, gives back exactly the string it stands for, and its attribute unless a prefix code took its place |
| `Lexicon.HoldsStill` | src/backend/rhash.c:355-381 | an entry goes on standing for its string while prefixes are added and the lexical file grows |
| `Lexicon.ReadRecord` | src/backend/rhash.c:582-605 | a string written with its length in front is read back exactly |
| `Lexicon.ReadZipped` | src/backend/rhash.c:640-690 | a compressed string is read back exactly, given that decompressing undoes compressing |
| `ResourceHash.RHash.MakeEntry` | src/backend/rhash.c:331-475 | the entry made stands for the string, in the first of the seven forms that fits (prefixed forms for URIs only), and keeps the attribute unless a prefix code takes its place |
| `ResourceHash.RHash.PrefixEntry` | src/backend/rhash.c:349-381 | after a coded prefix, up to 22 bytes are kept in the entry and longer suffixes are appended to the file |
| `ResourceHash.RHash.FileEntry` | src/backend/rhash.c:412-474 | the string is appended to the file, compressed if it is long and that saves space |
| `ResourceHash.HomeDoubled` | src/backend/rhash.c:52 | doubling leaves a home slot in place or moves it up by the old table length |
| `ResourceHash.HomeCycles` | src/backend/rhash.c:52 | home slots go round the table, bucket by bucket, with the resource identifier above bit 10 |
| `ResourceHash.DistanceKept` | src/backend/rhash.c:518-531 | the entry is found after doubling at the same distance from its home as before |
| `ResourceHash.DoubledPlaced` | src/backend/rhash.c:518-531 | so doubling keeps every entry near its home and the only one for its resource |
| `ResourceHash.DoubledCount` | src/backend/rhash.c:518-531 | doubling keeps the number of occupied slots |
| `ResourceHash.RHash.Double` | src/backend/rhash.c:496-535 | the loop over buckets computes exactly that table; every resource keeps its entry and what it was first stored with |
| `ResourceHash.RHash.PutOnce` | src/backend/rhash.c:299-330 | present exactly if stored before; otherwise its entry fills the first free slot from its home within the search distance, all other entries stay and it is counted; or no slot there is free and nothing changes |
| `ResourceHash.RHash.Put` | src/backend/rhash.c:299-480 | a completed put leaves every entry stored before as it was, so the first entry of a resource stays; a new resource is recorded with its entry and counted; the table doubles only while the neighbourhood is full, and gives up only after all rounds with it still full |
| `ResourceHash.RHash.InTable` | src/backend/rhash.c:299-330 | a stored resource is in exactly one slot, within the search distance |
| `ResourceHash.RHash.Get` | src/backend/rhash.c:702-718 | a stored resource is found with its first stored entry: its string comes back, and its attribute unless a prefix took its place; other resources are reported missing unless what lies beyond the table looks like them |
| `ResourceHash.RHash.LearnPrefix` | src/backend/rhash.c:391-404 | a new prefix is appended under the next code, up to 256, and registered in the trie; all entries stored before keep their strings |
| `StopImport.Run.Send` | src/common/4s-client.c:1280-1297 | the segment is told exactly if it was not, its server has fewer than 32 messages in flight, and its lock is free or none is held; locks held are exactly the segments in flight |
| `StopImport.Run.SendAll` | src/common/4s-client.c:1278-1298 | after the loop something is in flight, and segments not told are those whose lock was busy or whose server has 32 messages in flight |
| `StopImport.Run.Receive` | src/common/4s-client.c:1299-1305 | the answer of a segment in flight is taken and its lock freed |
| `StopImport.Run.StopAll` | src/common/4s-client.c:1262-1309 | exactly one round per segment; each segment is told once and answers once; no lock stays held |
| `Md5.State.constructor` | src/common/md5.c:328-336 | the initial state is that of the empty message |
| `Md5.InitialBytes` | src/common/md5.c:328-336 | the initial words, as the bytes listed in section 3.3 of RFC 1321 |
| `Md5.PaddingRead` | src/common/md5.c:376-394 | the padded message is the message, a byte 0x80, the fewest zeros and eight bytes that read as its length in bits |
| `Md5.Output` | src/common/md5.c:395-396 | sixteen bytes that read back, four by four, as the words a, b, c and d |
| `Md5.State.Count` | src/common/md5.c:349-353 | the two length words hold the length in bits modulo 2^64, carry included |
| `Md5.State.Append` | src/common/md5.c:338-374 | after appending, the state is that of the longer message: whole blocks folded, the rest buffered |
| `Md5.State.Finish` | src/common/md5.c:376-397 | the digest is the fold over the message padded and length-suffixed as in sections 3.1, 3.2 and 3.4 of RFC 1321 |
| `Md5.DigestOf` | src/common/md5.c:328-397 | however a message is cut into appended pieces, the digest is that of the whole |

## Left out

- Mapping, locking, flushing, opening and closing of files, time accounting, logging and error printing; allocation is taken to succeed, except where the code falls back from merge sort to quicksort.
- Segments.Segment.Import: takes only quads without the wildcard identifier and whose subject is not the struck-out mark. The loops treat both values specially (the first predicate of a pass is compared with the wildcard, and the iterator skips such subjects), so quads with them are not stored reliably.
- ResourceHash.RHash.Put: bounds the number of doublings by a parameter, because resources that agree above bit 10 are never separated and the code would not end.
- ResourceHash.RHash.Get: takes what lies beyond the end of the table as a parameter, because the scan is not checked against that end; asking for the identifier 0, which marks free slots, is not modelled.
- ResourceHash.RHash.MakeEntry: takes strings shorter than 2^31 bytes, as the lengths in the lexical file do; file errors are not modelled, and decompressing is taken to undo compressing.
- PrefixTries.Trie.AddCode: promises nothing once the node pool is exhausted; the trie that collects candidate prefixes (adding plain strings, freeing subtrees, scoring) is not modelled.
- SortedLists.FsList.NextSortUniqed: is stated for sorted lists and with unbounded offsets. From 2^31 bytes on the chunk offsets of the code overflow, and it then refuses to merge; reading an unsorted list row by row is not modelled.
- StopImport.Run.StopAll: assumes at least one segment and that the wait returns a segment in flight; with no segments the loop would not end.
- ResourceHash.Home: takes remainders where the code masks bits, which is the same for the sizes the file allows, powers of two.
- Md5.State.Append: takes pieces of less than 2^31 - 64 bytes, beyond which the sum of offset and length overflows; the block function is a parameter.
- Quicksort.Quicksort: moves whole elements; the byte-wise swapping and shifting of the source is not modelled.
- StoredSegments.StoredSegment.Do: carries out the tree updates of a step after the step, not in between; the ring of open tree files, which closes the oldest pair of trees, is not captured.
- Builds configured with the duplicate check on insertion, which is off by default.
- Deletion.DeleteModels: does not count errors of single removals; model lists kept in separate files (tlist) do not occur.
- Binding.Bind: covers the branches with given predicates and given keys that are not paired with them. The branches that pair vectors, those without predicates or keys other than the model-index branch, the distinct shortcuts, and streaming or reverse binding are not modelled.
- The model table is an abstract map. The probing of `mhash.c` is not modelled.
- The attribute of a prefixed entry is not claimed to come back: the code of the prefix overwrites it.
- Transactions, pending deletions, statistics and consistency checkers, the older index in `chain.c`, `bucket.c` and `tree.c`, the server loop, frontends and administration tools.
