# Verified models of the NPK database core

These Dafny files model the parts of the database that are hardest to get right and prove what they
promise: the adaptive radix tree with its lock-free readers, the sequence lock, the arena, heap, neighbour
choice, layer search and insertion of the vector index, the layered store with its write-ahead log and its
compaction, the checksum, and the build step that inlines imports. `dafny verify dfyconfig.toml` checks everything.

How the files fit together:

- `Options`, `Bytes`, `Octets`: shared values. The radix tree works on bytes as numbers, the log and the
  checksum on bytes as machine words.
- `ArtTrie`, `ArtTrieDelete`, `ArtTrieWalk`, `ArtTrieTheory`: the radix tree as a value. Search, insert and
  delete are given branch by branch, and the laws of the index are proved about them.
- `ArtLimits`, `ArtBeyond`: what the nodes have room for (255 children counted in one byte, 64 prefix bytes), and
  what happens beyond that and to keys with zero bytes.
- `ArtNode`, `ArtChildOrder`: the four kinds of inner nodes as they lie in memory, with the loops that copy,
  grow, shrink and scan them.
- `ArtStore`, `ArtStep`, `ArtBuild`, `ArtDescent`, `ArtRemoval`: trees of nodes in a shared memory, what one
  write may do to them, and one lemma for each branch of insert and delete.
- `ArtIndex`: the class `Art`, whose `Search`, `Insert` and `Delete` run the descent loops of the source and
  are proved against the value-level functions and against a finite map. Its ghost field `trace` records
  every state of the shared memory that a reader could meet, `ops` the operations done, and `shows` how many of
  them each of these states shows.
- `ArtConcurrent`: lock-free readers beside that writer. `ArtIter`: the ordered iterator.
- `Seqlock`; `HnswArena`, `HnswQueue`, `HnswLayers`, `HnswSelect`, `HnswSearch`, `HnswWiring`, `HnswGraph`;
  `Crc32`; `Flatten`.
- `Memtable`, `SkipList`: the sorted table. `Wal`: the log. `Levels`: the files on disk and how a read searches them.
  `Merge`: the k-way merge of sorted runs. `Compaction`: merging level 0 into level 1. `Lsm`: the layers together,
  and the class `WritePath`.

## What turned out not to hold

- A delete that collapses a two-way node writes the parent's prefix and only the first ten bytes of what follows it
  (src/index/art.npk:925-949). What a reader finds at the other places is what the copied sibling held there: its
  own prefix bytes or zeroes, and behind the 64 bytes of the header its keys or its index
  (src/index/art_node.npk:38, src/index/art_node.npk:136). `ArtLimits.DeleteExact` is the exact condition: all
  other keys keep their answers if and only if no inner node collapses or the merged prefix reads right all the
  same. It does when it has at most ten bytes, and otherwise only if one of the two merged prefixes fills its header
  (`ArtLimits.DeleteExactShort`, `ArtTrieDelete.MergedLong`). Where it does not, every key below the sibling is lost
  to search: `ArtTrieTheory.DeleteLosesExample` is a tree of three keys. `ArtBeyond.LongCollapse` is a family of
  trees with a merged prefix of 65 bytes, which lose nothing exactly when the sibling's first key is its edge byte.
- The child count of a node is one byte (src/index/art_node.npk:52-59). Zero-free keys can give a node all 256
  children (`ArtBeyond.FullTree`); its count then reads 0. Search does not use the count and stays right
  (`ArtIndex.Art.Insert`), but an iterator sees none of the children, and a delete copies the node as if it had at
  most 48 (`ArtBeyond.FullNodeBreaks`); `ArtBeyond.CopyWrites` shows that the copy writes the 49th child that is left
  and all after it behind the end of the new node. A node's header keeps 64 prefix bytes, and the
  next bytes are the node's keys: where two keys share more than 64 bytes behind the node above, a leaf split loses
  both, unless one byte happens to agree (`ArtBeyond.LongPrefix`).
  `ArtLimits.InsFits` is the guard of an insert against both, `ArtLimits.InsRoomy` shows that it is exact for
  staying within the limits, and `ArtTrieTheory.OpFits` combines it with the ten bytes of a delete. Histories are
  made of operations that meet this guard; one that only leaves prefixes which read right
  (`ArtTrieTheory.OpReads`) keeps the map and all readers right, too, but may be the last.
  `ArtTrieTheory.PlainFits` gives a condition on the keys alone.
- A key with a zero byte can be lost as soon as it is inserted. After a leaf is split, search finds the new key if
  and only if neither key is the other followed by a zero byte (`ArtBeyond.SplitFinds`); "p" and "p" followed by
  a zero byte are an example (`ArtBeyond.ZeroKeyLost`), `ArtTrieTheory.ZeroByteCollides` is the reason. Insert and
  delete are stated for keys without zero bytes; search is stated for all keys.
- Stored strings are read up to their first zero byte. A read returns a value with a zero byte cut short, never finds
  a key with one, and may find what is left of such a key although it was never written
  (`Lsm.ZeroByteExamples`). `Lsm.PutThenGet` is the exact condition for a read after a put, `Lsm.WritePath.DbGet`
  the one for every read of a run, `Wal.SurvivesLog` the one for the log.
- The compaction worker empties the log after compacting level 0 (src/storage/compaction_worker.npk:41-44), and a
  restart registers no files (src/storage/write_path.npk:47-51). `Lsm.RestartExact` says exactly when a
  restart still gives back the map: every key that was present when the log was emptied has been written again
  since. `Lsm.TruncationLoses` is a run of one put that loses it.
- Compaction merges by file number: where several of its sources have a key, the record of the file with the greatest
  number stays (src/storage/compaction.npk:206-227, src/util/min_heap.npk:79). `Compaction.CompactExact` is the exact
  condition under which no answer changes, and `Compaction.OrderedKept` shows that it holds while numbers follow
  recency. But a file that is flushed while a compaction runs can get a smaller number than the compaction's older
  output (`Compaction.OrderedAfter` says exactly when), and then the next compaction brings back the older record of
  every key that both have (`Compaction.LateFileLoses`; `Compaction.LosingRun` is a run with five files).
- The sources of a compaction are taken off one level after the other (src/storage/compaction.npk:350-400). When those
  of level 0 are gone and those of level 1 are not, a read finds the old records of level 1 in front of the new file
  (`Compaction.BetweenStale`).
- A flush destroys the frozen table while the write path still points to it (src/storage/flush.npk:68,
  src/storage/write_path.npk:102-124). In between, a read is safe exactly when the active table has the key;
  otherwise it looks into freed memory (`Lsm.WritePath.DbGet`).
- When the file of a flush cannot be written, the frozen table is let go all the same
  (src/storage/flush.npk:62-65, src/storage/write_path.npk:104-123). `Lsm.DropExact` is the exact condition under
  which no answer changes.
- When a level already holds 1024 files, `lm_add_sstable` does nothing and the flush still lets the memtable go
  (src/storage/level_manager.npk:107, src/storage/flush.npk:67-68). `Lsm.FlushExact` is the exact condition under
  which no answer changes. The writer's waiting for fewer than 8 files keeps a put away from it, and
  `Lsm.WritePath` carries that bound as an invariant.
- Connection limits above 16 (or 32 on layer 0) make the layers of a node overwrite each other's links
  (src/vector/hnsw_node.npk:158-169). `HnswLayers.LayersApart` shows these limits to be exact, and
  `HnswGraph.Graph` asks for them.
- A handle that was never issued but guesses a free slot's next generation is accepted by
  `hnsw_arena_free_node` and puts the slot on the free stack twice (`HnswArena.FreeKeeps`); issued handles are
  safe in every run (`HnswArena.ArenaSafe`). Since frees ask for a positive generation, a slot can be freed only
  until its generation leaves the positive numbers, and is then in use for good (`HnswArena.FreesRunOut`).
- A query of the server searches with a new set of seen slots and does not clear it (src/network/controllers.npk:344-358),
  and a new set has every slot marked: its stamps and its current stamp are all 0 (src/vector/hnsw_visited.npk:13-23,
  `HnswLayers.Visited.constructor`). So the answer is the entry point alone, or nothing when the filter rejects it, whatever the
  graph holds (`HnswGraph.Graph.Answer`). For two places or more and without stale links that is what a search from a
  cleared set answers if and only if no other node that can be reached passes the filter (`HnswSearch.AloneExact`). Insertions clear
  the set before each search (src/vector/hnsw_insert.npk:227, src/vector/hnsw_insert.npk:246).
- The line map of the flattener counts from the first inlined line, while the written file has one fixed line in
  front. Number `k` is line `k + 1` of the file, for all numbers, if and only if every line written but the last
  ends in a newline (`Flatten.Flattener.Output`): an imported file without one at its end is glued to the line
  behind it (`Flatten.GluedExample`).

## Model

| member | source | states |
|---|---|---|
| ArtTrie.LookupIsHas | src/index/art.npk:82-118 | search answers exactly the value stored under the key, for every well-formed tree and zero-free key |
| ArtTrie.PrefixTest | src/index/art.npk:48-67 | the prefix comparison accepts exactly the keys whose path runs through the node's whole prefix |
| ArtTrie.SplitLeafCorrect | src/index/art.npk:446-477 | the node made when two keys part holds both keys and nothing else, on different edges below their common path |
| ArtTrie.SplitPrefixCorrect | src/index/art.npk:504-545 | splitting a compressed path keeps all keys of the node and adds the new one |
| ArtTrie.InsCorrect | src/index/art.npk:381-625 | insert keeps the tree well formed, sets the key's value and leaves every other key's value alone, in all branches |
| ArtTrieDelete.WithoutCorrect | src/index/art.npk:800-991 | removing a leaf from its parent, with or without a collapse, removes that key and no other when the prefix left reads right |
| ArtTrieDelete.DelCorrect | src/index/art.npk:748-1018 | delete removes the key and nothing else whenever the prefix that its collapse leaves, if it makes one, reads right |
| ArtTrieDelete.DelLoses | src/index/art.npk:925-949 | a collapse whose prefix does not read right hides a stored key other than the deleted one, whatever bytes lie behind the header |
| ArtTrieDelete.MergedLong | src/index/art.npk:929-949 | a merged prefix of more than ten bytes never reads right when both of its parts are shorter than the header's 64 bytes |
| ArtLimits.InsRoomy | src/index/art.npk:381-625 | an insert keeps every node within 255 children and 64 prefix bytes if and only if it fits: no full node gets a child, and no split leaves more than 64 bytes |
| ArtLimits.DelRoomy | src/index/art.npk:748-1018 | a delete whose collapse fits keeps every node within these limits |
| ArtLimits.DeleteExact | src/index/art.npk:748-1018 | within these limits delete leaves every other key's answer unchanged if and only if no inner node collapses or the bytes found in place of the merged prefix, those behind the header included, are that prefix |
| ArtLimits.DeleteExactShort | src/index/art.npk:748-1018 | where no prefix fills its header, delete leaves every other key's answer unchanged if and only if its collapse, if any, fits ten prefix bytes |
| ArtTrieTheory.Canonical | src/index/art.npk:381-1018 | two well-formed trees with the same entries are the same tree: the shape depends on the key set alone |
| ArtTrieTheory.InsertDeleteRestores | src/index/art.npk:381-1018 | inserting a fresh key that fits and deleting it gives the old tree back, including the split and the merge of prefixes, if and only if the prefix that the delete's collapse leaves reads right |
| ArtTrieTheory.ApplyKeeps | src/index/art.npk:381-1018 | one insert or delete that fits keeps the tree equal to the finite map and within the limits of its nodes |
| ArtTrieTheory.ApplyMaps | src/index/art.npk:381-1018 | one insert or delete that leaves prefixes which read right keeps the tree equal to the finite map, also past the limits |
| ArtTrieTheory.BodyFree | src/index/art.npk:925-949 | to an operation that fits, the bytes behind the copied node's header make no difference |
| ArtTrieTheory.HistoryIndependent | src/index/art.npk:381-1018 | two histories whose every operation fits leave the same tree exactly when they leave the same map |
| ArtTrieTheory.PlainFits | src/index/art.npk:381-1018 | over keys that share at most ten bytes and leave some byte value unused, every history fits |
| ArtTrieTheory.ZeroByteCollides | src/index/art.npk:466-475 | two keys select the same edge where they part exactly when one is the other continued by a zero byte |
| ArtBeyond.SplitFinds | src/index/art.npk:446-477 | after a leaf is split for a new key of any bytes, search finds the old key, and the new one if and only if neither is the other followed by a zero byte |
| ArtBeyond.ZeroKeyLost | src/index/art.npk:466-475 | a concrete key with a zero byte that is lost as soon as it is inserted |
| ArtBeyond.FullTree | src/index/art.npk:369-374 | zero-free keys can give one node all 256 children, and deleting any of them meets no collapse; with 255 it is within its limits exactly when its prefix has at most 64 bytes |
| ArtBeyond.FullNodeBreaks | src/index/art.npk:805-807 | the count byte of a full node reads 0, so that a delete copies it, and 255 children are left, more than any Node48 holds |
| ArtBeyond.CopyWrites | src/index/art.npk:728-740 | copying a Node256 into a Node48 writes each child left 8 bytes behind the one before, and stays inside the node if and only if at most 48 are left |
| ArtBeyond.LongPrefix | src/index/art.npk:458-475 | where a leaf split leaves more than 64 prefix bytes, both keys are lost unless the byte behind the header agrees; with 65 bytes exactly then |
| ArtBeyond.LongCollapse | src/index/art.npk:925-949 | where a collapse leaves 65 prefix bytes, nothing is lost if and only if the copied node's first key is the edge byte, and otherwise a stored key is |
| ArtTrieTheory.DeleteLosesExample | src/index/art.npk:925-949 | a concrete tree of three keys in which deleting one loses another |
| ArtTrieWalk.WalkHas | src/index/art_iter.npk:239-294 | the walk by ascending edges contains exactly the stored entries |
| ArtTrieWalk.WalkSorted | src/index/art_iter.npk:239-294 | the walk is strictly ascending in lexicographic order |
| ArtTrieWalk.PrefixNodeExact | src/index/art_iter.npk:326-385 | the subtree found for a prefix holds exactly the stored keys that start with it, also when it ends inside a compressed path |
| ArtNode.FreeSlot | src/index/art.npk:331-346 | a Node48 with fewer than 48 children has an empty slot, because its index is an injection onto the used ones |
| ArtNode.CopyNode | src/index/art.npk:207-267 | a copy is the node byte by byte, with the key bytes behind the count zeroed: the same map from edges to children, prefix and kind, and as tidy |
| ArtNode.AddChildCopy | src/index/art.npk:269-379 | the copy with a new child has the old children and the new one, in the same kind, or in the next larger one exactly when the node was full; the 256th child makes the count byte 0 |
| ArtNode.RemoveChildCopy | src/index/art.npk:637-746 | the copy without a child has the other children, in the next smaller kind exactly for a Node16 of at most 4 and for a Node48 or Node256 that is copied; no copy exactly for the counts deleted in place |
| ArtNode.FindChild | src/index/art.npk:70-79 | the child found by scan, index or table is the child of the edge |
| ArtNode.CasChild | src/index/art.npk:159-205 | the swap happens exactly when the edge's slot holds the expected child, and changes that slot only |
| ArtNode.SetChildKids | src/index/art.npk:159-205 | replacing the slot of an edge replaces, or with null removes, exactly that child |
| ArtNode.Delete48Tidy | src/index/art.npk:857-861 | the three in-place writes to a Node48 together remove one child and keep its index injective and its count in its band |
| ArtNode.Delete256Tidy | src/index/art.npk:825-828 | the two in-place writes to a Node256 together remove one child and keep its count in its band |
| ArtChildOrder.NthChild | src/index/art_iter.npk:130-221 | in all four kinds the n-th child is the one on the n-th smallest used edge, and there is none beyond the count |
| ArtChildOrder.Nth4 | src/index/art_iter.npk:137-162 | four registers filled by insertion hold the children of a Node4 in ascending edge order |
| ArtChildOrder.Nth16 | src/index/art_iter.npk:163-185 | the double scan of a Node16 stops at the n-th smallest edge |
| ArtChildOrder.NthLarge | src/index/art_iter.npk:186-218 | the scan of index or table stops at the n-th smallest edge |
| ArtStep.SwingRoot | src/index/art.npk:548-558 | swapping the root to a built subtree keeps memory a tree, and readers may carry on |
| ArtStep.SwingKid | src/index/art.npk:560-572 | swapping one child slot to a built subtree keeps memory a tree, changes no unreachable node, and moves no inner node |
| ArtStep.WriteInPlace | src/index/art.npk:825-861 | an in-place write that only drops children has the same guarantees |
| ArtStore.Rewrite | src/index/art.npk:547-573 | rewriting below one node rewrites the whole tree there and nowhere else |
| ArtDescent.Publish | src/index/art.npk:547-573 | publishing a built subtree where a descent stands is a step readers can rely on, at the root and below a parent |
| ArtDescent.InsertSplitsLeaf | src/index/art.npk:446-501 | the nodes built for a leaf split stand for the inserted subtree |
| ArtDescent.InsertSplitsPrefix | src/index/art.npk:504-574 | the shorter copy, the new leaf and the new Node4 stand for the inserted subtree, with all paths below unchanged |
| ArtDescent.InsertAddsChild | src/index/art.npk:584-615 | the copy with one more leaf stands for the inserted subtree |
| ArtRemoval.DeleteCopies | src/index/art.npk:870-889 | the smaller copy stands for the parent without the leaf |
| ArtRemoval.DeleteCollapsesLeaf | src/index/art.npk:907-924 | a leaf sibling in its parent's place stands for the parent without the leaf |
| ArtRemoval.DeleteCollapsesInner | src/index/art.npk:925-969 | the copy of an inner sibling, with the merged prefix as a reader finds it, stands for the parent without the leaf; its paths are unchanged when that prefix reads right |
| ArtRemoval.DeleteClears | src/index/art.npk:858-859 | clearing the child slot is the moment at which the key is gone for every reader |
| ArtRemoval.QuietWrite | src/index/art.npk:860-861 | clearing the index entry and lowering the count change nothing that a reader can see |
| ArtIndex.CheckPrefix | src/index/art.npk:48-67 | the number of prefix bytes the key repeats, negative when the key ended before |
| ArtIndex.CommonFrom | src/index/art.npk:447-455 | how long the stored and the new key agree from the leaf's depth on |
| ArtIndex.OtherChild | src/index/art.npk:893-905 | the child left in a two-way Node4 and its edge, found by pointer |
| ArtIndex.MergePrefix | src/index/art.npk:926-949 | the bytes a reader finds after the collapse's writes: the parent's prefix, then up to byte ten, then what the copy had, and behind the header its keys or index |
| ArtIndex.Art.constructor | src/index/art.npk:34-40 | a new index is empty |
| ArtIndex.Art.Search | src/index/art.npk:82-118 | the descent loop answers what the tree in memory holds, for any key and also after an unfitting collapse, and so what the map holds while readers are served right |
| ArtIndex.Art.Insert | src/index/art.npk:381-634 | the result is 1 exactly when the key was there; unless a leaf split outgrows the header, the map gains exactly the key's value, the tree is the inserted one, and one reliable write happened, a 256th child included, from which on readers meet the map with the value; when the insert fits, all nodes stay within their limits |
| ArtIndex.Art.Delete | src/index/art.npk:748-1026 | the result is 0 exactly when the key was there and 100 otherwise; the tree is the one without the key, with the prefix a reader finds after a collapse; the map loses exactly the key when that prefix reads right, and then each state that readers meet shows the map as it was, or, from the first of one to three writes on, without the key; a missing key leaves memory as it is |
| ArtIndex.Art.DeleteInPlace | src/index/art.npk:825-869 | an in-place delete is three reliable writes on a Node48 and two on a Node256; every state from the first one on shows the map without the key |
| ArtIndex.Art.Swap | src/index/art.npk:159-205 | under the write lock every compare-and-swap finds what the descent found, so no restart arm is taken |
| ArtConcurrent.HeldNext | src/index/art.npk:82-118 | the node a reader holds is, across any write, still in its place or frozen since a moment at which it was |
| ArtConcurrent.SlotNext | src/index/art_node48.npk:48-54 | a slot read from a node keeps answering for its edge until the child is read, also through a three-write delete |
| ArtConcurrent.SoundHop | src/index/art.npk:91-114 | each hop of a search keeps its answer explained by a moment since the search began |
| ArtConcurrent.SearchLinearizable | src/index/art.npk:82-118 | a lock-free search interleaved hop by hop with any run of reliable writes (those of inserts and deletes whose new prefixes read right) never follows a dangling pointer and answers what the index held at some moment between its first and last read |
| ArtConcurrent.SearchAtomic | src/index/art.npk:82-118 | beside any inserts and deletes a lock-free search answers from the map that some number of whole operations leave, between the number that had written when it began and when it ended; no map in between is ever seen |
| ArtConcurrent.SearchEnds | src/index/art.npk:91-115 | beside any such run a search has its answer after at most two hops for each byte of its key and four more |
| ArtIter.DrainExact | src/index/art_iter.npk:239-294 | stepping to the end yields exactly the entries between the inclusive bounds, each once, ascending |
| ArtIter.RangeScan | src/index/art_iter.npk:87-118 | a full or bounded iteration yields exactly the stored keys of the range in strictly ascending order |
| ArtIter.PrefixScan | src/index/art_iter.npk:296-389 | a prefix iteration yields exactly the stored keys with that prefix in strictly ascending order |
| ArtIter.CompareKeys | src/index/art_iter.npk:223-237 | the byte loop is the lexicographic order with the shorter key first |
| ArtIter.PrefixStart | src/index/art_iter.npk:326-385 | the descent loop finds the subtree of the prefix |
| ArtIter.Iter.CreateRange | src/index/art_iter.npk:87-114 | a new iterator has the whole ordered walk before it |
| ArtIter.Iter.CreatePrefix | src/index/art_iter.npk:296-389 | a prefix iterator has the ordered walk of the prefix's subtree before it |
| ArtIter.Iter.Push | src/index/art_iter.npk:46-68 | a push keeps all frames and adds one, also when the buffer has to grow |
| ArtIter.Iter.Next | src/index/art_iter.npk:239-294 | one step, which always ends, yields the next entry of the walk that is in range, or nothing for good |
| Seqlock.InvStep | src/concurrency/seqlock.npk:45-143 | every atomic step of every thread keeps the protocol's invariant |
| Seqlock.OneWriter | src/concurrency/seqlock.npk:45-74 | in every run at most one writer is inside, and one is inside exactly while the counter is odd |
| Seqlock.ValidatedIsCurrent | src/concurrency/seqlock.npk:79-127 | a reader that validates returns the block that memory holds at that very moment, which is the last published version |
| Seqlock.ReadExact | src/concurrency/seqlock.npk:92-126 | from the even counter it began with to its comparison, a reader that has copied the whole block validates if and only if the counter has not moved, and then returns the block memory holds |
| Seqlock.GivesUp | src/concurrency/seqlock.npk:85-127 | a reader that gives up has made a thousand tries one after the other, and in each the counter moved between its begin and its comparison |
| Seqlock.SwapExact | src/concurrency/seqlock.npk:45-60 | a writer enters if and only if the counter still has the even value it saw, and otherwise nothing changes but that it waits again |
| Seqlock.ReadsAlone | src/concurrency/seqlock.npk:79-127 | from every state of a run with an even counter, a thread that runs alone reads the block at its first try |
| Seqlock.WritesAlone | src/concurrency/seqlock.npk:45-74 | from every such state, a thread that runs alone publishes any block as the next version |
| Seqlock.WritePublishes | src/concurrency/seqlock.npk:67-74 | a finished write publishes exactly the writer's block and makes the counter even |
| Seqlock.NeverBack | src/concurrency/seqlock.npk:67-100 | versions are only ever added, so later reads are never older |
| HnswArena.StaleUntilWrap | src/vector/hnsw_arena.npk:164-166 | the successor of generations alone, were frees to take every generation, would come round after every 2^32 - 1 frees; frees stop long before |
| HnswArena.FreesRunOut | src/vector/hnsw_arena.npk:150-167 | from generation g a slot can be freed exactly 2^31 - g times, and no generation comes twice on the way |
| HnswArena.AllocFresh | src/vector/hnsw_arena.npk:116-148 | allocation issues a handle that was not live for a slot that no live handle names |
| HnswArena.FreeEnds | src/vector/hnsw_arena.npk:150-180 | freeing a live handle ends that handle and no other |
| HnswArena.FreedNext | src/vector/hnsw_arena.npk:129-178 | the slot freed last is the next one issued, under its next generation |
| HnswArena.FreeKeeps | src/vector/hnsw_arena.npk:150-180 | freeing keeps the free stack duplicate-free exactly when the handle is not a forged one |
| HnswArena.CallDone | src/vector/hnsw_arena.npk:116-180 | in every such run, an allocation with a free slot issues one handle that was not live, and a free of a live handle of positive generation ends it |
| HnswArena.ArenaSafe | src/vector/hnsw_arena.npk:116-203 | over every run with issued handles: live handles name distinct slots, no freed handle resolves again, every issued handle stays honest, free slots are listed once and together with live ones make up all slots |
| HnswArena.Arena.AllocNode | src/vector/hnsw_arena.npk:116-148 | allocation is the value-level one, zeroes the node, and fails exactly on an empty free stack |
| HnswArena.Arena.FreeNode | src/vector/hnsw_arena.npk:150-180 | freeing is the value-level one and fails exactly on stale handles; used and free slots add up to the capacity |
| HnswArena.Arena.GetNode | src/vector/hnsw_arena.npk:182-203 | a handle resolves exactly when its generation is the slot's |
| HnswQueue.RootIsTop | src/vector/hnsw_pq.npk:73-87 | nothing in a heap stands above its root, in both polarities |
| HnswQueue.UpStep | src/vector/hnsw_pq.npk:91-117 | one swap upwards keeps all but one heap relation |
| HnswQueue.DownStep | src/vector/hnsw_pq.npk:119-162 | one swap downwards with the better child keeps all but one heap relation |
| HnswQueue.Pq.Push | src/vector/hnsw_pq.npk:210-225 | push keeps heap order and adds exactly the candidate, also when the array grows |
| HnswQueue.Pq.Pop | src/vector/hnsw_pq.npk:228-249 | pop takes out a candidate that none stands above and keeps the rest a heap |
| HnswQueue.Drain | src/network/controllers.npk:379-410 | popping until the queue is empty yields all candidates in order |
| HnswQueue.Pq.Grow | src/vector/hnsw_pq.npk:188-207 | growing doubles the capacity and keeps all candidates in place |
| HnswLayers.LayersApart | src/vector/hnsw_node.npk:158-169 | links of different layers never share a place exactly for limits of at most 16 and 32 |
| HnswLayers.NeighborBut | src/vector/hnsw_node.npk:193-201 | writing one link changes no other link of the node |
| HnswLayers.Visited.constructor | src/vector/hnsw_visited.npk:13-23 | a new set has every slot marked, so that it must be cleared before its first search |
| HnswLayers.Visited.Clear | src/vector/hnsw_visited.npk:31-43 | after a clear no slot is marked; the stamp goes up by one, and starts again at 1 when it would leave 32 bits |
| HnswLayers.Visited.Mark | src/vector/hnsw_visited.npk:45-55 | exactly one slot more is marked |
| HnswSelect.SelectedNearest | src/vector/hnsw_insert.npk:46-115 | the choice contains a nearest candidate that resolves |
| HnswSelect.SelectedApart | src/vector/hnsw_insert.npk:70-108 | no chosen candidate is nearer to one chosen before it than to the query, and a candidate that resolves is left out only if it is nearer to a chosen one or all places are taken by ones no further away |
| HnswSelect.ChooseOne | src/vector/hnsw_insert.npk:70-108 | choosing the nearest candidate left keeps the choice near-first, diverse and complete so far |
| HnswSelect.SelectNeighbors | src/vector/hnsw_insert.npk:46-115 | at most M of the candidates are chosen, near first, none closer to an earlier one than to the query, and each candidate left out is stale, blocked by a chosen one, or no nearer than all M |
| HnswSearch.SearchedResult | src/vector/hnsw_search.npk:12-153 | results are at most ef, have no document that the filter rejects, are the nearest of all nodes met that pass, and every node met was followed unless the beam is full of nearer ones |
| HnswSearch.MeetNearer | src/vector/hnsw_search.npk:132-140 | replacing the furthest of a full beam by a nearer node keeps the beam the nearest |
| HnswSearch.SearchLayer | src/vector/hnsw_search.npk:12-153 | the search ends on every graph, cyclic or with stale links, fails exactly on a stale entry point, and returns such a result; nodes are opened in turn: every node met is linked to by one met before it, which was opened when fewer than ef of the nodes met passed and were nearer, and, without stale links, after all nearer ones; then also every slot marked is a node it met |
| HnswSearch.SearchComplete | src/vector/hnsw_search.npk:69-145 | without stale links, a search whose beam never filled returns exactly the nodes reachable from the entry point of which the filter does not reject a document that is there |
| HnswSearch.OpenFilter | src/vector/hnsw_search.npk:49-61 | a filter that accepts every document searches like no filter |
| HnswSearch.MarkedAlone | src/vector/hnsw_search.npk:99-103 | a search that starts with every slot marked meets its entry point only, and answers it unless the filter rejects it |
| HnswSearch.AloneExact | src/network/controllers.npk:344-358 | for at least two places and without stale links, the entry point alone is the answer of a search from a cleared set if and only if no other reachable node passes the filter |
| HnswGraph.Graph.ShrinkConnections | src/vector/hnsw_insert.npk:117-173 | a full node's links become the choice among exactly its resolvable neighbours and the new one; its other layers and all other nodes stay as they are |
| HnswGraph.Graph.Rivals | src/vector/hnsw_insert.npk:136-154 | exactly the resolvable neighbours and the new node are pushed, each at its distance from the node |
| HnswGraph.Graph.LinkBack | src/vector/hnsw_insert.npk:264-273 | the neighbour gains the link at its end, or lets it compete with all its links when full; a stale one is left alone |
| HnswGraph.Graph.Connect | src/vector/hnsw_insert.npk:252-276 | the new node's links on the layer are exactly the chosen ones in the queue's order, each of those nodes has linked back, and no other link of any node changes |
| HnswGraph.Graph.NearestOf | src/vector/hnsw_insert.npk:278-297 | the next entry point is a nearest chosen neighbour below the starting bound, or the old one |
| HnswGraph.Graph.InsertLayer | src/vector/hnsw_insert.npk:246-302 | one layer of an insertion: links both ways are a diverse choice from a beam search, over stale links too, that never meets the new node itself and is complete when there are no stale ones, and the entry point moves on |
| HnswGraph.Graph.Descend | src/vector/hnsw_insert.npk:222-240 | above the node's layer the entry point moves to the nearest of all nodes met |
| HnswGraph.Graph.Answer | src/network/controllers.npk:344-358 | the server's query searches with a set that was never cleared, and so answers its entry point alone, or nothing when there is none or the filter rejects it |
| HnswWiring.LayerStays | src/vector/hnsw_insert.npk:245-303 | wiring a lower layer leaves a finished layer as it is |
| HnswWiring.FoundOther | src/vector/hnsw_search.npk:95-140 | a search never meets a live node that no link of the layer names, even if a stale link names its slot |
| HnswGraph.Graph.Insert | src/vector/hnsw_insert.npk:177-313 | in a graph that may have stale links the node holds its vector and layer and no other vector changes; on every layer up to the lower of its and the graph's its links are a diverse choice from a beam search of the graph as it was, its neighbours link back, and no other link changes; the first search starts at the graph's entry point, above the new node each goes on from the nearest of all nodes met by the one before, and below it from a nearest chosen neighbour; every node stays within M links per layer (M0 on layer 0); entry point and top layer follow the highest node; fails exactly when the arena is full |
| Crc32.CrcDivides | src/util/crc32.npk:34-48 | the byte-wise register is the long division of section 8 of RFC 1952 taken one message bit at a time, low bit first |
| Crc32.TableStep | src/util/crc32.npk:40-44 | one table look-up and shift are eight bit steps |
| Crc32.BuildTable | tests/test_wal/sim_crc.py:1-9 | the built table holds eight bit steps of each byte value |
| Crc32.Compute | tests/test_wal/sim_crc.py:11-18 | the table-driven loop computes the bit-at-a-time checksum of every message |
| Crc32.CheckValue | src/util/crc32.npk:34-48 | the checksum of the nine digits 1 to 9 is CBF43926, the check value published for it |
| Crc32.BitBack | src/util/crc32.npk:16-23 | a bit step is a bijection of the register |
| Crc32.RunInjective | src/util/crc32.npk:39-45 | from different registers the same bytes lead to different registers |
| Crc32.BurstDetected | src/util/crc32.npk:34-48 | messages of equal length that differ only inside four consecutive bytes have different checksums |
| Crc32.SameResidue | src/util/crc32.npk:34-48 | every message followed by its stored checksum leaves the register at the same value |
| Wal.Int32Back | src/util/mem_primitives.npk:28-35 | lengths below 2^31 read back from their four bytes |
| Wal.LowByteFirst | src/util/mem_primitives.npk:28-35 | fields and checksums lie with their low byte first |
| Wal.RecordBytes | src/storage/wal.npk:68-148 | every byte of a put's record and of a delete's, type 1 and 2, and the checksum of all the others in front |
| Wal.ReadBack | src/storage/wal.npk:389-440 | a record is read back whole whatever follows it |
| Wal.CutIsTorn | src/storage/wal.npk:389-440 | a record cut anywhere is never taken for a whole one |
| Wal.BurstIsTorn | src/storage/wal.npk:433-437 | a record with up to four changed bytes in a row behind its length is never taken for a whole one |
| Wal.ChecksumIsTorn | src/storage/wal.npk:433-437 | a record whose checksum bytes alone were changed, however many, is never taken for a whole one |
| Wal.SurvivesLog | src/storage/wal.npk:102-148 | an operation decodes to itself exactly when its key has no zero byte |
| Wal.ReplayLog | src/storage/wal.npk:466-508 | replaying a log gives back its operations in order |
| Wal.CrashRecovery | src/storage/wal.npk:466-508 | of a log cut at any byte, replay applies exactly the completely written operations and keeps exactly their bytes |
| Wal.CorruptionStops | src/storage/wal.npk:466-508 | replay stops in front of a record with a changed checksum or a short burst of changed bytes behind its length, whatever follows |
| Wal.Replay | src/storage/wal.npk:466-508 | the replay loop rebuilds the memtable of those operations and cuts a torn tail |
| Levels.AddTableFinds | src/storage/level_manager.npk:95-133 | with room on level 0 a new table is what reads meet first, and all other files are as before |
| Levels.FoundFirst | tests/test_integration/rewrite_db_get.py:52-101 | a read looks at levels 0 to 4 and no further, and takes the first entry that a level has |
| Lsm.FlushHolds | src/storage/flush.npk:31-71 | writing the frozen table to level 0 and destroying it changes no answer of the layers that are left |
| Lsm.FlushExact | src/storage/level_manager.npk:106-131 | a flush keeps all answers exactly when level 0 has room or the frozen table says nothing new |
| Lsm.DropExact | src/storage/write_path.npk:104-123 | letting an unwritten frozen table go keeps all answers exactly when everything in it is also said elsewhere |
| Lsm.PutThenGet | tests/test_integration/rewrite_db_get.py:26-36 | a read right after a put, whatever was written before, returns the value exactly when the value has no zero byte and the key has none either, or the value is empty |
| Lsm.ZeroByteExamples | tests/test_integration/rewrite_db_get.py:26-36 | a cut value, a lost key, and an answer for a key never written |
| Lsm.RebuiltHolds | src/storage/write_path.npk:49-52 | a memtable rebuilt from all operations answers like the latest-wins map, for keys without zero bytes |
| Lsm.RecoveredHolds | src/storage/write_path.npk:37-74 | after a crash at any byte of a log the rebuilt store holds the map of exactly the operations completely written to that log |
| Lsm.RestartExact | src/storage/compaction_worker.npk:41-44 | after the log was emptied, a restart gives back the map exactly when every key present then has been written again since |
| Lsm.TruncationLoses | src/storage/compaction_worker.npk:41-44 | one put, an emptied log and a restart lose the value |
| Lsm.GetFromDisk | tests/test_integration/rewrite_db_get.py:52-101 | the nested loops return the newest entry's value over level 0 from the newest file and levels 1 to 4, and a tombstone ends the search |
| Merge.MergeStep | src/util/min_heap.npk:51-81 | the first record in the heap's order is the least key with the entry of the last run that has it, and without that key's records only greater keys are left |
| Merge.MergeIter.Next | src/storage/compaction.npk:43-84 | the next record of the merge takes exactly its key out of what is left, with the entry that counts, whichever runs have the key |
| Merge.WriteMerged | src/storage/compaction.npk:291-336 | the loop writes, in ascending order, exactly the keys of all runs with the entry of the last run that has each, but for tombstones with nothing below to hide |
| Compaction.SortFiles | src/storage/compaction.npk:206-227 | the insertion sort of the source files in place |
| Compaction.SortSorted | src/storage/compaction.npk:206-227 | that sort puts the same files in the order of their numbers |
| Compaction.Overlapping | src/storage/compaction.npk:138-185 | exactly the files of level 1 whose key ranges meet the range of the captured files are merged |
| Compaction.MergeSources | src/storage/compaction.npk:131-336 | range, overlap, sort and merge yield the records of all sources, each key with the record of the file of the greatest number |
| Compaction.CompactLevel | src/storage/compaction.npk:131-405 | the new file is registered on level 1 while there is room, exactly the sources are taken off both levels, and their files are deleted |
| Compaction.FilesLeft | src/storage/compaction.npk:358-397 | exactly the captured files and the files of level 1 that meet their range are deleted, and exactly the new one, if it has records, is added |
| Compaction.NewFileHolds | src/storage/compaction.npk:291-336 | the new file has exactly the merged records, without the tombstones if and only if no level from 2 on has a file |
| Compaction.CompactExact | src/storage/compaction.npk:131-405 | a compaction keeps all answers if and only if, for each key that no later file has, the source of the greatest number and the one a read meets first say the same |
| Compaction.OrderedKept | src/storage/compaction.npk:206-227 | while every file of level 0 has a greater number than those before it and than all of level 1, a compaction keeps all answers |
| Compaction.OrderedAfter | src/storage/compaction.npk:278-281 | the numbers stay in that order exactly when the new file got its number before every file registered on level 0 meanwhile |
| Compaction.OrderedFlush | src/storage/flush.npk:55-67 | a flush keeps the numbers in that order |
| Compaction.LateFileLoses | src/storage/compaction.npk:135-281 | a file flushed during a compaction under a smaller number than its output loses, at the next compaction, every key that both have to the older record |
| Compaction.LosingRun | src/storage/compaction.npk:135-281 | a concrete run of five files and two compactions that brings back an overwritten value |
| Compaction.BetweenStale | src/storage/compaction.npk:350-400 | when level 0's sources are gone and those of level 1 are not, a read of a key of one of the latter finds its old record |
| Compaction.TreeAfter | src/storage/compaction.npk:131-405 | after a compaction no two files of level 1 share a key, no number is registered twice, and every registered file is there |
| Lsm.WritePath.DbGet | tests/test_integration/rewrite_db_get.py:24-103 | a read returns the value of the newest operation on the key up to its first zero byte, or the empty string after a delete or none, all of it exactly when it has no zero byte; never anything for a key with a zero byte; it looks into a destroyed table exactly when the frozen one is destroyed and the active one lacks the key |
| Lsm.WritePath.WpPut | src/storage/write_path.npk:76-161 | a put, with any freeze, flush, wait and compaction it causes, changes the latest-wins map at its key only and appends its record; when the table was full, the other layers are those after that flush and compaction and fewer than 8 files stay on level 0; a failed log write writes nothing; reads stay right when the key has no zero byte, the flush could write its file and the compaction kept all answers, as it does while file numbers follow recency and level 1 has room |
| Lsm.WritePath.WpDelete | src/storage/write_path.npk:163-194 | a delete removes its key only and appends its record; a failed log write changes nothing; reads stay right when the key has no zero byte |
| Lsm.WritePath.FreezeActive | src/storage/write_path.npk:91-98 | freezing changes no answer |
| Lsm.WritePath.FlushMemtable | src/storage/flush.npk:31-71 | a flush registers the table and destroys it while it is still pointed to, leaves it alone when its file cannot be written, changes no answer of the layers left, and keeps file numbers in the order of recency |
| Lsm.WritePath.LetGo | src/storage/write_path.npk:115-124 | letting the frozen table go changes no answer when it was written or said nothing new |
| Lsm.WritePath.Compact | src/storage/compaction_worker.npk:41-44 | the files change as the merge changes them; reads stay right exactly when it keeps all answers, as it does while file numbers follow recency and level 1 has room; when it empties the log, the log holds what is written from then on |
| Lsm.WritePath.Reopen | src/storage/write_path.npk:37-74 | a restart from the front part of a log holds the map of exactly its whole records |
| SkipList.SearchFinds | src/storage/skiplist.npk:239-266 | a search in the sorted row finds the first node that reads as the key |
| SkipList.InsertIsPut | src/storage/skiplist.npk:175-237 | an insert keeps the row sorted and does to the table of first matches what a put does, also for keys with zero bytes |
| SkipList.DeleteIsDelete | src/storage/skiplist.npk:268-295 | a delete keeps the row sorted and does to that table what the table's delete does |
| SkipList.RowIsTable | src/storage/skiplist.npk:175-295 | after any history of puts and deletes a search of the row is a look-up in the table |
| Flatten.SeenExactly | flatten.py:8-36 | exactly the files that the entry point reaches are visited, with or without cycles |
| Flatten.WrittenOnce | flatten.py:21-40 | each visited file's kept lines are written once and in order, and no other file's |
| Flatten.LineWritten | flatten.py:24-40 | a line of a reached file is written if and only if it is no import or names a file that does not exist, as library imports do |
| Flatten.VisitedExist | flatten.py:28-36 | every visited file but the entry point exists |
| Flatten.LibraryExample | flatten.py:28-33 | a program of one library import is written as it is |
| Flatten.WrittenInPlace | flatten.py:22-40 | every visited file but the entry point stands where a visited file names it: behind that file's lines in front of the import and before those that follow, also in cycles |
| Flatten.ImportsFirst | flatten.py:22-36 | an imported file stands before everything behind its import in the importing file, unless the import is part of a cycle |
| Flatten.ReadBack | flatten.py:48-50 | reading a written text gives back the written lines exactly when each but the last ends in a newline |
| Flatten.GluedExample | flatten.py:21-50 | an imported file without a newline at its end is glued to the next line, and the map has a number without a line |
| Flatten.Flattener.ProcessFile | flatten.py:8-40 | the recursion ends on cyclic imports and visits and writes what the specification says |
| Flatten.Flattener.Output | flatten.py:45-53 | number k of the line map names the line that is line k + 1 of the written text, for all k, exactly when every written line but the last ends in a newline |

## Left out

- ArtIndex.Art.Insert: of an insert whose leaf split leaves more than 64 prefix bytes only the result is stated. Node prefixes are sequences; the 64 bytes of the header enter through the guard.
- ArtIndex.Art.Delete: after a collapse whose prefix does not read right only the shape of memory and the tree it stands for are stated, since the tree then no longer spells its keys' paths. Of a prefix beyond the header, the bytes behind the end of the node (from prefix byte 100 on in a Node4) are taken for zeroes, and that later writes to child slots change such bytes is not modelled; no further operation is stated on a tree that has such a prefix.
- ArtTrie.InsCorrect: keys are free of zero bytes; keys with zero bytes that extend no other key would work as well, which is shown for leaf splits only.
- ArtBeyond.LongPrefix: for more than 65 prefix bytes the condition is necessary only, since the bytes of child addresses then decide.
- ArtConcurrent.SearchLinearizable: retired nodes are never reused, which is what epoch-based reclamation is for; its pins, grace period and frees are not part of this model. Reads and writes are sequentially consistent. New nodes become part of memory at the moment they are published. Runs consist of writes that readers can rely on, so inserts and deletes whose new prefixes do not read right are excluded.
- ArtConcurrent.SearchEnds: the same runs.
- ArtIter.Iter.Next: the iterator runs over memory that no writer changes meanwhile.
- Seqlock.ValidatedIsCurrent: accesses are sequentially consistent and the 64-bit counter does not wrap; one step copies one byte.
- HnswSelect.SelectNeighbors: distances are real numbers with their total order; the float kernels and the random layer draw are parameters.
- HnswGraph.Graph.Insert: the entry point is live and links are honest: each was issued at some time, live or stale now (`HnswArena.ArenaSafe`).
- HnswSearch.SearchLayer: documents and the filter are functions of the vector; the filter's own evaluation is not modelled. The version modelled is src/vector/hnsw_search.npk, which opens nodes that fail the filter; an older one is in backup.patch.
- HnswArena.Arena.FreeNode: negative slot numbers are excluded, as the source's own contract does for frees; forged handles are excluded as described above.
- Lsm.WritePath.Compact: the files change in one step; the moments in between are in `Compaction.BetweenStale`. Numbers are taken one at a time, and failures to open, write or finish a file are not modelled. File contents are maps, and a file's iterator yields its records in ascending key order: blocks, footers and bloom filters are not modelled.
- Merge.MergeIter.Next: the heap is the set of runs that have a record in it, and its root the one that stands first; its array is not modelled again (see `HnswQueue` for such a heap).
- Compaction.CompactLevel: level 0 into level 1, the only compaction that the worker runs.
- Lsm.WritePath.WpPut: fullness, the success of the log and of the file, and when the worker compacts what are parameters. Readers are interleaved between the steps of a flush, not inside one.
- Lsm.WritePath.DbGet: what a read of freed memory yields is not modelled; it is reported as no answer.
- SkipList.RowIsTable: the upper levels of the list, which only skip ahead along the bottom row, are not modelled.
- Wal.Replay: key and length fields are read only from records of puts and deletes that are long enough for them; the source reads them from every record. Group commit, its worker thread and its buffer are not modelled.
- Flatten.Flattener.ProcessFile: matching the import pattern and resolving paths are a function of the file and the line; files hold lines as reading a text gives them (`Flatten.LinesOfText`).
- Memory exhaustion, and the frees and retirements that follow a publish.
- The radix tree's teardown, node locks and obsolete marks, which the operations above do not use.
- Server, router, the controllers but for the search of a query, configuration, JSON, slotted pages and the one-off repair scripts.
