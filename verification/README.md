# Verified models of a C data-structure library

This project models nine data structures of the library in Dafny and proves that each refines
something simple: a map, a set, a sequence or a sorted list.  Where the source changes memory in
place, the model does: classes with fields and arrays, loops with invariants, one assignment per write.

`dafny verify dfyconfig.toml` checks everything.

**Hash table** (`Words`, `BitReversal`, `ScanOrder`, `Buckets`, `ScanSteps`, `ScanRuns`, `Dict`).  Two
bucket arrays, incremental rehashing, and the stateless scan.  A cursor is read backwards: a hash has a
*place*, the number of its reversed bits, and one call covers the places from that of the cursor to the
end of a block.  A run may see any consistent dictionary at each call.

**Radix tree** (`RaxNodes`, `RaxEdits`, `RaxTight`, `RaxOrder`, `Rax`, `RaxIter`).  Insertion with both ways of
splitting, removal with pruning and recompression, and the iterator, against a map from byte strings.

**Red-black tree** (`SortedItems`, `RedBlack`, `RbStore`, `RbRepairs`, `RbUnlink`, `RbSteps`, `RbTree`).
Cells in a store, the explicit stack of nodes and directions, and the pseudo-root.

**On-disk B-tree** (`DiskImages`, `BtreeNodes`, `DiskLedger`, `DiskSteps`, `DiskAllocator`, `BtreeShape`,
`BtreeOnDisk`, `BtreeRuns`, `BtreeOperations`).  The file is a string of bytes; each `pwrite` is one
step, and the ghost field `trail` keeps the file after every step together with the free lists that
reopening it would find.  A *book* says of every block ever carved whether it is in use, an item of a
free list or a block that holds items.  `Recovers(s, M)` says that opening the file of `s` gives the map M.

**Skip list** (`SkipLevels`, `SkipCells`, `SkipList`), **listpack** (`Decimals`, `ListpackEntries`,
`ListpackFormat`, `ListpackLayout`, `Listpack`), **integer set** (`LittleEndian`, `Memory`, `PackedValues`, `IntSet`),
**quoted strings** (`Bytes`, `SdsArgs`, `SdsGrammar`) and **AVL tree** (`AvlShape`, `AvlStore`, `AvlSteps`, `AvlTree`).

Trees are handled as a path and what hangs below it: the path stands for the stack, or for the parent
links, and each group of pointer writes is proved to turn the cells of one path and tree into those of
another.

## What turned out otherwise than documented

- `intsetMoveTail` computes the number of bytes in 32 bits.  Adding and removing are right exactly when
  the tail fits (`IntSet.Add`, `IntSet.Remove`); `TooLong` and `TooLongToRemove` are sets for which it
  does not.
- `btree_alloc` grows the file by a fixed amount and then subtracts the rounded size.  This is right for
  every file exactly when the rounded size is at most that amount (`CarveBound`); `TooLarge` is a size
  beyond it, in a file as its creation leaves it.
- `btree_add` answers `EBUSY` for a key that exists, where its comment names `EEXIST`; the model has no
  error numbers.
- `btree_alloc_freelist` calls `btree_free` at offset 0 when no block was cut off.  The offset minus 8
  wraps around, the read fails, and nothing is released.
- `raxRemove` starts merging at a node that lost its key only if the node has one byte or edge, and
  `raxGenericInsert` never merges.  Call a node that is no key and has one child a *link*.  A tree with nothing left to merge stays so under removal exactly when
  the key does not belong to a compressed node with a link above or below it, and under insertion exactly
  when the key does not split a compressed node that is a key above a link (`Rax.Remove`, `Rax.Insert`);
  `FooBarStrands` and `FooBarQStrands` are inputs that leave such links.

## Model

| member | source | states |
|---|---|---|
| BitReversal.ReverseBits | src/hash/dict.c:715-723 | The loop of mask and shift steps returns the flat network `Rev`, for every 64-bit word |
| BitReversal.RevIsMirror | src/hash/dict.c:715-723 | `Rev` reverses the 64 binary digits of the number a word denotes |
| ScanOrder.SameBucketSameBlock | src/hash/dict.c:735-758 | Two hashes share a bucket of a table with k mask bits exactly when their reversals share a block of size 2^(64-k) |
| ScanOrder.NextPlace | src/hash/dict.c:834-841 | Filling the unmasked bits and incrementing the reversed cursor moves to the start of the next block, and to 0 after the last |
| ScanOrder.LoopTest | src/hash/dict.c:883-884 | The test `v & (m0 ^ m1)` is true exactly while the cursor is inside the block of the smaller table |
| Dict.Advance | src/hash/dict.c:834-841 | The cursor statements move the cursor to the start of the next block of a table with that mask, or back to 0 after the last |
| Dict.Dict.EmitBucket | src/hash/dict.c:825-832 | The bucket at the cursor emits exactly the entries whose reversed hash shares the block of the cursor, no key twice |
| Dict.Dict.Scan | src/hash/dict.c:809-888 | One call, during a rehash or not, emits what `ScanStep` says, no key twice, and returns that cursor, for any cursor |
| Dict.Dict.ScanBoth | src/hash/dict.c:843-885 | During a rehash: the bucket of the smaller table, then exactly its expansions in the larger one, no key twice |
| ScanRuns.StepCovers | src/hash/dict.c:809-888 | On any consistent dictionary one call emits every present key whose reversed hash lies from the cursor to the end of its block, and moves the cursor to that end |
| ScanRuns.NothingSkipped | src/hash/dict.c:734-791 | Before call n of any run, a key present in all snapshots has been emitted or lies at or after the cursor |
| ScanRuns.ScanIsComplete | src/hash/dict.c:734-791 | A run that is back at cursor 0 has emitted every key present throughout, whatever consistent states (grown, shrunk, half rehashed) lie between the calls |
| ScanRuns.ScanEnds | src/hash/dict.c:734-791 | A run makes at most 2^w calls when the smaller table never has more than 2^w buckets |
| Dict.NextPower | src/hash/dict.c:915-925 | The least power of two that is at least 4 and at least the size, with the cap at LONG_MAX |
| Dict.Dict.Expand | src/hash/dict.c:127-156 | When it succeeds, which table gets which size, and that the map does not change; nothing changes when it fails |
| Dict.Dict.MoveBucket | src/hash/dict.c:185-203 | Moving one chain to the second table keeps the map, both counts and the empty buckets below `rehashidx` |
| Dict.Dict.Rehash | src/hash/dict.c:167-210 | n steps keep the map; when buckets are left they have moved exactly n of them, or met 10 n empty ones; when none are, one table holds all entries, and no budget ran out before; the buckets passed are counted by what they held before the call |
| Dict.Dict.RehashStep | src/hash/dict.c:231-241 | One step of rehashing, exactly when no iterator is running |
| Dict.Dict.Resize | src/hash/dict.c:116-124 | Succeeds exactly when resizing is allowed, no rehash runs, fewer than 2^31 keys are there and the rounded number of keys is another size than the present one; says which table then gets that size, and that nothing changes otherwise |
| Dict.Dict.ExpandIfNeeded | src/hash/dict.c:893-912 | An empty table gets the initial size, a full one starts growing to the power of two for twice its keys when resizing is allowed or the load exceeds the limit, and nothing changes otherwise; fails only past LONG_MAX entries, so the error branch of `_dictKeyIndex` is otherwise unreachable |
| Dict.Dict.KeyIndex | src/hash/dict.c:934-957 | The place of a key that exists, or the bucket of the table that new keys go to |
| Dict.Dict.AddRaw | src/hash/dict.c:270-295 | Adds a missing key to the table for new keys, returns the entry of an existing one; during a rehash it moves on at least one bucket |
| Dict.Dict.PushEntry | src/hash/dict.c:286-293 | The entry becomes the head of one chain, in the new table during a rehash; no other bucket changes |
| Dict.Dict.Add | src/hash/dict.c:244-250 | Map insertion of a missing key, nothing for an existing one |
| Dict.Dict.Replace | src/hash/dict.c:302-322 | Map update, and whether the key is new |
| Dict.Dict.Delete | src/hash/dict.c:340-375 | Map removal in the middle of a rehash or not; returns the value that was there; during a rehash it moves on at least one bucket unless there are no keys |
| Dict.Dict.Find | src/hash/dict.c:451-469 | Map lookup; the rehash step it takes leaves the map alone, and moves on at least one bucket unless there are no keys |
| Dict.Dict.SnapIsConsistent | src/hash/dict.c:809-888 | Every reachable dictionary is a consistent snapshot, so the theorems about runs apply to it |
| Rax.Rax.LowWalk | src/tree/rax.c:600-641 | Stops where the key leaves the tree: the path spells the part consumed and the next byte does not fit |
| Rax.WalkGet | src/tree/rax.c:1059-1069 | A key is present exactly when the walk used it up at the start of a node that holds a value |
| Rax.Rax.Find | src/tree/rax.c:1059-1069 | Lookup in the map |
| Rax.Split | src/tree/rax.c:817-923 | Splitting a compressed node at byte j keeps all lookups, keeps the rules for nodes and counts the new nodes |
| Rax.Extend | src/tree/rax.c:987-1018 | Adds compressed chunks and single edges until the path spells the key, counting the nodes |
| Rax.ValueSet | src/tree/rax.c:650-1041 | Any such sequence of steps followed by setting the value gives the tree of the updated map, with exact node count |
| Rax.Rax.Insert | src/tree/rax.c:650-1041 | Map update with or without overwriting, for every key and tree; `numele` and `numnodes` stay exact; a tree with nothing left to merge stays so exactly unless the key splits a compressed node that is a key above a link |
| RaxEdits.Trim | src/tree/rax.c:924-985 | Cutting a compressed node where the key ends |
| RaxEdits.AddEdge | src/tree/rax.c:397-528 | A new edge in its sorted place changes the lookups below that byte alone |
| RaxEdits.Compress | src/tree/rax.c:538-569 | A chain of bytes below a leaf becomes one compressed node |
| RaxEdits.WithoutEdge | src/tree/rax.c:1091-1160 | Removing a child keeps the edges sorted and the other lookups |
| Rax.Prune | src/tree/rax.c:1189-1224 | Freeing childless nodes upwards keeps all lookups, keeps the rules, counts the freed nodes, and says when recompression may follow |
| Rax.Recompress | src/tree/rax.c:1278-1357 | Merging a chain of single-child nodes into one compressed node keeps all lookups and counts the freed nodes |
| Rax.Tidy | src/tree/rax.c:1189-1357 | Pruning and recompression together, after the value is gone, leave the tree of the same map |
| Rax.Rax.Remove | src/tree/rax.c:1164-1361 | Map removal for every key, with exact counts and every childless node but the head holding a key; a tree with nothing left to merge stays so exactly unless the key belongs to a compressed node whose parent or child is a link |
| RaxTight.PlugTight | src/tree/rax.c:1278-1357 | What makes a tree free of mergeable links, told from a path and the node in its hole |
| RaxTight.StopsAt | src/tree/rax.c:600-641 | The walk of the source stops where the descent from the head, which the two conditions are stated by, stops |
| RaxTight.FooBarStrands | src/tree/rax.c:1225-1229 | Removing "foo" from the tree of "foo" and "foobar" leaves two nodes that could be one |
| RaxTight.FooBarQStrands | src/tree/rax.c:817-923 | So does an insertion that splits a compressed key above a link |
| RaxOrder.ThreeWays | src/tree/rax.c:1484-1580 | Every key lies below the node of a path, after it or before it |
| RaxOrder.FoundFirst | src/tree/rax.c:1484-1580 | A node reached downwards is the first wanted key, or the wanted keys below it are still ahead |
| RaxIter.NextStep | src/tree/rax.c:1484-1580 | Moves to the least key wanted, or reports that there is none and stays |
| RaxIter.PrevStep | src/tree/rax.c:1604-1675 | The same backwards |
| RaxIter.SeekGreatest | src/tree/rax.c:1585-1599 | Ends at the greatest key below a node |
| RaxIter.RaxIterator.Seek | src/tree/rax.c:1681-1840 | For each of the operators and every key: the least greater, greatest smaller, equal, first or last key, or EOF exactly when there is none; refused exactly for a bad operator |
| RaxIter.RaxIterator.SeekGreater | src/tree/rax.c:1757-1832 | The mismatch cases of a seek for greater keys |
| RaxIter.RaxIterator.SeekSmaller | src/tree/rax.c:1757-1832 | The mismatch cases of a seek for smaller keys |
| RaxIter.RaxIterator.Next | src/tree/rax.c:1845-1855 | After a seek the key found, then the least greater key each time |
| RaxIter.RaxIterator.Prev | src/tree/rax.c:1860-1870 | After a seek the key found, then the greatest smaller key each time |
| RaxIter.RunVisitsRest | src/tree/rax.c:1845-1855 | Steps forward from any key to EOF visit exactly that key and the greater ones, once each, in lexicographic order |
| RaxIter.RunBackVisitsRest | src/tree/rax.c:1860-1870 | Steps backward from any key to EOF visit exactly that key and the smaller ones, once each, in reverse order |
| RaxIter.SeekThenNext | src/tree/rax.c:1681-1855 | After a seek with `>`, `>=` or `^`, repeated steps forward visit exactly the keys asked for, in order |
| RaxIter.SeekThenPrev | src/tree/rax.c:1681-1870 | After a seek with `<`, `<=` or `$`, repeated steps backward visit exactly the keys asked for, in reverse order |
| RbTree.RbTable.StraightenPair | src/tree/rbtree.c:141-149 | The pointer writes of the inner rotation turn the cells of the path into those of the straightened one |
| RbTree.RbTable.RotateUp | src/tree/rbtree.c:151-157 | The writes of the outer rotation, in both mirror images |
| RedBlack.RotateOuterKeeps | src/tree/rbtree.c:151-157 | That rotation restores equal black heights without a red-red edge |
| RedBlack.RotateInnerKeeps | src/tree/rbtree.c:141-157 | So does straightening followed by rotating |
| RedBlack.RecolorKeeps | src/tree/rbtree.c:134-137 | Recolouring below a red uncle moves the problem two levels up |
| RbTree.RbTable.RepairInsertion | src/tree/rbtree.c:130-192 | The loop ends in a red-black tree with the same items in order |
| RbTree.RbTable.Probe | src/tree/rbtree.c:99-194 | Inserts or finds: the items are the sorted insertion, an existing item stays untouched, all other nodes keep their addresses and items, and the stack stays inside its arrays |
| RedBlack.RaiseSiblingKeeps | src/tree/rbtree.c:299-313 | Raising a red sibling over the parent keeps the deficit and the items |
| RedBlack.PassUpKeeps | src/tree/rbtree.c:315-317 | Reddening the sibling moves the deficit one level up |
| RedBlack.SettleKeeps | src/tree/rbtree.c:328-334 | The last rotation ends the deficit |
| RbTree.RbTable.TakeDirect | src/tree/rbtree.c:251-258 | The right child takes the place of the deleted node |
| RbTree.RbTable.TakeSuccessor | src/tree/rbtree.c:259-283 | The successor further down takes the place, colours swapped, with the stack entries changed in the middle |
| RbTree.RbTable.Unlink | src/tree/rbtree.c:245-284 | All three ways of cutting out a node leave the other items and a deficit of exactly one black |
| RbTree.RbTable.RepairDeletion | src/tree/rbtree.c:286-382 | The loop removes the deficit, whatever the colours, in both mirror images |
| RbTree.RbTable.Delete | src/tree/rbtree.c:222-388 | Removes exactly the matching item and returns it; search order, colours, black heights and the black root hold again; all other nodes keep their addresses and items, and no node leaks |
| RbTree.RbTable.Find | src/tree/rbtree.c:392-408 | The item with this key, or none |
| SortedItems.InsertIsUpdate | src/tree/rbtree.c:99-194 | On sorted sequences the insertion is the map update that keeps existing keys |
| SortedItems.RemoveIsDeletion | src/tree/rbtree.c:222-388 | On sorted sequences the removal is the map removal |
| RedBlack.HeightBound | include/rbtree.h:41-44 | A tree of n items has height at most 2 log2(n + 1) |
| RedBlack.PathsFit | include/rbtree.h:41-44 | Below 2^63 - 1 items no path is longer than 124, so stacks of 128 suffice |
| BtreeNodes.DecodeEncodeNode | src/tree/btree.c:402-462 | Reading back the 252 bytes of a written node gives the node, marks included |
| BtreeNodes.NodeFormat | src/tree/btree.c:402-425 | Where the marks, counts, keys, values and children of a node are among its 252 bytes |
| BtreeNodes.ChildPatched | src/tree/btree.c:824-824 | Overwriting eight bytes at the place of child i changes that child pointer and nothing else |
| BtreeNodes.ValuePatched | src/tree/btree.c:783-784 | The same for a value pointer |
| BtreeNodes.MemcmpOrder | src/tree/btree.c:756-768 | `memcmp` on keys is the order of the numbers that they spell |
| DiskAllocator.AllocRealSize | src/tree/btree.c:541-547 | The least power of two from 16 up that holds the size and its label |
| DiskAllocator.LogTwo | src/tree/btree.c:470-478 | The logarithm of a power of two |
| DiskSteps.PushSound | src/tree/btree.c:689-704 | Raising an item count makes a block in use an item of its list; the file is sound after that write |
| DiskSteps.PopSound | src/tree/btree.c:527-534 | Lowering an item count makes the last item a block in use that was none before |
| DiskSteps.LinkSound | src/tree/btree.c:662-664 | Linking a prepared block behind a full one; all blocks but the last stay full |
| DiskSteps.UnlinkSound | src/tree/btree.c:491-516 | Cutting off an empty last block |
| DiskSteps.UnreadSound | src/tree/btree.c:658-661 | Writes into bytes that the allocator does not read keep the file sound |
| DiskAllocator.CarveSteps | src/tree/btree.c:586-600 | Each of the three header writes that carve a block leaves a sound file |
| DiskAllocator.CarveBound | src/tree/btree.c:578-590 | Growing the file once suffices, for every file, exactly when the rounded size is at most the growth; otherwise the free count wraps around |
| DiskAllocator.TooLarge | src/tree/btree.c:578-590 | A size for which it does not suffice, in a file as `CreateTree` leaves it |
| DiskAllocator.Btree.AllocFreelist | src/tree/btree.c:480-536 | Gives none exactly when the list of the class has no block, and then nothing changed; otherwise a block of the class, the one released last if the last list block holds any; the call at offset 0 reads and releases nothing |
| DiskAllocator.Btree.Alloc | src/tree/btree.c:551-601 | A block that was not in use, labelled with the size: from its free list whenever that has one, without carving or growing the file, otherwise carved; refused only if the file was too small and could not grow; all blocks in use, and the root pointer, are untouched after every write; every carved byte stays in exactly one block; the last block of the list it looked at is not full afterwards |
| DiskAllocator.Btree.Free | src/tree/btree.c:626-707 | The block leaves the blocks in use and nothing else changes; it is the next one that its list gives out, or an empty block of the list of list blocks; fails only if the file cannot grow and the last block of its list is full; ends although it and allocation call each other |
| DiskAllocator.Btree.Create | src/tree/btree.c:310-350 | The laid out file has 57412 bytes, starts with the magic and is sound and empty |
| DiskAllocator.Btree.Open | src/tree/btree.c:352-387 | Reading the metadata of any sound file, as left by a crash too, gives back its free lists |
| DiskAllocator.HeaderFormat | include/btree.h:39-67 | Where a sound file keeps its free space, and the first block of each of the 28 lists |
| DiskAllocator.ListFormat | src/tree/btree.c:364-384 | The link, count and items of a list block, as eight bytes each, at literal offsets |
| DiskAllocator.ChunkFormat | src/tree/btree.c:541-547 | The first eight bytes of a block give a size that needs its class and no smaller one |
| BtreeShape.PartedItems | src/tree/btree.c:865-898 | Splitting a full kid keeps all items in order |
| BtreeShape.PartedShape | src/tree/btree.c:865-898 | and the rules for numbers of keys and depth |
| BtreeShape.PartedFoot | src/tree/btree.c:865-898 | and gives up exactly the blocks of the old parent and kid for three new ones |
| BtreeShape.PartedRoomy | src/tree/btree.c:811-831 | After a split the kid that the key belongs to is not full, so the parent is never split twice |
| BtreeRuns.Commit | src/tree/btree.c:804-806 | Writing one pointer makes the file mean the tree with the new subtree in place, and not earlier |
| BtreeRuns.CommitOver | src/tree/btree.c:783-784 | The same for overwriting a value pointer |
| BtreeOperations.WriteNode | src/tree/btree.c:402-425 | The bytes of the node with the next mark are at its place, and the file gives the same map |
| BtreeOperations.InsertLeaf | src/tree/btree.c:792-809 | New key in a leaf: value and node go to unreferenced blocks, one write commits, then the old node is released, which cannot fail; so an error leaves the old map |
| BtreeOperations.Overwrite | src/tree/btree.c:772-790 | New value for a key, with the commit by one write |
| BtreeOperations.SplitChild | src/tree/btree.c:847-923 | At every write the file gives the same map; three nodes are written before the commit, two released after it |
| BtreeOperations.AddNonfull | src/tree/btree.c:749-838 | Descends, splitting full kids, and inserts, replaces or refuses; it ends; an error leaves the old map |
| BtreeOperations.Add | src/tree/btree.c:925-951 | On success the new map is the old one with the key added, or replaced if asked, and on an error it is the old one, also when the file may not grow; every file on the way gives the old map up to one write and the new map from there on; the tree keeps its shape; if the file could grow, the key is refused only when present and not to be replaced, and no block is lost |
| BtreeOperations.Find | src/tree/btree.c:960-987 | Finds exactly the keys of the map, and the offset where the last value stored is |
| BtreeOperations.CreateTree | src/tree/btree.c:227-291 | A new file holds the empty map, with the free space that one block for the root leaves |
| BtreeOperations.Reopen | src/tree/btree.c:227-291 | A file that some write of an insertion left opens with its map, fit for further insertions |
| BtreeOperations.CrashSafe | src/tree/btree.c:735-741 | After a crash behind any write the file gives the old or the new map, and never the old one again after the new |
| BtreeOperations.RootFormat | include/btree.h:64-67 | Where the file keeps the offset of its root |
| SkipList.SkipList.Walk | src/list/skiplist.c:113-126 | The last node before the position on each level, and its rank |
| SkipList.SkipList.Thread | src/list/skiplist.c:141-153 | Threading a node into any number of levels keeps every link and span right |
| SkipList.SkipList.Insert | src/list/skiplist.c:106-162 | The entry is in its sorted place whatever level is drawn; links, spans, backward links, tail and length hold, and the level is the greatest height |
| SkipList.SkipList.Unthread | src/list/skiplist.c:166-173 | Taking a node out of all levels keeps every link and span right |
| SkipList.SkipList.DeleteNode | src/list/skiplist.c:164-182 | The list without that entry, with the level lowered to the greatest height left, or 1 |
| SkipList.SkipList.Delete | src/list/skiplist.c:192-219 | Removes exactly this entry, and says whether it was there |
| SkipList.SkipList.UpdateScore | src/list/skiplist.c:232-274 | The entry with the new score in its sorted place; the node and its address stay exactly when the score fits between the neighbours, otherwise a new node replaces it |
| SkipList.SkipList.GetRank | src/list/skiplist.c:465-486 | The position from 1 in the sorted list, 0 for an entry that is not there |
| SkipList.SkipList.ByRankFrom | src/list/skiplist.c:302-320 | The node so many steps ahead, by spans |
| SkipList.SkipList.IsInRange | src/list/skiplist.c:285-300 | True exactly when the bounds are in order, the last entry reaches the minimum and the first is within the maximum; false only if no entry is in the range |
| SkipList.SkipList.NthInRange | src/list/skiplist.c:325-398 | The n-th entry in the range, from the end for negative n, or none; for every n, short walks and span jumps alike |
| SkipCells.RangeIsSlice | src/list/skiplist.c:276-282 | The entries in a range are a slice of the sorted list |
| SkipList.SkipList.DeleteRangeByScore | src/list/skiplist.c:405-430 | Exactly the entries outside the range remain; how many went, and as many nodes were freed |
| SkipList.SkipList.DeleteRangeByRank | src/list/skiplist.c:434-459 | Exactly the entries outside the ranks remain, for all bounds; how many went, and as many nodes were freed |
| Decimals.StringToInt64 | src/list/listpack.c:143-204 | Accepts exactly the canonical decimal forms of the 64-bit integers, and returns the value |
| ListpackEntries.EncodeBacklen | src/list/listpack.c:298-333 | The length in as few 7-bit digits as needed, most significant first |
| ListpackEntries.DecodeBacklen | src/list/listpack.c:337-348 | Read from the right: the number of a field of up to five digits, the error value beyond that |
| ListpackEntries.BacklenReads | src/list/listpack.c:298-348 | What was encoded is read back |
| ListpackEntries.EncodeGetType | src/list/listpack.c:233-291 | The bytes of `IntFormat` when the string is a 64-bit integer in decimal; otherwise the size of its encoding, which is right exactly when the string has at most 2^32 - 6 bytes |
| ListpackEntries.EncodedReads | src/list/listpack.c:493-571 | The encoding of a string is a well-formed element, and then reads back as the string, exactly when it has at most 2^32 - 6 bytes |
| ListpackEntries.IntReads | src/list/listpack.c:493-571 | Each width of integer encoding reads back as its value |
| ListpackEntries.StrReads | src/list/listpack.c:354-370 | Each kind of string encoding reads back as the string; it is well-formed exactly when the string has at most 2^32 - 6 bytes |
| ListpackFormat.IntFormat | src/list/listpack.c:233-291 | For each range of integers, the literal first byte and every further byte as a digit of the value |
| ListpackFormat.ShortestForm | src/list/listpack.c:233-291 | No integer form with fewer bytes could hold the value |
| ListpackFormat.StrFormat | src/list/listpack.c:354-370 | For each range of lengths, the literal first byte, the digits of the length, and the string |
| ListpackFormat.BacklenFormat | src/list/listpack.c:298-333 | For each range of lengths, every byte of the back length, with its continuation bits |
| ListpackFormat.BodyFormat | src/list/listpack.c:374-386 | By the first byte, which byte strings are complete elements |
| ListpackFormat.ReadFormat | src/list/listpack.c:493-571 | By the first byte, what an element means, from its literal bytes; it does not refer to how elements are written |
| Listpack.Listpack.Next | src/list/listpack.c:402-407 | The next entry, or none at the end |
| Listpack.Listpack.Prev | src/list/listpack.c:412-418 | The entry before, or none: the inverse of Next |
| Listpack.Listpack.Get | src/list/listpack.c:493-571 | With a buffer the element as a string, otherwise its number or bytes |
| Listpack.Listpack.Length | src/list/listpack.c:440-457 | The number of elements also when the header says unknown; the header is repaired when it can hold it |
| Listpack.Listpack.Seek | src/list/listpack.c:762-804 | The element with this index, negative ones from the end, walking from either side |
| Listpack.Listpack.MakeRoom | src/list/listpack.c:652-681 | Growing, shifting and shrinking, in the order the source does them, keep both sides of the gap |
| Listpack.Listpack.Insert | src/list/listpack.c:597-733 | The buffer of the edited list: before, after, in place of, or without an element; header right; refused exactly when the size would exceed 32 bits |
| Listpack.Listpack.Append | src/list/listpack.c:738-742 | The list with the element at the end |
| Listpack.Listpack.Delete | src/list/listpack.c:748-750 | The list without the element |
| Listpack.Listpack.BufferFormat | src/list/listpack.c:208-215 | The bytes of the header and the end mark |
| ListpackLayout.ElementsEdited | src/list/listpack.c:597-733 | Edits of encoded entries are edits of the elements they stand for |
| IntSet.ValueEncoding | src/set/intset.c:43-50 | The narrowest width that holds the value |
| IntSet.IntSet.Search | src/set/intset.c:114-153 | Decides membership, and the position where the value is or belongs |
| IntSet.WidenStep | src/set/intset.c:171-172 | Going from the back, writing one widened value overwrites none that is still to be read |
| IntSet.IntSet.UpgradeAndAdd | src/set/intset.c:156-179 | All values are kept in the wider encoding, the new one before or behind them |
| IntSet.IntSet.MoveTail | src/set/intset.c:181-200 | Moves the number of bytes that 32 bits hold |
| IntSet.IntSet.Add | src/set/intset.c:203-230 | Reports a new value; the set is then the right one if and only if it was widened or the tail fits 32 bits |
| IntSet.IntSet.Remove | src/set/intset.c:233-250 | Reports a removed value; the set is then the right one if and only if the tail fits 32 bits |
| IntSet.TooLong | src/set/intset.c:181-200 | A set and a value for which the tail does not fit |
| IntSet.TooLongToRemove | src/set/intset.c:181-200 | A set and a member for whose removal the tail does not fit |
| IntSet.InsertedIsUnion | src/set/intset.c:203-230 | Sorted insertion is union with one value |
| IntSet.DeletedIsDifference | src/set/intset.c:233-250 | Sorted deletion is difference with one value |
| IntSet.IntSet.Find | src/set/intset.c:253-256 | Membership |
| IntSet.ValidateIntegrity | src/set/intset.c:299-340 | Accepts exactly the sound blobs, deep or not |
| IntSet.IntSet.BlobIsSound | src/set/intset.c:299-340 | Every reachable set that is not empty is a sound blob |
| LittleEndian.DigitAt | src/set/intset.c:79-92 | Byte i of an encoded number is its digit i in base 256 |
| LittleEndian.BytesOf | src/set/intset.c:53-71 | What two, three, four and eight bytes mean, the least significant one first |
| SdsArgs.CatRepr | src/string/sds.c:878-901 | Appends the quoted form of any byte string; printable bytes without backslash and quote are printed as they are |
| SdsArgs.EscapeForms | src/string/sds.c:878-901 | What each of the 256 bytes is printed as, literally |
| SdsArgs.EscapedJoin | src/string/sds.c:878-901 | The form of a concatenation is the concatenation of the forms |
| SdsArgs.NextToken | src/string/sds.c:963-1046 | The flag-driven loop reads one argument inside the bounds of the line, or reports unbalanced quotes, as the recursive reference parser does |
| SdsArgs.SplitArgs | src/string/sds.c:953-1061 | The arguments of the reference parser, for every line with a terminating NUL; what these are is `WellFormedParses` and `FailsExactly` |
| SdsArgs.SplitUndoesRepr | src/string/sds.c:878-1061 | Quoted forms of any byte strings, joined by spaces, parse to exactly these byte strings |
| SdsGrammar.WordParses | src/string/sds.c:963-1046 | Bytes outside quotes stand for themselves, double-quoted text for its decoded items and single-quoted text for its bytes, with the apostrophe behind a backslash; the word ends at a blank or the end of the line |
| SdsGrammar.WellFormedParses | src/string/sds.c:953-1061 | A line of such words with blanks before, between and behind them gives exactly their meanings |
| SdsGrammar.FailsExactly | src/string/sds.c:935-1061 | Parsing fails exactly when, after well-formed words, a quote is left open or a closing quote is followed by something else than a blank; all other lines are well-formed |
| SdsArgs.PrintAndSplit | src/string/sds.c:878-1061 | Calling the printer for each word, adding the spaces and the final NUL, and calling the parser gives back the words |
| SdsArgs.NoNul | src/string/sds.c:878-901 | Quoted forms contain no NUL, so the parser sees the whole line |
| SdsArgs.JoinSds | src/string/sds.c:1100-1109 | The parts with the separator between them |
| SdsArgs.SplitLen | src/string/sds.c:814-862 | The parts of the leftmost splitting, whose join is the input |
| AvlTree.AVLTree.NodeReplace | src/tree/avltree.c:122-141 | Whatever tree the second node is the root of stands in the place of the first afterwards, with every other link and parent link consistent and the parent measured anew |
| AvlStore.ReplaceState | src/tree/avltree.c:122-141 | They put another tree into the place of a node and leave every other link consistent |
| AvlTree.AVLTree.Rotate | src/tree/avltree.c:164-191 | For every path and tree in the cells: the rotated tree stands under the path afterwards, parent links included, with the heights that the order of the writes leaves |
| AvlStore.RotateState | src/tree/avltree.c:164-191 | They rotate the tree in the cells, parent links included, with the heights that the source leaves |
| AvlShape.RotatedInorder | src/tree/avltree.c:164-191 | A rotation keeps the entries in order |
| AvlShape.BalancedAvl | src/tree/avltree.c:197-250 | Balancing a node whose kids differ by at most 2 makes heights exact and differences at most 1, and the height the expected one or one less |
| AvlShape.BalancedInorder | src/tree/avltree.c:197-250 | and keeps the entries in order |
| AvlTree.AVLTree.NodeBalance | src/tree/avltree.c:197-250 | The cells then hold the balanced tree |
| AvlShape.StepUp | src/tree/avltree.c:253-263 | One step up the walk needs no more than one more balancing |
| AvlTree.AVLTree.BalanceToRoot | src/tree/avltree.c:253-263 | After the walk the whole tree is in order, whatever heights were stale on the way |
| AvlTree.AVLTree.Insert | src/tree/avltree.c:265-302 | The entry comes behind all with the same or smaller keys; the tree is valid and no node leaks |
| AvlTree.AVLTree.GetReplacement | src/tree/avltree.c:307-349 | The neighbour on the higher side, cut out of the tree |
| AvlTree.AVLTree.TakeOver | src/tree/avltree.c:380-391 | The neighbour takes over the kids, the height and the place of the removed node |
| AvlTree.AVLTree.RemoveNode | src/tree/avltree.c:352-401 | Exactly this node goes; all others keep their addresses and their order |
| AvlTree.AVLTree.Remove | src/tree/avltree.c:404-415 | Removes a node with the key if and only if there is one |
| AvlTree.AVLTree.LookupNode | src/tree/avltree.c:417-437 | A node with the key, or none if there is none |
| AvlTree.AVLTree.Lookup | src/tree/avltree.c:439-449 | The value of an entry with the key, or none |
| AvlShape.PlacedMultiset | src/tree/avltree.c:265-302 | An insertion adds exactly one entry |
| AvlShape.WithoutMultiset | src/tree/avltree.c:352-401 | A removal takes exactly one entry |
| AvlShape.ExactHeight | src/tree/avltree.c:84-110 | In a valid tree each stored height is the length of the longest way down |

## Left out

- Dict.Dict.Replace: at most LONG_MAX keys, because past that adding may fail and the source does not look.
- Dict.Dict.Rehash: the number of steps times 10 is computed in an `int` and overflows for more than 214748364 steps; the model has no bound there.
- Dict.Dict.Resize: the global switch `dict_can_resize` is a parameter.
- Dict.Dict.constructor: chains are sequences, so the relinking of entries shows as moves between sequences; hashing is an arbitrary function of the key, and keys are equal exactly when they are the same value.
- Iterators of the hash table, fingerprints, random keys and statistics.
- Rax.Rax.Insert: nodes are values, so padding, pointer sections, `memmove` inside a node and the aliasing of parent links are not captured; keys have at most RAX_NODE_MAX_SIZE bytes; running out of memory does not happen.
- RaxIter.RaxIterator.Next: node callbacks, random walks and `raxCompare` are not modelled, and the tree must not change while it is iterated.
- RbTree.RbTable.Probe: the address of a new node is a parameter that is not in use.  `rbReplace`, the iterators with `trav_refresh` and the generation count, and freeing a whole tree are not modelled.
- DiskAllocator.Btree.Alloc: sizes whose rounded size is at most BTREE_PREALLOC_SIZE, because of `CarveBound`; reads and writes inside the file do not fail, growing the file may.
- DiskAllocator.AllocRealSize: sizes are unbounded numbers; the source computes in 32 bits, and for sizes above 2^31 - 8 its loop does not end.
- DiskAllocator.LogTwo: the same, for numbers of more than 32 bits.
- DiskAllocator.Btree.Open: the `last_block` cache is written and never read, and is not modelled.
- BtreeOperations.Add: a write takes effect whole and in program order, so reordering of writes between two synchronisations, and a write that is torn, are not captured.
- BtreeOperations.CreateTree: a crash while a file is being created is not covered.
- BtreeOperations.Find: error numbers, and node buffers in memory with their release, are not modelled.
- SkipList.SkipList.Insert: scores are real numbers, elements are integers in their order; the random level is a parameter from 1 to 32, and the address of the new node one that is not in use.
- SkipList.SkipList.UpdateScore: the entry must be there, as the source asserts.
- SkipList.SkipList.NthInRange: at most LONG_MAX entries; for the least `long`, which cannot be negated, and for n so near LONG_MAX that adding a rank overflows, the source is undefined, and the model computes without bounds.  List iterators are not modelled.
- Listpack.Listpack.Insert: elements of at most 2^32 - 6 bytes, because the source adds 5 in 32 bits.
- IntSet.IntSet.Add: fewer than INT_MAX values, because positions are of type int.  The random element is not modelled.
- SdsArgs.CatRepr: string headers and their growth are not modelled, nor formatting, trimming and comparison of strings.
- AvlTree.AVLTree.Insert: the address of a new node is a parameter that is not in use; keys are integers.  Copying to an array and freeing a whole tree are not modelled.
- Memory allocation never fails anywhere; destructors and key and value copies are foreign calls.
- Linked lists, queues, arrays, stacks, heaps, pools, ring buffers and the utility functions of the library.
