# Peergos client, verified model

Peergos keeps a user's files as encrypted blocks on servers that are trusted with
nothing but availability. The client finds a file through a *champ*, a hash trie over
content-addressed blocks, whose root a signed pointer names. It buffers blocks and pointer
updates, sends them as bulk commits, and merges its trie with another client's when a
pointer has moved under it. This project models the parts of the client that this rests
on, and proves what they promise. `dafny verify dfyconfig.toml` checks all of it.

The files, by component:

- **The champ** (`Bytes`, `Bitmap`, `Mask`, `ChampNode`, `CanonicalTree`, `ChampStore`,
  `ChampOps`, `ChampRemove`, `ChampWrappers`, `ChampShape`). The central fact is that the
  whole node tree is a function of the mapping it holds: `Canon`. Put and remove, with
  every spill, push-down, collapse, inlining and escalation, are proved to move from one
  canonical tree to the next. `Shaped` gives the same trees by local rules on each node.
- **Diff and merge** (`ChampDiff`, `ChampMerge`), and **lookups that can be checked**
  (`ChampLookup`).
- **Commits by many clients** (`CommitProtocol`): a state machine of any number of clients
  that swap, read, merge and swap again over a server that may lose calls and replies.
- **The write buffer** (`BlockGraph`, `BulkSplit`, `PointerBuffer`, `BulkCommits`,
  `FlushProtocol`): reachability, assigning blocks to roots, splitting oversized commits,
  condensing and rolling back updates, and the flush with all its failure paths.
  `MergeBlocks` joins its merge step to the merge on trees.
- **CBOR** (`Text`, `CborValue`, `CborParse`, `CborCodec`, `CborGrammar`, `CborLinks`):
  section 3 of RFC 8949 as the client writes and reads it, with the deterministic encoding
  of section 4.2.1 save for the key order. `CborGrammar` states which bytes spell which
  value apart from both the writer and the reader.
- **BLAKE3 merges and the file hash tree** (`HashTrees`), **the decrypted-node cache**
  (`NodeCache`), and **rewriting the tail of a zip archive** (`ZipBytes`, `ZipRecords`,
  `ZipParse`, `ZipTail`, `ZipRewrite`, `ZipReopen`, `ZipAppend`; sections 4.3.7, 4.3.12 to
  4.3.16 and 4.5.3 of PKWARE's APPNOTE).

How the model is made:

- A CID is the block it names, through a free constructor: hashing is injective, and links
  are well founded. In the write buffer, where block content plays no part, CIDs are
  numbers and a block carries its links.
- Bytes are integers below 256, bit operations are written as arithmetic, and 64-bit
  wrap-around is written out where the code has it (reading CBOR integers, champ masks,
  zip fields).
- Calls to the server answer as they like: a failed call may have taken effect in part or
  in full, and what another client wrote in between is not restricted. The server keeps a
  ghost record of its answers, and `Stops` says which answers end a flush.
- Some properties are false of the code in general. Each is proved to hold if and only if
  a stated condition does (`NullMergeExample`, `MisreadHappens` and `ChanceLocatorRefused`
  give inputs that fail): merging is symmetric when no
  key was changed to null; a new zip record is read right unless a size is exactly 2^32-1
  beside an offset above it; a rewritten zip opens again when, besides, the size and offset
  of its directory are not exactly 2^32-1, no stray bytes look like a zip64 locator, and it
  is within the reader's limits of 500000 entries and a directory of 64 MiB, which the writer
  does not look at.
- Where code and comments differ the code is followed. `put` does not look at the expected
  value when the key is unbound. `remove` of an unbound key is an error only if its path
  ends in a bucket; otherwise it succeeds and changes nothing.

## Model

| member | source | states |
|---|---|---|
| `Bytes.LessTotal` | crates/peergos-core/src/champ.rs:54-56 | the length-first key order is a strict total order |
| `Bytes.LessTransitive` | crates/peergos-core/src/champ.rs:54-56 | it is transitive |
| `Bytes.LessIs` | crates/peergos-core/src/champ.rs:54-56 | the shorter key comes first, and of two keys of one length the one with the smaller byte where they first differ |
| `Bitmap.PackGet` | crates/peergos-core/src/champ.rs:110-121 | in the bitmap of eight slot flags, reading bit i gives flag i |
| `Bitmap.PackEdit` | crates/peergos-core/src/champ.rs:59-83 | `bit_set` and `bit_clear` on the bitmap of some flags give exactly the bitmap of the changed flags, with no trailing zero byte |
| `Bitmap.PackInjective` | crates/peergos-core/src/champ.rs:59-83 | a bitmap determines its flags |
| `Bitmap.BitGetIs` | crates/peergos-core/src/champ.rs:110-113 | bit `pos` of a bitmap is the bit of value 2^(pos mod 8) in byte pos / 8, and off past the end |
| `Bitmap.GetIndexCounts` | crates/peergos-core/src/champ.rs:115-118 | `get_index` is the number of set positions below the one asked for |
| `Mask.SlotIsDigit` | crates/peergos-core/src/champ.rs:99-108 | `mask`, signed bytes and shifts included, is the base-8 digit of the key read as a little-endian integer, zero past its end, for every key and depth |
| `ChampNode.SlotAccess` | crates/peergos-core/src/champ.rs:110-140 | popcount indices from the front for buckets and from the back for links find exactly the content of a slot |
| `ChampNode.SetBucketIsSlotUpdate` | crates/peergos-core/src/champ.rs:431-450 | replacing a bucket in `contents` changes that slot and no other |
| `ChampNode.DropBucketIsSlotUpdate` | crates/peergos-core/src/champ.rs:306-320 | dropping an emptied bucket clears that slot and no other |
| `ChampNode.AddNewPrefixIsSlotUpdate` | crates/peergos-core/src/champ.rs:452-460 | adding a prefix to an empty slot changes that slot and no other |
| `ChampNode.OverwriteIsSlotUpdate` | crates/peergos-core/src/champ.rs:474-480 | overwriting a child link changes that slot and no other |
| `ChampNode.MigrateToNodeIsSlotUpdate` | crates/peergos-core/src/champ.rs:461-473 | turning a bucket into a link changes that slot and no other, in both bitmaps and at both ends of `contents` |
| `ChampNode.MigrateToInlineIsSlotUpdate` | crates/peergos-core/src/champ.rs:324-341 | turning a link into a bucket changes that slot and no other |
| `ChampNode.NodeOfInjective` | crates/peergos-core/src/champ.rs:80-94 | a stored node determines the content of its eight slots |
| `CanonicalTree.BucketUnique` | crates/peergos-core/src/champ.rs:441-450 | a mapping has one sorted bucket |
| `CanonicalTree.FitsPut` | crates/peergos-core/src/champ.rs:482-516 | whether a new key fits depends on its slot alone, and gives when a put reports a hash collision |
| `CanonicalTree.FitsExactly` | crates/peergos-core/src/champ.rs:482-516 | a mapping can be stored exactly if of any five of its keys two part at some of the 32 levels |
| `CanonicalTree.CanonInjective` | crates/peergos-core/src/champ.rs:80-94 | the canonical tree of a mapping determines the mapping |
| `ChampShape.CanonElements` | crates/peergos-core/src/champ.rs:144-165 | following every link of a canonical tree gathers exactly its mapping |
| `ChampShape.CanonIsShaped` | crates/peergos-core/src/champ.rs:227-293 | every node of a canonical tree keeps the layout, holds sorted buckets of 1 to 4 keys of their own slot, and covers more than 4 keys below the root |
| `ChampShape.ShapedIsCanon` | crates/peergos-core/src/champ.rs:347-429 | conversely a tree that keeps those rules is the canonical tree of what it holds, so the rules pin down the tree |
| `ChampStore.EmptyIsCanon` | crates/peergos-core/src/champ.rs:92-94 | the empty champ is the canonical tree of the empty mapping |
| `ChampStore.GetIsLookup` | crates/peergos-core/src/champ.rs:167-198 | `get` on a complete tree is the map lookup; over any part of its blocks it is the true value, absent or an error, never a wrong value |
| `ChampOps.Put` | crates/peergos-core/src/champ.rs:227-293 | `put` fails exactly on a compare-and-swap mismatch or a hash collision, and otherwise stores the whole canonical tree of the changed mapping, whichever of the overwrite, insert, spill and descend branches it took |
| `ChampOps.PushMappingsDown` | crates/peergos-core/src/champ.rs:482-516 | pushing a full bucket and one more key down gives the canonical tree of the five keys one level deeper |
| `ChampStore.CollapseBucket` | crates/peergos-core/src/champ.rs:375-394 | a node that falls to four keys gathers exactly the others, in bucket order |
| `ChampStore.CollapsedAtRoot` | crates/peergos-core/src/champ.rs:415-419 | a collapsed node escalated to the root is the canonical root |
| `ChampRemove.CollapseTest` | crates/peergos-core/src/champ.rs:375-394 | the collapse test holds exactly when five keys are covered below the root |
| `ChampRemove.RemoveInlines` | crates/peergos-core/src/champ.rs:415-423 | a collapsed child becomes a bucket of its parent, as the canonical tree has it |
| `ChampRemove.RemoveEscalates` | crates/peergos-core/src/champ.rs:415-419 | a collapsed child that was its parent's only content stands for the parent |
| `ChampRemove.Remove` | crates/peergos-core/src/champ.rs:347-429 | `remove` fails exactly as stated in `RemoveError`, and otherwise stores the canonical tree without the key, or its transient single-bucket form when the parent has to take it in |
| `ChampWrappers.TotalIsSize` | crates/peergos-core/src/champ.rs:520-536 | counting through the links counts the keys of the mapping |
| `ChampWrappers.Size` | crates/peergos-core/src/champ.rs:520-536 | `size` returns that count, and fails only on a tree with a missing node |
| `ChampWrappers.Create` | crates/peergos-core/src/champ.rs:677-695 | opening a stored root gives a wrapper of its mapping; a missing root is an error |
| `ChampWrappers.ChampWrapper.Get` | crates/peergos-core/src/champ.rs:702-709 | a read is the lookup in the wrapper's mapping |
| `ChampWrappers.ChampWrapper.Count` | crates/peergos-core/src/champ.rs:744-748 | the size is the mapping's size |
| `ChampWrappers.ChampWrapper.Put` | crates/peergos-core/src/champ.rs:711-741 | a put moves the root to the canonical tree of the changed mapping, or leaves everything as it was |
| `ChampWrappers.ChampWrapper.Remove` | crates/peergos-core/src/champ.rs:750-777 | so does a remove |
| `ChampWrappers.ChampWrapper.Replay` | crates/peergos-core/src/champ.rs:227-429 | history independence: after any run of puts and removes the root hash is a function of the resulting mapping alone |
| `ChampWrappers.PutThenRemove` | crates/peergos-core/src/champ.rs:227-429 | adding a fresh key and removing it restores the exact root |
| `ChampDiff.HashAndMask` | crates/peergos-core/src/champ_merge.rs:133-140 | grouping mappings by slot puts each in its slot's list, in order, and loses none |
| `ChampDiff.DiffMappings` | crates/peergos-core/src/champ_merge.rs:198-213 | two mapping lists yield one entry per differing key, with both values |
| `ChampDiff.DiffSlots` | crates/peergos-core/src/champ_merge.rs:171-232 | the lock-step loop reports the differing keys of every slot it settles, and puts off exactly the others |
| `ChampDiff.DiffDeeper` | crates/peergos-core/src/champ_merge.rs:234-236 | the put-off slots, buckets facing shards included, are settled one level down |
| `ChampDiff.Diff` | crates/peergos-core/src/champ_merge.rs:152-237 | `diff` reports exactly the keys whose binding differs, each once with its base and other value, though equal hashes are never loaded; it fails only when a node it must load is missing |
| `ChampDiff.CompleteIsLoadable` | crates/peergos-core/src/champ_merge.rs:142-147 | two complete trees can always be compared |
| `ChampMerge.ApplyAll` | crates/peergos-core/src/champ_merge.rs:97-109 | replaying the remote changes on our tree, in whatever order they were listed, gives the canonical tree of the merged mapping; it succeeds when no key was changed to null and the union fits |
| `ChampMerge.MergeChamp` | crates/peergos-core/src/champ_merge.rs:76-110 | a merge is refused exactly when both sides changed a common key; it succeeds whenever its nodes can be loaded, no key was changed to null and the union fits, and is then the canonical tree of the merged mapping; every other error has its cause named |
| `ChampMerge.MergedReads` | crates/peergos-core/src/champ_merge.rs:85-109 | it reads as theirs on every key they changed and as ours on every other |
| `ChampMerge.MergeIsSymmetric` | crates/peergos-core/src/champ_merge.rs:68-110 | merging either way gives the same mapping if and only if neither side changed a key to null, which an entry cannot tell from absent |
| `ChampMerge.MergedRootsAgree` | crates/peergos-core/src/champ_merge.rs:76-110 | two successful merges, one each way, end at the same root if and only if no key was changed to null and both sides carry the same mirror BAT |
| `ChampMerge.NullMergeExample` | crates/peergos-core/src/champ_merge.rs:68-110 | a key set to null by one side is dropped by the merge one way and kept the other way |
| `CommitProtocol.MergeWriterData` | crates/peergos-core/src/champ_merge.rs:29-63 | the merged writer data is theirs with the merged tree, and its whole tree is stored; with its blocks at hand the merge is refused exactly on a conflict, and succeeds whenever no key was changed to null and the union fits; a missing or wrong block is the only other refusal before that |
| `CommitProtocol.StepSetsOnlyItsChanges` | crates/peergos-core/src/buffered.rs:529-558 | each step of any client leaves the pointer alone or sets exactly that client's own changed keys on the map the server holds now, and overwrites a key only if the client's base held its current binding |
| `CommitProtocol.AcknowledgedIsVisible` | crates/peergos-core/src/buffered.rs:529-558 | when a client is told its commit succeeded the server reads as its update on every key it changed |
| `CommitProtocol.NoLostUpdate` | crates/peergos-core/src/buffered.rs:529-558 | over every run of any number of clients, with lost and half-delivered calls, a key the server reads differently was put so by a step that moved the pointer, of a client that changed the key and knew the binding it replaced |
| `CommitProtocol.CommitFinishes` | crates/peergos-core/src/buffered.rs:529-558 | with its calls answered and nobody in between, a commit goes through: in one swap if the pointer is at its base, without one if it is at its target, and merged in three steps if what is there can be merged |
| `ChampLookup.RamStorage.LoadVerified` | crates/peergos-core/src/ram.rs:40-46 | loading blocks from anyone adds exactly those blocks, each under the two CIDs computed from its own bytes |
| `ChampLookup.RamStorage.Store` | crates/peergos-core/src/ram.rs:24-33 | each block goes in under the CID of its own bytes, and the CIDs come back in order |
| `ChampLookup.RamStorage.Fetch` | crates/peergos-core/src/ram.rs:48-53 | what comes back has the hash it was asked for |
| `ChampLookup.PathSuffices` | crates/peergos-core/src/champ.rs:167-198 | a store that holds the blocks on a key's path answers as the full store |
| `ChampLookup.WalkOne` | crates/peergos-core/src/storage.rs:255-310 | the walk records exactly the stored blocks on the key's path and the block its value links to, each once, and fails exactly when a block on the path is not a champ |
| `ChampLookup.Lookups` | crates/peergos-core/src/storage.rs:239-253 | exactly the blocks the requested keys need are recorded, each once; `get` over them alone gives the full store's answer for every key; it fails exactly when a block on one of the paths is not a champ |
| `BlockGraph.Reachable` | crates/peergos-core/src/buffered.rs:163-187 | the search ends with exactly the buffered blocks some root leads to |
| `BlockGraph.PartitionByRoot` | crates/peergos-core/src/buffered.rs:126-146 | each of the owner's reachable blocks goes, once, to the part of the first root that reaches it, and nothing else goes anywhere |
| `BlockGraph.PartIsSelfContained` | crates/peergos-core/src/buffered.rs:123-146 | a block is joined to its part's root by a path inside the part |
| `BulkSplit.BreadthFirst` | crates/peergos-core/src/buffered.rs:795-814 | the breadth-first walk ends, every block it orders is linked to by an earlier one, and what it leaves the root does not reach |
| `BulkSplit.FromRootFirst` | crates/peergos-core/src/buffered.rs:795-818 | the order lists every block once, the root's tree first |
| `BulkSplit.HangsPrefix` | crates/peergos-core/src/buffered.rs:793-795 | any prefix of such an order hangs off the root on its own |
| `BulkSplit.HangsReaches` | crates/peergos-core/src/buffered.rs:793-795 | and each of its blocks is joined to the root by a path inside it |
| `BulkSplit.TakeTop` | crates/peergos-core/src/buffered.rs:839-851 | the budget loop takes the longest prefix that keeps fitting, and defers the rest in order |
| `BulkSplit.GroupBlocks` | crates/peergos-core/src/buffered.rs:870-879 | a writer's deferred blocks in order, in groups that each fit a call and none of which is closed while the next block would still fit |
| `BulkSplit.BlocksOnlyCalls` | crates/peergos-core/src/buffered.rs:865-906 | the blocks-only calls carry every deferred block once, within the byte and count limits, and a call is closed only when the next group would not fit |
| `BulkSplit.TopOf` | crates/peergos-core/src/buffered.rs:833-862 | one writer's share of the final call, and what it defers, are its blocks, and the share ends only where the next block would break a limit |
| `BulkSplit.FinalCall` | crates/peergos-core/src/buffered.rs:827-863 | the shares of all writers, each as large as the shares before it leave room for |
| `BulkSplit.CarriedCount` | crates/peergos-core/src/buffered.rs:822-830 | the count that is held against the limit is that of the blocks carried |
| `BulkSplit.Split` | crates/peergos-core/src/buffered.rs:822-908 | `split` loses and duplicates no block, keeps every call within the limits and closes none before it is full, and leaves in the final call, per writer, blocks that hang off the signed root inside that call |
| `PointerBuffer.RollbackUndoesGrowth` | crates/peergos-core/src/buffered.rs:453-475 | rolling back a list that only grew restores it exactly, a last entry advanced in place included |
| `PointerBuffer.RollbackRestores` | crates/peergos-core/src/buffered.rs:453-475 | so does rolling back after any run of writes and of inner updates that were themselves rolled back |
| `PointerBuffer.RollbackInGeneral` | crates/peergos-core/src/buffered.rs:462-475 | after any run of writes, inner rollbacks, flushes and dropped owners a rollback restores the list exactly, or, if the list was flushed or an owner dropped since, leaves nothing buffered |
| `PointerBuffer.WritesCondense` | crates/peergos-core/src/buffered.rs:576-605 | a run of writes leaves no two neighbouring updates of the same owner and writer |
| `PointerBuffer.BufferingIsFaithful` | crates/peergos-core/src/buffered.rs:512-619 | for one owner, buffered reads show the targets of an unbuffered run, and with no other writer the commit is accepted entry by entry, passes only through target states of that run and ends in its targets |
| `PointerBuffer.UpdateBuffer.SetPointerUpdate` | crates/peergos-core/src/buffered.rs:582-605 | a consecutive write to the same writer advances the last target, any other is appended |
| `PointerBuffer.UpdateBuffer.TakeCheckpoint` | crates/peergos-core/src/buffered.rs:453-460 | a checkpoint records generation, length and last target |
| `PointerBuffer.UpdateBuffer.Rollback` | crates/peergos-core/src/buffered.rs:464-475 | rollback as the lemmas above specify it |
| `PointerBuffer.UpdateBuffer.GetPointerTarget` | crates/peergos-core/src/buffered.rs:609-619 | the latest buffered update of the writer, else the server's |
| `PointerBuffer.UpdateBuffer.DropOwner` | crates/peergos-core/src/buffered.rs:504-507 | exactly the other owners' updates stay, by an increasing map of their places, and a new generation starts |
| `PointerBuffer.KeptIsOthers` | crates/peergos-core/src/buffered.rs:504-507 | that determines what stays: the list filtered |
| `BulkCommits.SortPart` | crates/peergos-core/src/buffered.rs:691-700 | a part sorted into cbor, small raw and large raw keeps each block once |
| `BulkCommits.PreWrite` | crates/peergos-core/src/buffered.rs:728-750 | in batches of at most 50; on success every large block is on the server, and the hashes come back in order; it fails exactly with the call that failed |
| `BulkCommits.PrepareWriters` | crates/peergos-core/src/buffered.rs:688-714 | each write gets its own part, inline or already on the server |
| `BulkCommits.PreparedHangs` | crates/peergos-core/src/buffered.rs:677-716 | a writer's inline blocks all hang off the root it signs within its own commit, though its large raw blocks are taken out |
| `BulkCommits.ShareJoined` | crates/peergos-core/src/buffered.rs:793-862 | a writer's share of the final call is joined to its root by itself |
| `BulkCommits.SendBulkCommit` | crates/peergos-core/src/buffered.rs:755-784 | a commit within the limits goes in one call, others in several; by the time a pointer is set every inline block of the commit is on the server, and every call can be accepted: within the limits, and a call that sets pointers has each writer's blocks joined to its root inside the call; the outcome is that of the last call made, all before it having succeeded |
| `BulkCommits.BulkCommitOwner` | crates/peergos-core/src/buffered.rs:677-725 | in every outcome a pointer that was set found everything its root leads to on the server, and every call sent can be accepted; the outcome is that of the last call made, all before it having succeeded, and success means the server took a call with all the pointers |
| `FlushProtocol.CborBatches` | crates/peergos-core/src/buffered.rs:224-240 | cbor batches keep the order and the limits of a mebibyte and 1000 blocks, and none is closed while the next block would still fit |
| `FlushProtocol.RawBatches` | crates/peergos-core/src/buffered.rs:241-255 | raw batches keep the order and the authorisation limit, and all but the last have 50 blocks |
| `FlushProtocol.Batches` | crates/peergos-core/src/buffered.rs:201-255 | every kept block is uploaded exactly once, in a batch of its own writer and kind |
| `FlushProtocol.BlockBuffer.CommitBlocks` | crates/peergos-core/src/buffered.rs:193-277 | every upload is a batch of one writer's blocks of one kind that the roots lead to; on success exactly the owner's blocks that the roots lead to have moved from the buffer to the server; it fails exactly when an upload does, and then the buffer is as it was |
| `FlushProtocol.MergedReach` | crates/peergos-core/src/buffered.rs:546-551 | a merged root leads only to blocks the merge made, to ours and to theirs |
| `MergeBlocks.MergeMeetsFlush` | crates/peergos-core/src/champ_merge.rs:29-110 | the blocks that `merge_writer_data` stores link as the flush takes a merge to: to one another, to ours, to the remote's, or out of sight |
| `MergeBlocks.NodesOfCanon` | crates/peergos-core/src/champ.rs:227-293 | every node of a merged tree binds keys as the merged map does and links only to nodes of it |
| `FlushProtocol.CommitOneWithMerge` | crates/peergos-core/src/buffered.rs:529-558 | the calls made for one update, whatever the server answers: the swap from its base to its target, and if that is refused the pointer, the merge of base, target and pointer, and the swap from the pointer to the merge; a pointer that was set found all its blocks there, success means the update was set, merged or already there, and failure that the pointer could not be read, there was nothing to merge, or the merge or the swap after it was refused |
| `FlushProtocol.CommitPointers` | crates/peergos-core/src/buffered.rs:512-525 | pointers are set in the order the updates were buffered; on success every one of the owner's updates was asked for and delivered and only those are dropped; it fails exactly when one cannot be committed, and then none is dropped |
| `FlushProtocol.Owners` | crates/peergos-core/src/buffered.rs:490-498 | exactly the owners with updates, each once, in the order first written |
| `FlushProtocol.WritesInOrder` | crates/peergos-core/src/buffered.rs:500-502 | the writes of an owner are its updates by an increasing map of their places |
| `FlushProtocol.SameReach` | crates/peergos-core/src/buffered.rs:624-654 | flushing other owners does not change what an owner's roots reach |
| `FlushProtocol.FlushOwner` | crates/peergos-core/src/buffered.rs:629-650 | one owner's turn keeps all that the flush promises; the bulk path comes first unless the server is known not to have it; after an unknown call or a moved pointer, and then only, blocks and pointers go by the older calls in the same turn; it fails exactly when an answer ends it |
| `FlushProtocol.TakeTurn` | crates/peergos-core/src/buffered.rs:629-650 | a turn adds to what the turns before it kept, and leaves the updates of the owners still to come as they were |
| `FlushProtocol.Flush` | crates/peergos-core/src/buffered.rs:624-654 | in every run, on the bulk, split and fallback paths, a pointer this client sets names a root all of whose blocks are on the server; every bulk call can be accepted; every update ends delivered or still buffered, and one still buffered has lost none of its blocks; the owners take turns in the order first written, each sent by the bulk call or, where that is unknown or refused for a moved pointer, by the older ones; the flush fails exactly when an answer ends it, and makes no call after that; success leaves nothing buffered |
| `Text.UnitsInjective` | crates/peergos-cbor/src/lib.rs:51-95 | texts with the same UTF-16 units are equal, so keys compare equal just when they are equal |
| `Text.EncodedIsValid` | crates/peergos-cbor/src/lib.rs:57-62 | the UTF-8 of any scalar values, byte by byte, is accepted as text, and its units are their UTF-16 |
| `Text.ValidIsEncoded` | crates/peergos-cbor/src/decode.rs:164-169 | conversely accepted text is the UTF-8 of some scalar values |
| `CborValue.Output.WriteUint` | crates/peergos-cbor/src/encode.rs:54-86 | appends the shortest head of the value |
| `CborValue.Output.WriteInt` | crates/peergos-cbor/src/encode.rs:38-43 | appends the canonical encoding of a signed integer |
| `CborValue.Output.WriteObject` | crates/peergos-cbor/src/encode.rs:5-36 | appends the canonical encoding of the value to what was there |
| `CborValue.ToBytes` | crates/peergos-cbor/src/lib.rs:142-146 | the canonical encoding |
| `CborGrammar.WireForm` | crates/peergos-cbor/src/encode.rs:5-36 | the bytes on the wire: the major type of every kind of value in its first byte, f4, f5 and f6 for false, true and null, and d8 2a and a byte string of 0 and the CID for a link |
| `CborGrammar.HeadSpelled` | crates/peergos-cbor/src/encode.rs:58-86 | a head is the major type and the argument in the short form or in 1, 2, 4 or 8 big-endian bytes |
| `CborGrammar.HeadShortest` | crates/peergos-cbor/src/encode.rs:58-86 | and no spelling of the same head is shorter |
| `CborGrammar.EncodeIsShortest` | crates/peergos-cbor/src/encode.rs:5-86 | the encoding is a spelling of its value in the grammar below, and no spelling of it is shorter |
| `CborParse.Reader.ReadUint` | crates/peergos-cbor/src/decode.rs:58-82 | the big-endian argument, without reading past the buffer |
| `CborParse.Reader.Deserialize` | crates/peergos-cbor/src/decode.rs:134-231 | the recursive reader with its cursor and loops is the function `Parse`: same value or same error, cursor where the value ends; it terminates on every input and stays in the buffer |
| `CborParse.FromBytes` | crates/peergos-cbor/src/decode.rs:100-110 | the whole input as one value, or an error |
| `CborParse.FromBytesPrefix` | crates/peergos-cbor/src/decode.rs:115-121 | the first value, ignoring what follows |
| `CborParse.FromBytesConsumed` | crates/peergos-cbor/src/decode.rs:125-132 | the first value and the bytes it took |
| `CborGrammar.ParsesExactly` | crates/peergos-cbor/src/decode.rs:134-231 | the reader accepts a value exactly where the bytes spell it, by a grammar stated apart from the reader and the writer, and it ends where the spelling ends |
| `CborGrammar.DecodesExactly` | crates/peergos-cbor/src/decode.rs:100-110 | `from_bytes` gives a value exactly when the whole input spells it |
| `CborGrammar.SmallOnTheWire` | crates/peergos-cbor/src/encode.rs:38-60 | an integer from -24 to 23 is one byte, with its sign in the major type |
| `CborCodec.RoundTrip` | crates/peergos-cbor/src/decode.rs:134-244 | decoding an encoding, wherever it stands and whatever follows it, gives the value back and ends exactly where the encoding ends |
| `CborCodec.DecodesFirst` | crates/peergos-cbor/src/decode.rs:125-132 | the same for `from_bytes_consumed` with any trailing bytes |
| `CborCodec.DecodesWhole` | crates/peergos-cbor/src/decode.rs:100-110 | `from_bytes` inverts `to_bytes` |
| `CborCodec.PrefixFree` | crates/peergos-cbor/src/encode.rs:5-86 | no encoding is a prefix of another value's, so the encoding is injective |
| `CborCodec.StreamRoundTrip` | crates/peergos-cbor/src/lib.rs:160-165 | concatenated values decode back in order |
| `CborCodec.ReadStream` | crates/peergos-fs/src/social.rs:845-857 | the loop that reads such a stream is that function, short of what the caller makes of each value |
| `CborCodec.Accepted` | crates/peergos-cbor/src/decode.rs:134-244 | whatever is accepted is a value the encoder can write, and its canonical encoding is no longer than what was read, 64-bit wrap-around of large integers included |
| `CborCodec.Canonical` | crates/peergos-cbor/src/decode.rs:100-110 | writing an accepted input again gives a canonical form of at most its length that decodes to the same value |
| `CborCodec.InsertSorted` | crates/peergos-cbor/src/decode.rs:178-189 | inserting a decoded entry keeps the map in key order and adds just that entry |
| `CborCodec.InsertRefuses` | crates/peergos-cbor/src/decode.rs:186-188 | a duplicate is refused exactly when the same text is a key already |
| `CborLinks.LinkAtIsListed` | crates/peergos-cbor/src/lib.rs:169-191 | every Merkle link at the end of a path into the value is listed |
| `CborLinks.ListedLinkHasPath` | crates/peergos-cbor/src/lib.rs:169-191 | every listed link is at the end of such a path |
| `CborLinks.LinksInOrder` | crates/peergos-cbor/src/lib.rs:169-191 | the links are listed in the order of their places in the value, each place once |
| `CborLinks.LinkList.Collect` | crates/peergos-cbor/src/lib.rs:175-191 | `collect_links` appends exactly those links, in order |
| `HashTrees.LeftCountIs` | crates/peergos-crypto/src/hash.rs:86-88 | `left_count` is the only power of two with the count above it and at most at its double |
| `HashTrees.SubtreeMerges` | crates/peergos-crypto/src/hash.rs:92-99 | the subtree merge is the value of every term with those leaves in order whose inner nodes have the largest power of two on the left |
| `HashTrees.RootMerges` | crates/peergos-crypto/src/hash.rs:103-107 | the root merge is the value of such a term with a root node on top and nowhere else |
| `HashTrees.WholeTreeExists` | crates/peergos-crypto/src/hash.rs:103-107 | every list of chunk values has such a term |
| `HashTrees.WholeTreeUnique` | crates/peergos-crypto/src/hash.rs:103-107 | and only one |
| `HashTrees.GroupedSubtree` | crates/peergos-crypto/src/hash.rs:92-99 | merging groups of any power of two and then the groups is the flat subtree merge |
| `HashTrees.GroupedRoot` | crates/peergos-crypto/src/hash.rs:103-107 | the same at the root, for every count above one group |
| `HashTrees.BuildLevel` | crates/peergos-fs/src/hashtree.rs:113-126 | consecutive groups of 1024, the last maybe shorter |
| `HashTrees.BuildBlake3` | crates/peergos-fs/src/hashtree.rs:181-204 | for every count up to 1024 cubed, and no more, the root is the value of the one merge tree over the chunk values, however many levels were built, and the levels are the groups of 1024 |
| `HashTrees.InItsGroup` | crates/peergos-fs/src/hashtree.rs:241-248 | the level 1 group of a chunk's branch holds its value at its place |
| `NodeCache.Oldest` | crates/peergos-fs/src/cache.rs:61-68 | the scan finds an entry with the least tick |
| `NodeCache.TouchRefines` | crates/peergos-fs/src/cache.rs:43-59 | a read answers as a recency list does and moves the key to its front |
| `NodeCache.RemoveRefines` | crates/peergos-fs/src/cache.rs:71-73 | a removal takes the key out of the list |
| `NodeCache.OldestIsLast` | crates/peergos-fs/src/cache.rs:61-68 | the least tick is the last of the list |
| `NodeCache.Insert` | crates/peergos-fs/src/cache.rs:61-69 | an insertion goes to the front and pushes the last entry out of a full list; every other entry stays, with its tick |
| `NodeCache.CryptreeCache.Get` | crates/peergos-fs/src/cache.rs:144-147 | a hit equals a fresh lookup under that root and key, and there is a hit exactly when an entry may be handed to that key; nothing leaves the cache, and the root and the entry become the newest |
| `NodeCache.CryptreeCache.PutEntry` | crates/peergos-fs/src/cache.rs:99-104 | an entry that holds keeps the cache coherent and becomes the newest; every other entry stays but the oldest of a full group and the oldest group of four |
| `NodeCache.CryptreeCache.PutParsed` | crates/peergos-fs/src/cache.rs:150-153 | so does a parsed node, for its own key only |
| `NodeCache.CryptreeCache.PutAbsent` | crates/peergos-fs/src/cache.rs:156-158 | and a known absence, for any key |
| `NodeCache.CryptreeCache.CarryOver` | crates/peergos-fs/src/cache.rs:108-115 | the group moves to the new root, where only the changed map keys may be stale, and all other groups stay |
| `NodeCache.CryptreeCache.Update` | crates/peergos-fs/src/cache.rs:171-177 | after a write the cache is coherent for the new root, has the written node there with what the group held before, less one pushed out, and keeps the other groups |
| `NodeCache.CryptreeCache.Migrate` | crates/peergos-fs/src/cache.rs:182-190 | exactly what the commit did not change is under the new root, as it was, the other groups stay, and the cache is coherent |
| `ZipRecords.LocalHeader` | crates/peergos-fs/src/archive.rs:874-900 | a local header with the entry's fields, time and name, and both sizes in a zip64 field when one needs it |
| `ZipRecords.DataFollows` | crates/peergos-fs/src/archive.rs:567-577 | a reader finds the data right behind such a header |
| `ZipRecords.CentralRecord` | crates/peergos-fs/src/archive.rs:902-940 | a central record with the entry's fields and, in a zip64 field, what they cannot hold |
| `ZipRecords.HeadersOnDisk` | crates/peergos-fs/src/archive.rs:874-940 | the first bytes of a local header and of a central record are those of PKWARE, P K 3 4 and P K 1 2 |
| `ZipParse.Records` | crates/peergos-fs/src/archive.rs:669-681 | the scan is the function `RecordsFrom`, and ends |
| `ZipParse.ParseLocal` | crates/peergos-fs/src/archive.rs:254-322 | the entry a record describes depends on its own bytes and the shift alone, extra fields included |
| `ZipParse.AddedParses` | crates/peergos-fs/src/archive.rs:254-322 | a new record parses to the entry it was written for if and only if no size is exactly 2^32-1 beside an offset above it |
| `ZipParse.MisreadHappens` | crates/peergos-fs/src/archive.rs:254-322 | an entry of exactly 2^32-1 bytes right above that offset is read wrong |
| `ZipParse.PlainRecordRead` | crates/peergos-fs/src/archive.rs:254-322 | what any record without extra fields says, byte by byte: names by the UTF-8 flag, a directory by a trailing slash or the MS-DOS attribute |
| `ZipParse.Zip64Read` | crates/peergos-fs/src/archive.rs:284-296 | a zip64 field gives its values in turn to size, compressed size and offset, as far as these overflowed |
| `ZipParse.TimestampRead` | crates/peergos-fs/src/archive.rs:300-302 | an extended timestamp is a signed 32-bit number of seconds |
| `ZipParse.UnicodeNameRead` | crates/peergos-fs/src/archive.rs:296-299 | a Unicode name replaces a name not flagged as UTF-8 exactly when its CRC is that of the recorded name |
| `ZipParse.OtherFieldIgnored` | crates/peergos-fs/src/archive.rs:275-304 | any other extra field changes nothing |
| `ZipTail.EndRecords` | crates/peergos-fs/src/archive.rs:944-970 | the end record, with the zip64 pair when the plain fields cannot say it |
| `ZipTail.EndOnDisk` | crates/peergos-fs/src/archive.rs:944-970 | the first bytes of the end records are those of PKWARE |
| `ZipTail.FindEocdIs` | crates/peergos-fs/src/archive.rs:445-457 | the end found is the last whose comment reaches the end of the file, else the last of all |
| `ZipTail.Zip64Elsewhere` | crates/peergos-fs/src/archive.rs:530-537 | a zip64 end that does not stand before its locator is read where the locator says |
| `ZipTail.FindsLast` | crates/peergos-fs/src/archive.rs:445-457 | the end record just written is the one found |
| `ZipTail.PlainFound` | crates/peergos-fs/src/archive.rs:498-513 | without zip64 records the directory is found with the shift it was written with, if and only if its size and offset are not exactly 2^32-1 and no stray bytes look like a zip64 locator |
| `ZipTail.Zip64Found` | crates/peergos-fs/src/archive.rs:498-537 | with zip64 records it is always found |
| `ZipReopen.ChanceLocatorRefused` | crates/peergos-fs/src/archive.rs:502-513 | a record comment that starts as a zip64 locator does makes the archive that a rewrite leaves unreadable: a concrete one |
| `ZipRewrite.RecordsOfConcat` | crates/peergos-fs/src/archive.rs:669-681 | the records found in a directory made of whole records are those records |
| `ZipRewrite.TailWriter.Accept` | crates/peergos-fs/src/archive.rs:981-1006 | what is written is what there was and then the bytes, whenever the buffer is flushed; a failed write leaves alone what was flushed before |
| `ZipRewrite.AddEntry` | crates/peergos-fs/src/archive.rs:1042-1060 | a new entry's header and data stand where its record points; it is refused exactly when a write fails, its source cannot be read, or it changed size |
| `ZipRewrite.WriteTail` | crates/peergos-fs/src/archive.rs:1029-1077 | bytes before the old directory are untouched whatever fails; it succeeds exactly when no write fails and every new entry is as measured, and then come the new entries, the directory of kept and new records, and its end |
| `ZipReopen.OpenedFits` | crates/peergos-fs/src/archive.rs:461-495 | the directory of an opened archive lies in the file, and no recorded offset is negative |
| `ZipReopen.Relocated` | crates/peergos-fs/src/archive.rs:461-537 | a rewritten archive's directory is found where it was written, with the same shift, if and only if its end can be told for what it is |
| `ZipReopen.Reopened` | crates/peergos-fs/src/archive.rs:461-495 | open, rewrite, open: the kept entries are entries of the first opening in its order, and the second lists just them and then the new ones, each at its own local header, if and only if the end is found, nothing is misread and the reader's limits are kept; over the limits it is refused |
| `ZipReopen.ParsesRecords` | crates/peergos-fs/src/archive.rs:483-492 | what `open` makes of records depends on their own bytes alone, and fails exactly when one does not parse or there are too many |
| `ZipReopen.OpenedEntries` | crates/peergos-fs/src/archive.rs:461-495 | an archive that opens lists the entries of its records, every one of which parses |
| `ZipAppend.KeepRecords` | crates/peergos-fs/src/archive.rs:1015-1027 | exactly the records whose path is not replaced are kept, in order; it fails exactly when a recorded name cannot be decoded |
| `ZipAppend.Append` | crates/peergos-fs/src/archive.rs:1080-1090 | adding or replacing files: nothing is written unless the archive opens, when it succeeds is stated exactly, and then the archive opens again as above |

## Left out

- Networking, HTTP and S3 storage, sign-up and login, the command line, sync: input and output with no invariant of their own.
- Encryption, signing, SHA-256, scrypt, deflate, CRC and the BLAKE3 compressions: parameters, or not modelled.
- The champ's own CBOR form, WriterData fields other than `tree`, capability and cryptree records: field by field, and easy after CBOR. Block access tokens are one constant field of a node.
- Key hashing other than the identity: keys are their own hashes, as for the file tree.
- Concurrency inside one client: each section between two awaits is one step, batches of an upload go one after another, and no other task changes the buffers during a flush.
- The automatic flush when the buffer is full: `UpdateBuffer.SetPointerUpdate` ends before it. `PointerBuffer.RollbackInGeneral` has a flush as a step of its own.
- Transactions and their ids: a server's garbage collection is not modelled, blocks once stored stay. Closing a transaction after a failed bulk commit, whose result the code ignores, is left out.
- FlushProtocol.MergeOnServer: the merge is any that meets `MergeMakes`; that the blocks of a merged tree do is `MergeBlocks.MergeMeetsFlush`, for links of champ nodes and of `tree`, given that the remote's blocks and the bound files are on the server or in our tree.
- BulkSplit.Split: calls other than the final one are within the byte limit when every block is non-empty and no larger than a call, and the final one is within the count limit when at most 1000 blocks were written ahead; the code checks neither.
- FlushProtocol.CommitOneWithMerge: the sequence number of the swap after a merge is not modelled.
- CommitProtocol.NoLostUpdate: pointers are compared by target only, not by sequence number.
- ChampLookup.RamStorage.Fetch: CIDs that carry their data in themselves are not modelled.
- CborParse.Reader.Deserialize: recursion depth is not bounded, as the stack is not modelled.
- CborCodec.ReadStream: what the callers of the loop make of each value is not modelled.
- HashTrees.BuildBlake3: a stored level is the list of its hashes, not their concatenated bytes; the legacy SHA-256 tree is not modelled.
- NodeCache.Insert: an LRU is a value that operations replace, since the cache owns the LRUs nested in it; eviction counters are not modelled.
- ZipRecords.CentralRecord: a header is put together from parts rather than filled in one buffer, with the same bytes; file names are at most 65535 bytes.
- ZipReopen.Reopened: code page 437, `normalise_path`, CRC and MS-DOS times are parameters, new names normalise to a path, file sizes and offsets are below 2^63; building the path index, renaming in place, removal with erasure, measuring and reading compressed data are not modelled.
- `CachedMutablePointers`: its time-to-live depends on the clock and on races it does not fully order.
