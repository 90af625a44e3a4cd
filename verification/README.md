# Verification of the CapROS kernel's core algorithms

CapROS is a persistent capability kernel: its objects live on disk, are named by capabilities (keys), and
are saved by checkpoints from which the system restarts after a crash. This project models the kernel code
whose correctness is hard to see by reading, and proves what that code is for.

| file | what it models |
|---|---|
| RbShape, RbTree, Ring, GenChains, LogDirectory | the log directory: a red-black tree with parent pointers and a nil node, whose nodes are also on circular chains, one for each generation |
| LogDisk, Checkpoint, CkptRun, FullRing, Restart | checkpoints and restart: the disk with unsynced writes, the globals and the ring of header LIDs, runs with crashes, and reading the directory back |
| PageSnapshot | a persistent page through demarcation, copying and cleaning |
| Bits, Buddy, PhysMem | the page allocator: ffs32 and fls32, the algebra of free blocks, the page headers and free lists |
| KeyRings, Capabilities, Rescission | prepared and unprepared keys, key rings, Resume keys, rescission |
| SegWalk | the walk through GPTs, guards and windows |
| Depend | the depend table |
| Qsort, Rtc, Ranges | the sort, the date conversions, the tables of mounted ranges |

A halt of the kernel (`assert`, `fatal`) is a result that the contract describes: a method says exactly when
it halts, and what holds when it does not. A Yield ends a step of a state machine. Pages, nodes and links
are numbers; fields that the kernel updates in place are fields of a class, and `Valid()` ties them to the
value they stand for.

Assumptions about the hardware and the environment:

- a completed synchronizeCache request makes the writes made before it was issued durable;
- a torn checkpoint root fails validation;
- a frame of the log is written again only when its generation is retired (the kernel's space reservation is
  not modelled);
- the log as mounted at restart is as large as it was.

## Findings

What the code does not meet, with the exact condition and a case that reaches it.

- **Removing the root of a two-node tree** (kern_LogDirectory.c:656) leaves a red root, because the function
  returns before the recolouring at line 721. Every other removal keeps the colour laws:
  `LogDirectory.Directory.RemoveObjectEntry` has the if and only if. The next insertion of a new OID then
  halts (`LogDirectory.Directory.HaltsWithoutRoom`): `LogDirectory.LeaveRedRoot` gets there from a new directory
  with any two OIDs. Clearing a generation removes nodes in the same way, and can leave a red root only when one
  entry is left (`LogDirectory.Directory.ClearGeneration`); `LogDirectory.ClearToRedRoot` does so.
- **The generation header ring** has 21 slots, and the guard at kern_ObjectHeader.c:265 allows one generation
  too many (`Checkpoint.GuardLeavesRingFull`). Phase 3 writes over the header LID of the newest retired
  generation exactly when the ring is full (`Checkpoint.Phase3Overwrites`). The root written afterwards is
  still right if a migration comes before phase 4 ends; otherwise the loop that fills `generations[]` overruns
  it (`Checkpoint.Checkpointer.DoPhase4Commit` has the if and only if). `FullRing.RingFills` is a run of the
  protocol that gets to both.
- **Rows 3 and 4 of the page table** in kern_Ckpt.c:131-159 halt when the I/O completes, at the assertion in
  kern_ObjectCache.c:916-943: `PageSnapshot.PersistentPage.EndCleanCurrent` and `EndCleanWorkingCopy` say that
  no other row does, and `PageSnapshot.ReachThirdRow` and `PageSnapshot.ReachFourthRow` get there from a page
  just fetched.
- **A freed block merges at most once**, because `jSize` at kern_PhysMem.c:184 does not grow with `j`. No two halves
  of an aligned block are left apart exactly when that was so before and no block freed has its other half free and
  then the other half of the two together (`Buddy.FreeOneCoalesced`, `Buddy.FreeRangeCoalesced`);
  `Buddy.TwoBuddiesFound` is the failing case, at every order at which a block could merge twice. Freeing whole
  regions avoids it (`PhysMem.PageAllocator.FreeAll`), and allocating does no harm
  (`PhysMem.PageAllocator.AllocateBlock`).
- **pteCount has 12 bits**. In a table of fewer than 4096 entries coverage is unconditional; in a table of 4096
  (the ARM first-level table) it is lost exactly when a merged entry would span all of it
  (`Depend.DependTable.AddKey`). `Depend.LoseTheLast` does that with two entries made from one slot.
- **Overlapping ranges** (kern_ObjectSource.c:105-119) are added to the range table after a warning only. A lookup
  then misses a mounted OID exactly when the last range that starts at or before it has ended while an earlier
  one holds it (`Ranges.RangeTable.LookupOID`), and all lookups are exact if and only if the ranges are apart
  (`Ranges.ExactIffApart`). `Ranges.Hidden` builds a table in which OIDs are missed. The extent of the log is
  too small exactly when it ends at a missed LID (`Ranges.RangeTable.CalcLogExtent`).

## Model

| member | source | states |
|---|---|---|
| Ring.RingInsert | src/sys/eros/Link.h:84-103 | inserting between two neighbouring links makes the ring with the new link in that place |
| Ring.RingRemove | src/sys/eros/Link.h:63-80 | unlinking makes the ring without that link, the rest in order |
| Ring.RingReplace | src/sys/kernel/kern_Key.c:344-349 | giving a link another's place in a ring keeps the ring, with the new link in that place |
| GenChains.GenerationTable.ChainNode | src/sys/kernel/kern_LogDirectory.c:196-210 | a node off all chains joins the chain of its generation behind the head; counts, links and every other chain stay right |
| GenChains.GenerationTable.UnchainNode | src/sys/kernel/kern_LogDirectory.c:251-263 | a node leaves its chain, which keeps its other nodes in order; every other chain stays as it was |
| GenChains.GenerationTable.AllocNode | src/sys/kernel/kern_LogDirectory.c:148-157 | halts exactly when the free list is empty; otherwise takes its first node |
| GenChains.GenerationTable.FreeNode | src/sys/kernel/kern_LogDirectory.c:164-174 | a node off all chains returns to the front of the free list |
| GenChains.GenerationTable.FillFreeList | src/sys/kernel/kern_LogDirectory.c:975-990 | the very first record puts every node on the free list |
| GenChains.GenerationTable.MakeRoom | src/sys/kernel/kern_LogDirectory.c:991-1013 | the table shift halts exactly when a node would fall off its end; otherwise every node moves along with its chain |
| GenChains.GenerationTable.Scan | src/sys/kernel/kern_LogDirectory.c:1103-1129 | an uninterrupted scan returns the nodes of the chain, each once, in order |
| RbTree.RotateAt | src/sys/kernel/kern_LogDirectory.c:371-425 | after the writes of a rotation the pool holds the rotated tree: order, parent links and the rest of the tree are kept, for either side |
| RbTree.TreeHead.LeftRotate | src/sys/kernel/kern_LogDirectory.c:404-425 | the nodes a left rotation writes, and no others |
| RbTree.TreeHead.RightRotate | src/sys/kernel/kern_LogDirectory.c:371-392 | the nodes a right rotation writes, and no others |
| RbTree.TreeHead.InsertFixup | src/sys/kernel/kern_LogDirectory.c:436-478 | from a red node that may have a red parent, climbing ends in a red-black tree of the same nodes in order; halts exactly below a red root, where it comes to rotate the nil node |
| RbTree.TreeHead.RemoveFixup | src/sys/kernel/kern_LogDirectory.c:653-724 | from a place that lacks one black, the loop ends in a red-black tree of the same nodes in order; at the root it changes nothing |
| RbTree.TreeHead.Descend | src/sys/kernel/kern_LogDirectory.c:497-560 | the search ends at the node with the OID, or at the leaf where such a node belongs |
| RbTree.TreeHead.Successor | src/sys/kernel/kern_LogDirectory.c:626-643 | the successor of a node with two children is the leftmost node on its right, with no left child |
| RbTree.TreeHead.Insert | src/sys/kernel/kern_LogDirectory.c:1015-1024 | a new node makes a red-black search tree of all nodes; halts exactly when the root was red |
| RbTree.TreeHead.Remove | src/sys/kernel/kern_LogDirectory.c:771-937 | the tree without the node, ordered and linked; its colour laws hold unless the root of a two-node tree went |
| LogDirectory.Directory.constructor | src/sys/kernel/kern_LogDirectory.c:1260-1262 | an empty directory |
| LogDirectory.Directory.FindObject | src/sys/kernel/kern_LogDirectory.c:1046-1050 | looking up an OID gives what the map has for it, or nothing |
| LogDirectory.Directory.RecordLocation | src/sys/kernel/kern_LogDirectory.c:970-1035 | the map with the entry added or replaced, in every structure; the exact conditions under which it halts |
| LogDirectory.Directory.HaltsWithoutRoom | src/sys/kernel/kern_LogDirectory.c:970-1035 | in the newest generation or a newer one, recording halts exactly when an entry is 15 generations old, no node is free, or the root is red |
| LogDirectory.LeaveRedRoot | src/sys/kernel/kern_LogDirectory.c:653-660 | a directory reached by two records and a removal that holds one entry, has a red root, and halts on recording any other OID |
| LogDirectory.ClearToRedRoot | src/sys/kernel/kern_LogDirectory.c:1139-1153 | another such directory, reached by clearing a generation |
| LogDirectory.OneChildIsTwo | src/sys/kernel/kern_LogDirectory.c:653-660 | a node is a root with exactly one child if and only if it is the root of a two-node tree |
| LogDirectory.Directory.RemoveObjectEntry | src/sys/kernel/kern_LogDirectory.c:1227-1233 | the map without the OID, in every structure; the colour laws hold after it if and only if it did not remove the root of a two-node tree |
| LogDirectory.Directory.Unlist | src/sys/kernel/kern_LogDirectory.c:851-935 | through the temporary key swap of a removal every node is on the chain of its generation or free |
| LogDirectory.Directory.ClearGeneration | src/sys/kernel/kern_LogDirectory.c:1139-1153 | leaves exactly the entries of newer generations; the tree is what a sequence of node removals leaves, each with its effect on the colour laws, which hold unless exactly one entry is left |
| LogDirectory.Directory.NumAvailableEntries | src/sys/kernel/kern_LogDirectory.c:1185-1194 | the capacity less the number of entries of newer generations |
| LogDirectory.Directory.Scan | src/sys/kernel/kern_LogDirectory.c:1103-1129 | a scan meets every entry of the generation once, with its descriptor, and no other |
| LogDirectory.Directory.AllOnChains | src/sys/kernel/kern_LogDirectory.c:196-263 | the nodes of the tree are exactly those on the chains |
| LogDirectory.Directory.EntriesAndFree | src/sys/kernel/kern_LogDirectory.c:140-174 | entries and free nodes together make up the capacity; the counts of the table add up to the entries |
| LogDisk.LapDistinct | src/sys/kernel/kern_IOReq.c:233-254 | the log cursor gives out every frame of the log once in a lap, and then the first again |
| Checkpoint.Checkpointer.NextLogLoc | src/sys/kernel/kern_IOReq.c:242-254 | returns the cursor and moves it one frame on, round the end of the log |
| Checkpoint.BelowSlots | src/sys/kernel/kern_Ckpt.c:176-181 | the circular slot arithmetic: which slots are those of the generations before |
| Checkpoint.RingExtended | src/sys/kernel/kern_Ckpt.c:968-972 | the new header LID joins the ring, and every other stays for which there is room |
| Checkpoint.Phase3Overwrites | src/sys/kernel/kern_Ckpt.c:968-972 | phase 3 writes over a slot in use if and only if the ring is full |
| Checkpoint.GuardLeavesRingFull | src/sys/kernel/kern_ObjectHeader.c:265-272 | the guard admits a checkpoint after which the ring is full |
| Checkpoint.Checkpointer.GetOldestNonRetiredGenLid | src/sys/kernel/kern_Ckpt.c:184-190 | the LID after the header of the generation asked for |
| Checkpoint.Checkpointer.DoPhase3Commit | src/sys/kernel/kern_Ckpt.c:965-972 | the globals after phase 3: one LID taken from the cursor and put in the slot below |
| Checkpoint.Checkpointer.FillGenerations | src/sys/kernel/kern_Ckpt.c:1046-1054 | the root lists the generations newest first, and unused LIDs after them; it overruns exactly beyond 20 |
| Checkpoint.Checkpointer.DoPhase4Commit | src/sys/kernel/kern_Ckpt.c:1022-1081 | the root names the working generation, the unmigrated ones and the newest migrated, and goes to the other location; overruns exactly when more than 20 are unmigrated |
| Checkpoint.Checkpointer.DoPhase5Commit | src/sys/kernel/kern_Ckpt.c:1087-1110 | the next generation becomes the working one, the migrated ones are retired, and the ring still holds every LID needed |
| CkptRun.CrashSafe | src/sys/kernel/kern_Ckpt.c:269-304 | whatever writes survive a crash there is a valid root, and every generation it names is on disk as it was written |
| CkptRun.RootSurvives | src/sys/kernel/kern_Restart.c:250-288 | the root chosen is that of the last stabilized checkpoint, or in phase 5 perhaps of the one being stabilized, with its version, matching generation numbers and integrity byte; the other is older |
| CkptRun.ReadIsFold | src/sys/kernel/kern_Restart.c:411-428 | reading the generations a root names lays their entries over each other oldest first |
| CkptRun.MadeOfIsFold | src/sys/kernel/kern_LogDirectory.c:970-1035 | a directory in which each OID has its newest entry is that fold |
| CkptRun.FoldFetchable | src/sys/kernel/kern_Restart.c:345-357 | every object of the directory read back has its frame on disk as written |
| CkptRun.RestartRoundTrip | src/sys/kernel/kern_Restart.c:464-547 | after a crash at any point of a run the entries read back are the log directory at the commit of the recovered generation, restricted to its unmigrated generations |
| CkptRun.RecoveredFits | src/sys/kernel/kern_Restart.c:345-357 | the entries a restart reads fit in the log directory, in number and in generations, in the order they are read |
| CkptRun.StepPhase3Done | src/sys/kernel/kern_Ckpt.c:929-1000 | the end of phase 3 keeps the invariant, with the header written last and the ring full or not |
| CkptRun.StepPhase4Done | src/sys/kernel/kern_Ckpt.c:1022-1084 | writing the root keeps the invariant: all frames it names are on the medium by then |
| CkptRun.StepPhase5Done | src/sys/kernel/kern_Ckpt.c:1087-1110 | stabilizing keeps the invariant |
| CkptRun.StepCrash | src/sys/kernel/kern_Restart.c:217-247 | a crash and restart lead to a state in which the invariant holds again, and with it the place of the log cursor |
| CkptRun.RestartState | src/sys/kernel/kern_Restart.c:217-247 | the restart works on the generation after the recovered one, retires those that were migrated when its root was made, leaves the location of that root alone, and puts the log cursor after the header of the recovered generation |
| CkptRun.CrashKeepsCursor | src/sys/kernel/kern_Restart.c:217-247 | a crash of a stabilized state in which nothing has been written since leaves the log cursor where it was |
| CkptRun.StepInv | src/sys/kernel/kern_Ckpt.c:1113-1142 | every step of the protocol keeps the invariant |
| CkptRun.RunInv | src/sys/kernel/kern_Ckpt.c:1113-1142 | the invariant holds in every state of every run |
| CkptRun.AnyCrashRecovers | src/sys/kernel/kern_Restart.c:250-342 | over whole runs with any number of crashes: a crash leaves a valid root, and the restart rebuilds the directory of the last stabilized checkpoint or of the one being stabilized, every object on disk as written |
| FullRing.RingFills | src/sys/kernel/kern_Ckpt.c:968-1054 | a run that fills the ring, comes to a phase 4 that would overrun the root, and after a migration goes on to phase 5 |
| Restart.AddFrame | src/sys/kernel/kern_Restart.c:345-357 | recording the entries of a frame does not halt and lays them over the directory |
| Restart.ReadGeneration | src/sys/kernel/kern_Restart.c:510-628 | the directory after one generation is the same in whatever order its frames are read, and nothing halts |
| Restart.ReadDirectory | src/sys/kernel/kern_Restart.c:411-501 | the loop over the generations of a root, in the red-black directory, gives their fold and does not halt |
| Restart.Recover | src/sys/kernel/kern_Restart.c:631-674 | after a crash at any point of a run the restart does not halt, and the log directory holds the entries of the recovered checkpoint |
| PageSnapshot.PageTestZero | src/sys/kernel/kern_ObjectCache.c:963-973 | the length of the run of zero words a page starts with |
| PageSnapshot.PersistentPage.CheckpointPage | src/sys/kernel/kern_Ckpt.c:459-488 | at demarcation a page dirty or being cleaned becomes read only, and its content is the snapshot |
| PageSnapshot.PersistentPage.MitigateKRO | src/sys/kernel/kern_ObjectCache.c:1114-1233 | the page becomes writeable, the snapshot is kept by the copy, the old frame or a zero entry; when the current version moves |
| PageSnapshot.PersistentPage.EnsureWritable | src/sys/kernel/kern_ObjectHeader.c:136-298 | the page becomes dirty and writeable with its content unchanged and the snapshot kept |
| PageSnapshot.PersistentPage.CleanCurrent | src/sys/kernel/kern_ObjectCache.c:981-1068 | a zero page is cleaned at once, any other is queued; the directory entry that follows |
| PageSnapshot.PersistentPage.CleanWorkingCopy | src/sys/kernel/kern_ObjectCache.c:1072-1099 | the same for a working copy |
| PageSnapshot.PersistentPage.EndCleanCurrent | src/sys/kernel/kern_ObjectCache.c:897-943 | I/O completion for the current version halts exactly in the third row; otherwise the log has what the entry says |
| PageSnapshot.PersistentPage.EndCleanWorkingCopy | src/sys/kernel/kern_ObjectCache.c:897-943 | I/O completion for the working copy halts exactly in the fourth row; otherwise the copy goes and the log has it |
| PageSnapshot.PersistentPage.EveryStateIsARow | src/sys/kernel/kern_Ckpt.c:131-159 | every reachable state of a page is a row of the table |
| PageSnapshot.PersistentPage.SnapshotTaken | src/sys/kernel/kern_Ckpt.c:786-860 | when no read-only page is dirty the page has its entry, and when no I/O is left the log has its content at demarcation |
| PageSnapshot.PersistentPage.EndCheckpoint | src/sys/kernel/kern_Ckpt.c:1087-1110 | when the checkpoint ends the entry saves the content at demarcation |
| PageSnapshot.ReachThirdRow | src/sys/kernel/kern_Ckpt.c:137-139 | a page in the third row, reached with any content but zeros |
| PageSnapshot.ReachFourthRow | src/sys/kernel/kern_Ckpt.c:140-141 | a page with a working copy in the fourth row, reached with any content but zeros |
| Bits.Ffs32 | src/sys/eros/ffs.h:33-57 | the number of zero bits below the lowest one bit, by five halvings; 31 for zero |
| Bits.Fls32 | src/sys/eros/fls.h:34-61 | the number of bits of a word, by five halvings |
| Bits.ClearLowBitStays | src/sys/kernel/kern_PhysMem.c:138-144 | clearing the lowest one bit of a number inside an aligned block leads to one in the block, and not below its start |
| Buddy.BuddyFacts | src/sys/kernel/kern_PhysMem.c:183-185 | a block and its buddy are neighbours, aligned, and together an aligned block of twice the size |
| Buddy.FreeOneSound | src/sys/kernel/kern_PhysMem.c:170-208 | freeing a block keeps the blocks disjoint, aligned and inside their regions, and adds exactly its pages |
| Buddy.FreeOneIs | src/sys/kernel/kern_PhysMem.c:180-207 | a freed block becomes one with the other half of its aligned block exactly when that half is free, in the region and below the largest order; otherwise it stays by itself |
| Buddy.FreeRangeSound | src/sys/kernel/kern_PhysMem.c:158-214 | so does freeing any number of pages from the end |
| Buddy.FreeOneCoalesced | src/sys/kernel/kern_PhysMem.c:180-207 | after freeing a block no two free blocks of a region are the halves of an aligned block if and only if that was so and the block did not find its other half free and then the other half of both |
| Buddy.FreeRangeCoalesced | src/sys/kernel/kern_PhysMem.c:158-214 | the same for any number of pages freed from the end |
| Buddy.FreeRangeRuns | src/sys/kernel/kern_PhysMem.c:158-214 | every aligned run of a power of two pages among those freed, up to the largest order, lies in one free block; what was in one block before still is |
| Buddy.RunsCoalesced | src/sys/kernel/kern_PhysMem.c:158-214 | a region all of whose aligned runs are in one block each has no two halves apart |
| Buddy.TwoBuddiesFound | src/sys/kernel/kern_PhysMem.c:184-203 | at every order at which a block could merge twice, a region in which freeing a block leaves two free halves apart |
| Buddy.NotFullyMerged | src/sys/kernel/kern_PhysMem.c:184-203 | four free pages left in two blocks of two, with no page lost |
| Buddy.SplitSound | src/sys/kernel/kern_PhysMem.c:132-154 | splitting a block keeps the free pages and the soundness of the blocks |
| Buddy.AllocatedSound | src/sys/kernel/kern_PhysMem.c:219-268 | taking n pages from a block removes exactly those, whatever n; the rest stays free in sound blocks |
| Buddy.AllocatedCoalesced | src/sys/kernel/kern_PhysMem.c:244-263 | taking any number of pages from a block leaves no two free halves apart where there were none |
| Buddy.AllocateThenFree | src/sys/kernel/kern_PhysMem.c:156-268 | pages allocated meet the condition for freeing them, and freeing them restores the set of free pages |
| PhysMem.PageAllocator.constructor | src/sys/kernel/kern_PhysMem.c:271-279 | the empty allocator is valid |
| PhysMem.PageAllocator.FreeAllRegions | src/sys/kernel/kern_ObjectCache.c:136-155 | marking and freeing every region leaves all pages free, the interior ones marked, the counter equal to their number, and every aligned run of pages of a region, up to the largest order, in one free block |
| PhysMem.PageAllocator.FreeOneBlock | src/sys/kernel/kern_PhysMem.c:123-128 | header and list of the block agree with the map of free blocks |
| PhysMem.PageAllocator.FreeBlock | src/sys/kernel/kern_PhysMem.c:158-214 | exactly the n pages become free, in blocks as large as can be; no other block gets smaller; the counter follows, other page types stay; the interior pages are marked after it if and only if they were before; the exact condition under which no two halves are left apart |
| PhysMem.PageAllocator.AllocateBlock | src/sys/kernel/kern_PhysMem.c:219-268 | n contiguous free pages at a multiple of a power of two at least n, from a smallest block that is large enough; fails only when there is none; everything else stays free, and no two free halves come to be apart |
| PhysMem.PageAllocator.FindContaining | src/sys/kernel/kern_PhysMem.c:136-146 | clearing lowest bits from any page of a free block reaches the first page of that block |
| PhysMem.PageAllocator.SplitContainingFreeBlock | src/sys/kernel/kern_PhysMem.c:132-154 | the block of the page is split, the free pages stay the same |
| PhysMem.PageAllocator.AllocateThisPhysPage | src/sys/kernel/kern_PreloadObSource.c:70-84 | the splitting ends with exactly that page taken from the free ones, and leaves no two free halves apart where there were none |
| PhysMem.PageAllocator.FreeAll | src/sys/kernel/kern_PhysMem.c:282-302 | every page of the region becomes free and no other changes; every aligned run of pages of the region, up to the largest order, is in one free block, so no two halves are apart |
| KeyRings.RingsChanged | src/sys/kernel/kern_Key.c:305-351 | a change on one ring leaves all other rings as they are |
| KeyRings.Chained | src/sys/kernel/kern_Key.c:97-109 | linking a key on its side of the ring keeps the Resume keys together |
| KeyRings.Unchained | src/sys/kernel/kern_Key.c:472-539 | unlinking keeps the ring and the Resume keys together |
| KeyRings.Moved | src/sys/kernel/kern_Key.c:338-351 | a moved key takes its place on the ring along |
| Capabilities.KeySpace.Prepare | src/sys/kernel/kern_Key.c:229-302 | preparing voids exactly the keys whose count is not that of the object, or which are not to a page for a Page key and to a node for any other; every other key comes to be on the ring of its object, or of its process for Resume, Start and Process keys, which makes the node a process |
| Capabilities.KeySpace.PreparedPlace | src/sys/kernel/kern_Key.c:229-302 | at all times a prepared Resume, Start or Process key is on the ring of its process and any other prepared key on that of its object, of the right kind, and on no other ring |
| Capabilities.KeySpace.PrepareKeyToProcess | src/sys/kernel/kern_Key.c:97-109 | Resume keys go on the far side of the ring, others on the near side |
| Capabilities.KeySpace.Unprepare | src/sys/kernel/kern_Key.c:472-539 | the key carries the call count of the object if it is a Resume key and the allocation count otherwise; the object learns that this count is in use; the key stays live |
| Capabilities.KeySpace.Set | src/sys/kernel/kern_Key.c:305-335 | an exact copy, prepared or not, with every ring kept |
| Capabilities.KeySpace.Move | src/sys/kernel/kern_Key.c:338-351 | the key is in the other slot, at the same place of its ring, and the old slot is void |
| Capabilities.KeySpace.MakeUnpreparedCopy | src/sys/kernel/kern_Key.c:438-469 | an unprepared copy of a prepared key is live, and the object knows of it |
| Capabilities.KeySpace.SetToObj | src/sys/kernel/kern_Key.c:355-382 | a new key to an object |
| Capabilities.KeySpace.BuildResumeKey | src/sys/kernel/kern_Invoke.c:379-416 | a new Resume key, linked on the Resume side |
| Capabilities.KeySpace.RescindAll | src/sys/kernel/kern_KeyRing.c:75-138 | every key on the ring is void, and no other |
| Capabilities.KeySpace.UnprepareAll | src/sys/kernel/kern_KeyRing.c:300-384 | every key on the ring is unprepared with the right count, and exactly the keys that were live are live |
| Capabilities.KeySpace.ZapResumeRing | src/sys/kernel/kern_KeyRing.c:240-297 | exactly the prepared Resume keys to the process are void; all other keys and links are as they were |
| Capabilities.KeySpace.BumpCallCount | src/sys/kernel/kern_ObjectHeader.c:367-380 | the count grows only if it was in use, and afterwards no unprepared Resume key is live |
| Capabilities.KeySpace.ZapResumeKeys | src/sys/kernel/kern_Process.c:70-81 | no Resume key to the process, prepared or unprepared, is live; other keys and rings are as they were |
| Capabilities.KeySpace.Rescind | src/sys/kernel/kern_ObjectHeader.c:301-364 | no key to the object, prepared or unprepared, wherever it is, is live; other keys are as they were |
| Capabilities.KeySpace.DeadStaysDead | src/sys/kernel/kern_ObjectHeader.c:301-380 | a key made before its kind was last killed is not live |
| Rescission.Perform | src/sys/kernel/kern_Key.c:229-539 | an operation is done exactly when its conditions hold, and does to keys, counts and objects what the step relation says |
| Rescission.OpKeepsGood | src/sys/kernel/kern_Key.c:201-539 | every operation keeps counts in order: an unprepared key with the current count implies that the object knows the count is in use |
| Rescission.KilledForGood | src/sys/kernel/kern_ObjectHeader.c:301-380 | over every run of operations after a rescission, no key that there was to the object, no copy of it and no copy of a copy conveys access; the same for Resume keys after proc_ZapResumeKeys |
| Rescission.NoneUntilMade | src/sys/kernel/kern_ObjectHeader.c:301-380 | over every run after a rescission no key anywhere conveys access to the object until the kernel makes a new one to it; the same for Resume keys after proc_ZapResumeKeys |
| Rescission.KillAndGoOn | src/sys/kernel/kern_ObjectHeader.c:301-380 | the same for the kernel's own operations: the states they go through are such a run |
| SegWalk.WalkAgrees | src/sys/kernel/kern_GPT.c:172-300 | the walk succeeds exactly where the recursive meaning of the address, in which a slot is addressed if it is below 32, not the keeper's, and below 30 beside a background key, has a page that may be accessed; it then finds that page, offset and permissions |
| SegWalk.MaxSlotIs | src/sys/kernel/kern_GPT.c:211-234 | the limit on the slot index admits exactly the slots that are not the keeper's, nor the background key's or beyond it |
| SegWalk.SplitAddress | src/sys/kernel/kern_GPT.c:229-236 | slot index and remaining offset together are the address, and the offset is below the slot's size |
| SegWalk.WalkFromKey | src/sys/kernel/kern_GPT.c:79-300 | the same from an address space key; on success the offset lies in a page, and if write access was needed no key or window on the way was read-only |
| SegWalk.WalkInStages | src/sys/kernel/kern_GPT.c:155-300 | a walk to one stop level and on to a lower one ends as one walk to the lower level, in the same state or fault |
| SegWalk.WalkBounded | src/sys/kernel/kern_GPT.c:176-207 | a walk makes at most 20 traversals, and only the traverse limit fault has made 20 |
| SegWalk.WalkPasses | src/sys/kernel/kern_GPT.c:172-300 | a walk traverses only GPTs that are not below the stop level and ends at one that is, or inside a page; the keeper is that of the last GPT traversed that has one which can be called, with the offset there |
| SegWalk.LoopFaults | src/sys/kernel/kern_GPT.c:204-207 | a walk round a cycle ends with the traverse limit |
| SegWalk.TrailPerms | src/sys/kernel/kern_GPT.c:126-133 | the permissions of a walk are read-only exactly when a key or window on the way is, and exclude calls to keepers exactly when one on the way does |
| SegWalk.Walker.ProcessSegKey | src/sys/kernel/kern_GPT.c:79-135 | the method that updates the walk record computes the specification function, and the fault code names the first check that fails |
| SegWalk.Walker.TraverseGpt | src/sys/kernel/kern_GPT.c:204-292 | so does one round of the loop |
| SegWalk.Walker.WalkSeg | src/sys/kernel/kern_GPT.c:172-300 | so does the loop, which ends |
| Depend.MergeCovers | src/sys/kernel/kern_Depend.c:236-246 | a merged entry covers what it did and the new one if and only if the span fits in 12 bits, and then no more than what is between them |
| Depend.MergedOk | src/sys/kernel/kern_Depend.c:233-246 | a merged entry stays in its table, and spans too much only if it would span all of a table of 4096 |
| Depend.DependTable.NewDependEntry | src/sys/kernel/kern_Depend.c:132-184 | a new entry takes the next place in turn; what the evicted entry covered is invalidated, and nothing else |
| Depend.DependTable.AddKey | src/sys/kernel/kern_Depend.c:187-261 | the mapping entry can be found from its slot, and so can all others; nothing is evicted where an entry with the slot's tag has it or is of the same table; coverage is lost exactly when a merged entry would span a whole table of 4096; the new table and counters |
| Depend.DependTable.InvalidateKey | src/sys/kernel/kern_Depend.c:264-289 | no mapping entry made from the slot is valid any more; exactly those found through entries with the slot's tag are gone, and every other entry of the table stays |
| Depend.TagsDiffer | src/sys/kerninc/Depend.h:201 | slots less than 2**24 bytes apart have different tags, so that neither loses entries to the other's invalidation |
| Depend.BucketsDiffer | src/sys/kernel/kern_Depend.c:77 | as many consecutive slots as there are buckets use a bucket each |
| Depend.LoseTheLast | src/sys/kernel/kern_Depend.c:233-246 | a table, reached by adding two entries of one slot, in which the second is valid and not found |
| Qsort.Med3Median | src/sys/kernel/kern_qsort.c:67-73 | the element chosen is between the other two |
| Qsort.ChoosePivot | src/sys/kernel/kern_qsort.c:90-102 | the place of the pivot is in range; of more than seven elements one other is not above it and another not below it, and of more than forty three are not above and three not below it |
| Qsort.InsertionSort | src/sys/kernel/kern_qsort.c:84-88 | sorts the range, a permutation of it |
| Qsort.Partition | src/sys/kernel/kern_qsort.c:103-129 | equal keys at both ends, smaller ones on the left, larger ones on the right; without a swap the array is as it was |
| Qsort.GatherEqual | src/sys/kernel/kern_qsort.c:138-142 | the block swaps bring the equal keys to the middle |
| Qsort.Sort | src/sys/kernel/kern_qsort.c:76-152 | for every total preorder the range comes out sorted, a permutation of what it was, and nothing else changes; it ends |
| Rtc.MktimeCounts | src/sys/kernel/kern_RtcUtil.c:29-60 | for every date of the Gregorian calendar from year 1 on, the seconds from the start of 1970, as a 32-bit word |
| Rtc.SecondsDistinct | src/sys/kernel/kern_RtcUtil.c:28-60 | no two times of the calendar have the same number of seconds |
| Rtc.YearFound | src/sys/kernel/kern_RtcUtil.c:79-87 | the divisions by 400, 100 and 4 years find the year, counted from March, and the day in it |
| Rtc.MonthFound | src/sys/kernel/kern_RtcUtil.c:88-91 | the 153-day formula and 367 * m / 12 agree on the month and the day in it |
| Rtc.KernGmtime | src/sys/kernel/kern_RtcUtil.c:62-106 | for every 32-bit time, a valid date that many seconds after the start of 1970 |
| Rtc.ThereAndBack | src/sys/kernel/kern_RtcUtil.c:28-106 | kernMktime takes what kernGmtime makes back to the time it came from |
| Rtc.BackAndThere | src/sys/kernel/kern_RtcUtil.c:28-106 | a date of 1970 to 2106 is the only one kernGmtime can give for the time that kernMktime makes of it |
| Ranges.RangeTable.LookupRange | src/sys/kernel/kern_ObjectSource.c:60-76 | the binary search finds the last range that starts at or before the OID, or -1 |
| Ranges.RangeTable.LookupOID | src/sys/kernel/kern_ObjectSource.c:79-90 | for any table: finds the last range that starts at or before the OID if it holds the OID, and misses a mounted OID exactly when that range has ended and an earlier one holds it |
| Ranges.ExactIffApart | src/sys/kernel/kern_ObjectSource.c:57-90 | lookups in ranges that are not empty are all exact if and only if the ranges are apart |
| Ranges.Hidden | src/sys/kernel/kern_ObjectSource.c:93-137 | a table, reached by adding a range inside another, in which OIDs are mounted and missed |
| Ranges.RangeTable.AddRange | src/sys/kernel/kern_ObjectSource.c:93-160 | the range goes in so that the order is kept; the warning is printed exactly when a neighbour reaches into it, which among ranges apart is when any overlaps it; halts exactly when the table is full |
| Ranges.RangeTable.CalcLogExtent | src/sys/kernel/kern_ObjectSource.c:175-189 | every LID below logWrapPoint is mounted; logWrapPoint is the least that is not, unless it is missed |

## Left out

- Log space reservation (kern_ObjectHeader.c:165-298): that a log frame is reused only when retired is a condition of the steps that write one.
- Journal lookup, `pp` fields, node snapshots, log pots, tag pots, home pots, the process directory and migration itself; the migrated generation advances as a step of the environment.
- Scans of a generation interleaved with removals: a scan is claimed only when uninterrupted.
- LogDirectory.Directory.ClearGeneration: whether it halts while a scan of the same generation is under way is not determined.
- LogDirectory.Directory.RecordLocation: the order of tree and chain writes inside one call is not modelled where nothing reads between them.
- The mirrored halves of the fixup loops and of the rotations are one function with a side as parameter; the loops of ld_clearGeneration are methods that call themselves for the next generation.
- CkptRun: recording that halts for want of room ends a run; the red root that removals can leave is not a part of these runs.
- CkptRun.AnyCrashRecovers: before the first checkpoint is stabilized there is only a formatted root, from which the restart is the preloaded big bang.
- PageSnapshot: page stealing, fetching, and waiting for I/O requests; one page at a time.
- PhysMem: non-memory regions, the reservation of pages and DMA constraints; the bit operations x & -x, x & (x - 1) and ^ are given arithmetically; free lists are sequences (the link operations are in Ring).
- PhysMem.PageAllocator.FreeAll: page numbers of a region are below 2**31.
- Capabilities: objects not in core, hazarded keys, activities, keyR_ObjectMoved; allocation and call counts do not overflow.
- SegWalk: weak and opaque permissions, fetching, and key preparation, which only makes keys usable.
- Depend: what invalidation writes to hardware tables, and memory of a stolen mapping table that is used for a table of another size.
- objC_FindFirstSubrange: its test at kern_ObjectSource.c:332 skips a following range when the start is the end of a range.
- Qsort: element size and the way swaps move bytes; the int difference of two places.
- kern_rbtree.c, kern_CpuReserve.c, gate key IPC, interrupts, the debugger and device code.
