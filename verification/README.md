# Castor kernel: verified models

Models, in Dafny, of the hard parts of the Castor teaching kernel, its tools and its lwIP port,
with proofs of what they promise.  `dafny verify dfyconfig.toml` checks everything.

**Memory.** `PageAlloc` is the page allocator. `PageTables` sees the page tables as a tree of
512-entry tables whose kernel half is shared; `PageLedger` and `Teardown` account for the
references address spaces hold; `PageRanges` is the arithmetic of page ranges, `PMap` the code of
pmap.c over them.  `Loader` builds ELF
images through it, `Slabs` carves objects out of regions mapped through it.

**Storage.** `BufferCache` is the buffer cache over an abstract disk. `O2fsLayout` gives the
on-disk bytes, `O2fsSpec` what an image means, `O2fsFiles` how files grow and are written, `O2fs`
the file system over the cache, `Vfs` the path walk, `Mounting` the mount.  `Manifest`, `Image` and
`Newfs` are the mkfs tool.  `EndToEnd` puts all of them together, `RawDisks` is about
the disk below the blocks, and `Sessions` about whole runs on the mounted disk.

**Scheduling and wakeups.** `Scheduling`, `Semaphores`, `Timers`, `CondVars`, `Mailboxes` and
`Selects` are state machines over atomic sections, with the code of the sections beside them
where it works in place.  Main results are about every run.

**Names.** `Dns` is the resolver table.

Where a promise turned out false of the code, the code is modelled as it is, a lemma gives an
input or a run that shows it, and the exact condition is proved:

- paths outside the manifest are not found: `Image.FakeEntry`, `RawDisks.OffGridEntry`,
  `Image.FindsTreeIff` and `RawDisks.DiskFindsTreeIff`;
- lookups open nodes only, also after writes: `Sessions.Forging`, `Sessions.KeepsLinkedIff` and
  `Sessions.RunLinkedIff`;
- ranges of pages are mapped as asked, and 64GB directly: `PageRanges.FirstOverflow`,
  `PageRanges.RangeIff`, `PageRanges.LargeRangeIff` and `PageRanges.DirectIff`;
- reads stop at the end of a file and writes past its limit are refused: `O2fsFiles.ReadWraps`,
  `O2fsFiles.WriteWraps`, `O2fsFiles.ReadCutIff` and `O2fsFiles.RefusedIff`;
- the used part of a region is mapped: `Slabs.XMem.Grow`;
- timers fire when they are due: `Timers.ZeroTimeout`, `Timers.KTimer.Create`; any event can be
  cancelled: `Timers.CancelFired`, `Timers.CancelAfter` and `Timers.UnlinkAgainIff`;
- every accepted name query is answered: `Dns.LosingRun`, `Dns.RecvInv` and `Dns.BalancedIff`; a
  query is accepted while an entry is free for it: `Dns.RefusedByWrap`, `Dns.RefusedIff`;
- a signal without waiters has no effect: `CondVars.SavedSignal`, `CondVars.StrictIff`;
- a fetcher does not wait beside a message: `Mailboxes.TwoFetchers`, and
  `Mailboxes.FetcherNotForgotten` for a single fetcher;
- a select does not wait beside a readable socket: `Selects.LeftoverSleeps`,
  `Selects.LeftoverIff`; nor is it left off the list: `Selects.UnprotectedIff`;
- a thread can be made runnable at any time: `Scheduling.CurrentTwice`, `Scheduling.RunnableTwice`.

Conventions.  Pages, blocks and threads are numbers; a page entry is a frame number with a set of
flags.  A lock section is one atomic step.  Halting assertions and panics become failure results.
PAlloc_AllocPage, which halts without free pages, returns none instead; callers that test for a null
page do what their code does, and XMem_Allocate ignores the failure as its code does.  PMap_AllocMap
and PMap_Init, which would go on with a null page or half a direct map, stop instead.  Signed
overflow, which C leaves undefined, is taken to wrap around.
Clocks, device outcomes, allocator choices and what callbacks do are parameters.

## Model

| member | source | states |
|---|---|---|
| PageAlloc.PAlloc.AddRegion | sys/kern/palloc.c:92-164 | a region joins the managed pages once, in front of the free list and in descending order, less the pages of the PageInfo table; no other count changes; conservation is kept |
| PageAlloc.PAlloc.AllocPage | sys/kern/palloc.c:188-213 | fails exactly on an empty list; otherwise the head page, unreferenced before, gets its first reference and leaves the list |
| PageAlloc.PAlloc.Retain | sys/kern/palloc.c:248-256 | one more reference, only for a page in use |
| PageAlloc.PAlloc.Release | sys/kern/palloc.c:221-275 | one reference less; the page returns to the list exactly with its last one |
| PageAlloc.PAlloc.Conservation | sys/kern/palloc.c:92-275 | in every state, pages in total are pages on the list plus pages referenced |
| PageTables.WalkPut | sys/amd64/pmap.c:278-338 | the tree invariant at work: a store into a slot off the path of a page does not change its translation, in any address space |
| PageTables.PutLeafLooks | sys/amd64/pmap.c:355-372 | storing a leaf through the slot found changes the translation of its page (or 2MB slot) alone, and in the kernel half for all address spaces at once |
| PageTables.KernelShared | sys/amd64/pmap.c:37-51 | every two address spaces translate every kernel-half page alike |
| PageLedger.Digits | sys/amd64/pmap.c:220-263 | the shifts and masks of the source select the four digits of the page number |
| PMap.PMap.LookupEntry | sys/amd64/pmap.c:278-338 | returns the slot on the path of the address, creating missing tables, while no translation of any address space changes; for a 4KB page it fails exactly if there are fewer free pages than missing tables |
| PMap.PMap.Translate | sys/amd64/pmap.c:220-263 | a mapped address, with 4KB or 2MB pages, translates to its recorded frame plus offset; exactly what is returned for unmapped ones |
| PageRanges.RangeIff | sys/amd64/pmap.c:359-369 | PGSIZE * i being an int product: a loop over 4KB pages reaches exactly the pages of its range if and only if the range is within 2^31 bytes |
| PageRanges.LargeRangeIff | sys/amd64/pmap.c:484-494 | the same for 2MB pages: exactly up to 1024 of them |
| PageRanges.FirstOverflow | sys/amd64/pmap.c:54-59 | at turn 1024 the first call of PMap_Init stores the entry of physical address 0xFFFFFFFF80000000 under root entry 255 |
| PMap.PMap.Map | sys/amd64/pmap.c:355-372 | the pages the wrapped products reach map to the frames at the same distances, and every other page of every address space translates as before; stops early only without free pages |
| PMap.PMap.AllocMap | sys/amd64/pmap.c:423-446 | of the pages the wrapped products reach, present ones are kept and absent ones get distinct pages that were free; everything else translates as before |
| PMap.PMap.SystemMap | sys/amd64/pmap.c:514-531 | as Map, for the kernel: the new pages appear in every address space; a single page is mapped exactly if there are free pages for its missing tables |
| PMap.PMap.SystemLMap | sys/amd64/pmap.c:480-497 | as SystemMap with 2MB pages, replacing whatever a slot held, for any number of pages |
| PMap.PMap.Init | sys/amd64/pmap.c:19-64 | the kernel half of the root is complete; with the products of its calls wrapped, exactly the first 6GB are direct-mapped, all of them cached, and 1GB of the user half leads to addresses that do not exist |
| PageRanges.DirectIff | sys/amd64/pmap.c:53-59 | of the 64GB meant, a physical address is direct-mapped if and only if it is below 6GB |
| PageLedger.DirectIdentity | sys/amd64/pmap.c:53-61 | under the direct map, translating the direct-mapped address of pa gives pa |
| PMap.PMap.NewAS | sys/amd64/pmap.c:80-106 | an empty user half under the shared kernel half, no other translation changes; fails exactly with fewer than two free pages |
| PMap.PMap.DestroyAS | sys/amd64/pmap.c:116-158 | the references given back are, once each, those of every mapped user page, every user-half table below the root, and the record; counts drop by exactly these; the root table and the kernel half are not among them; other address spaces translate as before |
| PMap.PMap.ReleaseTable | sys/amd64/pmap.c:123-152 | the nested loops release each present entry of a subtree once |
| Teardown.Findings | sys/amd64/pmap.c:116-158 | a leaf is found by the teardown exactly if its page translates, a table exactly if it is present |
| Teardown.BalancedDropped | sys/amd64/pmap.c:116-158 | each page loses as many counts as references to it were dropped |
| Loader.Loader.LoadSegment | sys/kern/loader.c:61-89 | the file bytes appear at their addresses and no other address of the process changes, each chunk staying in one page |
| Loader.Loader.ZeroSegment | sys/kern/loader.c:98-123 | the range reads as zero and no other address changes |
| Loader.Loader.Load | sys/kern/loader.c:131-184 | every loadable segment has its file bytes and then zeros, also when segments share pages; fails only for a bad header, a dynamic segment, a segment of more than 2^31 bytes or a lack of pages |
| Slabs.XMem.New | sys/amd64/xmem.c:47-60 | the first region not in use, none exactly if all are |
| Slabs.XMem.Grow | sys/amd64/xmem.c:104-112 | one turn of the loop, which ignores the result of PMap_SystemMap: the page is counted exactly if one is free; the used parts stay mapped exactly if the free pages also cover its missing tables |
| Slabs.XMem.Allocate | sys/amd64/xmem.c:92-115 | the region reaches the length, or keeps what was added; failure only past the region or without pages; the used parts stay mapped unless memory has run out, and with four free pages for each page all succeeds; other regions are untouched |
| Slabs.Slab.Extend | sys/kern/slab.c:63-93 | a batch of new aligned, disjoint objects in the region, or none at all; live objects are untouched |
| Slabs.Slab.Alloc | sys/kern/slab.c:105-124 | an object not live before; none only if the slab is empty and cannot grow |
| Slabs.Slab.Free | sys/kern/slab.c:135-145 | the object is not live any more and first on the free list |
| Slabs.Slab.LiveCount | sys/kern/slab.c:63-145 | objects less free objects, and allocations less frees, are the live objects |
| Slabs.LiveObjects | sys/kern/slab.c:105-145 | live objects of a slab lie in the used part of its region, aligned and pairwise disjoint |
| Slabs.LiveMapped | sys/kern/slab.c:63-145 | while the used parts are mapped, every byte of a live object translates |
| Slabs.SlabsApart | sys/amd64/xmem.c:28-44 | live objects of slabs over different regions never overlap |
| Slabs.FamilyApart | sys/kern/slab.c:105-145 | of all slabs of the kernel, no two live objects overlap |
| Slabs.Create | sys/kern/slab.c:31-51 | a new slab gets a region no other slab has, none exactly if all are in use; the other slabs are untouched |
| Slabs.AllocFrom | sys/kern/slab.c:105-124 | an allocation from one slab keeps all slabs apart and changes the live objects of no other |
| Slabs.FreeTo | sys/kern/slab.c:135-145 | so does giving an object back |
| BufferCache.BufCache.Lookup | sys/kern/bufcache.c:97-117 | pins the entry of the block exactly if there is one |
| BufferCache.BufCache.AllocEntry | sys/kern/bufcache.c:133-163 | evicts the least recently released entry; fails exactly if all are pinned |
| BufferCache.BufCache.Alloc | sys/kern/bufcache.c:178-194 | an entry on the block, out of memory exactly if it is not cached and all entries are pinned |
| BufferCache.BufCache.Read | sys/kern/bufcache.c:229-262 | yields the current block; at most one entry per block, in its bucket; the store seen by clients never changes; exact conditions of each error |
| BufferCache.BufCache.Write | sys/kern/bufcache.c:273-282 | the disk gets the buffer, and the store seen by clients stays the same |
| BufferCache.BufCache.Release | sys/kern/bufcache.c:205-215 | the last release queues the entry behind all earlier ones |
| BufferCache.ReadAfterFailure | sys/kern/bufcache.c:229-262 | a failed device read is remembered: the next read succeeds and returns the evicted contents |
| O2fs.FindClear | sys/fs/o2fs/o2fs.c:133-170 | the first clear bit of a bitmap block |
| O2fs.O2fs.BAlloc | sys/fs/o2fs/o2fs.c:133-170 | the first unmarked block, never one that is owned; 0 exactly if all are marked; only its bit changes |
| O2fs.O2fs.Grow | sys/fs/o2fs/o2fs.c:263-292 | whether it succeeds is settled by the bitmap, the pointers and the end of the disk beforehand; the empty pointers take the unmarked blocks in order; on failure no file changes; past 64 blocks it is refused |
| O2fsFiles.GrowsIff | sys/fs/o2fs/o2fs.c:263-292 | it succeeds exactly if every unmarked block it takes exists and is on the disk |
| O2fs.O2fs.Read | sys/fs/o2fs/o2fs.c:512-563 | exactly the bytes of the file in the range, cut off at its end; wild exactly if the 64-bit sum of offset and length wraps around |
| O2fsFiles.ReadCutIff | sys/fs/o2fs/o2fs.c:525-531 | the length is cut off at the end of the file if and only if that sum does not wrap around |
| O2fsFiles.ReadWraps | sys/fs/o2fs/o2fs.c:529-531 | offset 1 and length 2^64-1 are not cut off |
| O2fs.O2fs.Write | sys/fs/o2fs/o2fs.c:578-631 | the bytes are stored block by block, the size is the larger of old and needed, every block of every other file stays; a write that cannot grow the file changes no file; owners of blocks never change; what it comes to is settled beforehand, wild only if the 64-bit sum of offset and length wraps around |
| O2fsFiles.RefusedIff | sys/fs/o2fs/o2fs.c:593-597 | a write beyond 64 blocks is refused if and only if the sum modulo 2^64 is beyond them, too |
| O2fsFiles.WriteWraps | sys/fs/o2fs/o2fs.c:593-597 | one byte at offset 2^64-1 is not refused, and its block is outside the node |
| O2fsFiles.GrewOwners | sys/fs/o2fs/o2fs.c:263-292 | single ownership survives a write, successful or not: it follows from the pointers, bits and nodes the write leaves |
| O2fsFiles.WroteBytes | sys/fs/o2fs/o2fs.c:578-631 | in bytes: the written range has the written bytes, and every other byte of every file is as before |
| O2fsFiles.ReadBack | sys/fs/o2fs/o2fs.c:512-631 | reading back a successful write yields what was written |
| O2fs.O2fs.LoadVNode | sys/fs/o2fs/o2fs.c:210-249 | pins the node; a block of the disk that is no node is refused and let go |
| O2fs.O2fs.Lookup | sys/fs/o2fs/o2fs.c:416-456 | finds exactly the first entry of that name in the blocks of the file, and opens the node it leads to, or nothing if it leads to no node |
| O2fsSpec.PutPtr | sys/fs/o2fs/o2fs.c:263-292 | giving a file a fresh marked block keeps single ownership of all blocks |
| O2fsSpec.MarkBit | sys/fs/o2fs/o2fs.c:155-165 | setting a bit of the bitmap marks that block and no other, and moves no file |
| Vfs.Lookup | sys/kern/vfs.c:63-115 | walks component by component and finds what the directories say; only the entries it follows have to lead to nodes or to blocks that are refused |
| Mounting.Mount | sys/fs/o2fs/o2fs.c:42-114 | refuses a disk without the superblock header; mounts every volume of any size with at most 16 blocks of bitmap for which there are buffers, and leaves the file system in order with its root open |
| Manifest.GetToken | sbin/newfs_o2fs/newfs_o2fs.c:63-93 | the next maximal run without white space, empty exactly at the end, for tokens that fit the buffer |
| Manifest.UnparseUnique | sbin/newfs_o2fs/newfs_o2fs.c:171-244 | a manifest describes one tree only |
| Newfs.Mkfs.AppendBlock | sbin/newfs_o2fs/newfs_o2fs.c:96-117 | a block at the position, padded with zeros; everything built before stays in place |
| Newfs.Mkfs.ZeroBitmap | sbin/newfs_o2fs/newfs_o2fs.c:355-372 | a new image is as long as the disk; superblock and bitmap are set aside; refused exactly for a new image without size |
| Newfs.Mkfs.AddFile | sbin/newfs_o2fs/newfs_o2fs.c:125-169 | the node appended last holds exactly the bytes of the host file; exact block count |
| Newfs.Mkfs.AddItems | sbin/newfs_o2fs/newfs_o2fs.c:171-224 | reads exactly the tokens of the items up to END and lists them |
| Newfs.Mkfs.AddDirectory | sbin/newfs_o2fs/newfs_o2fs.c:171-244 | succeeds on every directory that fits, consumes exactly its tokens, and the node appended last holds its tree |
| Newfs.Mkfs.BlockBitmap | sbin/newfs_o2fs/newfs_o2fs.c:246-266 | marks exactly the blocks below the position; stops exactly outside 9 to 16383 blocks |
| Newfs.SuperFacts | sbin/newfs_o2fs/newfs_o2fs.c:268-285 | the superblock passes the test of the mount and carries block count, geometry and root |
| Newfs.Mkfs.Format | sbin/newfs_o2fs/newfs_o2fs.c:297-404 | on an image of any size, with the bitmap the size calls for: the image holds the tree of the manifest, every block has one owner and exactly the owned ones are marked; accepts exactly the manifests whose tree fits; its entries lead to nodes exactly if those that can be read in the files do |
| Newfs.FinishTree | sys/fs/o2fs/o2fs.c:416-456 | in the image, entries lead to nodes exactly if the entries that can be read in plain files do |
| Newfs.ManifestNamed | sbin/newfs_o2fs/newfs_o2fs.c:42-93 | the manifest being a C string, all names are strings |
| Image.TreeFound | sys/kern/vfs.c:63-115 | every path of the tree is found, at a node that holds its subtree, whatever the files contain |
| Image.FindsTreeIff | sys/kern/vfs.c:63-115 | over all paths: what is found is exactly what the tree has, if and only if no file of it reads as a directory with a usable name that leads to an offset where the header of a node is read |
| RawDisks.DiskFindsTreeIff | sys/dev/x86/ide.c:271-290 | the same for the formatted disk, where the driver reads a sector at any byte offset |
| RawDisks.OffGridEntry | sys/dev/x86/ide.c:271-290 | an entry for an offset just behind that of the root is followed, too |
| Image.FakePath | sys/fs/o2fs/o2fs.c:416-456 | a file that does gives a path that is found although the tree lacks it |
| Image.FileContent | sys/fs/o2fs/o2fs.c:512-563 | a file of the image has its source bytes |
| Newfs.RoundTrip | sbin/newfs_o2fs/newfs_o2fs.c:125-244 | every path of the manifest is found, and files have the bytes of their host files; another path is not found unless it runs into a file that holds an entry of its name |
| Image.FakeEntry | sys/fs/o2fs/o2fs.c:416-456 | it is so with a plain file that starts with the bytes of a directory entry for a node: the path below it is found |
| Image.EmptyComponent | sys/kern/vfs.c:63-115 | whatever follows an empty path component is ignored |
| EndToEnd.PublishAndRead | sbin/newfs_o2fs/newfs_o2fs.c:297-404 | format, mount, walk and read together, on a disk of any size: the file read is the host file, a path is missing exactly if the manifest lacks it, buffers suffice above a bound, and a manifest is rejected exactly if it does not fit |
| Sessions.KeepsLinkedIff | sys/fs/o2fs/o2fs.c:578-631 | a write keeps all entries leading to nodes exactly if the entries it leaves in its own file do, as computed from the disk before and the bytes written |
| Sessions.Forging | sys/fs/o2fs/o2fs.c:416-456 | two writes to plain files after which a lookup opens a block that is no node but part of a file |
| Sessions.RunOwners | sys/fs/o2fs/o2fs.c:133-631 | throughout every run of opens, reads and writes there are owners such that no block has two and blocks keep theirs, derived from what the calls do to the blocks alone |
| Sessions.RunLinkedIff | sys/fs/o2fs/o2fs.c:133-631 | throughout a run entries lead to nodes exactly if every write leaves only such entries in its file |
| Sessions.RunOpens | sys/kern/vfs.c:63-115 | throughout such a run, opening a path opens a node |
| Sessions.StepRefines | sys/fs/o2fs/o2fs.c:512-631 | every call of a run does to the files what a file system of plain byte strings does |
| Sessions.RunFrame | sys/fs/o2fs/o2fs.c:578-631 | a file that no write of a run names keeps its size and all its blocks |
| Sessions.Session.OpenPath | sys/kern/vfs.c:63-115 | VFS_Lookup as a step of a run, also after writes |
| Sessions.Session.ReadFile | sys/fs/o2fs/o2fs.c:512-563 | O2FS_Read as a step of a run |
| Sessions.Session.WriteFile | sys/fs/o2fs/o2fs.c:578-631 | O2FS_Write as a step of a run, which stays sound exactly if the write is honest, unless the sum of offset and length wraps around |
| Sessions.Begin | sbin/newfs_o2fs/newfs_o2fs.c:297-404 | a run begins with the formatted and mounted disk, sound exactly if the entries that can be read in the host files lead to nodes |
| Scheduling.StepInv | sys/kern/sched.c:77-226 | runnable is being once in the run queue, waiting once in the wait queue, running is being current somewhere: kept by every step |
| Scheduling.RunInv | sys/kern/sched.c:77-226 | the same over whole runs on any number of CPUs |
| Scheduling.QueueOrder | sys/kern/sched.c:189-226 | whatever happens in between, the next scheduler calls pick the run queue in order |
| Scheduling.BoundedWait | sys/kern/sched.c:189-226 | the thread at position k is dispatched by exactly the (k+1)-th scheduler call |
| Scheduling.RunnableTwice | sys/kern/sched.c:77-93 | making a thread runnable keeps the invariant exactly if it is not runnable already |
| Scheduling.CurrentTwice | sys/kern/semaphore.c:63-67 | a thread woken between waiting and switching can become current on two CPUs |
| Scheduling.Sched.SetRunnable | sys/kern/sched.c:77-93 | a new or waiting thread goes to the tail of the run queue, and the invariant is kept |
| Scheduling.Sched.SetWaiting | sys/kern/sched.c:104-115 | a running thread joins the wait queue, and the invariant is kept |
| Scheduling.Sched.SetZombie | sys/kern/sched.c:149-151 | a running thread leaves scheduling for good, and the invariant is kept |
| Scheduling.Sched.Scheduler | sys/kern/sched.c:189-226 | the head of the run queue becomes current and a running predecessor goes to the tail; the invariant is kept and its assertion on the next thread never fails |
| Semaphores.StepInv | sys/kern/semaphore.c:49-99 | tokens are conserved, and while threads wait every token left is promised to a woken thread |
| Semaphores.NoLostWakeup | sys/kern/semaphore.c:49-99 | in every run, with stealing: while threads wait there are at least as many woken threads as tokens left, and every woken thread is running or in the run queue |
| Semaphores.FifoWakeups | sys/kern/semaphore.c:72-86 | n releases wake the n oldest waiters |
| Semaphores.Semaphore.AcquireOnce | sys/kern/semaphore.c:49-69 | one round of the loop takes a token or queues the thread, done exactly if a token was there; the invariant of semaphore and scheduler is kept |
| Semaphores.Semaphore.Signal | sys/kern/semaphore.c:72-86 | adds a token and makes the oldest waiter runnable; the invariant of semaphore and scheduler is kept |
| Semaphores.Semaphore.Try | sys/kern/semaphore.c:89-99 | takes a token exactly if there is one, ahead of any waiter; the invariant is kept |
| Timers.KTimer.Create | sys/kern/ktimer.c:41-58 | the event is filed; the wheel stays in order exactly if the time read before the lock is current up to whole turns and the deadline is ahead |
| Timers.FiledInPlace | sys/kern/ktimer.c:41-58 | that condition, for the slot the code computes |
| Timers.ZeroTimeout | sys/kern/ktimer.c:41-118 | an event with timeout zero fires exactly once the clock is 256 ticks ahead |
| Timers.PlacedFires | sys/kern/ktimer.c:88-118 | events in their place are visited before they are due |
| Timers.CancelAfter | sys/kern/ktimer.c:41-118 | the reference of its holder outlives a cancel if and only if the event has not fired |
| Timers.UnlinkAgainIff | sys/include/queue.h:465-476 | unlinking an event that is off its list leaves the list alone if and only if its stale links still agree with it |
| Timers.RemoveOne | sys/include/queue.h:465-476 | an unlinked event keeps the links to its neighbours |
| Timers.CancelFired | sys/include/queue.h:465-476 | whatever has come between the neighbours of a fired event since is lost when it is cancelled |
| Timers.KTimer.Cancel | sys/kern/ktimer.c:77-85 | an event on the wheel leaves it and loses one reference, the others stay |
| Timers.KTimer.Process | sys/kern/ktimer.c:88-118 | for any jump of the clock exactly the events that are due and whose slot the wheel comes to fire, each once, each losing one reference; if they are in their place these are the due ones, within one turn in the order of their deadlines |
| Timers.Turn | sys/kern/ktimer.c:111-115 | the slot invariant survives a turn once nothing due is left at the head |
| CondVars.StaysReleased | lib/libc/posix/pthread.c:355-390 | a released ticket stays released whatever follows, although a broadcast may lower exit |
| CondVars.RefinesRun | lib/libc/posix/pthread.c:355-475 | on every run the two counters are a queue of waiters with saved signals |
| CondVars.StrictIff | lib/libc/posix/pthread.c:355-475 | the counters behave as a condition variable without spurious wakeups exactly on runs in which no wait consumes a saved signal |
| CondVars.NeverLate | lib/libc/posix/pthread.c:355-475 | on all other runs the difference is a spurious wakeup: whoever is blocked is blocked there, too |
| CondVars.SavedSignal | lib/libc/posix/pthread.c:440-456 | after a lone signal the next wait does not block |
| CondVars.CondVar.TakeTicket | lib/libc/posix/pthread.c:355-377 | the new waiter blocks exactly if no signal is saved |
| CondVars.CondVar.Poll | lib/libc/posix/pthread.c:379-381 | the poll passes exactly if the waiter is not in the queue any more |
| CondVars.CondVar.SignalOne | lib/libc/posix/pthread.c:440-456 | releases the oldest blocked waiter, or saves the signal |
| CondVars.CondVar.SignalAll | lib/libc/posix/pthread.c:459-475 | releases every waiter and drops saved signals |
| Mailboxes.PutAppends | lib/liblwip/src/arch/sys_arch.c:194-265 | storing into the ring appends to the queue |
| Mailboxes.TakePops | lib/liblwip/src/arch/sys_arch.c:268-347 | taking from the ring removes the oldest message |
| Mailboxes.FetchOrder | lib/liblwip/src/arch/sys_arch.c:194-347 | in every run messages are fetched in the order posted, none lost or doubled, at most 127 under way |
| Mailboxes.FetcherNotForgotten | lib/liblwip/src/arch/sys_arch.c:194-347 | with any number of posters and one fetching thread: a fetcher waits beside a queued message only if not_empty is signalled or about to be |
| Mailboxes.PosterNotForgotten | lib/liblwip/src/arch/sys_arch.c:231-347 | a poster waits for room only while a message is queued, room is announced or about to be, or a poster is at work |
| Mailboxes.TwoFetchers | lib/liblwip/src/arch/sys_arch.c:194-347 | with any two fetching threads a run ends with one waiting beside a queued message and nobody to wake it |
| Mailboxes.Mailbox.TryPost | lib/liblwip/src/arch/sys_arch.c:194-228 | appends the message unless 127 are queued, and says whether the mailbox was empty |
| Mailboxes.Mailbox.TryFetch | lib/liblwip/src/arch/sys_arch.c:268-298 | removes the oldest message if any, and says whether a poster waits |
| Selects.NextInv | lib/liblwip/src/api/sockets.c:1088-1360 | select_waiting counts the selects that rely on the socket, the list holds the linked ones, and no event of a relied-on socket is uncovered: kept by every step |
| Selects.NoLostWakeup | lib/liblwip/src/api/sockets.c:1088-1360 | under every interleaving a select blocks beside an event of the socket only if its semaphore is signalled or a callback has yet to visit it |
| Selects.ReadyUnwoken | lib/liblwip/src/api/sockets.c:1026-1082 | beside a socket the scan would report a select blocks without a wakeup only if the socket is readable by leftover data alone |
| Selects.LeftoverIff | lib/liblwip/src/api/sockets.c:557-626 | throughout a run no select relies on callbacks for a socket with leftover data, if and only if no data is left over while one relies on them |
| Selects.ReadyWoken | lib/liblwip/src/api/sockets.c:557-1360 | in such a run a select that blocks beside a socket the scan would report has its wakeup |
| Selects.LeftoverSleeps | lib/liblwip/src/api/sockets.c:557-626 | a run in which that happens: the data is left over after the scan |
| Selects.UnprotectedIff | lib/liblwip/src/api/sockets.c:1136-1149 | with the protection switched off, two selects are both on the list exactly if one is put there before the other begins |
| Selects.ContinueInv | lib/liblwip/src/api/sockets.c:1349-1356 | a callback that finds the counter changed and starts over still reaches every select that relies on it |
| Selects.SelScan | lib/liblwip/src/api/sockets.c:1026-1082 | the sockets with events in each set, and their number |
| Dns.NeverEvicts | lib/liblwip/src/core/dns.c:860-895 | a query never takes an entry that is being asked |
| Dns.RefusedIff | lib/liblwip/src/core/dns.c:860-895 | a query is refused exactly if no entry is unused, the first is not done, and the sequence number has wrapped below all done ones |
| Dns.RefusedByWrap | lib/liblwip/src/core/dns.c:860-895 | a run from the empty table after which a query is refused although an entry is done |
| Dns.CheckInv | lib/liblwip/src/core/dns.c:636-712 | a tick keeps every accepted query waiting once or called once, whatever its callbacks ask |
| Dns.RecvInv | lib/liblwip/src/core/dns.c:733-849 | a packet keeps this exactly unless the callback of a failed query is given the very entry that is then flushed |
| Dns.FullTableLoses | lib/liblwip/src/core/dns.c:836-843 | that happens whenever all entries are asked, the sequence number is above that of the failed entry, and the callback starts a query |
| Dns.LosingRun | lib/liblwip/src/core/dns.c:836-843 | a run from the empty table that loses exactly that query |
| Dns.StepQuiet | lib/liblwip/src/core/dns.c:636-914 | a step that loses a query is one that does not, of a caller that gave the query no callback |
| Dns.BalancedIff | lib/liblwip/src/core/dns.c:636-914 | after a run every accepted query waits once or has been called once if and only if the run lost none |
| Dns.CalledOnce | lib/liblwip/src/core/dns.c:636-914 | whatever packets arrive and callbacks ask, every accepted query is called back exactly once, at the latest by the 14th tick, except those lost when they were accepted |
| Dns.Conservation | lib/liblwip/src/core/dns.c:636-914 | in every run each accepted query waits in one entry, has been called once, or was lost, and only one of these |
| Dns.CheckExact | lib/liblwip/src/core/dns.c:658-689 | while a second server is configured every tick takes exactly one of the 14 |
| Dns.Resolver.AddQuery | lib/liblwip/src/core/dns.c:860-914 | the query is asked at once in the entry picked, refused exactly if there is none; nothing else changes |
| Dns.Resolver.FindEntry | lib/liblwip/src/core/dns.c:868-895 | the search picks the first unused entry or the oldest done one |
| Dns.Resolver.CheckEntry | lib/liblwip/src/core/dns.c:636-712 | retries, changes server, gives up with one callback, or ages out, as the timers say |
| Dns.Resolver.CheckEntries | lib/liblwip/src/core/dns.c:718-725 | every entry is checked once, in order, with what the callbacks of earlier ones did |
| Dns.Resolver.Receive | lib/liblwip/src/core/dns.c:733-849 | the first address record is reported, every fault as failure, and packets for entries that are not asked change nothing |

## Left out

- PMap.PMap.Map: its callers hold one spare reference for each user page they map, because the teardown gives one back.
- PMap_Unmap and PMap_SystemUnmap: marked unfinished in the source; 1GB pages are never created by it.
- PageAlloc.PAlloc.AddRegion: for regions after the first, the pages that XMem_Allocate takes off the list for the PageInfo table are not shown.
- Loader.Loader.Load: segments are taken to lie in user space and not to share bytes; stack set-up and the boot-time init program are not modelled.
- Loader.Loader.MapSegments: a segment of more than 2^31 bytes, for which PMap_AllocMap backs other pages than the loader then fills; the model stops there.
- PageRanges.FrameAt: the no-execute bit, which shares the top bit of a wrapped physical address, and physical addresses beyond 64 bits.
- XMem_Destroy and the debugging commands.
- O2fs.O2fs.Read: device errors of the disk are not modelled above the cache (out-of-memory is; the source returns it as a positive number), and the block size is the 16KB that the tool writes.
- O2fs.O2fs.Write: the code does not check the end of the disk; what it does once it has allocated a block past it (status PastEnd) is not modelled, and O2fsFiles.GrowsIff says exactly when that does not happen.
- O2fs.O2fs.Read: what follows once the sum of offset and length has wrapped around (status Wild): the loop goes on past the pointers of the node; nor does O2fs.O2fs.Write go on there.
- BufferCache.BufCache.Read: blocks are read at multiples of the block size, and cached copies that overlap are not modelled; entries that lead elsewhere appear only in RawDisks.
- O2fs.O2fs.LoadVNode: a read that finds no buffer returns a positive number in the code, which passes its test for errors; the model answers Busy.
- Vfs.Lookup: an entry in the middle of a path that leads to a block which is refused makes the code use a null node; the model answers that the path is not found.
- O2fs.O2fs.Lookup: the block of a match stays pinned, as in the code; a component of exactly 256 bytes overruns the name buffer of the path walk by its terminator, which the model does not show.
- O2FSBFree, O2FS_ReadDir, O2FS_Stat: the first does not address the bit that allocation sets and is never called, the others would add easy members.
- Mounting.Mount: a disk with the header of a superblock is taken to be a volume as the tool leaves it and the file system keeps it; the clean-up after a failed read of the bitmap, which releases entries never set, is not modelled.
- Manifest.GetToken: tokens of 512 bytes or more, which leave the token buffer without its end.
- Newfs.Mkfs.AddFile: a file of more than 64 blocks, which overruns the pointers of its node in the code, is refused.
- Newfs.Mkfs.Format: an image without manifest; disks of more than 8 TB, whose bitmap overruns the buffer of BlockBitmap; existing images that do not consist of whole blocks; more than 127 entries in a directory, which overrun the entry array before the code stops.
- EndToEnd.PublishAndRead: the path is taken not to run into a file that holds an entry of its name; Image.FindsTreeIff is about those.
- Sessions.Session.OpenPath: runs open, read and write; files are never closed, created or removed, since the code cannot.
- Scheduling.Sched.SetZombie: only the change of state, not the zombie lists of processes.
- Semaphores.Semaphore.AcquireOnce: the loop of Semaphore_Acquire appears as a sequence of rounds, since it does not return between them.
- Timers.KTimer.Cancel: on an event that has fired its unlinking is modelled on values only, by Timers.UnlinkAgainIff and Timers.CancelFired.
- Timers.KTimer.Create: deadlines do not wrap; callbacks, which run with the timer lock held, do not touch the wheel or the references of events (the one for sleeping threads, in sys/kern/syscall.c, gives the reference of the event's holder back).
- CondVars.CondVar.TakeTicket: timed waits, which abandon tickets, and 64-bit wrap-around; the mutex is released before the ticket is taken, so the results are about tickets taken.
- Mailboxes.FetcherNotForgotten: sys_sem is an atomic binary semaphore; ring counters do not overflow.
- Selects.NoLostWakeup: sections between SYS_ARCH_PROTECT and SYS_ARCH_UNPROTECT are atomic (the shipped configuration has SYS_LIGHTWEIGHT_PROT switched off, which leaves them empty; Selects.UnprotectedIff shows what is lost); sockets stay open while selected; the list change counter does not wrap; modelled on values, without the pointers of the list.
- Dns.Resolver.Receive: the bytes of packets; what the code reads of them is a record, with the answers its loop goes through.
- dns_lookup, dns_gethostbyname, the local host list and dns_send: lookups and formatting.
- Kernel mutexes, condition variables and process waiting: not filled in in the source.
- Drivers, traps, boot code, the calendar, the allocators of the C library and the rest of lwIP.
