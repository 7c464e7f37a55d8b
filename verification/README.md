# mchown core, modelled in Dafny

`mchown` changes the owner of a directory tree with a pool of worker
threads. The invoking thread walks the root directory (`mdpf`). It offers
subdirectories to a work queue (`enqueue`). Workers take jobs from the
queue (`get_dir_from_queue`) and walk them. A directory that cannot be
queued is walked in place, by a synchronous recursive call.

The model covers the core of this design:

- **The job slab (`Slab`).** This is the `dir_jobs` array of nthreads+1
  records, threaded into an intrusive free list through `forward`/`back`.
  The model keeps the links exactly as the C code writes them. The ghost
  predicate `Threads` relates them to an abstract list of free slots.
  Covers `dj_freelist_init`, `dj_calloc`, `dj_free` and `TZERO_DJ`.
- **The work queue (`WorkQueue`).** The `queue_list` FIFO with `ql_add`,
  `ql_get_top`, `dequeue` and `size_of_qlist`.
- **Admission (`Jobs`).**
  - `enqueue` as written, and as corrected. A `Build` value chooses which
    one the walk and the workers call (`Jobs.Offer`).
  - Slot conservation: every slot 1..nthreads is on exactly one of the free
    list, the queue, or held by a worker.
  - Path lengths are counted in bytes, as `strlen` counts them: a name is
    taken as UTF-8 text (`Base.ByteLen`).
- **The credential table (`Creds`).** `get_cred` and `rel_cred` as written.
- **The walk (`Walk`, `WalkProofs`).**
  - `chown_reg` and `mdpf` over a finite directory tree whose system-call
    outcomes are part of the tree. A job is the triple the C `dir_job`
    carries: path, credential and hierarchy id. A child job inherits the
    last two.
  - The headline theorem `MdpfComplete` holds when no system call fails,
    no shutdown happens, no accepted job loses its queue node (always true
    with the corrected `enqueue`), and every path fits the 2048-byte
    buffer. Under those conditions every subdirectory is walked or left on
    the queue, as a job with the walk's credential and id.
    `WalkLosesDirectory` shows the loss that happens when the third
    condition fails.
- **The thread pool (`ThreadPool`).**
  - The critical section of the worker loop, as atomic transitions.
  - Slot conservation across every transition, except the one submit that
    loses a slot with the `enqueue` as written (`SubmitLeaks`).
  - `create_pool`, `cancel_pool_threads` and `join_pool`. On a failed
    create, exactly the threads already started are cancelled.
- **Hierarchy ids (`DirIds`).** `mk_dirid` with its 64-bit wrap-around, and
  the round counter of `thread_pool_wait`.
- **CPU counting (`CpuList`).** `get_core_count`, which parses
  `/sys/devices/system/cpu/online` (duplicated in `test-hore-count.c`).
  `CountFormat` proves it against an independent reference: a list of
  items (`Cpu(n)` or `Span(lo, hi)`) formatted the way the kernel writes
  them.

In several places the code does less than its own comments say, and the
model follows the code:

- `get_cred` is introduced by "find an unused slot in creds array"
  (mchown.c:129-131). But its second loop ends in an unconditional `break`
  (mchown.c:159), so only slot 0 can ever be claimed.
- A failed `stat`/`chown` of a file sets `rval` to errno, and the scan loop
  `while (!shutdown_time && !rval)` then stops (mchown.c:329, 362-373). The
  scan does not continue past it (`WalkProofs.FailedFileStopsScan`).
- `ndentries` is "the number of directory entries that we find
  interesting" (mchown.c:254-255). It counts every counted entry, files and
  links included, not only directories. So the deferred first directory
  goes to `enqueue` when `ndentries > 1` (mchown.c:432), even when it is
  the only subdirectory.
- `thread_pool_wait` ends with the comment "3 times through with none
  found" (mchown.c:719). Yet it stops after two rounds that find no thread
  showing the id (mchown.c:682, 720). A round that finds one leaves the
  counter where it was (`iter - 1` then `+ 1`); it does not reset it. The
  misses need not be consecutive.

## Model

| member | source | states |
|---|---|---|
| Base.ByteLen | mchown.c:1072 | `strlen` of a name counts its UTF-8 bytes: at least one and at most four per character |
| Base.ByteLenAscii | mchown.c:1072 | on plain ASCII text the byte count is the character count |
| Base.AccentTakesTwoBytes | mchown.c:1072 | the one-character name "é" has `strlen` 2, so byte and character counts differ |
| Base.ByteLenConcat | mchown.c:1090-1094 | the bytes of a concatenation are the bytes of its parts |
| Base.JoinByteLen | mchown.c:1090-1094 | the joined path `dpath/name` has `strlen(dpath) + 1 + strlen(name)` bytes |
| Slab.TzeroDj | mchown.h:43-45 | clears path, credential and job id and keeps both links |
| Slab.DjFreelistInit | mchown.c:481-492 | as written: the head is slot 1 whatever nthreads is; the slab is well formed exactly when nthreads >= 1, and then it is the corrected slab itself, threading slots 1..nthreads head first; for every nthreads it differs from the corrected slab in the head alone |
| Slab.DjFreelistInitFixed | mchown.c:481-492 | corrected: for every nthreads, including 0, the slab is well formed and threads exactly slots 1..nthreads, with every payload empty |
| Slab.DjCalloc | mchown.c:507-525 | returns null iff the free list is empty (and then changes nothing); a returned slot is in the array and has both links null |
| Slab.DjFree | mchown.c:533-543 | the freed record becomes the head with its payload cleared; pointers stay in the array |
| Slab.CallocPops | mchown.c:507-525 | on a threaded free list, `dj_calloc` returns the head slot and leaves the rest of the list threaded, or returns null on an empty list |
| Slab.CallocFrame | mchown.c:511-521 | `dj_calloc` changes only links, and only of records on the free list |
| Slab.FreePushes | mchown.c:533-543 | freeing a record off the list with null links threads the list [rel] + free |
| Slab.FreeFrame | mchown.c:535-541 | `dj_free` touches no record off the free list other than the freed one, and only the `forward` link of the others |
| Slab.StaleBackLeaksSlot | mchown.c:536-541 | a record freed onto an empty list with a stale `back` link makes two allocations hand out a slot that was never freed, which is why `dj_calloc` nulls the links |
| WorkQueue.QlAdd | mchown.c:631-653 | appends the slot at the tail and returns 0, updating the head only on an empty queue; on a failed node allocation it leaves the queue alone and returns the errno |
| WorkQueue.QlGetTop | mchown.c:607-624 | returns the head (null on an empty queue) and drops it; taking the last node leaves head and tail null |
| WorkQueue.Dequeue | mchown.c:1040-1056 | null exactly on an empty queue, else the job of the head node, with the rest of the queue kept in order |
| WorkQueue.SizeOfQlist | mchown.c:587-600 | the count is the number of queued jobs, and 0 exactly when the head is null |
| WorkQueue.DrainIsSlots | mchown.c:1040-1056 | dequeuing until empty returns the queued jobs in queue order |
| WorkQueue.AddAllSlots | mchown.c:631-653 | successive `ql_add`s append the slots in the order added |
| WorkQueue.FifoOrder | mchown.c:607-653 | jobs added behind the queued ones come out after them, in the order added |
| Jobs.Enqueue | mchown.c:1064-1125 | as written: refuses exactly a join whose parts exceed DJ_PATH_SZ - 2 bytes, shutdown, a failed path allocation or an empty slab, changing nothing; otherwise it fills the head slot with path, credential and id, queues it unless `ql_add` fails, and reports success either way |
| Jobs.EnqueueFixed | mchown.c:1064-1125 | corrected: also refuses when `ql_add` fails; it queues the head slot exactly when it accepts |
| Jobs.EnqueueAgrees | mchown.c:1064-1125 | the written and corrected `enqueue` give the same pool and answer whenever `ql_add` gets its node |
| Jobs.OfferIsFixed | mchown.c:1064-1125 | an offer to either build is the corrected `enqueue`, unless it is the written one and the node allocation fails |
| Jobs.AcceptedSlab | mchown.c:1108-1118 | after an accepted `enqueue` the head slot is off the free list with null links, the rest stays threaded, and every other record keeps its payload |
| Jobs.AcceptedInv | mchown.c:1108-1124 | an accepted `enqueue` whose node was allocated moves the free-list head to the queue tail and keeps slot conservation |
| Jobs.EnqueuePreserves | mchown.c:1064-1125 | with `ql_add` succeeding, `enqueue` keeps slot conservation, and a refusal changes nothing |
| Jobs.EnqueueLeaksSlot | mchown.c:1120-1124 | as written: when `ql_add` fails, `enqueue` still returns 1 and the slot is on neither the free list nor the queue, so no free list whatsoever restores slot conservation |
| Jobs.LeakedNotFree | mchown.c:1108-1124 | the slot taken by an accepted `enqueue` whose node is lost is on no free list that conserves slots |
| Jobs.EnqueueFixedPreserves | mchown.c:1064-1125 | the corrected `enqueue` keeps slot conservation whatever the allocations do, and keeps the payload of every record off the free list |
| Jobs.RefusedAfterNodeFailure | mchown.c:1120-1124 | when `ql_add` fails, the corrected `enqueue` refuses, slot conservation holds again with the original free list, and every record off the free list is unchanged |
| Jobs.RefusedSlab | mchown.c:1120-1124 | the corrected refusal puts the slot back at the free-list head, keeps the queue and leaves every other record as it was |
| Jobs.PartitionEnqueue | mchown.c:1108-1120 | moving the free-list head to the queue tail keeps the partition of slots |
| Jobs.PartitionDequeue | thread-pool.c:74-77 | moving the queue head to a worker keeps the partition of slots |
| Creds.SeedTable | mchown.c:983-986 | the table has nthreads+1 slots, all holding the unused pair |
| Creds.FindPair | mchown.c:139-145 | the first slot at or after i holding the pair, or none when no slot holds it |
| Creds.GetCred | mchown.c:133-167 | an existing pair yields its first slot with the table unchanged; a new pair claims slot 0 only if slot 0 is unused, else null; the table never gains a duplicate pair |
| Creds.RelCred | mchown.c:174-178 | the slot goes back to the unused pair and nothing else changes |
| Creds.GetRelRoundTrip | mchown.c:150-178 | releasing the slot just claimed restores the table |
| Creds.OnlySlotZeroClaimable | mchown.c:150-160 | with slot 0 in use, a new pair gets null even though slot 1 is unused |
| Creds.GetCredIdempotent | mchown.c:133-167 | asking again for a pair that got a slot returns the same slot and leaves the table alone |
| Walk.ChownReg | mchown.c:194-218 | -1 iff the stat fails, -3 iff the owner already matches, -2 iff the chown fails, 0 iff the owner changed |
| Walk.EntryRval | mchown.c:362-386 | `rval` is nonzero exactly when `chown_reg` returned -1 or -2 |
| Walk.ChildJob | mchown.c:223-229 | a subdirectory's job is the parent's path joined with the name, with the parent's credential and hierarchy id |
| Walk.Mdpf | mchown.c:236-474 | a failed `opendir` sets shutdown, returns -1 and leaves the pool alone; a failed stat or chown of the directory returns -1 before any entry is read; the job walked is logged first; every path keeps pointers in the array and only grows flags and counters |
| Walk.ScanLoop | mchown.c:327-341 | the loop ends cleanly only at the end of the directory, with `rval` 0, no shutdown and no read error |
| Walk.ScanEntry | mchown.c:343-419 | uncounted entries change nothing; a counted one bumps `ndentries`; the first directory is remembered; a file changes `rval` and the counters as `chown_reg` says |
| Walk.AfterScan | mchown.c:428-459 | the remembered directory is handled only after a clean end with no shutdown and `rval` 0; otherwise the scan's result is returned |
| WalkProofs.MdpfComplete | mchown.c:236-474 | with no failing call, no shutdown, no accepted job losing its node and every path fitting the buffer, `mdpf` returns 0, keeps slot conservation and every queued job, and every directory of the tree is walked or queued as a job with the walk's credential and id |
| WalkProofs.ScanComplete | mchown.c:327-420 | the scan ends cleanly, covering every entry except the remembered directory |
| WalkProofs.EntryComplete | mchown.c:343-419 | one pass of the loop body covers its entry, unless the entry is the remembered directory |
| WalkProofs.SubdirComplete | mchown.c:396-418 | a later subdirectory is queued, or walked when `enqueue` refuses it |
| WalkProofs.SubdirQueued | mchown.c:398-417 | a subdirectory `enqueue` accepts is on the queue as the child job, and is counted in `dirs_queued` |
| WalkProofs.SubdirWalked | mchown.c:398-414 | a subdirectory `enqueue` refuses is walked in place as the child job, keeping slot conservation |
| WalkProofs.AfterScanComplete | mchown.c:428-459 | the remembered directory is queued or walked |
| WalkProofs.OfferQueues | mchown.c:1064-1125 | an `enqueue` that cannot lose a node keeps slot conservation and every queued job, and queues the new job when it accepts |
| WalkProofs.FullSlabWalk | mchown.c:236-474 | with every slot in use and every path fitting the buffer, the tree is walked synchronously, the pool is untouched, and the file and directory counters grow by exactly the ownership changes the tree needs |
| WalkProofs.FullSlabScan | mchown.c:327-420 | with every slot in use, the scan moves each entry's changes into the pending counters |
| WalkProofs.FullSlabEntry | mchown.c:354-419 | one pass with every slot in use adds exactly the entry's changes |
| WalkProofs.FullSlabSubdir | mchown.c:396-414 | with every slot in use, a later subdirectory is refused and walked in place, adding exactly its changes |
| WalkProofs.FullSlabAfter | mchown.c:428-469 | the remembered directory's changes are added when it is walked |
| WalkProofs.OnlySubdirWalkedInPlace | mchown.c:442-457 | a directory whose one counted entry, at any index, is a subdirectory is exactly the walk of that subdirectory in place, with no `enqueue`, plus the directory's own ownership change |
| WalkProofs.SkipUncounted | mchown.c:343-352 | entries that are not directories, files or links, and "." and "..", leave the scan exactly as it was |
| WalkProofs.ScanStops | mchown.c:329 | once `shutdown_time` or `rval` is set, the loop examines no further entry |
| WalkProofs.FailedFileStopsScan | mchown.c:362-374 | a file whose stat or chown fails makes `rval` its errno, ends the scan there, and the remembered directory is not handled; `mdpf` returns that errno |
| WalkProofs.ScanNoSubdir | mchown.c:327-420 | a scan over entries with no counted subdirectory leaves slab, queue, flag and visit log alone |
| WalkProofs.NoSubdirKeepsPool | mchown.c:236-474 | a directory with no counted subdirectory never calls `enqueue` nor recurses: the pool is unchanged and only the directory itself is walked |
| WalkProofs.WalkLosesDirectory | mchown.c:396-418 | as written: a subdirectory whose queue node cannot be allocated is counted as queued and not walked, yet it is not on the queue, and no free list restores slot conservation |
| ThreadPool.Begin | thread-pool.c:63-73 | the thread publishes busy 0 and job id 0, returns its previous job to the free-list head and blocks; no other thread and not the queue is touched |
| ThreadPool.Wake | thread-pool.c:74-80 | on a non-empty queue the thread becomes busy, holds the queue head and shows that job's id, and the queue loses its head; on an empty queue only its phase changes |
| ThreadPool.Finish | thread-pool.c:81-86 | after `mdpf` the thread is back at the loop head with everything else unchanged |
| ThreadPool.Exit | thread-pool.c:63-88 | on shutdown the thread exits still holding its last job |
| ThreadPool.InitSys | mchown.c:845-853 | start-up: nthreads+1 entries, each thread numbered by its index at the loop head, an empty queue, the chosen `enqueue` |
| ThreadPool.InitInv | mchown.c:845-853 | at start-up slots 1..nthreads are all free and no thread holds one |
| ThreadPool.BeginPreserves | thread-pool.c:64-73 | the loop-head transition keeps slot conservation, with the released slot pushed on the free list |
| ThreadPool.BeginReleases | thread-pool.c:69-72 | a thread holding slot x gives it back and slot conservation holds with [x] + free |
| ThreadPool.WakePreserves | thread-pool.c:74-80 | the dequeue transition keeps slot conservation and no slot is held twice |
| ThreadPool.WakeBusyIffJob | thread-pool.c:75-79 | after waking, a thread is busy exactly when it dequeued a job, and an idle one shows job id 0 |
| ThreadPool.SubmitPreserves | mchown.c:1064-1125 | any thread's `enqueue` keeps slot conservation, with the corrected `enqueue` always and with the written one when `ql_add` gets its node |
| ThreadPool.SubmitLeaks | mchown.c:1120-1124 | as written: a submit whose queue node is not allocated leaves a state that no free list makes conserve slots |
| ThreadPool.StepPreserves | thread-pool.c:63-88 | every transition except the written `enqueue` losing a node keeps slot conservation: each slot is free, queued, or held by exactly one thread |
| ThreadPool.ExitedStaysPut | thread-pool.c:86-88 | an exited thread's entry, and so its last job, never changes |
| ThreadPool.CancelPoolThreads | thread-pool.c:100-107 | cancels threads 1..last_tid in order, and none when last_tid < 1 |
| ThreadPool.JoinPool | thread-pool.c:28-46 | joins threads 1..nthreads in order, never entry 0 |
| ThreadPool.CreatePool | thread-pool.c:116-154 | allocates npthreads+1 entries with entry 0 for the main thread; a thread is created exactly when every create up to it succeeds; on the first failing create it cancels exactly the threads created and returns that status, else returns 0 with every thread numbered and none cancelled |
| ThreadPool.StartedBefore | thread-pool.c:132-147 | when create k+1 fails first, the threads started are exactly 1..k |
| ThreadPool.StartedAll | thread-pool.c:132-150 | when no create fails, every thread 1..npthreads is started |
| DirIds.MkDirid | mchown.c:114-121 | returns the counter and advances it by one, wrapping to 0 at 2^64 |
| DirIds.DiridAfterValue | mchown.c:117-120 | before the counter wraps, it holds k + 1 after k calls |
| DirIds.IdsCount | mchown.c:113-121 | before the counter wraps, call i returns i + 1, so every id is nonzero and no two calls share one |
| DirIds.IdWrapsToIdle | mchown.c:117-120 | call 2^64 returns 0, the id an idle thread shows |
| DirIds.ThreadPoolWait | mchown.c:660-724 | returns 0 after a shutdown (at entry or in a round); returns -1 on a failed sleep; otherwise returns 0 only after exactly two rounds in which no thread showed the id, the last of them a miss |
| CpuList.FindFromAt | mchown.c:81 | `strpbrk` stops at the first character of the set at or after the start |
| CpuList.FindFromNone | mchown.c:88 | `strpbrk` returns null when no character of the set is left |
| CpuList.CString | mchown.c:75 | the parsed text is a prefix of the buffer, cut at a NUL when it is shorter |
| CpuList.ScanNumeral | mchown.c:86-101 | `sscanf("%d")` reads a numeral followed by a non-digit, or by nothing, as its decimal value |
| CpuList.GetCoreCount | mchown.c:47-106 | 0 when `open` fails, the `read` fails, or the file is empty |
| CpuList.ScanIntScansNumerals | mchown.c:86-101 | the `%d` scan reads a numeral, alone or followed by white space, as its value, and reads white space alone as nothing |
| CpuList.CommaStep | mchown.c:81-83 | a ',' counts the item before it without reading it |
| CpuList.LastStep | mchown.c:101-103 | with no separator left, a readable number counts one |
| CpuList.SpanComma | mchown.c:84-99 | a range lo-hi followed by ',' adds hi - lo + 1 and leaves `begin_cpu`/`end_cpu` at lo/hi |
| CpuList.SpanEnd | mchown.c:84-97 | a final range lo-hi adds hi - lo + 1 and ends the count |
| CpuList.ItemLast | mchown.c:80-103 | the last item of a list adds its weight and ends the count |
| CpuList.ItemThenComma | mchown.c:81-99 | an item followed by ',' adds its weight and moves on past the ',' |
| CpuList.CountFormat | mchown.c:80-103 | the parse loop returns the total weight of any kernel-format list followed by white space (one per CPU, hi - lo + 1 per range), whatever `begin_cpu`/`end_cpu` start as |
| CpuList.ReadsAtMostBuffer | mchown.c:69-75 | only the first 511 bytes of the file matter |
| CpuList.CoreCountOfList | mchown.c:47-106 | on a CPU-list file that fits the buffer, `get_core_count` returns the total weight of its items: one per single CPU and hi - lo + 1 per range, so the number of CPUs named when every range ascends |
| CpuList.ExampleList | test-hore-count.c:18-76 | the file "0-3,5,7-9\n" counts 8 CPUs |

## Left out

- System calls (`open`, `read`, `opendir`, `readdir_r`, `fstat(at)`, `fchown(at)`, `usleep`) are parameters of the model. Their outcomes are fixed in the tree (`Node`), in `Alloc`/`Env`, in `Round`, or in boolean arguments.
- Threads, `queue_lock` and `queue_cv` are not modelled as such. A transition of `ThreadPool.Step` is one stretch of code run under the lock, or a flag change. Interleavings are any sequence of enabled steps.
- The unlocked reads of `threads[x].job_id` in `thread_pool_wait` are folded into each round's `found` observation.
- `main` and `usage` are left out: argument parsing, user lookup and printing. Their use of the core (seeding `cred_tbl`, `dj_freelist_init`) appears in `Creds.SeedTable` and `ThreadPool.InitSys`.
- `nthreads = (int)(ncores * .9)` (mchown.c:830) is left out: it is floating point.
- The `calloc` failures of the two dirents inside `mdpf` (mchown.c:282-296) are left out. They return -1 before any work, like a failed stat.
- Walk.Mdpf: the in-place walk builds the child path in the 2048-byte stack buffer `bpath` with `strncpy`/`strncat` (mchown.c:223-229, 240), and nothing checks its length. A parent path and name of more than DJ_PATH_SZ - 2 bytes together overflow `bpath`, which is undefined behaviour in C. The model always builds the whole path `dpath + "/" + name`. `enqueue` refuses such a join (mchown.c:1072), so the job falls to the in-place path. For this reason the walk theorems require `WalkProofs.PathsFit`: every join in the tree fits.
- WalkProofs.MdpfComplete: holds with the corrected `enqueue`, or with the written one when no queue-node allocation fails (`WalkProofs.NoLostJobs`). Otherwise a directory can be lost, which `WalkProofs.WalkLosesDirectory` shows. It also requires `WalkProofs.PathsFit`, for the reason given under Walk.Mdpf.
- WalkProofs.FullSlabWalk: requires `WalkProofs.PathsFit`, for the reason given under Walk.Mdpf.
- ThreadPool.SubmitPreserves: holds with the corrected `enqueue`, or with the written one when `ql_add` gets its node. The remaining case loses a slot for good (`ThreadPool.SubmitLeaks`).
- ThreadPool.StepPreserves: excludes the move `ThreadPool.LosesSlot`, the written `enqueue` losing its node, for the reason given under ThreadPool.SubmitPreserves.
- ThreadPool.InitSys: builds the slab with `Slab.DjFreelistInitFixed`. For nthreads >= 1 that is the slab `dj_freelist_init` builds (the contract of `Slab.DjFreelistInit`). For nthreads = 0 the written head points past the array (see Findings).
- Base.ByteLen: names are taken as UTF-8 text, because Dafny strings are sequences of Unicode scalar values. Names that are not valid UTF-8 byte strings are not modelled.
- Freeing path buffers (`free(dir_info->path)`, `ql_rel_item`) is left out: paths and nodes are values.
- A job's `ucred` points into `cred_tbl` in C. The model's job stores the pair it designates, since the table does not change during a walk. Child jobs inherit it with the hierarchy id (`Walk.ChildJob`).
- `__sync_add_and_fetch` is modelled as a plain add.
- CpuList.ScanInt: `sscanf("%d")` overflow is not modelled; values are unbounded integers.
- CpuList.GetCoreCount: the uninitialised `begin_cpu`/`end_cpu` are parameters. The contract about well-formed lists is proved in `CountFormat` and `CoreCountOfList`, not in the function's own ensures.
- Walk.Mdpf: proved complete only when no system call fails (`WalkProofs.NoFaults`). With faults, its contract states only the early-exit cases and growth.
- Walk.ScanEntry: the `break` taken on a refused `enqueue` during shutdown is modelled as returning the state unchanged. The loop's own shutdown check then ends the scan, which is equivalent.
- The counters `reg_procd`/`lnk_procd` are summed into one file counter, as `files_chowned` sums them.

## Findings

| source | as written | input that shows it | evidently intended | confidence | as-written member | corrected member |
|---|---|---|---|---|---|---|
| mchown.c:485 | `dj_freelist = &dj_array[1]` unconditionally | nthreads = 0, reached through `main` on a machine with one online CPU: the array has one record and the free-list head points past it | an empty free list when there are no worker slots | high, not executed | Slab.DjFreelistInit | Slab.DjFreelistInitFixed |
| mchown.c:1120-1124 | `add_status` from `ql_add` is ignored and `enqueue` returns 1 | a `ql_add` whose node `calloc` fails: the slot is filled but never queued, never freed, and the caller does not walk the directory (`WalkProofs.WalkLosesDirectory`) | return the slot with `dj_free` and return 0, so the caller walks the directory itself | high, not executed | Jobs.EnqueueLeaksSlot | Jobs.EnqueueFixedPreserves |
