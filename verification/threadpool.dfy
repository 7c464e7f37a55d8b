/** The thread pool: the `threads` array, the critical section of the
    worker loop `get_dir_from_queue` as atomic transitions under
    `queue_lock`, and the index ranges of `create_pool`,
    `cancel_pool_threads` and `join_pool`. Threads, the mutex and the
    condition variable themselves are not modelled: a transition is one
    stretch of code run while holding the lock, or a flag change. */
module ThreadPool {
  import opened Base
  import opened Slab
  import opened WorkQueue
  import opened Jobs

  /** Where a pool thread is in `get_dir_from_queue`: at the loop head,
      blocked in `pthread_cond_wait`, running `mdpf` on what it dequeued
      (or nothing), or gone after `pthread_exit`. */
  datatype Phase = Top | Waiting | Running | Exited

  /** A `struct thread_pool` entry together with the thread's local
      `dir_info`, the job slot it holds. */
  datatype Worker = Worker(threadNum: nat, busy: bool, jobId: nat, held: Option<nat>, phase: Phase)

  /** The whole system: the slab and queue, the `threads` array,
      `shutdown_time`, and which `enqueue` the walks call. */
  datatype Sys = Sys(pool: Pool, workers: seq<Worker>, shutdown: nat, build: Build)

  /** A zeroed `threads` entry, as `calloc` leaves it. */
  const Zeroed := Worker(0, false, 0, None, Top)

  // ---------------------------------------------------------------------
  // Worker loop transitions
  // ---------------------------------------------------------------------

  /** Loop head with `shutdown_time` clear: publish busy = 0 and job_id = 0,
      take `queue_lock`, return the job of the previous pass (if any) with
      `dj_free`, and block on `queue_cv`. */
  function Begin(s: Sys, t: nat): (r: Sys)
    requires 0 < t < |s.workers| && s.workers[t].phase == Top && s.shutdown == 0
    requires Valid(s.pool)
    requires s.workers[t].held.Some? ==> s.workers[t].held.value < |s.pool.slab.jobs|
    ensures |r.workers| == |s.workers| && r.shutdown == s.shutdown && r.build == s.build
    ensures r.workers[t] == s.workers[t].(busy := false, jobId := 0, held := None, phase := Waiting)
    ensures forall i :: 0 <= i < |s.workers| && i != t ==> r.workers[i] == s.workers[i]
    ensures r.pool.queue == s.pool.queue
    ensures s.workers[t].held.None? ==> r.pool == s.pool
    ensures s.workers[t].held.Some? ==> r.pool.slab.head == s.workers[t].held
  {
    var w := s.workers[t];
    var slab := if w.held.Some? then DjFree(s.pool.slab, w.held.value) else s.pool.slab;
    s.(pool := s.pool.(slab := slab),
       workers := s.workers[t := w.(busy := false, jobId := 0, held := None, phase := Waiting)])
  }

  /** Woken from `queue_cv`, still under the lock: dequeue at most one job;
      busy = 1 and job_id = the job's id exactly when one was obtained. */
  function Wake(s: Sys, t: nat): (r: Sys)
    requires 0 < t < |s.workers| && s.workers[t].phase == Waiting && Valid(s.pool)
    ensures |r.workers| == |s.workers| && r.shutdown == s.shutdown && r.pool.slab == s.pool.slab
    ensures forall i :: 0 <= i < |s.workers| && i != t ==> r.workers[i] == s.workers[i]
    ensures r.workers[t].phase == Running && r.workers[t].threadNum == s.workers[t].threadNum
    ensures s.pool.queue.nodes != [] ==> r.workers[t].busy
    ensures s.pool.queue.nodes == [] ==> r.pool == s.pool && r.workers[t] == s.workers[t].(held := None, phase := Running)
    ensures s.pool.queue.nodes != [] ==>
              var x := Slots(s.pool.queue)[0];
              && r.workers[t].held == Some(x)
              && r.workers[t].jobId == s.pool.slab.jobs[x].jobId
              && Slots(r.pool.queue) == Slots(s.pool.queue)[1..]
  {
    var w := s.workers[t];
    var (q, got) := Dequeue(s.pool.queue);
    match got
    case None => s.(pool := s.pool.(queue := q), workers := s.workers[t := w.(held := None, phase := Running)])
    case Some(x) =>
      s.(pool := s.pool.(queue := q),
         workers := s.workers[t := w.(busy := true, jobId := s.pool.slab.jobs[x].jobId, held := Some(x), phase := Running)])
  }

  /** Back to the loop head after `mdpf` (and the release of the path
      buffer) outside the lock. */
  function Finish(s: Sys, t: nat): (r: Sys)
    requires 0 < t < |s.workers| && s.workers[t].phase == Running
    ensures r.pool == s.pool && r.shutdown == s.shutdown && |r.workers| == |s.workers|
    ensures r.workers[t] == s.workers[t].(phase := Top)
    ensures forall i :: 0 <= i < |s.workers| && i != t ==> r.workers[i] == s.workers[i]
  {
    s.(workers := s.workers[t := s.workers[t].(phase := Top)])
  }

  /** Loop head with `shutdown_time` set: the thread exits still holding
      the job of its last pass, which never returns to the slab. */
  function Exit(s: Sys, t: nat): (r: Sys)
    requires 0 < t < |s.workers| && s.workers[t].phase == Top && s.shutdown != 0
    ensures r.pool == s.pool && r.shutdown == s.shutdown && |r.workers| == |s.workers|
    ensures r.workers[t].phase == Exited && r.workers[t].held == s.workers[t].held
    ensures forall i :: 0 <= i < |s.workers| && i != t ==> r.workers[i] == s.workers[i]
  {
    s.(workers := s.workers[t := s.workers[t].(phase := Exited)])
  }

  /** Any thread's `mdpf` offering a directory to `enqueue`: only the pool
      changes. */
  function Submit(s: Sys, dpath: string, name: string, cred: Owner, id: nat, a: Alloc): (r: Sys)
    requires Valid(s.pool)
    ensures r.workers == s.workers && r.shutdown == s.shutdown && r.build == s.build
    ensures Valid(r.pool) && |r.pool.slab.jobs| == |s.pool.slab.jobs|
  {
    s.(pool := Offer(s.build, s.pool, dpath, name, cred, id, s.shutdown, a).0)
  }

  /** The moves of the system. */
  datatype Act =
    | BeginAct(t: nat)
    | WakeAct(t: nat)
    | FinishAct(t: nat)
    | ExitAct(t: nat)
    | SubmitAct(dpath: string, name: string, cred: Owner, id: nat, alloc: Alloc)
    | ShutdownAct

  /** When a move may happen: its thread is at the right place in the loop
      and the shutdown flag allows it. */
  predicate Enabled(s: Sys, a: Act) {
    && Valid(s.pool)
    && (forall i :: 0 <= i < |s.workers| && s.workers[i].held.Some? ==> s.workers[i].held.value < |s.pool.slab.jobs|)
    && match a
       case BeginAct(t) => 0 < t < |s.workers| && s.workers[t].phase == Top && s.shutdown == 0
       case WakeAct(t) => 0 < t < |s.workers| && s.workers[t].phase == Waiting
       case FinishAct(t) => 0 < t < |s.workers| && s.workers[t].phase == Running
       case ExitAct(t) => 0 < t < |s.workers| && s.workers[t].phase == Top && s.shutdown != 0
       case SubmitAct(_, _, _, _, _) => true
       case ShutdownAct => true
  }

  function Step(s: Sys, a: Act): (r: Sys)
    requires Enabled(s, a)
    ensures |r.workers| == |s.workers| && |r.pool.slab.jobs| == |s.pool.slab.jobs|
    ensures r.shutdown >= s.shutdown
  {
    match a
    case BeginAct(t) => Begin(s, t)
    case WakeAct(t) => Wake(s, t)
    case FinishAct(t) => Finish(s, t)
    case ExitAct(t) => Exit(s, t)
    case SubmitAct(dpath, name, cred, id, alloc) => Submit(s, dpath, name, cred, id, alloc)
    case ShutdownAct => s.(shutdown := s.shutdown + 1)
  }

  // ---------------------------------------------------------------------
  // Slot conservation
  // ---------------------------------------------------------------------

  /** The job slots the threads hold in `dir_info`. */
  ghost function HeldSet(ws: seq<Worker>): set<nat> {
    set i | 0 <= i < |ws| && ws[i].held.Some? :: ws[i].held.value
  }

  /** No slot is held by two threads. */
  ghost predicate HeldOnce(ws: seq<Worker>) {
    forall i, j :: 0 <= i < |ws| && 0 <= j < |ws| && i != j && ws[i].held.Some? && ws[j].held.Some? ==>
      ws[i].held.value != ws[j].held.value
  }

  /** A thread's published state agrees with what it holds: blocked
      threads hold nothing, busy means holding a job, an idle thread shows
      job_id 0 and a holding one shows its job's id. */
  predicate WorkerOk(w: Worker, p: Pool) {
    && (w.phase == Waiting ==> !w.busy && w.held.None?)
    && (w.phase != Waiting ==> (w.busy <==> w.held.Some?))
    && (!w.busy ==> w.jobId == 0)
    && (w.held.Some? ==> w.held.value < |p.slab.jobs| && w.jobId == p.slab.jobs[w.held.value].jobId)
  }

  /** Slot conservation across the system: every slot 1..nthreads is on
      the free list, on the queue or held by exactly one thread. */
  ghost predicate SysInv(s: Sys, free: seq<nat>) {
    && |s.workers| == |s.pool.slab.jobs|
    && PoolInv(s.pool, free, HeldSet(s.workers))
    && HeldOnce(s.workers)
    && forall i :: 0 <= i < |s.workers| ==> WorkerOk(s.workers[i], s.pool)
  }

  /** The system `main` and `create_pool` set up for n threads, built
      from the corrected `dj_freelist_init` (the same slab as the one
      written whenever n >= 1). */
  function InitSys(n: nat, b: Build): (s: Sys)
    ensures |s.workers| == n + 1 && s.shutdown == 0 && s.pool.queue == EmptyQueue && s.build == b
    ensures forall t :: 0 < t < |s.workers| ==> s.workers[t].threadNum == t && s.workers[t].phase == Top
  {
    Sys(Pool(DjFreelistInitFixed(n), EmptyQueue),
        seq(n + 1, t requires 0 <= t => Zeroed.(threadNum := t)),
        0, b)
  }

  /** Right after start-up every slot 1..n is free and no thread holds one. */
  lemma InitInv(n: nat, b: Build)
    ensures SysInv(InitSys(n, b), Range(1, n + 1))
  {
    var s := InitSys(n, b);
    assert HeldSet(s.workers) == {};
    assert Slots(s.pool.queue) == [];
    InitPartition(n);
  }

  lemma InitPartition(n: nat)
    ensures Partition(n + 1, Range(1, n + 1), [], {})
  {
    var free := Range(1, n + 1);
    forall x | 0 < x < n + 1 ensures x in free {
      assert free[x - 1] == x;
    }
  }

  /** Replacing one thread's entry changes the held set by that thread's
      slot only. */
  lemma HeldSetUpdate(ws: seq<Worker>, t: nat, w: Worker)
    requires t < |ws| && HeldOnce(ws)
    ensures HeldSet(ws[t := w]) ==
              (HeldSet(ws) - (if ws[t].held.Some? then {ws[t].held.value} else {}))
              + (if w.held.Some? then {w.held.value} else {})
  {
    var ws' := ws[t := w];
    var lhs := HeldSet(ws');
    var rhs := (HeldSet(ws) - (if ws[t].held.Some? then {ws[t].held.value} else {}))
               + (if w.held.Some? then {w.held.value} else {});
    forall x | x in lhs ensures x in rhs {
      var i :| 0 <= i < |ws'| && ws'[i].held.Some? && ws'[i].held.value == x;
      if i != t {
        assert ws[i].held.value == x;
      }
    }
    forall x | x in rhs ensures x in lhs {
      if w.held.Some? && x == w.held.value {
        assert ws'[t].held.value == x;
      } else {
        var i :| 0 <= i < |ws| && ws[i].held.Some? && ws[i].held.value == x;
        assert i != t;
        assert ws'[i].held.value == x;
      }
    }
  }

  /** Slots not on the free list, and so held ones, keep their record. */
  lemma WorkersOkFrame(ws: seq<Worker>, p: Pool, p': Pool, free: seq<nat>, held: set<nat>)
    requires forall i :: 0 <= i < |ws| ==> WorkerOk(ws[i], p)
    requires |p'.slab.jobs| == |p.slab.jobs|
    requires forall i :: 0 <= i < |ws| && ws[i].held.Some? ==> ws[i].held.value !in free
    requires forall x :: 0 <= x < |p.slab.jobs| && x !in free ==> p'.slab.jobs[x] == p.slab.jobs[x]
    ensures forall i :: 0 <= i < |ws| ==> WorkerOk(ws[i], p')
  {
  }

  lemma BeginPreserves(s: Sys, t: nat, free: seq<nat>) returns (free': seq<nat>)
    requires SysInv(s, free) && Enabled(s, BeginAct(t))
    ensures SysInv(Begin(s, t), free')
    ensures free' == (if s.workers[t].held.Some? then [s.workers[t].held.value] + free else free)
  {
    var r := Begin(s, t);
    if s.workers[t].held.None? {
      HeldSetUpdate(s.workers, t, r.workers[t]);
      assert r.workers == s.workers[t := r.workers[t]];
      free' := free;
      assert HeldSet(r.workers) == HeldSet(s.workers);
    } else {
      free' := [s.workers[t].held.value] + free;
      BeginReleases(s, t, free, s.workers[t].held.value);
    }
  }

  /** A thread holding slot x gives it back to the free list. */
  lemma BeginReleases(s: Sys, t: nat, free: seq<nat>, x: nat)
    requires SysInv(s, free) && Enabled(s, BeginAct(t)) && s.workers[t].held == Some(x)
    ensures SysInv(Begin(s, t), [x] + free)
  {
    var r := Begin(s, t);
    var held := HeldSet(s.workers);
    HeldSetUpdate(s.workers, t, r.workers[t]);
    assert r.workers == s.workers[t := r.workers[t]];
    assert x in held;
    FreePushes(s.pool.slab, free, x);
    FreeFrame(s.pool.slab, free, x);
    PartitionRelease(|s.pool.slab.jobs|, free, Slots(s.pool.queue), held, x);
    assert HeldSet(r.workers) == held - {x};
    forall y | y in Slots(r.pool.queue)
      ensures y < |r.pool.slab.jobs| && r.pool.slab.jobs[y].forward == None && r.pool.slab.jobs[y].back == None
              && r.pool.slab.jobs[y].path.Some?
    {
      assert y !in free && y != x;
    }
    forall y | y in held - {x}
      ensures y < |r.pool.slab.jobs| && r.pool.slab.jobs[y].forward == None && r.pool.slab.jobs[y].back == None
    {
      assert y !in free;
    }
    forall i | 0 <= i < |s.workers| && i != t && s.workers[i].held.Some?
      ensures r.pool.slab.jobs[s.workers[i].held.value] == s.pool.slab.jobs[s.workers[i].held.value]
    {
      var y := s.workers[i].held.value;
      assert y in held && y !in free && y != x;
    }
  }

  lemma WakePreserves(s: Sys, t: nat, free: seq<nat>)
    requires SysInv(s, free) && Enabled(s, WakeAct(t))
    ensures SysInv(Wake(s, t), free)
  {
    var r := Wake(s, t);
    var held := HeldSet(s.workers);
    HeldSetUpdate(s.workers, t, r.workers[t]);
    assert r.workers == s.workers[t := r.workers[t]];
    if s.pool.queue.nodes == [] {
      assert HeldSet(r.workers) == held;
      return;
    }
    var q := Slots(s.pool.queue);
    var x := q[0];
    assert x in q;
    PartitionDequeue(|s.pool.slab.jobs|, free, q, held);
    assert HeldSet(r.workers) == held + {x};
    forall y | y in q[1..] ensures y in q {
    }
    forall i, j | 0 <= i < |r.workers| && 0 <= j < |r.workers| && i != j
                  && r.workers[i].held.Some? && r.workers[j].held.Some?
      ensures r.workers[i].held.value != r.workers[j].held.value
    {
      if i == t {
        assert s.workers[j].held.value in held;
      } else if j == t {
        assert s.workers[i].held.value in held;
      }
    }
  }

  /** After waking, a thread is busy exactly when it dequeued a job, and
      an idle one still shows job_id 0. */
  lemma WakeBusyIffJob(s: Sys, t: nat, free: seq<nat>)
    requires SysInv(s, free) && Enabled(s, WakeAct(t))
    ensures Wake(s, t).workers[t].busy <==> s.pool.queue.nodes != []
    ensures !Wake(s, t).workers[t].busy ==> Wake(s, t).workers[t].jobId == 0
  {
    assert WorkerOk(s.workers[t], s.pool);
  }

  /** A submit keeps slot conservation with the corrected `enqueue`, and
      with the one written as long as `ql_add` gets its node. */
  lemma SubmitPreserves(s: Sys, dpath: string, name: string, cred: Owner, id: nat, a: Alloc,
                        free: seq<nat>) returns (free': seq<nat>)
    requires SysInv(s, free) && (s.build == Corrected || !a.nodeFails)
    ensures SysInv(Submit(s, dpath, name, cred, id, a), free')
  {
    OfferIsFixed(s.build, s.pool, dpath, name, cred, id, s.shutdown, a);
    var e := EnqueueFixed(s.pool, dpath, name, cred, id, s.shutdown, a);
    EnqueueFixedPreserves(s.pool, free, HeldSet(s.workers), dpath, name, cred, id, s.shutdown, a);
    free' := if e.1 then free[1..] else free;
    forall i | 0 <= i < |s.workers| && s.workers[i].held.Some?
      ensures s.workers[i].held.value !in free
    {
      assert s.workers[i].held.value in HeldSet(s.workers);
    }
    WorkersOkFrame(s.workers, s.pool, e.0, free, HeldSet(s.workers));
  }

  /** With `enqueue` as written, a submit whose queue node cannot be
      allocated leaves a slot that is on no free list, not queued and held
      by no thread: no free list makes the system conserve slots again. */
  lemma SubmitLeaks(s: Sys, dpath: string, name: string, cred: Owner, id: nat, free: seq<nat>)
    requires SysInv(s, free) && s.build == AsWritten && s.shutdown == 0 && free != []
    requires ByteLen(dpath) + ByteLen(name) <= MAX_JOIN
    ensures forall f :: !SysInv(Submit(s, dpath, name, cred, id, Alloc(false, true)), f)
  {
    EnqueueLeaksSlot(s.pool, free, HeldSet(s.workers), dpath, name, cred, id);
  }

  /** The one move that can lose a slot: a submit to the `enqueue` as
      written whose queue node cannot be allocated (see SubmitLeaks). */
  predicate LosesSlot(s: Sys, a: Act) {
    s.build == AsWritten && a.SubmitAct? && a.alloc.nodeFails
  }

  /** Slot conservation holds in every reachable state: every move keeps
      each slot 1..nthreads on the free list, on the queue, or held by
      exactly one thread, never in two places; with the corrected
      `enqueue` that is every move there is. */
  lemma StepPreserves(s: Sys, a: Act, free: seq<nat>) returns (free': seq<nat>)
    requires SysInv(s, free) && Enabled(s, a) && !LosesSlot(s, a)
    ensures SysInv(Step(s, a), free')
  {
    match a
    case BeginAct(t) =>
      free' := BeginPreserves(s, t, free);
    case WakeAct(t) =>
      free' := free;
      WakePreserves(s, t, free);
    case FinishAct(t) =>
      free' := free;
      var r := Finish(s, t);
      assert r.workers == s.workers[t := r.workers[t]];
      HeldSetUpdate(s.workers, t, r.workers[t]);
      assert HeldSet(r.workers) == HeldSet(s.workers);
    case ExitAct(t) =>
      free' := free;
      var r := Exit(s, t);
      assert r.workers == s.workers[t := r.workers[t]];
      HeldSetUpdate(s.workers, t, r.workers[t]);
      assert HeldSet(r.workers) == HeldSet(s.workers);
    case SubmitAct(dpath, name, cred, id, alloc) =>
      free' := SubmitPreserves(s, dpath, name, cred, id, alloc, free);
    case ShutdownAct =>
      free' := free;
  }

  /** A thread that has exited keeps its entry, and so its last job,
      whatever else happens. */
  lemma ExitedStaysPut(s: Sys, a: Act, t: nat)
    requires Enabled(s, a) && t < |s.workers| && s.workers[t].phase == Exited
    ensures Step(s, a).workers[t] == s.workers[t]
  {
  }

  // ---------------------------------------------------------------------
  // create_pool, cancel_pool_threads, join_pool
  // ---------------------------------------------------------------------

  /** Index of the first nonzero status at or after i. */
  function FirstFailure(st: seq<int>, i: nat): (r: Option<nat>)
    requires i <= |st|
    ensures r.Some? ==> i <= r.value < |st| && st[r.value] != 0
    ensures r.Some? ==> forall k :: i <= k < r.value ==> st[k] == 0
    ensures r.None? ==> forall k :: i <= k < |st| ==> st[k] == 0
    decreases |st| - i
  {
    if i == |st| then None
    else if st[i] != 0 then Some(i)
    else FirstFailure(st, i + 1)
  }

  /** `cancel_pool_threads(last_tid)`: the threads sent a cancel, in order. */
  method CancelPoolThreads(lastTid: int) returns (cancelled: seq<nat>)
    ensures lastTid < 1 ==> cancelled == []
    ensures lastTid >= 1 ==> cancelled == Range(1, lastTid + 1)
  {
    cancelled := [];
    var cid := 1;
    while cid <= lastTid
      invariant 1 <= cid && (lastTid >= 1 ==> cid <= lastTid + 1)
      invariant lastTid < 1 ==> cid == 1
      invariant cancelled == Range(1, cid)
      decreases lastTid - cid
    {
      RangeSnoc(1, cid);
      cancelled := cancelled + [cid];
      cid := cid + 1;
    }
  }

  lemma RangeSnoc(lo: nat, hi: nat)
    requires lo <= hi
    ensures Range(lo, hi + 1) == Range(lo, hi) + [hi]
  {
    var a := Range(lo, hi + 1);
    var b := Range(lo, hi) + [hi];
    assert |a| == |b|;
    forall i | 0 <= i < |a| ensures a[i] == b[i] {
    }
  }

  /** `join_pool`: the threads joined, in order. */
  method JoinPool(nthreads: nat) returns (joined: seq<nat>)
    ensures joined == Range(1, nthreads + 1)
    ensures 0 !in joined
  {
    joined := [];
    var t := 1;
    while t <= nthreads
      invariant 1 <= t <= nthreads + 1
      invariant joined == Range(1, t)
      decreases nthreads - t
    {
      RangeSnoc(1, t);
      joined := joined + [t];
      t := t + 1;
    }
  }

  /** Thread t is started by `create_pool`: `pthread_create` returned 0
      for it and for every thread before it. */
  predicate Started(st: seq<int>, t: nat)
    requires t <= |st|
  {
    forall j :: 0 <= j < t ==> st[j] == 0
  }

  /** `create_pool(npthreads)`. `allocFails` is the outcome of the `calloc`
      of the array and `statuses[k]` what `pthread_create` returns for
      thread k+1. The array has npthreads+1 zeroed entries; each thread
      gets its index as `thread_num` before it is created, entry 0 is left
      for the main thread. On the first failure the threads created so
      far, 1..tid-1, are sent a cancel and the status is returned; so on
      failure every thread started is cancelled, and on success none is. */
  method CreatePool(npthreads: nat, allocFails: bool, statuses: seq<int>)
    returns (status: int, threads: seq<Worker>, created: seq<nat>, cancelled: seq<nat>)
    requires |statuses| == npthreads
    ensures allocFails ==> status == ENOMEM && threads == [] && created == [] && cancelled == []
    ensures !allocFails ==> |threads| == npthreads + 1 && threads[0] == Zeroed
    ensures !allocFails ==> forall t :: t in created <==> 0 < t <= npthreads && Started(statuses, t)
    ensures status != 0 ==> cancelled == created
    ensures status == 0 <==> !allocFails && FirstFailure(statuses, 0).None?
    ensures status == 0 ==> cancelled == [] && created == Range(1, npthreads + 1)
    ensures !allocFails && FirstFailure(statuses, 0).None? ==>
              forall t :: 0 < t < |threads| ==> threads[t] == Zeroed.(threadNum := t)
    ensures !allocFails && FirstFailure(statuses, 0).Some? ==>
              var k := FirstFailure(statuses, 0).value;
              && status == statuses[k]
              && cancelled == Range(1, k + 1)
              && (forall t :: 0 < t <= k + 1 ==> threads[t] == Zeroed.(threadNum := t))
              && (forall t :: k + 1 < t < |threads| ==> threads[t] == Zeroed)
  {
    cancelled := [];
    created := [];
    if allocFails {
      status := ENOMEM;
      threads := [];
      return;
    }
    var n := npthreads + 1;
    threads := seq(n, _ => Zeroed);
    var tid := 1;
    while tid < n
      invariant 1 <= tid <= n && |threads| == n && threads[0] == Zeroed
      invariant forall t :: 0 < t < tid ==> threads[t] == Zeroed.(threadNum := t)
      invariant forall t :: tid <= t < n ==> threads[t] == Zeroed
      invariant Started(statuses, tid - 1)
      invariant created == Range(1, tid)
      invariant cancelled == []
      decreases n - tid
    {
      threads := threads[tid := Zeroed.(threadNum := tid)];
      status := statuses[tid - 1];
      if status != 0 {
        FirstIs(statuses, tid - 1);
        StartedBefore(statuses, tid - 1, created);
        cancelled := CancelPoolThreads(tid - 1);
        return;
      }
      RangeSnoc(1, tid);
      created := created + [tid];
      tid := tid + 1;
    }
    FirstNone(statuses);
    StartedAll(statuses, created);
    status := 0;
  }

  /** When thread k+1 is the first whose creation fails, the threads
      started are exactly 1..k. */
  lemma StartedBefore(st: seq<int>, k: nat, created: seq<nat>)
    requires k < |st| && st[k] != 0 && Started(st, k) && created == Range(1, k + 1)
    ensures forall t :: t in created <==> 0 < t <= |st| && Started(st, t)
  {
    forall t ensures t in created <==> 0 < t <= |st| && Started(st, t) {
      if 0 < t <= k {
        assert created[t - 1] == t;
      } else if k < t <= |st| {
        assert st[k] != 0;
      }
    }
  }

  /** When no creation fails, every thread 1..|st| is started. */
  lemma StartedAll(st: seq<int>, created: seq<nat>)
    requires Started(st, |st|) && created == Range(1, |st| + 1)
    ensures forall t :: t in created <==> 0 < t <= |st| && Started(st, t)
  {
    forall t ensures t in created <==> 0 < t <= |st| && Started(st, t) {
      if 0 < t <= |st| {
        assert created[t - 1] == t;
      }
    }
  }

  lemma FirstIs(st: seq<int>, k: nat)
    requires k < |st| && st[k] != 0 && forall j :: 0 <= j < k ==> st[j] == 0
    ensures FirstFailure(st, 0) == Some(k)
  {
  }

  lemma FirstNone(st: seq<int>)
    requires forall j :: 0 <= j < |st| ==> st[j] == 0
    ensures FirstFailure(st, 0) == None
  {
  }
}
