/** Properties of `mdpf`: with no failing system call, no shutdown, no
    accepted job losing its queue node and every path fitting its buffer,
    every directory of the tree is
    either walked or left on the queue, as a job with the credential and
    hierarchy id of the walk; with `enqueue` as written, a failed queue
    node loses a directory; a failed file ends the scan; a directory with
    no subdirectory leaves slab and queue alone; ownership counters move
    only for real changes; and the single-subdirectory and full-slab cases. */
module WalkProofs {
  import opened Base
  import opened Slab
  import opened WorkQueue
  import opened Jobs
  import opened Walk

  /** Every system call on the tree succeeds. */
  ghost predicate NoFaults(d: Node)
    decreases d
  {
    match d
    case Leaf(_, _, p) => p.Stat? && p.chown.ChownOk?
    case Dir(_, opens, p, es, rf) =>
      && opens && p.Stat? && p.chown.ChownOk? && rf.None?
      && forall k :: 0 <= k < |es| ==> NoFaults(es[k])
  }

  /** Every subdirectory path the walk may build fits `bpath`: the join
      of its parent's path and its name is at most DJ_PATH_SZ - 2 bytes,
      the bound `enqueue` enforces and `MK_DIRJOB` silently relies on. */
  ghost predicate PathsFit(path: string, d: Node)
    decreases d, 1
  {
    d.Dir? ==> forall k :: 0 <= k < |d.entries| ==> EntryFits(path, d.entries[k])
  }

  ghost predicate EntryFits(path: string, e: Node)
    decreases e, 2
  {
    Counted(e) && e.Dir? ==>
      ByteLen(path) + ByteLen(e.name) <= MAX_JOIN && PathsFit(JoinPath(path, e.name), e)
  }

  /** No job `enqueue` accepts is lost: the corrected `enqueue` is used,
      or no queue node allocation fails. */
  predicate NoLostJobs(env: Env) {
    env.build == Corrected || env.nodeFails == {}
  }

  /** The jobs waiting on the queue: path, credential and hierarchy id. */
  ghost function QueuedJobs(p: Pool): set<Job> {
    set x | x in Slots(p.queue) && x < |p.slab.jobs| && p.slab.jobs[x].path.Some? && p.slab.jobs[x].ucred.Some?
      :: Job(p.slab.jobs[x].path.value, p.slab.jobs[x].ucred.value, p.slab.jobs[x].jobId)
  }

  /** `job` was walked, and each directory among its counted entries is
      queued or, recursively, covered, as the child job that inherits
      the credential and id of `job`. */
  ghost predicate Covered(job: Job, d: Node, walked: seq<Job>, queued: set<Job>)
    decreases d, 1
  {
    && d.Dir? && job in walked
    && forall k :: 0 <= k < |d.entries| ==> ChildCovered(job, d.entries[k], walked, queued)
  }

  ghost predicate ChildCovered(job: Job, e: Node, walked: seq<Job>, queued: set<Job>)
    decreases e, 2
  {
    Counted(e) && e.Dir? ==>
      ChildJob(job, e.name) in queued || Covered(ChildJob(job, e.name), e, walked, queued)
  }

  lemma {:induction false} CoveredMono(job: Job, d: Node, w1: seq<Job>, q1: set<Job>,
                                       w2: seq<Job>, q2: set<Job>)
    requires Covered(job, d, w1, q1)
    requires forall x :: x in w1 ==> x in w2
    requires q1 <= q2
    ensures Covered(job, d, w2, q2)
    decreases d, 1
  {
    forall k | 0 <= k < |d.entries|
      ensures ChildCovered(job, d.entries[k], w2, q2)
    {
      ChildMono(job, d.entries[k], w1, q1, w2, q2);
    }
  }

  lemma {:induction false} ChildMono(job: Job, e: Node, w1: seq<Job>, q1: set<Job>,
                                     w2: seq<Job>, q2: set<Job>)
    requires ChildCovered(job, e, w1, q1)
    requires forall x :: x in w1 ==> x in w2
    requires q1 <= q2
    ensures ChildCovered(job, e, w2, q2)
    decreases e, 2
  {
    if Counted(e) && e.Dir? && ChildJob(job, e.name) !in q1 {
      CoveredMono(ChildJob(job, e.name), e, w1, q1, w2, q2);
    }
  }

  /** An offer that loses no job never drops a queued job, queues the new
      one with its credential and id when it accepts, and keeps slot
      conservation. */
  lemma OfferQueues(b: Build, p: Pool, free: seq<nat>, held: set<nat>, dpath: string, name: string,
                    cred: Owner, id: nat, shutdown: nat, a: Alloc) returns (free': seq<nat>)
    requires PoolInv(p, free, held) && (b == Corrected || !a.nodeFails)
    ensures var r := Offer(b, p, dpath, name, cred, id, shutdown, a);
            && PoolInv(r.0, free', held)
            && QueuedJobs(p) <= QueuedJobs(r.0)
            && (r.1 ==> Job(JoinPath(dpath, name), cred, id) in QueuedJobs(r.0))
  {
    OfferIsFixed(b, p, dpath, name, cred, id, shutdown, a);
    var r := EnqueueFixed(p, dpath, name, cred, id, shutdown, a);
    EnqueueFixedPreserves(p, free, held, dpath, name, cred, id, shutdown, a);
    free' := if r.1 then free[1..] else free;
    forall j | j in QueuedJobs(p) ensures j in QueuedJobs(r.0) {
      var x :| x in Slots(p.queue) && x < |p.slab.jobs| && p.slab.jobs[x].path.Some? && p.slab.jobs[x].ucred.Some?
               && j == Job(p.slab.jobs[x].path.value, p.slab.jobs[x].ucred.value, p.slab.jobs[x].jobId);
      assert x !in free;
      assert x in Slots(r.0.queue);
    }
    if r.1 {
      var slot := free[0];
      assert Slots(r.0.queue)[|Slots(p.queue)|] == slot;
      assert slot in Slots(r.0.queue);
    }
  }

  /** Loop invariant of the scan: the entries before i are covered, except
      the remembered directory. */
  ghost predicate ScannedCovered(job: Job, d: Node, i: nat, sc: Scan)
    requires d.Dir? && i <= |d.entries|
  {
    forall k :: 0 <= k < i && sc.deferred != Some(k) ==>
      ChildCovered(job, d.entries[k], sc.w.visited, QueuedJobs(sc.w.pool))
  }

  lemma ScannedMono(job: Job, d: Node, i: nat, sc: Scan, sc': Scan)
    requires d.Dir? && i <= |d.entries| && ScannedCovered(job, d, i, sc)
    requires sc'.deferred == sc.deferred
    requires forall x :: x in sc.w.visited ==> x in sc'.w.visited
    requires QueuedJobs(sc.w.pool) <= QueuedJobs(sc'.w.pool)
    ensures ScannedCovered(job, d, i, sc')
  {
    forall k | 0 <= k < i && sc.deferred != Some(k)
      ensures ChildCovered(job, d.entries[k], sc'.w.visited, QueuedJobs(sc'.w.pool))
    {
      ChildMono(job, d.entries[k], sc.w.visited, QueuedJobs(sc.w.pool),
                sc'.w.visited, QueuedJobs(sc'.w.pool));
    }
  }

  lemma GrowsVisited(a: World, b: World)
    requires Grows(a, b)
    ensures forall x :: x in a.visited ==> x in b.visited
  {
    forall x | x in a.visited ensures x in b.visited {
      var k :| 0 <= k < |a.visited| && a.visited[k] == x;
      assert b.visited[..|a.visited|][k] == x;
    }
  }

  /** No directory is dropped: with every system call succeeding, no
      shutdown, no accepted job losing its queue node and every path
      fitting its buffer, `mdpf` returns 0, leaves `shutdown_time` clear,
      keeps slot conservation and every queued job, and covers the whole
      tree: each directory in it is walked or waiting on the queue, as a
      job carrying the walk's credential and hierarchy id. */
  lemma {:induction false} MdpfComplete(job: Job, d: Node, env: Env, w: World, free: seq<nat>, held: set<nat>)
    returns (free': seq<nat>)
    requires d.Dir? && NoFaults(d) && PathsFit(job.path, d) && NoLostJobs(env)
    requires w.shutdown == 0 && PoolInv(w.pool, free, held)
    ensures var r := Mdpf(job, d, env, w);
            && r.0 == 0 && r.1.shutdown == 0
            && PoolInv(r.1.pool, free', held)
            && QueuedJobs(w.pool) <= QueuedJobs(r.1.pool)
            && Covered(job, d, r.1.visited, QueuedJobs(r.1.pool))
    decreases d, 1
  {
    var w0 := w.(visited := w.visited + [job]);
    var sc0 := Scan(0, None, 0, false, 0, 0, 0, w0);
    var sc := ScanLoop(job, d, 0, sc0, env);
    assert ScanReady(job, d, 0, sc0, free, held);
    var f1 := ScanComplete(job, d, 0, sc0, env, free, held);
    var r1 := AfterScan(job, d, sc, env);
    free' := AfterScanComplete(job, d, sc, env, f1, held);
    GrowsVisited(sc.w, r1.1);
    assert job in w0.visited;
    GrowsVisited(w0, sc.w);
    var r := Mdpf(job, d, env, w);
    assert r.1.visited == r1.1.visited && r.1.pool == r1.1.pool;
  }

  /** What a clean scan of the whole directory establishes. */
  ghost predicate ScanDone(job: Job, d: Node, sc: Scan, r: Scan, free': seq<nat>, held: set<nat>)
    requires d.Dir?
  {
    && r.clean && r.rval == 0 && r.w.shutdown == 0
    && PoolInv(r.w.pool, free', held)
    && QueuedJobs(sc.w.pool) <= QueuedJobs(r.w.pool)
    && job in r.w.visited
    && ScannedCovered(job, d, |d.entries|, r)
  }

  /** Hypotheses of the scan from entry i on. */
  ghost predicate ScanReady(job: Job, d: Node, i: nat, sc: Scan, free: seq<nat>, held: set<nat>)
  {
    && d.Dir? && NoFaults(d) && PathsFit(job.path, d) && i <= |d.entries|
    && Valid(sc.w.pool) && DeferredOk(d, sc) && !sc.clean
    && sc.w.shutdown == 0 && sc.rval == 0 && PoolInv(sc.w.pool, free, held)
    && job in sc.w.visited
    && (sc.nd == 0 ==> sc.deferred.None?)
    && ScannedCovered(job, d, i, sc)
  }

  /** The scan loop under the same hypotheses ends cleanly at the end of
      the directory with `rval` 0, having covered every entry except the
      remembered directory. */
  lemma {:induction false} ScanComplete(job: Job, d: Node, i: nat, sc: Scan, env: Env, free: seq<nat>, held: set<nat>)
    returns (free': seq<nat>)
    requires NoLostJobs(env)
    requires ScanReady(job, d, i, sc, free, held)
    ensures ScanDone(job, d, sc, ScanLoop(job, d, i, sc, env), free', held)
    decreases d, 0, |d.entries| - i, 4
  {
    if i == |d.entries| {
      free' := free;
      ScanEnd(job, d, sc, env, free, held);
      return;
    }
    free' := ScanRest(job, d, i, sc, env, free, held);
  }

  lemma {:induction false} ScanRest(job: Job, d: Node, i: nat, sc: Scan, env: Env, free: seq<nat>, held: set<nat>)
    returns (free': seq<nat>)
    requires NoLostJobs(env)
    requires ScanReady(job, d, i, sc, free, held) && i < |d.entries|
    ensures ScanDone(job, d, sc, ScanLoop(job, d, i, sc, env), free', held)
    decreases d, 0, |d.entries| - i, 3
  {
    var next := ScanEntry(job, d, i, sc, env);
    var f1 := EntryComplete(job, d, i, sc, env, free, held);
    free' := ScanComplete(job, d, i + 1, next, env, f1, held);
    ScanDoneFrom(job, d, i, sc, env, next, free', held);
  }

  lemma ScanEnd(job: Job, d: Node, sc: Scan, env: Env, free: seq<nat>, held: set<nat>)
    requires d.Dir? && ScanReady(job, d, |d.entries|, sc, free, held)
    ensures ScanDone(job, d, sc, ScanLoop(job, d, |d.entries|, sc, env), free, held)
  {
    assert ScanLoop(job, d, |d.entries|, sc, env) == sc.(clean := true);
  }

  /** With no stop condition, the loop runs its body on entry i and moves on. */
  lemma LoopStep(job: Job, d: Node, i: nat, sc: Scan, env: Env)
    requires d.Dir? && i < |d.entries| && Valid(sc.w.pool) && DeferredOk(d, sc) && !sc.clean
    requires sc.w.shutdown == 0 && sc.rval == 0
    ensures ScanLoop(job, d, i, sc, env) == ScanLoop(job, d, i + 1, ScanEntry(job, d, i, sc, env), env)
  {
  }

  lemma ScanDoneFrom(job: Job, d: Node, i: nat, sc: Scan, env: Env, next: Scan, free': seq<nat>, held: set<nat>)
    requires d.Dir? && i < |d.entries| && Valid(sc.w.pool) && DeferredOk(d, sc) && !sc.clean
    requires sc.w.shutdown == 0 && sc.rval == 0
    requires next == ScanEntry(job, d, i, sc, env)
    requires QueuedJobs(sc.w.pool) <= QueuedJobs(next.w.pool)
    requires ScanDone(job, d, next, ScanLoop(job, d, i + 1, next, env), free', held)
    ensures ScanDone(job, d, sc, ScanLoop(job, d, i, sc, env), free', held)
  {
    LoopStep(job, d, i, sc, env);
  }

  /** One pass of the loop body keeps the scan's hypotheses, with entry i
      now covered unless it is the remembered directory. */
  lemma {:induction false} EntryComplete(job: Job, d: Node, i: nat, sc: Scan, env: Env, free: seq<nat>, held: set<nat>)
    returns (free': seq<nat>)
    requires NoLostJobs(env)
    requires ScanReady(job, d, i, sc, free, held) && i < |d.entries|
    ensures var r := ScanEntry(job, d, i, sc, env);
            && ScanReady(job, d, i + 1, r, free', held)
            && QueuedJobs(sc.w.pool) <= QueuedJobs(r.w.pool)
    decreases d, 0, |d.entries| - i, 2
  {
    var e := d.entries[i];
    assert NoFaults(e);
    var r := ScanEntry(job, d, i, sc, env);
    if !Counted(e) {
      free' := free;
    } else if e.Leaf? {
      free' := free;
      assert e.probe.Stat? && e.probe.chown.ChownOk?;
      assert EntryRval(e.probe, job.cred) == 0;
      assert r.w == sc.w && r.deferred == sc.deferred && r.rval == 0;
      assert ChildCovered(job, e, r.w.visited, QueuedJobs(r.w.pool));
    } else if sc.nd == 0 {
      free' := free;
      assert r == sc.(nd := 1, deferred := Some(i));
    } else {
      free' := SubdirComplete(job, d, i, sc, env, free, held);
    }
  }

  /** A directory that is not the first counted entry: queued, or walked
      when the slab or an allocation refuses it. */
  lemma {:induction false} SubdirComplete(job: Job, d: Node, i: nat, sc: Scan, env: Env, free: seq<nat>, held: set<nat>)
    returns (free': seq<nat>)
    requires NoLostJobs(env)
    requires ScanReady(job, d, i, sc, free, held) && i < |d.entries|
    requires Counted(d.entries[i]) && d.entries[i].Dir? && sc.nd != 0
    ensures var r := ScanEntry(job, d, i, sc, env);
            && ScanReady(job, d, i + 1, r, free', held)
            && QueuedJobs(sc.w.pool) <= QueuedJobs(r.w.pool)
    decreases d, 0, |d.entries| - i, 1
  {
    var e := d.entries[i];
    var child := ChildJob(job, e.name);
    if Offer(env.build, sc.w.pool, job.path, e.name, job.cred, job.id, sc.w.shutdown, AllocFor(env, child.path)).1 {
      free' := SubdirQueued(job, d, i, sc, env, free, held);
    } else {
      free' := SubdirWalked(job, d, i, sc, env, free, held);
    }
  }

  /** The subdirectory `enqueue` accepts is on the queue as the child job. */
  lemma {:induction false} SubdirQueued(job: Job, d: Node, i: nat, sc: Scan, env: Env, free: seq<nat>, held: set<nat>)
    returns (free': seq<nat>)
    requires NoLostJobs(env)
    requires ScanReady(job, d, i, sc, free, held) && i < |d.entries|
    requires Counted(d.entries[i]) && d.entries[i].Dir? && sc.nd != 0
    requires Offer(env.build, sc.w.pool, job.path, d.entries[i].name, job.cred, job.id, sc.w.shutdown,
                   AllocFor(env, ChildJob(job, d.entries[i].name).path)).1
    ensures var r := ScanEntry(job, d, i, sc, env);
            && ScanReady(job, d, i + 1, r, free', held)
            && QueuedJobs(sc.w.pool) <= QueuedJobs(r.w.pool)
    decreases d, 0, |d.entries| - i, 0
  {
    var e := d.entries[i];
    var r := ScanEntry(job, d, i, sc, env);
    var child := ChildJob(job, e.name);
    var sc1 := sc.(nd := sc.nd + 1);
    var a := AllocFor(env, child.path);
    assert env.build == Corrected || !a.nodeFails;
    var (pool', ok) := Offer(env.build, sc1.w.pool, job.path, e.name, job.cred, job.id, sc1.w.shutdown, a);
    free' := OfferQueues(env.build, sc1.w.pool, free, held, job.path, e.name, job.cred, job.id,
                         sc1.w.shutdown, a);
    var sc2 := sc1.(w := sc1.w.(pool := pool'));
    ScannedMono(job, d, i, sc, sc2);
    assert r == sc2.(queued := sc2.queued + 1);
    assert ChildCovered(job, e, r.w.visited, QueuedJobs(r.w.pool));
  }

  /** The subdirectory `enqueue` refuses is walked in place and covered. */
  lemma {:induction false} SubdirWalked(job: Job, d: Node, i: nat, sc: Scan, env: Env, free: seq<nat>, held: set<nat>)
    returns (free': seq<nat>)
    requires NoLostJobs(env)
    requires ScanReady(job, d, i, sc, free, held) && i < |d.entries|
    requires Counted(d.entries[i]) && d.entries[i].Dir? && sc.nd != 0
    requires !Offer(env.build, sc.w.pool, job.path, d.entries[i].name, job.cred, job.id, sc.w.shutdown,
                    AllocFor(env, ChildJob(job, d.entries[i].name).path)).1
    ensures var r := ScanEntry(job, d, i, sc, env);
            && ScanReady(job, d, i + 1, r, free', held)
            && QueuedJobs(sc.w.pool) <= QueuedJobs(r.w.pool)
    decreases d, 0, |d.entries| - i, 0
  {
    var e := d.entries[i];
    assert NoFaults(e) && EntryFits(job.path, e);
    var r := ScanEntry(job, d, i, sc, env);
    var child := ChildJob(job, e.name);
    var sc1 := sc.(nd := sc.nd + 1);
    var a := AllocFor(env, child.path);
    assert env.build == Corrected || !a.nodeFails;
    var (pool', ok) := Offer(env.build, sc1.w.pool, job.path, e.name, job.cred, job.id, sc1.w.shutdown, a);
    var f1 := OfferQueues(env.build, sc1.w.pool, free, held, job.path, e.name, job.cred, job.id,
                          sc1.w.shutdown, a);
    var sc2 := sc1.(w := sc1.w.(pool := pool'));
    ScannedMono(job, d, i, sc, sc2);
    free' := MdpfComplete(child, e, env, sc2.w, f1, held);
    assert r.w == Mdpf(child, e, env, sc2.w).1;
    GrowsVisited(sc2.w, r.w);
    ScannedMono(job, d, i, sc2, r);
    assert ChildCovered(job, e, r.w.visited, QueuedJobs(r.w.pool));
  }

  /** The remembered directory is queued or walked after a clean scan. */
  lemma {:induction false} AfterScanComplete(job: Job, d: Node, sc: Scan, env: Env, free: seq<nat>, held: set<nat>)
    returns (free': seq<nat>)
    requires d.Dir? && NoFaults(d) && PathsFit(job.path, d) && NoLostJobs(env)
    requires Valid(sc.w.pool) && DeferredOk(d, sc)
    requires sc.clean && sc.rval == 0 && sc.w.shutdown == 0 && PoolInv(sc.w.pool, free, held)
    requires job in sc.w.visited
    requires ScannedCovered(job, d, |d.entries|, sc)
    ensures var r := AfterScan(job, d, sc, env);
            && r.0 == 0 && r.1.shutdown == 0
            && PoolInv(r.1.pool, free', held)
            && QueuedJobs(sc.w.pool) <= QueuedJobs(r.1.pool)
            && Covered(job, d, r.1.visited, QueuedJobs(r.1.pool))
    decreases d, 0, 0
  {
    var r := AfterScan(job, d, sc, env);
    var full := sc.(deferred := None);
    if sc.deferred.None? {
      free' := free;
      assert ScannedCovered(job, d, |d.entries|, full);
      return;
    }
    var k := sc.deferred.value;
    var e := d.entries[k];
    assert NoFaults(e) && EntryFits(job.path, e);
    var childJob := ChildJob(job, e.name);
    var wMid: World;
    var fMid: seq<nat>;
    if sc.nd > 1 {
      var a := AllocFor(env, childJob.path);
      assert env.build == Corrected || !a.nodeFails;
      var (pool', ok) := Offer(env.build, sc.w.pool, job.path, e.name, job.cred, job.id, sc.w.shutdown, a);
      fMid := OfferQueues(env.build, sc.w.pool, free, held, job.path, e.name, job.cred, job.id,
                          sc.w.shutdown, a);
      wMid := sc.w.(pool := pool');
      if ok {
        free' := fMid;
        assert r.1 == wMid;
        ScannedMono(job, d, |d.entries|, sc, sc.(w := wMid));
        return;
      }
    } else {
      wMid := sc.w;
      fMid := free;
    }
    assert r == Mdpf(childJob, e, env, wMid);
    free' := MdpfComplete(childJob, e, env, wMid, fMid, held);
    GrowsVisited(wMid, r.1);
    ScannedMono(job, d, |d.entries|, sc, sc.(w := r.1));
    assert ChildCovered(job, e, r.1.visited, QueuedJobs(r.1.pool));
  }

  /** Ownership changes counted by `mdpf`: files and links, directories. */
  datatype Tally = Tally(files: nat, dirs: nat)

  function Plus(a: Tally, b: Tally): Tally {
    Tally(a.files + b.files, a.dirs + b.dirs)
  }

  /** 1 when the directory or entry is owned by someone other than cred. */
  function Differs(p: Probe, cred: Owner): nat {
    if p.Stat? && p.owner != cred then 1 else 0
  }

  /** The ownership changes a complete walk of the tree makes: one per
      counted file or link and one per directory whose owner differs from
      the credential. An independent reference for the counters. */
  function TreeTally(d: Node, cred: Owner): Tally
    requires d.Dir?
    decreases d, 1
  {
    Plus(Tally(0, Differs(d.probe, cred)), EntriesTally(d, cred, 0))
  }

  function EntriesTally(d: Node, cred: Owner, i: nat): Tally
    requires d.Dir? && i <= |d.entries|
    decreases d, 0, |d.entries| - i
  {
    if i == |d.entries| then Tally(0, 0)
    else Plus(EntryTally(d.entries[i], cred), EntriesTally(d, cred, i + 1))
  }

  function EntryTally(e: Node, cred: Owner): Tally
    decreases e, 2
  {
    if !Counted(e) then Tally(0, 0)
    else if e.Leaf? then Tally(Differs(e.probe, cred), 0)
    else TreeTally(e, cred)
  }

  /** The tally of the remembered directory, still to be walked. */
  function DeferredTally(d: Node, sc: Scan, cred: Owner): Tally
    requires d.Dir? && DeferredOk(d, sc)
  {
    if sc.deferred.Some? then TreeTally(d.entries[sc.deferred.value], cred) else Tally(0, 0)
  }

  /** Counters as they will be once the scan state is folded in. */
  function Pending(d: Node, sc: Scan, cred: Owner): Tally
    requires d.Dir? && DeferredOk(d, sc)
  {
    Plus(Tally(sc.w.files + sc.regs + sc.lnks, sc.w.dirs), DeferredTally(d, sc, cred))
  }

  /** With every slot in use (no worker has returned one) and no fault,
      `enqueue` refuses every directory, so the whole tree is walked
      synchronously: the slab and queue are untouched and the counters
      grow by exactly the ownership changes the tree needs. */
  lemma {:induction false} FullSlabWalk(job: Job, d: Node, env: Env, w: World)
    requires d.Dir? && NoFaults(d) && PathsFit(job.path, d)
    requires w.shutdown == 0 && Valid(w.pool) && w.pool.slab.head.None?
    ensures var r := Mdpf(job, d, env, w);
            && r.0 == 0 && r.1.shutdown == 0 && r.1.pool == w.pool
            && Tally(r.1.files, r.1.dirs) == Plus(Tally(w.files, w.dirs), TreeTally(d, job.cred))
    decreases d, 1
  {
    var w0 := w.(visited := w.visited + [job]);
    var sc0 := Scan(0, None, 0, false, 0, 0, 0, w0);
    var sc := ScanLoop(job, d, 0, sc0, env);
    FullSlabScan(job, d, 0, sc0, env);
    FullSlabAfter(job, d, sc, env);
  }

  lemma {:induction false} FullSlabScan(job: Job, d: Node, i: nat, sc: Scan, env: Env)
    requires d.Dir? && NoFaults(d) && PathsFit(job.path, d) && i <= |d.entries|
    requires Valid(sc.w.pool) && DeferredOk(d, sc) && !sc.clean
    requires sc.w.shutdown == 0 && sc.rval == 0 && sc.w.pool.slab.head.None?
    requires sc.nd == 0 ==> sc.deferred.None?
    ensures var r := ScanLoop(job, d, i, sc, env);
            && r.clean && r.rval == 0 && r.w.shutdown == 0 && r.w.pool == sc.w.pool
            && Pending(d, r, job.cred) == Plus(Pending(d, sc, job.cred), EntriesTally(d, job.cred, i))
    decreases d, 0, |d.entries| - i, 2
  {
    if i == |d.entries| {
      return;
    }
    var next := ScanEntry(job, d, i, sc, env);
    FullSlabEntry(job, d, i, sc, env);
    LoopStep(job, d, i, sc, env);
    FullSlabScan(job, d, i + 1, next, env);
  }

  /** One pass of the loop body with every slot in use: the entry's
      changes move from the tree into the pending counters. */
  lemma {:induction false} FullSlabEntry(job: Job, d: Node, i: nat, sc: Scan, env: Env)
    requires d.Dir? && NoFaults(d) && PathsFit(job.path, d) && i < |d.entries|
    requires Valid(sc.w.pool) && DeferredOk(d, sc) && !sc.clean
    requires sc.w.shutdown == 0 && sc.rval == 0 && sc.w.pool.slab.head.None?
    requires sc.nd == 0 ==> sc.deferred.None?
    ensures var r := ScanEntry(job, d, i, sc, env);
            && r.rval == 0 && r.w.shutdown == 0 && r.w.pool == sc.w.pool
            && (r.nd == 0 ==> r.deferred.None?)
            && Pending(d, r, job.cred) == Plus(Pending(d, sc, job.cred), EntryTally(d.entries[i], job.cred))
    decreases d, 0, |d.entries| - i, 1
  {
    var e := d.entries[i];
    assert NoFaults(e);
    if Counted(e) && e.Leaf? {
      assert e.probe.Stat? && e.probe.chown.ChownOk?;
      assert EntryRval(e.probe, job.cred) == 0;
    } else if Counted(e) && sc.nd != 0 {
      FullSlabSubdir(job, d, i, sc, env);
    }
  }

  /** A subdirectory that is not the first counted entry, with every slot
      in use: refused, and walked in place. */
  lemma {:induction false} FullSlabSubdir(job: Job, d: Node, i: nat, sc: Scan, env: Env)
    requires d.Dir? && NoFaults(d) && PathsFit(job.path, d) && i < |d.entries|
    requires Valid(sc.w.pool) && DeferredOk(d, sc) && !sc.clean
    requires sc.w.shutdown == 0 && sc.rval == 0 && sc.w.pool.slab.head.None?
    requires Counted(d.entries[i]) && d.entries[i].Dir? && sc.nd != 0
    ensures var r := ScanEntry(job, d, i, sc, env);
            && r.rval == 0 && r.w.shutdown == 0 && r.w.pool == sc.w.pool
            && Pending(d, r, job.cred) == Plus(Pending(d, sc, job.cred), EntryTally(d.entries[i], job.cred))
    decreases d, 0, |d.entries| - i, 0
  {
    var e := d.entries[i];
    assert NoFaults(e) && EntryFits(job.path, e);
    var child := ChildJob(job, e.name);
    assert Offer(env.build, sc.w.pool, job.path, e.name, job.cred, job.id,
                 sc.w.shutdown, AllocFor(env, child.path)) == (sc.w.pool, false);
    FullSlabWalk(child, e, env, sc.w);
  }

  lemma {:induction false} FullSlabAfter(job: Job, d: Node, sc: Scan, env: Env)
    requires d.Dir? && NoFaults(d) && PathsFit(job.path, d) && Valid(sc.w.pool) && DeferredOk(d, sc)
    requires sc.clean && sc.rval == 0 && sc.w.shutdown == 0 && sc.w.pool.slab.head.None?
    ensures var r := AfterScan(job, d, sc, env);
            && r.0 == 0 && r.1.shutdown == 0 && r.1.pool == sc.w.pool
            && Tally(r.1.files, r.1.dirs) == Plus(Tally(sc.w.files, sc.w.dirs), DeferredTally(d, sc, job.cred))
    decreases d, 0, 0
  {
    if sc.deferred.Some? {
      var e := d.entries[sc.deferred.value];
      assert NoFaults(e);
      var child := ChildJob(job, e.name);
      assert EntryFits(job.path, e);
      assert Offer(env.build, sc.w.pool, job.path, e.name, job.cred, job.id,
                   sc.w.shutdown, AllocFor(env, child.path)) == (sc.w.pool, false);
      FullSlabWalk(child, e, env, sc.w);
    }
  }

  /** Entries i..j-1 that the scan does not count ("." and "..",
      devices, sockets) pass without a trace. */
  lemma {:induction false} SkipUncounted(job: Job, d: Node, i: nat, j: nat, sc: Scan, env: Env)
    requires d.Dir? && i <= j <= |d.entries| && Valid(sc.w.pool) && DeferredOk(d, sc) && !sc.clean
    requires sc.w.shutdown == 0 && sc.rval == 0
    requires forall k :: i <= k < j ==> !Counted(d.entries[k])
    ensures ScanLoop(job, d, i, sc, env) == ScanLoop(job, d, j, sc, env)
    decreases j - i
  {
    if i < j {
      LoopStep(job, d, i, sc, env);
      SkipUncounted(job, d, i + 1, j, sc, env);
    }
  }

  /** A directory whose one counted entry, at index j, is a subdirectory:
      the other entries are skipped, the subdirectory is walked in place
      with no `enqueue`, and the walk is exactly the child's, plus the
      directory itself in the dirs counter when its owner was changed. */
  lemma OnlySubdirWalkedInPlace(job: Job, d: Node, j: nat, env: Env, w: World)
    requires d.Dir? && d.opens && d.readFails.None? && j < |d.entries|
    requires d.probe.Stat? && (d.probe.owner == job.cred || d.probe.chown.ChownOk?)
    requires d.entries[j].Dir? && Counted(d.entries[j])
    requires forall k :: 0 <= k < |d.entries| && k != j ==> !Counted(d.entries[k])
    requires w.shutdown == 0 && Valid(w.pool)
    ensures var e := d.entries[j];
            var c := Mdpf(ChildJob(job, e.name), e, env, w.(visited := w.visited + [job]));
            Mdpf(job, d, env, w) == (c.0, c.1.(dirs := c.1.dirs + Differs(d.probe, job.cred)))
  {
    var w0 := w.(visited := w.visited + [job]);
    var sc0 := Scan(0, None, 0, false, 0, 0, 0, w0);
    SkipUncounted(job, d, 0, j, sc0, env);
    LoopStep(job, d, j, sc0, env);
    var sc1 := ScanEntry(job, d, j, sc0, env);
    assert sc1 == sc0.(nd := 1, deferred := Some(j));
    SkipUncounted(job, d, j + 1, |d.entries|, sc1, env);
    assert ScanLoop(job, d, |d.entries|, sc1, env) == sc1.(clean := true);
  }

  /** The loop's own test: once `shutdown_time` or `rval` is set, no
      further entry is examined. */
  lemma ScanStops(job: Job, d: Node, i: nat, sc: Scan, env: Env)
    requires d.Dir? && i <= |d.entries| && Valid(sc.w.pool) && DeferredOk(d, sc) && !sc.clean
    requires sc.w.shutdown != 0 || sc.rval != 0
    ensures ScanLoop(job, d, i, sc, env) == sc
  {
  }

  /** A counted file whose `stat` or `chown` fails ends the scan: `rval`
      is that errno, no later entry is walked, queued or counted, and the
      remembered directory is not handled either. */
  lemma FailedFileStopsScan(job: Job, d: Node, i: nat, sc: Scan, env: Env)
    requires d.Dir? && i < |d.entries| && Valid(sc.w.pool) && DeferredOk(d, sc) && !sc.clean
    requires sc.w.shutdown == 0 && sc.rval == 0
    requires Counted(d.entries[i]) && d.entries[i].Leaf? && EntryRval(d.entries[i].probe, job.cred) != 0
    ensures var r := ScanLoop(job, d, i, sc, env);
            && r == sc.(nd := sc.nd + 1, rval := EntryRval(d.entries[i].probe, job.cred))
            && AfterScan(job, d, r, env) == (r.rval, sc.w)
  {
    LoopStep(job, d, i, sc, env);
    ScanStops(job, d, i + 1, ScanEntry(job, d, i, sc, env), env);
  }

  /** The scan of entries with no counted subdirectory among them leaves
      the slab, the queue, the flag and the visit log alone. */
  lemma {:induction false} ScanNoSubdir(job: Job, d: Node, i: nat, sc: Scan, env: Env)
    requires d.Dir? && i <= |d.entries| && Valid(sc.w.pool) && DeferredOk(d, sc) && !sc.clean
    requires forall k :: i <= k < |d.entries| ==> !(Counted(d.entries[k]) && d.entries[k].Dir?)
    ensures var r := ScanLoop(job, d, i, sc, env);
            r.w.pool == sc.w.pool && r.w.visited == sc.w.visited && r.w.shutdown == sc.w.shutdown
            && r.deferred == sc.deferred
    decreases |d.entries| - i
  {
    if sc.w.shutdown == 0 && sc.rval == 0 && i < |d.entries| {
      LoopStep(job, d, i, sc, env);
      ScanNoSubdir(job, d, i + 1, ScanEntry(job, d, i, sc, env), env);
    }
  }

  /** A directory with no counted subdirectory offers nothing to
      `enqueue` and recurses nowhere: slab and queue are as before, and
      the only job walked is its own. */
  lemma NoSubdirKeepsPool(job: Job, d: Node, env: Env, w: World)
    requires d.Dir? && Valid(w.pool)
    requires forall k :: 0 <= k < |d.entries| ==> !(Counted(d.entries[k]) && d.entries[k].Dir?)
    ensures var r := Mdpf(job, d, env, w);
            && r.1.pool == w.pool && r.1.visited == w.visited + [job]
            && (d.opens ==> r.1.shutdown == w.shutdown)
  {
    var w0 := w.(visited := w.visited + [job]);
    ScanNoSubdir(job, d, 0, Scan(0, None, 0, false, 0, 0, 0, w0), env);
  }

  /** With `enqueue` as written, a directory whose queue node cannot be
      allocated is lost: `enqueue` reports success, so the scan counts it
      as queued (`dirs_queued`) and does not recurse into it, yet it is not
      on the queue, it was not walked, and the slot it took is on no free
      list, so slot conservation is lost for good. */
  lemma WalkLosesDirectory(job: Job, d: Node, i: nat, sc: Scan, env: Env, free: seq<nat>, held: set<nat>)
    requires d.Dir? && i < |d.entries| && DeferredOk(d, sc) && !sc.clean
    requires sc.w.shutdown == 0 && sc.rval == 0 && sc.nd != 0
    requires PoolInv(sc.w.pool, free, held) && free != []
    requires Counted(d.entries[i]) && d.entries[i].Dir?
    requires ByteLen(job.path) + ByteLen(d.entries[i].name) <= MAX_JOIN
    requires env.build == AsWritten
    requires AllocFor(env, ChildJob(job, d.entries[i].name).path) == Alloc(false, true)
    ensures var r := ScanEntry(job, d, i, sc, env);
            && r.queued == sc.queued + 1 && r.rval == 0 && r.w.shutdown == 0
            && r.w.visited == sc.w.visited
            && Slots(r.w.pool.queue) == Slots(sc.w.pool.queue)
            && forall f :: !PoolInv(r.w.pool, f, held)
  {
    var e := d.entries[i];
    EnqueueLeaksSlot(sc.w.pool, free, held, job.path, e.name, job.cred, job.id);
  }
}
