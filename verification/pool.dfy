/** Admission of work: the slab and the queue together, `enqueue` as
    written and as corrected, and the slot-conservation invariant that ties
    free list, queue and the jobs held by workers together. */
module Jobs {
  import opened Base
  import opened Slab
  import opened WorkQueue

  /** Longest `strlen(dpath) + strlen(name)`, in bytes, that `enqueue`
      accepts (DJ_PATH_SZ - 2: room for the separator and the terminating
      NUL). */
  const MAX_JOIN: nat := DJ_PATH_SZ - 2

  /** The shared state guarded by `queue_lock`. */
  datatype Pool = Pool(slab: Slab, queue: Queue)

  /** Outcomes of the two allocations `enqueue` performs: the path buffer
      (`malloc(DJ_PATH_SZ)`) and the queue node inside `ql_add`. */
  datatype Alloc = Alloc(pathFails: bool, nodeFails: bool)

  const AllocOk := Alloc(false, false)

  /** Every pointer of the pool designates a slot of the array. */
  predicate Valid(p: Pool) {
    && WellFormed(p.slab)
    && forall i :: 0 <= i < |p.queue.nodes| ==> p.queue.nodes[i].djob < |p.slab.jobs|
  }

  /** Every slot 1..n-1 is in exactly one of: the free list, the queue,
      the set of jobs held by workers; nothing else is in any of them. */
  ghost predicate Partition(n: nat, free: seq<nat>, q: seq<nat>, held: set<nat>) {
    && Distinct(free) && Distinct(q)
    && (forall x :: x in free ==> x !in q && x !in held)
    && (forall x :: x in q ==> x !in held)
    && (forall x :: x in free ==> 0 < x < n)
    && (forall x :: x in q ==> 0 < x < n)
    && (forall x :: x in held ==> 0 < x < n)
    && (forall x :: 0 < x < n ==> x in free || x in q || x in held)
  }

  /** Slot conservation: the slots of the slab are partitioned among the
      free list, the queue and the jobs held by workers (slot 0, the root
      job, is in none of them); the links of queued and held jobs are null,
      as `dj_calloc` left them; a queued job has a path. */
  ghost predicate PoolInv(p: Pool, free: seq<nat>, held: set<nat>) {
    && Valid(p)
    && Threads(p.slab, free)
    && Partition(|p.slab.jobs|, free, Slots(p.queue), held)
    && (forall x :: x in Slots(p.queue) ==>
          x < |p.slab.jobs| && p.slab.jobs[x].forward == None && p.slab.jobs[x].back == None
          && p.slab.jobs[x].path.Some?)
    && (forall x :: x in held ==>
          x < |p.slab.jobs| && p.slab.jobs[x].forward == None && p.slab.jobs[x].back == None)
  }

  /** Moving the free-list head to the queue tail keeps the partition. */
  lemma PartitionEnqueue(n: nat, free: seq<nat>, q: seq<nat>, held: set<nat>)
    requires Partition(n, free, q, held) && free != []
    ensures Partition(n, free[1..], q + [free[0]], held)
  {
    assert free == [free[0]] + free[1..];
    var f := free[1..];
    var q' := q + [free[0]];
    forall x | x in f ensures x in free && x != free[0] {
      var i :| 0 <= i < |f| && f[i] == x;
      assert free[i + 1] == x;
    }
    forall x | x in q' ensures x in q || x == free[0] {
      var i :| 0 <= i < |q'| && q'[i] == x;
      if i < |q| { assert q[i] == x; }
    }
    forall i, j | 0 <= i < j < |q'| ensures q'[i] != q'[j] {
      if j == |q| { assert q'[i] in q; }
    }
    forall x | 0 < x < n ensures x in f || x in q' || x in held {
      assert x in free || x in q || x in held;
    }
    forall x | x in q ensures x in q' {
      var i :| 0 <= i < |q| && q[i] == x;
      assert q'[i] == x;
    }
    assert free[0] in free && q'[|q|] == free[0];
  }

  /** Moving the queue head to the workers keeps the partition. */
  lemma PartitionDequeue(n: nat, free: seq<nat>, q: seq<nat>, held: set<nat>)
    requires Partition(n, free, q, held) && q != []
    ensures Partition(n, free, q[1..], held + {q[0]})
  {
    assert q == [q[0]] + q[1..];
    forall x | x in q[1..] ensures x in q && x != q[0] {
      var i :| 0 <= i < |q[1..]| && q[1..][i] == x;
      assert q[i + 1] == x;
    }
    forall x | 0 < x < n ensures x in free || x in q[1..] || x in held + {q[0]} {
      assert x in free || x in q || x in held;
    }
  }

  /** Returning a held job to the free-list head keeps the partition. */
  lemma PartitionRelease(n: nat, free: seq<nat>, q: seq<nat>, held: set<nat>, x: nat)
    requires Partition(n, free, q, held) && x in held
    ensures Partition(n, [x] + free, q, held - {x})
  {
  }

  /** The job `enqueue` stores for `dpath/name`. */
  function NewJob(prev: DirJob, dpath: string, name: string, cred: Owner, id: nat): DirJob {
    prev.(path := Some(JoinPath(dpath, name)), ucred := Some(cred), jobId := id)
  }

  /** `enqueue` AS WRITTEN: refuses (returns 0) a join longer than
      DJ_PATH_SZ - 2, any request during shutdown, a failed path
      allocation and an empty slab; otherwise fills a slot and returns 1,
      even when `ql_add` could not queue it. */
  function Enqueue(p: Pool, dpath: string, name: string, cred: Owner, id: nat,
                   shutdown: nat, a: Alloc): (r: (Pool, bool))
    requires Valid(p)
    ensures Valid(r.0) && |r.0.slab.jobs| == |p.slab.jobs|
    ensures !r.1 <==> ByteLen(dpath) + ByteLen(name) > MAX_JOIN || shutdown != 0 || a.pathFails || p.slab.head.None?
    ensures !r.1 ==> r.0 == p
    ensures r.1 ==> var slot := p.slab.head.value;
                    && r.0.slab.jobs[slot].path == Some(JoinPath(dpath, name))
                    && r.0.slab.jobs[slot].ucred == Some(cred)
                    && r.0.slab.jobs[slot].jobId == id
                    && Slots(r.0.queue) == Slots(p.queue) + (if a.nodeFails then [] else [slot])
  {
    if ByteLen(dpath) + ByteLen(name) > MAX_JOIN then (p, false)
    else if shutdown != 0 then (p, false)
    else if a.pathFails then (p, false)
    else
      var (slab1, got) := DjCalloc(p.slab);
      match got
      case None => (p, false)
      case Some(slot) =>
        var slab2 := slab1.(jobs := slab1.jobs[slot := NewJob(slab1.jobs[slot], dpath, name, cred, id)]);
        var (q, addStatus) := QlAdd(p.queue, slot, a.nodeFails);
        (Pool(slab2, q), true)
  }

  /** `enqueue` as evidently intended: when `ql_add` fails the slot goes
      back to the slab and the call reports a refusal, so the caller
      falls back to synchronous recursion. */
  function EnqueueFixed(p: Pool, dpath: string, name: string, cred: Owner, id: nat,
                        shutdown: nat, a: Alloc): (r: (Pool, bool))
    requires Valid(p)
    ensures Valid(r.0) && |r.0.slab.jobs| == |p.slab.jobs|
    ensures !r.1 <==> ByteLen(dpath) + ByteLen(name) > MAX_JOIN || shutdown != 0 || a.pathFails || a.nodeFails
                      || p.slab.head.None?
    ensures ByteLen(dpath) + ByteLen(name) > MAX_JOIN || shutdown != 0 || a.pathFails || p.slab.head.None? ==> r == (p, false)
    ensures Slots(r.0.queue) == Slots(p.queue) + (if r.1 then [p.slab.head.value] else [])
    ensures r.1 ==> var slot := p.slab.head.value;
                    && r.0.slab.jobs[slot].path == Some(JoinPath(dpath, name))
                    && r.0.slab.jobs[slot].ucred == Some(cred)
                    && r.0.slab.jobs[slot].jobId == id
  {
    var (p1, accepted) := Enqueue(p, dpath, name, cred, id, shutdown, a);
    if accepted && a.nodeFails then
      (Pool(DjFree(p1.slab, p.slab.head.value), p.queue), false)
    else
      (p1, accepted)
  }

  /** Which `enqueue` a walk or a worker calls: the one the program has,
      or the corrected one. */
  datatype Build = AsWritten | Corrected

  function Offer(b: Build, p: Pool, dpath: string, name: string, cred: Owner, id: nat,
                 shutdown: nat, a: Alloc): (r: (Pool, bool))
    requires Valid(p)
    ensures Valid(r.0) && |r.0.slab.jobs| == |p.slab.jobs|
  {
    match b
    case AsWritten => Enqueue(p, dpath, name, cred, id, shutdown, a)
    case Corrected => EnqueueFixed(p, dpath, name, cred, id, shutdown, a)
  }

  /** The two `enqueue`s differ only when `ql_add` fails to allocate its
      node: otherwise they return the same pool and the same answer. */
  lemma EnqueueAgrees(p: Pool, dpath: string, name: string, cred: Owner, id: nat,
                      shutdown: nat, a: Alloc)
    requires Valid(p) && !a.nodeFails
    ensures Enqueue(p, dpath, name, cred, id, shutdown, a) == EnqueueFixed(p, dpath, name, cred, id, shutdown, a)
  {
  }

  /** Whichever build, with no failing node allocation or with the
      corrected `enqueue`, an offer is the corrected `enqueue`. */
  lemma OfferIsFixed(b: Build, p: Pool, dpath: string, name: string, cred: Owner, id: nat,
                     shutdown: nat, a: Alloc)
    requires Valid(p) && (b == Corrected || !a.nodeFails)
    ensures Offer(b, p, dpath, name, cred, id, shutdown, a) == EnqueueFixed(p, dpath, name, cred, id, shutdown, a)
  {
    if b == AsWritten {
      EnqueueAgrees(p, dpath, name, cred, id, shutdown, a);
    }
  }

  /** Threading depends only on the head and on the links of the listed slots. */
  lemma ThreadsFrame(a: Slab, b: Slab, free: seq<nat>)
    requires Threads(a, free) && |b.jobs| == |a.jobs| && b.head == a.head
    requires forall x :: x in free ==> b.jobs[x].forward == a.jobs[x].forward && b.jobs[x].back == a.jobs[x].back
    ensures Threads(b, free)
  {
    forall i | 0 <= i < |free|
      ensures b.jobs[free[i]].back == Next(free, i) && b.jobs[free[i]].forward == Prev(free, i)
    {
      assert free[i] in free;
    }
  }

  /** The slab after an accepted `enqueue`: the head slot is taken off the
      list and filled, every other record keeps its payload, and records
      off the free list are untouched. */
  lemma AcceptedSlab(p: Pool, free: seq<nat>, held: set<nat>, dpath: string, name: string,
                     cred: Owner, id: nat, shutdown: nat, a: Alloc)
    requires PoolInv(p, free, held)
    requires Enqueue(p, dpath, name, cred, id, shutdown, a).1
    ensures free != [] && p.slab.head == Some(free[0])
    ensures var s := Enqueue(p, dpath, name, cred, id, shutdown, a).0.slab;
            && WellFormed(s)
            && Threads(s, free[1..])
            && s.jobs[free[0]].forward == None && s.jobs[free[0]].back == None
            && (forall x :: 0 <= x < |p.slab.jobs| && x !in free ==> s.jobs[x] == p.slab.jobs[x])
            && (forall x :: 0 <= x < |p.slab.jobs| && x != free[0] ==>
                  s.jobs[x].path == p.slab.jobs[x].path && s.jobs[x].ucred == p.slab.jobs[x].ucred
                  && s.jobs[x].jobId == p.slab.jobs[x].jobId)
  {
    CallocPops(p.slab, free);
    CallocFrame(p.slab, free);
    var slot := free[0];
    var slab1 := DjCalloc(p.slab).0;
    var s := Enqueue(p, dpath, name, cred, id, shutdown, a).0.slab;
    assert forall x :: 0 <= x < |s.jobs| && x != slot ==> s.jobs[x] == slab1.jobs[x];
    assert slot !in free[1..];
    ThreadsFrame(slab1, s, free[1..]);
  }

  /** Slot conservation after an accepted `enqueue` whose queue node was
      allocated: the free-list head moved to the queue tail. */
  lemma AcceptedInv(p: Pool, free: seq<nat>, held: set<nat>, dpath: string, name: string,
                    cred: Owner, id: nat, shutdown: nat, a: Alloc)
    requires PoolInv(p, free, held) && !a.nodeFails
    requires Enqueue(p, dpath, name, cred, id, shutdown, a).1
    ensures free != [] && PoolInv(Enqueue(p, dpath, name, cred, id, shutdown, a).0, free[1..], held)
  {
    AcceptedSlab(p, free, held, dpath, name, cred, id, shutdown, a);
    var r := Enqueue(p, dpath, name, cred, id, shutdown, a).0;
    var slot := free[0];
    var q := Slots(p.queue);
    assert Slots(r.queue) == q + [slot];
    PartitionEnqueue(|p.slab.jobs|, free, q, held);
    forall x | x in Slots(r.queue)
      ensures x < |r.slab.jobs| && r.slab.jobs[x].forward == None && r.slab.jobs[x].back == None
              && r.slab.jobs[x].path.Some?
    {
      if x != slot {
        assert x in q;
      }
    }
  }

  /** With `ql_add` succeeding, an accepted `enqueue` moves the head of the
      free list to the tail of the queue and keeps slot conservation;
      every record off the free list is untouched. A refused one changes
      nothing. */
  lemma EnqueuePreserves(p: Pool, free: seq<nat>, held: set<nat>, dpath: string, name: string,
                         cred: Owner, id: nat, shutdown: nat, a: Alloc)
    requires PoolInv(p, free, held) && !a.nodeFails
    ensures var r := Enqueue(p, dpath, name, cred, id, shutdown, a);
            && PoolInv(r.0, if r.1 then free[1..] else free, held)
            && (r.1 ==> free != [] && Slots(r.0.queue) == Slots(p.queue) + [free[0]])
            && (forall x :: 0 <= x < |p.slab.jobs| && x !in free ==> r.0.slab.jobs[x] == p.slab.jobs[x])
  {
    if Enqueue(p, dpath, name, cred, id, shutdown, a).1 {
      AcceptedSlab(p, free, held, dpath, name, cred, id, shutdown, a);
      AcceptedInv(p, free, held, dpath, name, cred, id, shutdown, a);
    }
  }

  /** The leak behind the corrected `enqueue`: when `ql_add` fails,
      `enqueue` as written still reports success, and the slot it took is
      then on neither the free list nor the queue nor held, so no free
      list whatever makes the pool conserve its slots again. */
  lemma EnqueueLeaksSlot(p: Pool, free: seq<nat>, held: set<nat>, dpath: string, name: string,
                         cred: Owner, id: nat)
    requires PoolInv(p, free, held) && free != [] && ByteLen(dpath) + ByteLen(name) <= MAX_JOIN
    ensures var r := Enqueue(p, dpath, name, cred, id, 0, Alloc(false, true));
            && r.1
            && free[0] !in free[1..] && free[0] !in Slots(r.0.queue) && free[0] !in held
            && !PoolInv(r.0, free[1..], held)
            && forall f :: !PoolInv(r.0, f, held)
  {
    var r := Enqueue(p, dpath, name, cred, id, 0, Alloc(false, true));
    var slot := free[0];
    assert slot in free;
    assert Slots(r.0.queue) == Slots(p.queue);
    assert free == [slot] + free[1..];
    assert slot !in free[1..] && slot !in Slots(r.0.queue) && slot !in held;
    assert 0 < slot < |r.0.slab.jobs|;
    AcceptedSlab(p, free, held, dpath, name, cred, id, 0, Alloc(false, true));
    forall f ensures !PoolInv(r.0, f, held) {
      LeakedNotFree(p, free, held, dpath, name, cred, id, f);
    }
  }

  /** The leaked slot is on no free list the links could thread: it is
      not the head, and its null `forward` link puts it nowhere behind it. */
  lemma LeakedNotFree(p: Pool, free: seq<nat>, held: set<nat>, dpath: string, name: string,
                      cred: Owner, id: nat, f: seq<nat>)
    requires PoolInv(p, free, held) && free != [] && ByteLen(dpath) + ByteLen(name) <= MAX_JOIN
    ensures var r := Enqueue(p, dpath, name, cred, id, 0, Alloc(false, true));
            !PoolInv(r.0, f, held)
  {
    var r := Enqueue(p, dpath, name, cred, id, 0, Alloc(false, true));
    AcceptedSlab(p, free, held, dpath, name, cred, id, 0, Alloc(false, true));
    assert free[0] in free;
  }

  /** The corrected `enqueue` keeps slot conservation whatever the
      allocations do: an accepted job moves from the free list head to
      the queue tail, a refused one leaves the free list as it was; the
      payload of every other record, queued jobs included, is kept. */
  lemma EnqueueFixedPreserves(p: Pool, free: seq<nat>, held: set<nat>, dpath: string, name: string,
                              cred: Owner, id: nat, shutdown: nat, a: Alloc)
    requires PoolInv(p, free, held)
    ensures var r := EnqueueFixed(p, dpath, name, cred, id, shutdown, a);
            && PoolInv(r.0, if r.1 then free[1..] else free, held)
            && (r.1 ==> free != [] && Slots(r.0.queue) == Slots(p.queue) + [free[0]])
            && (forall x :: 0 <= x < |p.slab.jobs| && x !in free ==> r.0.slab.jobs[x] == p.slab.jobs[x])
  {
    var e := Enqueue(p, dpath, name, cred, id, shutdown, a);
    if !e.1 {
    } else if !a.nodeFails {
      EnqueuePreserves(p, free, held, dpath, name, cred, id, shutdown, a);
    } else {
      RefusedAfterNodeFailure(p, free, held, dpath, name, cred, id, shutdown, a);
    }
  }

  lemma RefusedAfterNodeFailure(p: Pool, free: seq<nat>, held: set<nat>, dpath: string, name: string,
                                cred: Owner, id: nat, shutdown: nat, a: Alloc)
    requires PoolInv(p, free, held) && a.nodeFails
    requires Enqueue(p, dpath, name, cred, id, shutdown, a).1
    ensures var r := EnqueueFixed(p, dpath, name, cred, id, shutdown, a);
            && !r.1 && PoolInv(r.0, free, held)
            && (forall x :: 0 <= x < |p.slab.jobs| && x !in free ==> r.0.slab.jobs[x] == p.slab.jobs[x])
  {
    RefusedSlab(p, free, held, dpath, name, cred, id, shutdown, a);
    var r := EnqueueFixed(p, dpath, name, cred, id, shutdown, a).0;
    forall x | x in Slots(r.queue)
      ensures x < |r.slab.jobs| && r.slab.jobs[x].forward == None && r.slab.jobs[x].back == None
              && r.slab.jobs[x].path.Some?
    {
      assert x !in free;
    }
    forall x | x in held
      ensures x < |r.slab.jobs| && r.slab.jobs[x].forward == None && r.slab.jobs[x].back == None
    {
      assert x !in free;
    }
  }

  /** The slab after the corrected `enqueue` gave back the slot whose
      queue node could not be allocated: the original free list is
      threaded again and no record off it has changed. */
  lemma RefusedSlab(p: Pool, free: seq<nat>, held: set<nat>, dpath: string, name: string,
                    cred: Owner, id: nat, shutdown: nat, a: Alloc)
    requires PoolInv(p, free, held) && a.nodeFails
    requires Enqueue(p, dpath, name, cred, id, shutdown, a).1
    ensures var r := EnqueueFixed(p, dpath, name, cred, id, shutdown, a);
            && !r.1 && r.0.queue == p.queue && Valid(r.0) && |r.0.slab.jobs| == |p.slab.jobs|
            && Threads(r.0.slab, free)
            && (forall x :: 0 <= x < |p.slab.jobs| && x !in free ==> r.0.slab.jobs[x] == p.slab.jobs[x])
  {
    AcceptedSlab(p, free, held, dpath, name, cred, id, shutdown, a);
    var e := Enqueue(p, dpath, name, cred, id, shutdown, a).0;
    var slot := free[0];
    assert slot !in free[1..];
    FreePushes(e.slab, free[1..], slot);
    FreeFrame(e.slab, free[1..], slot);
    assert [slot] + free[1..] == free;
    var r := EnqueueFixed(p, dpath, name, cred, id, shutdown, a).0;
    forall x | 0 <= x < |p.slab.jobs| && x !in free
      ensures r.slab.jobs[x] == p.slab.jobs[x]
    {
      assert x != slot && x !in free[1..];
    }
  }
}
