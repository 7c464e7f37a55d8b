/** The job slab: a fixed array of nthreads+1 `dir_job` records. Slot 0 is
    the root job; the other slots are threaded on an intrusive free list
    through their `forward`/`back` fields, with `back` pointing away from
    the head. The model keeps the links exactly as the C code writes them,
    and relates them to an abstract sequence of free slot indices (head
    first) through the predicate `Threads`. */
module Slab {
  import opened Base

  /** `struct dir_job`: pointers become optional slot indices; the
      credential pointer is kept as the pair it designates. */
  datatype DirJob = DirJob(
    path: Option<string>,
    ucred: Option<Owner>,
    jobId: nat,
    forward: Option<nat>,
    back: Option<nat>)

  /** A record as `calloc` hands it out: every field zero. */
  const ZeroJob := DirJob(None, None, 0, None, None)

  /** `TZERO_DJ`: clears the payload of a job but not its links. */
  function TzeroDj(d: DirJob): (r: DirJob)
    ensures r.path == None && r.ucred == None && r.jobId == 0
    ensures r.forward == d.forward && r.back == d.back
  {
    d.(path := None, ucred := None, jobId := 0)
  }

  /** The `dir_jobs` array together with the `dj_freelist` head pointer. */
  datatype Slab = Slab(jobs: seq<DirJob>, head: Option<nat>)

  predicate InBounds(s: Slab, l: Option<nat>) {
    l.None? || l.value < |s.jobs|
  }

  /** Every pointer held by the slab designates a slot of the array. */
  predicate WellFormed(s: Slab) {
    && InBounds(s, s.head)
    && forall i :: 0 <= i < |s.jobs| ==> InBounds(s, s.jobs[i].forward) && InBounds(s, s.jobs[i].back)
  }

  /** The links of `s` thread exactly the slots of `free`, head first:
      `back` leads from each free slot to the next one, `forward` to the
      previous one, both ends are null, and slot 0 is never on the list. */
  ghost predicate Threads(s: Slab, free: seq<nat>) {
    && Distinct(free)
    && (forall i :: 0 <= i < |free| ==> 0 < free[i] < |s.jobs|)
    && s.head == (if free == [] then None else Some(free[0]))
    && (forall i :: 0 <= i < |free| ==> s.jobs[free[i]].back == Next(free, i))
    && (forall i :: 0 <= i < |free| ==> s.jobs[free[i]].forward == Prev(free, i))
  }

  /** The slot after position i of a list, or null at its end. */
  function Next(l: seq<nat>, i: int): Option<nat>
    requires 0 <= i < |l|
  {
    if i + 1 < |l| then Some(l[i + 1]) else None
  }

  /** The slot before position i of a list, or null at its head. */
  function Prev(l: seq<nat>, i: int): Option<nat>
    requires 0 <= i < |l|
  {
    if i == 0 then None else Some(l[i - 1])
  }

  /** Shape of slot i of the array once the init loop has linked slots 1..x-1. */
  function LinkedJob(i: int, x: int): DirJob {
    DirJob(None, None, 0,
           if 2 <= i < x then Some(i - 1) else None,
           if 1 <= i && i + 1 < x then Some(i + 1) else None)
  }

  /** `dj_freelist_init` AS WRITTEN, applied to the calloc'd array of
      nthreads+1 records: the head always points at slot 1, and slots
      2..nthreads are linked behind it. With nthreads = 0 the array has
      one record and the head is out of bounds. */
  method DjFreelistInit(nthreads: nat) returns (s: Slab)
    ensures |s.jobs| == nthreads + 1
    ensures s.head == Some(1)
    ensures WellFormed(s) <==> nthreads >= 1
    ensures nthreads >= 1 ==> Threads(s, Range(1, nthreads + 1))
    ensures s == DjFreelistInitFixed(nthreads).(head := Some(1))
    ensures nthreads >= 1 ==> s == DjFreelistInitFixed(nthreads)
  {
    var jobs := seq(nthreads + 1, _ => ZeroJob);
    var x := 2;
    while x <= nthreads
      invariant 2 <= x <= if nthreads < 2 then 2 else nthreads + 1
      invariant |jobs| == nthreads + 1
      invariant forall i :: 0 <= i < |jobs| ==> jobs[i] == LinkedJob(i, x)
    {
      jobs := jobs[x := jobs[x].(forward := Some(x - 1))];
      jobs := jobs[x - 1 := jobs[x - 1].(back := Some(x))];
      x := x + 1;
    }
    s := Slab(jobs, Some(1));
    assert jobs == DjFreelistInitFixed(nthreads).jobs;
    if nthreads >= 1 {
      ThreadsOfLinked(s, nthreads);
    }
  }

  /** `dj_freelist_init` as evidently intended: an empty list when there
      are no worker slots, else slots 1..nthreads head first. */
  function DjFreelistInitFixed(nthreads: nat): (s: Slab)
    ensures |s.jobs| == nthreads + 1 && WellFormed(s)
    ensures Threads(s, Range(1, nthreads + 1))
    ensures forall i :: 0 <= i < |s.jobs| ==> s.jobs[i].path == None && s.jobs[i].jobId == 0
  {
    var s := Slab(seq(nthreads + 1, i => LinkedJob(i, nthreads + 1)),
                  if nthreads == 0 then None else Some(1));
    if nthreads >= 1 then
      ThreadsOfLinked(s, nthreads);
      s
    else
      s
  }

  lemma ThreadsOfLinked(s: Slab, n: nat)
    requires n >= 1 && s.head == Some(1) && |s.jobs| == n + 1
    requires forall i :: 0 <= i < |s.jobs| ==> s.jobs[i] == LinkedJob(i, n + 1)
    ensures Threads(s, Range(1, n + 1))
  {
  }

  /** `dj_calloc`: pops the head of the free list (or returns null when it
      is empty), nulls the new head's `forward` and both links of the
      popped record. */
  function DjCalloc(s: Slab): (r: (Slab, Option<nat>))
    requires WellFormed(s)
    ensures WellFormed(r.0) && |r.0.jobs| == |s.jobs|
    ensures r.1.None? <==> s.head.None?
    ensures r.1.None? ==> r.0 == s
    ensures r.1.Some? ==> r.1.value < |s.jobs|
    ensures r.1.Some? ==> r.0.jobs[r.1.value].forward == None && r.0.jobs[r.1.value].back == None
  {
    match s.head
    case None => (s, None)
    case Some(h) =>
      var nh := s.jobs[h].back;
      var jobs1 := if nh.Some? then s.jobs[nh.value := s.jobs[nh.value].(forward := None)] else s.jobs;
      var jobs2 := jobs1[h := jobs1[h].(forward := None, back := None)];
      (Slab(jobs2, nh), Some(h))
  }

  /** `dj_free`: clears the job with TZERO_DJ and pushes it as the new
      head; its `forward` field and, on an empty list, its `back` field
      are left as they were. */
  function DjFree(s: Slab, rel: nat): (r: Slab)
    requires WellFormed(s) && rel < |s.jobs|
    ensures WellFormed(r) && |r.jobs| == |s.jobs|
    ensures r.head == Some(rel)
    ensures r.jobs[rel].path == None && r.jobs[rel].ucred == None && r.jobs[rel].jobId == 0
  {
    var jobs1 := s.jobs[rel := TzeroDj(s.jobs[rel])];
    match s.head
    case None => Slab(jobs1, Some(rel))
    case Some(h) =>
      var jobs2 := jobs1[h := jobs1[h].(forward := Some(rel))];
      var jobs3 := jobs2[rel := jobs2[rel].(back := Some(h))];
      Slab(jobs3, Some(rel))
  }

  /** `dj_calloc` returns null iff the free list is empty, and otherwise
      the head slot, leaving the rest of the list threaded. */
  lemma CallocPops(s: Slab, free: seq<nat>)
    requires WellFormed(s) && Threads(s, free)
    ensures free == [] ==> DjCalloc(s).1 == None && DjCalloc(s).0 == s
    ensures free != [] ==> DjCalloc(s).1 == Some(free[0]) && Threads(DjCalloc(s).0, free[1..])
  {
    if free != [] {
      var r := DjCalloc(s).0;
      var rest := free[1..];
      forall i | 0 <= i < |rest|
        ensures r.jobs[rest[i]].back == Next(rest, i)
        ensures r.jobs[rest[i]].forward == Prev(rest, i)
      {
        assert rest[i] == free[i + 1];
        assert free[i + 1] != free[0];
        assert s.jobs[free[i + 1]].back == Next(free, i + 1);
        assert s.jobs[free[i + 1]].forward == Prev(free, i + 1);
      }
    }
  }

  /** `dj_calloc` changes only links, and only those of records on the
      free list. */
  lemma CallocFrame(s: Slab, free: seq<nat>)
    requires WellFormed(s) && Threads(s, free)
    ensures forall i :: 0 <= i < |s.jobs| && i !in free ==> DjCalloc(s).0.jobs[i] == s.jobs[i]
    ensures forall i :: 0 <= i < |s.jobs| ==>
              DjCalloc(s).0.jobs[i] == s.jobs[i].(forward := DjCalloc(s).0.jobs[i].forward,
                                                   back := DjCalloc(s).0.jobs[i].back)
  {
  }

  /** Effect of `dj_free` on one record of the array. */
  lemma DjFreeJob(s: Slab, rel: nat, x: nat)
    requires WellFormed(s) && rel < |s.jobs| && x < |s.jobs| && s.head != Some(rel)
    ensures DjFree(s, rel).jobs[x] ==
              if x == rel then TzeroDj(s.jobs[rel]).(back := if s.head.Some? then s.head else s.jobs[rel].back)
              else if s.head == Some(x) then s.jobs[x].(forward := Some(rel))
              else s.jobs[x]
  {
  }

  /** `dj_free` of a record whose links are null and which is not on the
      free list pushes it as the new head. */
  lemma FreePushes(s: Slab, free: seq<nat>, rel: nat)
    requires WellFormed(s) && Threads(s, free)
    requires 0 < rel < |s.jobs| && rel !in free
    requires s.jobs[rel].forward == None && s.jobs[rel].back == None
    ensures Threads(DjFree(s, rel), [rel] + free)
  {
    var r := DjFree(s, rel);
    var nf := [rel] + free;
    forall x | 0 <= x < |s.jobs|
      ensures r.jobs[x] ==
              if x == rel then TzeroDj(s.jobs[rel]).(back := if s.head.Some? then s.head else s.jobs[rel].back)
              else if s.head == Some(x) then s.jobs[x].(forward := Some(rel))
              else s.jobs[x]
    {
      DjFreeJob(s, rel, x);
    }
    forall i | 0 <= i < |nf|
      ensures r.jobs[nf[i]].back == Next(nf, i)
      ensures r.jobs[nf[i]].forward == Prev(nf, i)
    {
      if i > 0 {
        assert nf[i] == free[i - 1];
        assert s.jobs[free[i - 1]].back == Next(free, i - 1);
        assert s.jobs[free[i - 1]].forward == Prev(free, i - 1);
      }
    }
  }

  /** `dj_free` changes no record off the free list other than the one
      freed, and of the others only the `forward` link. */
  lemma FreeFrame(s: Slab, free: seq<nat>, rel: nat)
    requires WellFormed(s) && Threads(s, free)
    requires 0 < rel < |s.jobs| && rel !in free
    ensures forall i :: 0 <= i < |s.jobs| && i !in free && i != rel ==> DjFree(s, rel).jobs[i] == s.jobs[i]
    ensures forall i :: 0 <= i < |s.jobs| && i != rel ==>
              DjFree(s, rel).jobs[i] == s.jobs[i].(forward := DjFree(s, rel).jobs[i].forward)
  {
    forall x | 0 <= x < |s.jobs|
      ensures DjFree(s, rel).jobs[x] ==
              if x == rel then TzeroDj(s.jobs[rel]).(back := if s.head.Some? then s.head else s.jobs[rel].back)
              else if s.head == Some(x) then s.jobs[x].(forward := Some(rel))
              else s.jobs[x]
    {
      DjFreeJob(s, rel, x);
    }
  }

  /** Why `dj_free` needs the links nulled by `dj_calloc`: a record freed
      onto an empty list with a stale `back` link drags the stale slot onto
      the free list, so two allocations hand out slot 2, which was never
      freed. */
  lemma StaleBackLeaksSlot()
    ensures var s := Slab([ZeroJob, ZeroJob.(back := Some(2)), ZeroJob], None);
            var a := DjCalloc(DjFree(s, 1));
            a.1 == Some(1) && DjCalloc(a.0).1 == Some(2)
  {
  }
}
