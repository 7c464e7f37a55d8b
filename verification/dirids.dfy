/** Hierarchy ids: `mk_dirid`, which hands out the job id that tags every
    job of one top-level walk, and the round counter of
    `thread_pool_wait`, which waits until no thread shows that id. */
module DirIds {

  /** 2^64: `dindex` is a `uint64_t`. */
  const U64_LIMIT: nat := 0x1_0000_0000_0000_0000

  /** `mk_dirid`: returns the static counter and post-increments it, with
      the wrap-around of unsigned 64-bit arithmetic. */
  function MkDirid(dindex: nat): (r: (nat, nat))
    requires dindex < U64_LIMIT
    ensures r.0 == dindex && r.1 < U64_LIMIT
    ensures dindex + 1 < U64_LIMIT ==> r.1 == dindex + 1
    ensures dindex + 1 == U64_LIMIT ==> r.1 == 0
  {
    (dindex, (dindex + 1) % U64_LIMIT)
  }

  /** The counter after k calls, from its initial value 1. */
  function DiridAfter(k: nat): (r: nat)
    ensures r < U64_LIMIT
  {
    if k == 0 then 1 else MkDirid(DiridAfter(k - 1)).1
  }

  /** The ids returned by the first k calls, in order. */
  function Ids(k: nat): (r: seq<nat>)
    ensures |r| == k
  {
    if k == 0 then [] else Ids(k - 1) + [MkDirid(DiridAfter(k - 1)).0]
  }

  lemma {:induction false} DiridAfterValue(k: nat)
    requires k + 1 < U64_LIMIT
    ensures DiridAfter(k) == k + 1
  {
    if k > 0 {
      DiridAfterValue(k - 1);
    }
  }

  /** Call i returns i + 1: before the counter wraps, every id is nonzero
      (so never the job_id 0 an idle thread shows) and no two calls share
      an id. */
  lemma {:induction false} IdsCount(k: nat)
    requires k < U64_LIMIT
    ensures forall i :: 0 <= i < k ==> Ids(k)[i] == i + 1
    ensures forall i :: 0 <= i < k ==> Ids(k)[i] != 0
    ensures forall i, j :: 0 <= i < j < k ==> Ids(k)[i] != Ids(k)[j]
  {
    if k > 0 {
      IdsCount(k - 1);
      DiridAfterValue(k - 1);
      assert forall i :: 0 <= i < k - 1 ==> Ids(k)[i] == Ids(k - 1)[i];
    }
  }

  /** The call after 2^64 - 1 others returns 0, the idle value. */
  lemma IdWrapsToIdle()
    ensures MkDirid(DiridAfter(U64_LIMIT - 1)).0 == 0
  {
    DiridAfterValue(U64_LIMIT - 2);
  }

  // ---------------------------------------------------------------------
  // thread_pool_wait
  // ---------------------------------------------------------------------

  /** What one round of `thread_pool_wait` observes: whether
      `shutdown_time` is set at the check after the broadcast, whether
      `usleep` fails with an errno other than EINTR (interrupted sleeps are
      retried and leave no trace), and whether some thread in 1..nthreads
      shows the awaited job id after the sleep. */
  datatype Round = Round(shutdown: bool, sleepFails: bool, found: bool)

  /** Rounds in which no thread showed the id. */
  function Misses(rs: seq<Round>): (r: nat)
    ensures r <= |rs|
  {
    if rs == [] then 0 else Misses(rs[..|rs| - 1]) + (if rs[|rs| - 1].found then 0 else 1)
  }

  /** No round saw the shutdown flag or a failed sleep. */
  predicate Calm(rs: seq<Round>) {
    forall i :: 0 <= i < |rs| ==> !rs[i].shutdown && !rs[i].sleepFails
  }

  /** How `thread_pool_wait` ends: returning 0 after the rounds, returning
      0 after `join_pool`, returning -1 on a failed sleep, or not yet. */
  datatype WaitEnd = Drained | JoinedAtShutdown | SleepFailed | StillWaiting

  /** The value `thread_pool_wait` returns for an outcome. */
  function ReturnCode(e: WaitEnd): (r: int)
    requires !e.StillWaiting?
    ensures r == -1 <==> e.SleepFailed?
    ensures r == 0 || r == -1
  {
    if e.SleepFailed? then -1 else 0
  }

  /** The round loop of `thread_pool_wait`, run against the observations
      `rounds`. A shutdown at entry or at a round's check joins the pool and
      returns; a failed sleep returns at once; a round that finds the id leaves `iter` unchanged, one that
      does not adds 1, and the loop ends once `iter` reaches 2.
      `StillWaiting` means the observations ran out first. Returns the
      number of rounds taken. */
  method ThreadPoolWait(shutdownAtEntry: bool, rounds: seq<Round>) returns (outcome: WaitEnd, used: nat)
    ensures used <= |rounds|
    ensures shutdownAtEntry ==> outcome == JoinedAtShutdown && used == 0
    ensures outcome == Drained ==>
              && 0 < used && Calm(rounds[..used]) && !rounds[used - 1].found
              && Misses(rounds[..used]) == 2 && Misses(rounds[..used - 1]) == 1
    ensures outcome == JoinedAtShutdown && !shutdownAtEntry ==>
              && 0 < used && rounds[used - 1].shutdown && Calm(rounds[..used - 1])
              && Misses(rounds[..used - 1]) < 2
    ensures outcome == SleepFailed ==>
              && 0 < used && !rounds[used - 1].shutdown && rounds[used - 1].sleepFails
              && Calm(rounds[..used - 1]) && Misses(rounds[..used - 1]) < 2
    ensures outcome == StillWaiting ==> used == |rounds| && Calm(rounds) && Misses(rounds) < 2
  {
    if shutdownAtEntry {
      return JoinedAtShutdown, 0;
    }
    var iter: int := 0;
    used := 0;
    while iter < 2
      invariant used <= |rounds| && Calm(rounds[..used])
      invariant iter == Misses(rounds[..used]) && iter <= 2
      invariant iter == 2 ==> 0 < used && !rounds[used - 1].found && Misses(rounds[..used - 1]) == 1
      decreases |rounds| - used, 2 - iter
    {
      if used == |rounds| {
        assert rounds[..used] == rounds;
        return StillWaiting, used;
      }
      var r := rounds[used];
      if r.shutdown {
        used := used + 1;
        assert rounds[..used - 1] == rounds[..used][..used - 1];
        return JoinedAtShutdown, used;
      }
      if r.sleepFails {
        used := used + 1;
        assert rounds[..used - 1] == rounds[..used][..used - 1];
        return SleepFailed, used;
      }
      if r.found {
        iter := iter - 1;
      }
      iter := iter + 1;
      used := used + 1;
      assert rounds[..used][..used - 1] == rounds[..used - 1];
      assert rounds[..used][used - 1] == r;
    }
    return Drained, used;
  }
}
