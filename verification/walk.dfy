/** `mdpf`, the per-directory walk, over a finite directory tree whose
    system-call outcomes are part of the tree: whether `opendir` succeeds,
    what `fstat`/`fstatat` report, whether `fchown` succeeds, and whether
    `readdir_r` ends in an error. Child directories are offered to the
    real slab and queue through `enqueue`, as written or as corrected,
    whichever the environment names; no worker drains the queue during the
    walk, so every job the walk queues stays queued. */
module Walk {
  import opened Base
  import opened Slab
  import opened WorkQueue
  import opened Jobs

  /** `d_type` of an entry that is not a directory. */
  datatype Kind = Reg | Lnk | OtherKind

  /** Outcome of `fchown`/`fchownat`. */
  datatype Chown = ChownOk | ChownFails(errno: Errno)

  /** Outcome of `fstat`/`fstatat`, and of the ownership change it leads to. */
  datatype Probe = StatFails(errno: Errno) | Stat(owner: Owner, chown: Chown)

  /** A directory entry: a non-directory with its kind, or a directory
      with its own outcomes and the entries `readdir_r` returns, in order,
      before the end of the directory or an error. */
  datatype Node =
    | Leaf(name: string, kind: Kind, probe: Probe)
    | Dir(name: string, opens: bool, probe: Probe, entries: seq<Node>, readFails: Option<Errno>)

  /** The job `mdpf` works on: path, credential and hierarchy id. */
  datatype Job = Job(path: string, cred: Owner, id: nat)

  /** The job `mdpf` builds for the child directory `name` of `job`
      (`enqueue` and `MK_DIRJOB` alike): the joined path, with the
      parent's credential and hierarchy id. */
  function ChildJob(job: Job, name: string): (r: Job)
    ensures r.cred == job.cred && r.id == job.id
  {
    Job(JoinPath(job.path, name), job.cred, job.id)
  }

  /** Shared state a walk changes: `shutdown_time`, the slab and queue,
      the global counters, and the jobs `mdpf` was called on. */
  datatype World = World(shutdown: nat, pool: Pool, files: nat, dirs: nat, visited: seq<Job>)

  /** The walk's surroundings: which `enqueue` it calls, and which
      allocations inside `enqueue` fail, by the path of the job. */
  datatype Env = Env(build: Build, pathFails: set<string>, nodeFails: set<string>)

  function AllocFor(env: Env, path: string): Alloc {
    Alloc(path in env.pathFails, path in env.nodeFails)
  }

  /** Return codes of `chown_reg`. */
  const STAT_FAILED: int := -1
  const CHOWN_FAILED: int := -2
  const ALREADY_OWNED: int := -3

  /** `chown_reg`: stats the entry without following links; changes the
      owner only when user or group differs from the credential. */
  function ChownReg(p: Probe, cred: Owner): (r: int)
    ensures r == STAT_FAILED <==> p.StatFails?
    ensures r == ALREADY_OWNED <==> p.Stat? && p.owner == cred
    ensures r == CHOWN_FAILED <==> p.Stat? && p.owner != cred && p.chown.ChownFails?
    ensures r == 0 <==> p.Stat? && p.owner != cred && p.chown.ChownOk?
  {
    match p
    case StatFails(_) => STAT_FAILED
    case Stat(owner, ch) =>
      if owner == cred then ALREADY_OWNED
      else if ch.ChownFails? then CHOWN_FAILED
      else 0
  }

  /** `rval` after `chown_reg`: errno of the failed call, else 0. */
  function EntryRval(p: Probe, cred: Owner): (r: int)
    ensures r != 0 <==> ChownReg(p, cred) == STAT_FAILED || ChownReg(p, cred) == CHOWN_FAILED
    ensures r >= 0
  {
    match p
    case StatFails(e) => e
    case Stat(owner, ch) => if owner != cred && ch.ChownFails? then ch.errno else 0
  }

  /** Growth is transitive, and the visit log keeps its old entries. */
  lemma GrowsTrans(a: World, b: World, c: World)
    requires Grows(a, b) && Grows(b, c)
    ensures Grows(a, c)
    ensures forall k :: 0 <= k < |a.visited| ==> c.visited[k] == a.visited[k]
  {
    assert c.visited[..|a.visited|] == c.visited[..|b.visited|][..|a.visited|];
  }

  /** The entries the scan counts: directories, regular files and links,
      except the exact names "." and "..". */
  predicate Counted(e: Node) {
    && e.name != "." && e.name != ".."
    && !(e.Leaf? && e.kind == OtherKind)
  }

  /** Loop state of the scan in `mdpf`. `clean` records a loop that ended
      at the end of the directory. */
  datatype Scan = Scan(nd: nat, deferred: Option<nat>, rval: int, clean: bool,
                       regs: nat, lnks: nat, queued: nat, w: World)

  /** Well-formedness of the remembered first directory. */
  predicate DeferredOk(d: Node, sc: Scan)
    requires d.Dir?
  {
    sc.deferred.Some? ==>
      sc.deferred.value < |d.entries| && d.entries[sc.deferred.value].Dir? && Counted(d.entries[sc.deferred.value])
  }

  /** What every step of a walk keeps: pointers stay in the array, the
      array keeps its size, flags, counters and the visit log only grow. */
  predicate Grows(w: World, w': World) {
    && Valid(w'.pool)
    && |w'.pool.slab.jobs| == |w.pool.slab.jobs|
    && w'.shutdown >= w.shutdown
    && w'.files >= w.files && w'.dirs >= w.dirs
    && |w'.visited| >= |w.visited| && w'.visited[..|w.visited|] == w.visited
  }

  /** `mdpf`. An `opendir` failure sets `shutdown_time` and returns -1; a
      failed `fstat` or `fchown` of the directory itself returns -1 before
      any entry is read, without touching the counters. Otherwise the
      entries are scanned, the remembered first directory is handled, and
      the counters grow by the ownership changes actually made. */
  function Mdpf(job: Job, d: Node, env: Env, w: World): (r: (int, World))
    requires d.Dir? && Valid(w.pool)
    ensures Grows(w, r.1)
    ensures |r.1.visited| > |w.visited| && r.1.visited[|w.visited|] == job
    ensures !d.opens ==> r.0 == -1 && r.1.shutdown == w.shutdown + 1 && r.1.pool == w.pool
    ensures d.opens && (d.probe.StatFails? || (d.probe.owner != job.cred && d.probe.chown.ChownFails?)) ==>
              r == (-1, w.(visited := w.visited + [job]))
    decreases d, 1
  {
    var w0 := w.(visited := w.visited + [job]);
    if !d.opens then
      (-1, w0.(shutdown := w0.shutdown + 1))
    else match d.probe
      case StatFails(_) => (-1, w0)
      case Stat(owner, ch) =>
        if owner != job.cred && ch.ChownFails? then (-1, w0)
        else
          var dirProcd := if owner != job.cred then 1 else 0;
          var sc := ScanLoop(job, d, 0, Scan(0, None, 0, false, 0, 0, 0, w0), env);
          var (rval, w1) := AfterScan(job, d, sc, env);
          GrowsTrans(w0, sc.w, w1);
          assert w0.visited[|w.visited|] == job;
          (rval, w1.(files := w1.files + sc.regs + sc.lnks, dirs := w1.dirs + dirProcd))
  }

  /** The `readdir_r` loop of `mdpf` from entry i on. The loop stops on
      shutdown, on a nonzero `rval`, on a read error and at the end of the
      directory; otherwise it handles entry i and moves on. */
  function ScanLoop(job: Job, d: Node, i: nat, sc: Scan, env: Env): (r: Scan)
    requires d.Dir? && i <= |d.entries| && Valid(sc.w.pool) && DeferredOk(d, sc) && !sc.clean
    ensures Grows(sc.w, r.w) && DeferredOk(d, r)
    ensures r.clean ==> r.rval == 0 && r.w.shutdown == 0 && d.readFails.None?
    ensures r.regs >= sc.regs && r.lnks >= sc.lnks
    decreases d, 0, |d.entries| - i, 1
  {
    if sc.w.shutdown != 0 || sc.rval != 0 then sc
    else if i == |d.entries| then
      match d.readFails
      case Some(e) => sc.(rval := e)
      case None => sc.(clean := true)
    else
      var sc' := ScanEntry(job, d, i, sc, env);
      GrowsTrans(sc.w, sc'.w, ScanLoop(job, d, i + 1, sc', env).w);
      ScanLoop(job, d, i + 1, sc', env)
  }

  /** One pass of the loop body on entry i. Entries other than counted
      ones are skipped. A directory that is the first counted entry is
      remembered; every other directory is offered to `enqueue`, and on
      refusal the loop breaks if shutting down and otherwise recurses into
      it. The `break` leaves `shutdown_time` set, so the loop's own check
      ends the scan right after this pass with the state unchanged. */
  function ScanEntry(job: Job, d: Node, i: nat, sc: Scan, env: Env): (r: Scan)
    requires d.Dir? && i < |d.entries| && Valid(sc.w.pool) && DeferredOk(d, sc) && !sc.clean
    requires sc.w.shutdown == 0 && sc.rval == 0
    ensures Grows(sc.w, r.w) && DeferredOk(d, r) && !r.clean
    ensures r.regs >= sc.regs && r.lnks >= sc.lnks
    ensures !Counted(d.entries[i]) ==> r == sc
    ensures Counted(d.entries[i]) ==> r.nd == sc.nd + 1
    ensures r.deferred == (if Counted(d.entries[i]) && d.entries[i].Dir? && sc.nd == 0 then Some(i) else sc.deferred)
    ensures Counted(d.entries[i]) && d.entries[i].Leaf? ==>
              && r.w == sc.w
              && r.rval == EntryRval(d.entries[i].probe, job.cred)
              && r.regs + r.lnks == sc.regs + sc.lnks + (if ChownReg(d.entries[i].probe, job.cred) == 0 then 1 else 0)
    decreases d, 0, |d.entries| - i, 0
  {
    var e := d.entries[i];
    if !Counted(e) then sc
    else
      var sc1 := sc.(nd := sc.nd + 1);
      match e
      case Leaf(_, kind, probe) =>
        var code := ChownReg(probe, job.cred);
        if code != 0 then sc1.(rval := EntryRval(probe, job.cred))
        else if kind == Reg then sc1.(regs := sc1.regs + 1)
        else sc1.(lnks := sc1.lnks + 1)
      case Dir(name, _, _, _, _) =>
        if sc1.nd == 1 then
          sc1.(deferred := Some(i))
        else
          var child := ChildJob(job, name);
          var (pool', ok) := Offer(env.build, sc1.w.pool, job.path, name, job.cred, job.id,
                                   sc1.w.shutdown, AllocFor(env, child.path));
          var sc2 := sc1.(w := sc1.w.(pool := pool'));
          if ok then sc2.(queued := sc2.queued + 1)
          else if sc2.w.shutdown != 0 then sc2
          else
            var (rv, w') := Mdpf(child, e, env, sc2.w);
            GrowsTrans(sc.w, sc2.w, w');
            sc2.(rval := rv, w := w')
  }

  /** The out-of-loop path of `mdpf`: only after a clean end of the
      directory with no shutdown and `rval` 0 is the remembered directory
      handled: recursed into when it was the only counted entry, otherwise
      offered to `enqueue` with recursion on refusal. */
  function AfterScan(job: Job, d: Node, sc: Scan, env: Env): (r: (int, World))
    requires d.Dir? && Valid(sc.w.pool) && DeferredOk(d, sc)
    ensures Grows(sc.w, r.1)
    ensures !(sc.clean && sc.w.shutdown == 0 && sc.rval == 0 && sc.deferred.Some?) ==> r == (sc.rval, sc.w)
    decreases d, 0, 0
  {
    if sc.clean && sc.w.shutdown == 0 && sc.rval == 0 && sc.deferred.Some? then
      var e := d.entries[sc.deferred.value];
      var childJob := ChildJob(job, e.name);
      if sc.nd > 1 then
        var (pool', ok) := Offer(env.build, sc.w.pool, job.path, e.name, job.cred, job.id,
                                 sc.w.shutdown, AllocFor(env, childJob.path));
        if ok then (0, sc.w.(pool := pool'))
        else Mdpf(childJob, e, env, sc.w.(pool := pool'))
      else
        Mdpf(childJob, e, env, sc.w)
    else
      (sc.rval, sc.w)
  }
}
