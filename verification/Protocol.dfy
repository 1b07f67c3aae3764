/** The queue, worker and run-finish protocol as a labelled transition system.

    Every SQL statement (or COMMIT) is one atomic step under READ COMMITTED. `Lease` is a
    transaction of several statements: its row lock and advisory lock are explicit, its
    UPDATE stays private until the commit. All processes interleave freely. */
module Protocol {
  import opened Wrappers
  import opened Rows

  type CancellerId = nat
  type PlannerId = nat

  /** `key` is the hash that maps a project to its advisory lock; it may collide. */
  datatype Config = Config(key: ProjectId -> int, lease: nat)

  /** Where a worker goroutine stands in `loop` / `execute`. */
  datatype WorkerPc =
    | Idle
    | Selected(job: JobId, cap: nat)                    // holds the row lock
    | CapLocked(job: JobId, cap: nat)                   // ... and the advisory lock
    | Counted(job: JobId)                               // found the project below its cap
    | Updated(job: JobId, image: Job, capped: bool)     // UPDATE done, not committed
    | Holding(job: JobId, attempt: nat)                 // Lease returned this attempt
    | Executing(job: JobId, attempt: nat)               // MarkRunning succeeded
    | Finishing(run: RunId)                             // about to run MaybeFinishRun's count
    | Closing(run: RunId, verdict: RunStatus, seen: nat, total: nat, failed: nat)
  {
    predicate InLease() { Selected? || CapLocked? || Counted? || Updated? }
    predicate HoldsKey() { CapLocked? || Counted? || (Updated? && capped) }
    predicate OnJob() { InLease() || Holding? || Executing? }
  }

  /** A planner between creating its run and returning. */
  datatype PlanPc = PlanPc(run: RunId, kept: nat, dropped: nat)

  /** Bookkeeping of a job's past, read by no step: every committed lease with the
      interval it was granted for, and how often the sweep took the job back. */
  datatype Window = Window(holder: WorkerId, from: Time, until: Time)
  datatype Ledger = Ledger(windows: seq<Window>, reclaims: nat)

  datatype State = State(
    now: Time,
    jobs: seq<Job>,
    runs: seq<Run>,
    caps: map<ProjectId, nat>,          // projects.max_concurrent_jobs, 0 = no cap
    rowLocks: map<JobId, WorkerId>,
    advLocks: map<int, WorkerId>,
    workers: map<WorkerId, WorkerPc>,
    cancellers: map<CancellerId, RunId>,  // between CancelRun's two updates
    planners: map<PlannerId, PlanPc>,
    ledger: seq<Ledger>)

  /** What a worker goroutine does next; Crash may strike anywhere. */
  datatype Step =
    | LeaseSelect(job: JobId) | CapLock | CapCount | LeaseUpdate | LeaseCommit | LeaseRollback
    | MarkRunning | Complete(outcome: Status, error: Option<string>)
    | CompleteFails                     // the statement fails; execute goes on regardless
    | Preempt                           // the collector returned context.Canceled
    | FinishCount | FinishUpdate
    | Crash

  datatype Action =
    | Worker(w: WorkerId, step: Step)
    | PlanCreate(planner: PlannerId, project: ProjectId)
    | PlanEnqueue(planner: PlannerId, collector: string, targetKind: string, target: string, priority: int)
    | PlanDrop(planner: PlannerId)
    | PlanEnd(planner: PlannerId)
    | PlanAbort(planner: PlannerId)     // Plan returns an error midway
    | CancelRunJobs(canceller: CancellerId, run: RunId)
    | CancelRunStatus(canceller: CancellerId)
    | CancelAbort(canceller: CancellerId)   // CancelRun returns an error after its first update
    | CancelJob(job: JobId)
    | Reclaim
    | SetCap(project: ProjectId, cap: nat)
    | Tick(to: Time)

  // ---- reading the state ---------------------------------------------------------

  function Pc(s: State, w: WorkerId): WorkerPc { if w in s.workers then s.workers[w] else Idle }

  function Key(cfg: Config, s: State, j: JobId): int
    requires j < |s.jobs|
  {
    cfg.key(s.jobs[j].work.project)
  }

  /** ORDER BY priority DESC, created_at ASC */
  predicate Precedes(a: Job, b: Job) {
    a.work.priority > b.work.priority || (a.work.priority == b.work.priority && a.work.createdAt < b.work.createdAt)
  }

  predicate Leasable(s: State, j: JobId) {
    j < |s.jobs| && s.jobs[j].status.Queued? && j !in s.rowLocks && s.jobs[j].work.project in s.caps
  }

  predicate Owns(s: State, w: WorkerId, j: JobId) {
    j < |s.jobs| && s.jobs[j].leasedBy == Some(w)
  }

  // ---- writing the state -----------------------------------------------------------

  function SetJob(s: State, j: JobId, row: Job): State
    requires j < |s.jobs|
  {
    s.(jobs := s.jobs[j := row])
  }

  function SetRun(s: State, r: RunId, row: Run): State {
    if r < |s.runs| then s.(runs := s.runs[r := row]) else s
  }

  function Without<K>(locks: map<K, WorkerId>, w: WorkerId): map<K, WorkerId> {
    map k | k in locks && locks[k] != w :: locks[k]
  }

  /** End of transaction: every lock of the session goes. */
  function Unlock(s: State, w: WorkerId): State {
    s.(rowLocks := Without(s.rowLocks, w), advLocks := Without(s.advLocks, w))
  }

  function CloseRun(row: Run, verdict: RunStatus, total: nat, failed: nat, now: Time): Run {
    if row.status.Terminal() then row
    else row.(status := verdict, finishedAt := Some(now), summary := Counts(total, failed))
  }

  function CancelRunRow(row: Run, now: Time): Run {
    if row.status.Terminal() then row
    else row.(status := RunCancelled, cancelledAt := Some(now), finishedAt := Some(now))
  }

  // ---- worker steps ------------------------------------------------------------------

  ghost predicate CanStep(s: State, cfg: Config, pc: WorkerPc, step: Step) {
    (pc.OnJob() ==> pc.job < |s.jobs| && pc.job < |s.ledger|) &&
    match step
    case LeaseSelect(j) =>
      pc.Idle? && Leasable(s, j) && forall k: nat :: Leasable(s, k) ==> !Precedes(s.jobs[k], s.jobs[j])
    case CapLock => pc.Selected? && pc.cap > 0 && Key(cfg, s, pc.job) !in s.advLocks
    case CapCount => pc.CapLocked?
    case LeaseUpdate => pc.Counted? || (pc.Selected? && pc.cap == 0)
    case LeaseCommit => pc.Updated?
    case LeaseRollback => pc.InLease()
    case MarkRunning => pc.Holding?
    case Complete(outcome, _) => (pc.Holding? || pc.Executing?) && outcome.Terminal()
    case CompleteFails => pc.Holding? || pc.Executing?
    case Preempt => pc.Executing?
    case FinishCount => pc.Finishing?
    case FinishUpdate => pc.Closing?
    case Crash => true
  }

  function Commit(s: State, cfg: Config, w: WorkerId, j: JobId, image: Job): State
    requires j < |s.jobs| && j < |s.ledger|
  {
    var l := s.ledger[j];
    var until := if image.leaseExpiresAt.Some? then image.leaseExpiresAt.value else s.now;
    Unlock(SetJob(s, j, image).(
             ledger := s.ledger[j := l.(windows := l.windows + [Window(w, until - cfg.lease, until)])]), w)
  }

  /** MaybeFinishRun's count; it goes on to the update only when every job is done. */
  function CountRun(s: State, r: RunId): WorkerPc {
    var total := Count(OfRun(r), s.jobs);
    var failed := Count(FailedIn(r), s.jobs);
    if total == 0 || Count(DoneIn(r), s.jobs) < total then Idle
    else Closing(r, if failed > 0 then RunFailed else RunSucceeded, |s.jobs|, total, failed)
  }

  /** The shared state and the worker's place after one of its steps. */
  ghost function Do(s: State, cfg: Config, w: WorkerId, pc: WorkerPc, step: Step): (r: (State, WorkerPc))
    requires CanStep(s, cfg, pc, step)
    ensures r.0 == s.(jobs := r.0.jobs, runs := r.0.runs, rowLocks := r.0.rowLocks,
                      advLocks := r.0.advLocks, ledger := r.0.ledger)
  {
    match step
    case LeaseSelect(j) => (s.(rowLocks := s.rowLocks[j := w]), Selected(j, s.caps[s.jobs[j].work.project]))
    case CapLock => (s.(advLocks := s.advLocks[Key(cfg, s, pc.job) := w]), CapLocked(pc.job, pc.cap))
    case CapCount =>
      if Count(BusyIn(s.jobs[pc.job].work.project), s.jobs) >= pc.cap then (Unlock(s, w), Idle)
      else (s, Counted(pc.job))
    case LeaseUpdate => (s, Updated(pc.job, LeaseRow(s.jobs[pc.job], w, s.now + cfg.lease), pc.Counted?))
    case LeaseCommit => (Commit(s, cfg, w, pc.job, pc.image), Holding(pc.job, pc.image.attempts))
    case LeaseRollback => (Unlock(s, w), Idle)
    case MarkRunning =>
      if Owns(s, w, pc.job) && s.jobs[pc.job].status.Leased?
      then (SetJob(s, pc.job, StartRow(s.jobs[pc.job], s.now)), Executing(pc.job, pc.attempt))
      else (s, Idle)
    case Complete(outcome, error) =>
      // The worker goes on to MaybeFinishRun whether or not the update hit the row.
      (if Owns(s, w, pc.job) && s.jobs[pc.job].status.InFlight()
       then SetJob(s, pc.job, CompleteRow(s.jobs[pc.job], outcome, error, s.now)) else s,
       Finishing(s.jobs[pc.job].work.run))
    case CompleteFails => (s, Finishing(s.jobs[pc.job].work.run))
    case Preempt => (s, Idle)
    case FinishCount => (s, CountRun(s, pc.run))
    case FinishUpdate =>
      (if pc.run < |s.runs|
       then SetRun(s, pc.run, CloseRun(s.runs[pc.run], pc.verdict, pc.total, pc.failed, s.now)) else s, Idle)
    case Crash => (Unlock(s, w), Idle)
  }

  // ---- planners, cancellers, the sweep, operators, the clock ------------------------------

  function Enqueue(s: State, pl: PlannerId, collector: string, kind: string, target: string, priority: int): State
    requires pl in s.planners && s.planners[pl].run < |s.runs|
  {
    var pc := s.planners[pl];
    var work := Work(pc.run, s.runs[pc.run].project, collector, kind, target, priority, s.now);
    s.(jobs := s.jobs + [NewJob(work)],
       ledger := s.ledger + [Ledger([], 0)],
       planners := s.planners[pl := pc.(kept := pc.kept + 1)])
  }

  /** With nothing kept the run is set to succeeded; that UPDATE has no status guard. */
  function EndPlan(s: State, pl: PlannerId): State
    requires pl in s.planners
  {
    var pc := s.planners[pl];
    var s' := s.(planners := s.planners - {pl});
    if pc.kept == 0 && pc.run < |s.runs| then
      SetRun(s', pc.run, s.runs[pc.run].(status := RunSucceeded, finishedAt := Some(s.now),
                                         summary := NothingKept(pc.dropped)))
    else s'
  }

  function ReclaimAll(s: State): State
    requires |s.ledger| == |s.jobs|
  {
    s.(jobs := ReclaimRows(s.jobs, s.now),
       ledger := seq(|s.jobs|, i requires 0 <= i < |s.jobs| && |s.ledger| == |s.jobs| =>
         if Expired(s.jobs[i], s.now) then s.ledger[i].(reclaims := s.ledger[i].reclaims + 1) else s.ledger[i]))
  }

  ghost predicate Enabled(s: State, cfg: Config, a: Action) {
    match a
    case Worker(w, step) => CanStep(s, cfg, Pc(s, w), step)
    case PlanCreate(pl, p) => pl !in s.planners && p in s.caps
    case PlanEnqueue(pl, _, _, _, _) => pl in s.planners && s.planners[pl].run < |s.runs|
    case PlanDrop(pl) => pl in s.planners
    case PlanEnd(pl) => pl in s.planners
    case PlanAbort(pl) => pl in s.planners
    case CancelRunJobs(c, r) =>
      // The UPDATE waits for the row locks of Lease transactions on rows it hits.
      c !in s.cancellers && r < |s.runs|
      && forall j :: 0 <= j < |s.jobs| && CancelHits(s.jobs[j], r) ==> j !in s.rowLocks
    case CancelRunStatus(c) => c in s.cancellers
    case CancelAbort(c) => c in s.cancellers
    case CancelJob(j) => j < |s.jobs| && j !in s.rowLocks
    case Reclaim => |s.ledger| == |s.jobs|
    case SetCap(_, _) => true
    case Tick(to) => s.now <= to
  }

  function Env(s: State, a: Action): (s': State)
    requires !a.Worker?
    requires a.PlanEnqueue? || a.PlanDrop? || a.PlanEnd? || a.PlanAbort? ==> a.planner in s.planners
    requires a.PlanEnqueue? ==> s.planners[a.planner].run < |s.runs|
    requires a.CancelRunStatus? || a.CancelAbort? ==> a.canceller in s.cancellers
    requires a.CancelJob? ==> a.job < |s.jobs|
    requires a.Reclaim? ==> |s.ledger| == |s.jobs|
    requires a.Tick? ==> s.now <= a.to
    ensures s.now <= s'.now && s'.workers == s.workers && s'.rowLocks == s.rowLocks && s'.advLocks == s.advLocks
  {
    match a
    case PlanCreate(pl, p) =>
      s.(runs := s.runs + [Run(p, RunRunning, None, None, NoSummary)],
         planners := s.planners[pl := PlanPc(|s.runs|, 0, 0)])
    case PlanEnqueue(pl, c, k, t, prio) => Enqueue(s, pl, c, k, t, prio)
    case PlanDrop(pl) => s.(planners := s.planners[pl := s.planners[pl].(dropped := s.planners[pl].dropped + 1)])
    case PlanEnd(pl) => EndPlan(s, pl)
    case PlanAbort(pl) => s.(planners := s.planners - {pl})
    case CancelRunJobs(c, r) =>
      s.(jobs := CancelRunRows(s.jobs, r, s.now), cancellers := s.cancellers[c := r])
    case CancelRunStatus(c) =>
      var r := s.cancellers[c];
      var s' := s.(cancellers := s.cancellers - {c});
      if r < |s.runs| then SetRun(s', r, CancelRunRow(s.runs[r], s.now)) else s'
    case CancelAbort(c) => s.(cancellers := s.cancellers - {c})
    case CancelJob(j) =>
      if s.jobs[j].status.Terminal() then s else SetJob(s, j, CancelRow(s.jobs[j], s.now))
    case Reclaim => ReclaimAll(s)
    case SetCap(p, n) => s.(caps := s.caps[p := n])
    case Tick(to) => s.(now := to)
  }

  ghost function Apply(s: State, cfg: Config, a: Action): State
    requires Enabled(s, cfg, a)
  {
    if a.Worker? then
      var (s', pc) := Do(s, cfg, a.w, Pc(s, a.w), a.step);
      s'.(workers := s.workers[a.w := pc])
    else Env(s, a)
  }

  // ---- executions ---------------------------------------------------------------------

  ghost predicate Init(s: State) {
    s.jobs == [] && s.runs == [] && s.ledger == [] && s.rowLocks == map[] && s.advLocks == map[]
    && s.workers == map[] && s.cancellers == map[] && s.planners == map[]
  }

  /** Statement by statement, `acts` leads through `trace`. */
  ghost predicate Path(cfg: Config, trace: seq<State>, acts: seq<Action>) {
    |trace| == |acts| + 1
    && forall i {:trigger acts[i]} :: 0 <= i < |acts| ==>
         Enabled(trace[i], cfg, acts[i]) && trace[i + 1] == Apply(trace[i], cfg, acts[i])
  }

  /** The states visited by an interleaving of any number of processes. */
  ghost predicate Execution(cfg: Config, trace: seq<State>, acts: seq<Action>) {
    Path(cfg, trace, acts) && Init(trace[0])
  }

  lemma PathConcat(cfg: Config, trace: seq<State>, acts: seq<Action>, trace': seq<State>, acts': seq<Action>)
    requires Path(cfg, trace, acts) && Path(cfg, trace', acts') && trace'[0] == trace[|acts|]
    ensures Path(cfg, trace + trace'[1..], acts + acts')
  {
    hide Enabled, Apply;
    var t, a := trace + trace'[1..], acts + acts';
    forall i | 0 <= i < |a| ensures Enabled(t[i], cfg, a[i]) && t[i + 1] == Apply(t[i], cfg, a[i]) {
      if i >= |acts| {
        var k := i - |acts|;
        assert a[i] == acts'[k] && t[i + 1] == trace'[k + 1] && t[i] == trace'[k];
      }
    }
  }

  lemma OneMoreStep(cfg: Config, trace: seq<State>, acts: seq<Action>, a: Action)
    requires Execution(cfg, trace, acts) && Enabled(trace[|acts|], cfg, a)
    ensures Execution(cfg, trace + [Apply(trace[|acts|], cfg, a)], acts + [a])
  {
    hide Enabled, Apply;
  }

  /** Code that runs as protocol steps from a reachable state stays among the reachable. */
  lemma ExecutionProlonged(cfg: Config, trace: seq<State>, acts: seq<Action>, trace': seq<State>, acts': seq<Action>)
    requires Execution(cfg, trace, acts) && Path(cfg, trace', acts') && trace'[0] == trace[|acts|]
    ensures Execution(cfg, trace + trace'[1..], acts + acts')
    ensures (trace + trace'[1..])[|acts + acts'|] == trace'[|acts'|]
  {
    PathConcat(cfg, trace, acts, trace', acts');
  }
}
