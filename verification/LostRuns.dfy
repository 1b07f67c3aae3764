/** Which runs stay unfinished for ever, and which steps make them so. */
module LostRuns {
  import opened Rows
  import opened Protocol
  import opened Invariants
  import opened LeaseSafety
  import opened RunFinish

  ghost predicate Planning(s: State, r: RunId) { exists pl :: pl in s.planners && s.planners[pl].run == r }

  ghost predicate Cancelling(s: State, r: RunId) { exists c :: c in s.cancellers && s.cancellers[c] == r }

  /** The worker has leased a job of the run, whatever became of the row since, or is
      between its completion and the end of MaybeFinishRun. */
  predicate AtWork(s: State, w: WorkerId, r: RunId) { WorksOn(s.jobs, Pc(s, w), r) }

  predicate WorksOn(jobs: seq<Job>, pc: WorkerPc, r: RunId) {
    || ClosesRun(pc, r)
    || ((pc.Holding? || pc.Executing?) && pc.job < |jobs| && jobs[pc.job].work.run == r)
  }

  /** The run is open and there is nobody left to finish it. */
  ghost predicate Lost(s: State, r: RunId)
    requires r < |s.runs|
  {
    && !s.runs[r].status.Terminal()
    && !Planning(s, r) && !Unfinished(s.jobs, r) && !Cancelling(s, r)
    && forall w: WorkerId :: !AtWork(s, w, r)
  }

  ghost predicate LastUnfinished(jobs: seq<Job>, j: nat, r: RunId) {
    && j < |jobs| && jobs[j].work.run == r && !jobs[j].status.Terminal()
    && forall i :: 0 <= i < |jobs| && i != j && jobs[i].work.run == r ==> jobs[i].status.Terminal()
  }

  /** The steps that lose a run: its last unfinished job is cancelled by id while no worker
      is on one of its jobs and no planner at it; its planner ends, or fails, over jobs that
      are all done; its last worker, on a job that is done already, fails to mark it running,
      is shut down or dies; its cancellation fails after the update that cancelled the jobs. */
  ghost predicate Loses(s: State, a: Action, r: RunId)
    requires r < |s.runs|
  {
    && !s.runs[r].status.Terminal()
    && (if a.CancelAbort? then OnlyCanceller(s, a.canceller, r) else !Cancelling(s, r))
    && match a
       case CancelAbort(_) =>
         !Planning(s, r) && !Unfinished(s.jobs, r) && forall w: WorkerId :: !AtWork(s, w, r)
       case CancelJob(j) =>
         LastUnfinished(s.jobs, j, r) && !Planning(s, r) && forall w: WorkerId :: !AtWork(s, w, r)
       case PlanEnd(pl) => EndsPlan(s, a, r) && s.planners[pl].kept > 0
       case PlanAbort(_) => EndsPlan(s, a, r)
       case Worker(w, step) =>
         && (step.MarkRunning? || step.Preempt? || step.Crash?)
         && AtWork(s, w, r) && !Unfinished(s.jobs, r) && !Planning(s, r)
         && forall v: WorkerId :: v != w ==> !AtWork(s, v, r)
       case _ => false
  }

  ghost predicate EndsPlan(s: State, a: Action, r: RunId) {
    && (a.PlanEnd? || a.PlanAbort?) && a.planner in s.planners && s.planners[a.planner].run == r
    && !Unfinished(s.jobs, r) && forall w: WorkerId :: !AtWork(s, w, r)
  }

  predicate CancelsRun(a: Action, r: RunId) { a.CancelRunJobs? && a.run == r }

  // ---- one step, part by part -----------------------------------------------------------------

  lemma PlanningStep(s: State, cfg: Config, a: Action, r: RunId)
    requires Enabled(s, cfg, a) && PlansOk(s) && r < |s.runs|
    ensures a.PlanEnd? || a.PlanAbort? ==> a.planner in s.planners
    ensures Planning(Apply(s, cfg, a), r) <==>
      Planning(s, r) && !((a.PlanEnd? || a.PlanAbort?) && s.planners[a.planner].run == r)
  {
    hide JobsPlanned, KeptOk, Do, CanStep;
    var s' := Apply(s, cfg, a);
    if a.Worker? {
      DoPlans(s, cfg, a.w, Pc(s, a.w), a.step);
    } else {
      forall pl | pl in s'.planners
        ensures if a.PlanCreate? && a.planner == pl then s'.planners[pl].run == |s.runs|
          else pl in s.planners && s.planners[pl].run == s'.planners[pl].run
      {
        EnvPlanner(s, cfg, a, pl);
      }
      if pl :| pl in s.planners && s.planners[pl].run == r {
        assert pl in s'.planners || ((a.PlanEnd? || a.PlanAbort?) && a.planner == pl);
      }
    }
  }

  lemma CancellingStep(s: State, cfg: Config, a: Action, r: RunId)
    requires Enabled(s, cfg, a) && r < |s.runs| && r < |Apply(s, cfg, a).runs|
    ensures Cancelling(Apply(s, cfg, a), r) ==> Cancelling(s, r) || CancelsRun(a, r)
    ensures CancelsRun(a, r) ==> Cancelling(Apply(s, cfg, a), r)
    ensures Cancelling(s, r) ==>
      || Cancelling(Apply(s, cfg, a), r) || Apply(s, cfg, a).runs[r].status.Terminal()
      || (a.CancelAbort? && OnlyCanceller(s, a.canceller, r))
    ensures a.CancelAbort? && OnlyCanceller(s, a.canceller, r) ==> !Cancelling(Apply(s, cfg, a), r)
  {
    var s' := Apply(s, cfg, a);
    if a.CancelRunStatus? && s.cancellers[a.canceller] == r {
      assert s'.runs[r].status.Terminal();
    }
    CancellersStep(s, cfg, a);
    hide Apply, Enabled;
    if CancelsRun(a, r) { assert a.canceller in s'.cancellers && s'.cancellers[a.canceller] == r; }
    if c :| c in s.cancellers && s.cancellers[c] == r {
      assert || ((a.CancelRunStatus? || a.CancelAbort?) && a.canceller == c)
             || (c in s'.cancellers && s'.cancellers[c] == r);
      if a.CancelAbort? && a.canceller == c && !OnlyCanceller(s, c, r) {
        var d :| d in s.cancellers && d != c && s.cancellers[d] == r;
        assert d in s'.cancellers && s'.cancellers[d] == r;
      }
    }
  }

  lemma CancellersStep(s: State, cfg: Config, a: Action)
    requires Enabled(s, cfg, a)
    ensures a.CancelRunStatus? || a.CancelAbort? ==> a.canceller in s.cancellers
    ensures Apply(s, cfg, a).cancellers == (
      if a.CancelRunJobs? then s.cancellers[a.canceller := a.run]
      else if a.CancelRunStatus? || a.CancelAbort? then s.cancellers - {a.canceller} else s.cancellers)
    ensures a.CancelRunJobs? ==> a.canceller !in s.cancellers
  {
    hide Do, CanStep;
  }

  /** What may close an open run. */
  lemma ClosingStep(s: State, cfg: Config, a: Action, r: RunId)
    requires Enabled(s, cfg, a) && r < |s.runs|
    ensures r < |Apply(s, cfg, a).runs|
    ensures Apply(s, cfg, a).runs[r].status.Terminal() ==>
      || s.runs[r].status.Terminal() || EndsEmptyPlan(s, a, r)
      || (a.CancelRunStatus? && Cancelling(s, r))
      || (a.Worker? && a.step.FinishUpdate? && ClosesRun(Pc(s, a.w), r))
  {
    RunRowStep(s, cfg, a, r);
    if a.Worker? {
      DoOpenRun(s, cfg, a.w, Pc(s, a.w), a.step, r);
      hide Do, CanStep;
    }
  }

  lemma DoOpenRun(s: State, cfg: Config, w: WorkerId, pc: WorkerPc, step: Step, r: RunId)
    requires CanStep(s, cfg, pc, step) && r < |s.runs|
    ensures var runs := Do(s, cfg, w, pc, step).0.runs;
      r < |runs| && (runs[r] == s.runs[r] || (step.FinishUpdate? && ClosesRun(pc, r)))
  {
    hide Count;
  }

  lemma UnfinishedStays(s: State, cfg: Config, a: Action, r: RunId)
    requires Enabled(s, cfg, a) && Inv(s, cfg)
    ensures Unfinished(Apply(s, cfg, a).jobs, r) ==> Unfinished(s.jobs, r) || GainsJob(s, a, r)
  {
    hide Do, Env, CanStep, Inv;
    var jobs := Apply(s, cfg, a).jobs;
    StepExtends(s, cfg, a);
    if i :| 0 <= i < |jobs| && jobs[i].work.run == r && !jobs[i].status.Terminal() {
      if i < |s.jobs| { assert !s.jobs[i].status.Terminal(); } else { NewRow(s, cfg, a); }
    }
  }

  lemma NewRow(s: State, cfg: Config, a: Action)
    requires Enabled(s, cfg, a)
    ensures var jobs := Apply(s, cfg, a).jobs;
      && |jobs| == |s.jobs| + (if a.PlanEnqueue? then 1 else 0)
      && (a.PlanEnqueue? ==> jobs[|s.jobs|].work.run == s.planners[a.planner].run)
  {
    if a.Worker? {
      DoSize(s, cfg, a.w, Pc(s, a.w), a.step);
      hide Do, CanStep;
    }
  }

  lemma WorkKept(s: State, cfg: Config, a: Action, w: WorkerId, r: RunId)
    requires Enabled(s, cfg, a) && Inv(s, cfg) && !(a.Worker? && a.w == w)
    ensures AtWork(Apply(s, cfg, a), w, r) == AtWork(s, w, r)
  {
    hide Do, CanStep, Env, AllRowsOk, LeaseOk, OwnLocks;
    var pc := Pc(s, w);
    StepExtends(s, cfg, a);
    assert Pc(Apply(s, cfg, a), w) == pc;
    if pc.Holding? || pc.Executing? { assert AttemptOk(s, cfg, w, pc); }
  }

  /** With no unfinished job in the run, its workers can only close it or leave it. */
  lemma OwnWork(s: State, cfg: Config, w: WorkerId, step: Step, r: RunId)
    requires Enabled(s, cfg, Worker(w, step)) && Inv(s, cfg) && FinishInv(s)
    requires r < |s.runs| && !Unfinished(s.jobs, r)
    ensures var s' := Apply(s, cfg, Worker(w, step));
      && r < |s'.runs|
      && (AtWork(s', w, r) ==> AtWork(s, w, r) && !step.MarkRunning? && !step.Preempt? && !step.Crash?)
      && (AtWork(s, w, r) ==>
            AtWork(s', w, r) || s'.runs[r].status.Terminal() || step.MarkRunning? || step.Preempt? || step.Crash?)
  {
    hide Locks, AllRowsOk, PlansOk, WorksOn, Unfinished, FinishOk, Do, CanStep;
    var pc := Pc(s, w);
    assert AttemptOk(s, cfg, w, pc) && FinishOk(s.jobs, pc);
    LeaseOf(s, cfg, w);
    DoOwnWork(s, cfg, w, pc, step, r);
  }

  lemma DoOwnWork(s: State, cfg: Config, w: WorkerId, pc: WorkerPc, step: Step, r: RunId)
    requires CanStep(s, cfg, pc, step) && LeaseOk(s, cfg, w, pc) && FinishOk(s.jobs, pc)
    requires r < |s.runs| && !Unfinished(s.jobs, r)
    ensures var (s', pc') := Do(s, cfg, w, pc, step);
      && r < |s'.runs|
      && (WorksOn(s'.jobs, pc', r) ==> WorksOn(s.jobs, pc, r) && !step.MarkRunning? && !step.Preempt? && !step.Crash?)
      && (WorksOn(s.jobs, pc, r) ==>
            WorksOn(s'.jobs, pc', r) || s'.runs[r].status.Terminal()
            || step.MarkRunning? || step.Preempt? || step.Crash?)
  {
    var (s', pc') := Do(s, cfg, w, pc, step);
    DoJobs(s, cfg, w, pc, step);
    DoOpenRun(s, cfg, w, pc, step, r);
    if pc.InLease() || pc.Idle? {
      DoLeasePc(s, cfg, w, pc, step);
    } else {
      DoLatePc(s, cfg, w, pc, step);
    }
    if pc.OnJob() && s.jobs[pc.job].work.run == r { assert s.jobs[pc.job].status.Terminal(); }
    if step.FinishCount? { CountsSay(s.jobs, pc.run); }
    if step.FinishUpdate? && ClosesRun(pc, r) { DoCloses(s, cfg, w, pc, step, r); }
    hide Do, Count;
  }

  lemma DoLeasePc(s: State, cfg: Config, w: WorkerId, pc: WorkerPc, step: Step)
    requires CanStep(s, cfg, pc, step) && (pc.InLease() || pc.Idle?)
    ensures var pc' := Do(s, cfg, w, pc, step).1;
      if step.LeaseCommit? then pc.Updated? && pc' == Holding(pc.job, pc.image.attempts) else pc'.InLease() || pc'.Idle?
    ensures !step.MarkRunning? && !step.Preempt? && !step.Complete? && !step.CompleteFails?
    ensures !step.FinishCount? && !step.FinishUpdate?
  {
    hide Count;
  }

  lemma DoLatePc(s: State, cfg: Config, w: WorkerId, pc: WorkerPc, step: Step)
    requires CanStep(s, cfg, pc, step) && !pc.InLease() && !pc.Idle?
    ensures || step.MarkRunning? || step.Complete? || step.CompleteFails? || step.Preempt?
            || step.FinishCount? || step.FinishUpdate? || step.Crash?
    ensures step.MarkRunning? ==> pc.Holding?
    ensures Do(s, cfg, w, pc, step).1 == (
      match step
      case MarkRunning =>
        if Owns(s, w, pc.job) && s.jobs[pc.job].status.Leased? then Executing(pc.job, pc.attempt) else Idle
      case Complete(_, _) => Finishing(s.jobs[pc.job].work.run)
      case CompleteFails => Finishing(s.jobs[pc.job].work.run)
      case FinishCount => CountRun(s, pc.run)
      case _ => Idle)
  {
    hide Count, CountRun;
  }

  lemma DoCloses(s: State, cfg: Config, w: WorkerId, pc: WorkerPc, step: Step, r: RunId)
    requires CanStep(s, cfg, pc, step) && step.FinishUpdate? && ClosesRun(pc, r) && r < |s.runs|
    requires pc.Closing? ==> pc.verdict.Terminal()
    ensures r < |Do(s, cfg, w, pc, step).0.runs| && Do(s, cfg, w, pc, step).0.runs[r].status.Terminal()
  {
    hide Count;
  }

  /** A completion leaves its worker about to close the run. */
  lemma CompletionIsSeen(s: State, cfg: Config, a: Action, r: RunId)
    requires Enabled(s, cfg, a) && Inv(s, cfg) && Unfinished(s.jobs, r)
    requires !Unfinished(Apply(s, cfg, a).jobs, r)
    ensures || (a.Worker? && AtWork(Apply(s, cfg, a), a.w, r)) || CancelsRun(a, r)
            || (a.CancelJob? && LastUnfinished(s.jobs, a.job, r))
  {
    hide Do, Env, CanStep, Inv, Locks, HasJob;
    var s' := Apply(s, cfg, a);
    StepExtends(s, cfg, a);
    forall i | 0 <= i < |s.jobs| && s.jobs[i].work.run == r && !s.jobs[i].status.Terminal()
      ensures (a.Worker? && ClosesRun(Pc(s', a.w), r)) || CancelsRun(a, r) || (a.CancelJob? && a.job == i)
    {
      FinishedBy(s, cfg, a, i);
    }
  }

  /** What makes a job terminal. */
  lemma FinishedBy(s: State, cfg: Config, a: Action, i: nat)
    requires Enabled(s, cfg, a) && Inv(s, cfg) && i < |s.jobs| && !s.jobs[i].status.Terminal()
    ensures i < |Apply(s, cfg, a).jobs|
    ensures Apply(s, cfg, a).jobs[i].status.Terminal() ==>
      || (a.Worker? && ClosesRun(Pc(Apply(s, cfg, a), a.w), s.jobs[i].work.run))
      || CancelsRun(a, s.jobs[i].work.run) || (a.CancelJob? && a.job == i)
  {
    hide Locks, AllRowsOk, AttemptOk;
    RowStep(s, cfg, a, i);
    if a.Worker? { LeaseOf(s, cfg, a.w); }
  }

  // ---- one step ---------------------------------------------------------------------------------

  /** A lost run stays lost until somebody cancels it as a whole. */
  lemma LostStays(s: State, cfg: Config, a: Action, r: RunId)
    requires Enabled(s, cfg, a) && Inv(s, cfg) && FinishInv(s) && r < |s.runs| && Lost(s, r)
    ensures r < |Apply(s, cfg, a).runs|
    ensures Lost(Apply(s, cfg, a), r) <==> !CancelsRun(a, r)
  {
    hide Apply, Enabled, Inv, AtWork, Unfinished;
    var s' := Apply(s, cfg, a);
    ClosingStep(s, cfg, a, r);
    CancellingStep(s, cfg, a, r);
    PlanningStep(s, cfg, a, r);
    UnfinishedStays(s, cfg, a, r);
    NotAtWork(s, a, r);
    forall w: WorkerId ensures !AtWork(s', w, r) {
      if a.Worker? && a.w == w { OwnWork(s, cfg, w, a.step, r); } else { WorkKept(s, cfg, a, w, r); }
    }
  }

  lemma NotAtWork(s: State, a: Action, r: RunId)
    requires forall w: WorkerId :: !AtWork(s, w, r)
    ensures a.Worker? ==> !ClosesRun(Pc(s, a.w), r)
  {
    if a.Worker? { assert !AtWork(s, a.w, r); }
  }

  lemma LosesIsEnough(s: State, cfg: Config, a: Action, r: RunId)
    requires Enabled(s, cfg, a) && Inv(s, cfg) && FinishInv(s) && r < |s.runs| && Loses(s, a, r)
    ensures r < |Apply(s, cfg, a).runs| && Lost(Apply(s, cfg, a), r)
  {
    var s' := Apply(s, cfg, a);
    assert !Unfinished(s'.jobs, r) by { LosesJobs(s, cfg, a, r); }
    hide Apply, Enabled, Inv, AtWork, Unfinished, LastUnfinished;
    ClosingStep(s, cfg, a, r);
    CancellingStep(s, cfg, a, r);
    PlanningStep(s, cfg, a, r);
    forall w: WorkerId ensures !AtWork(s', w, r) {
      if a.Worker? && a.w == w { OwnWork(s, cfg, w, a.step, r); } else { WorkKept(s, cfg, a, w, r); }
    }
  }

  lemma LosesJobs(s: State, cfg: Config, a: Action, r: RunId)
    requires Enabled(s, cfg, a) && Inv(s, cfg) && r < |s.runs| && Loses(s, a, r)
    ensures !Unfinished(Apply(s, cfg, a).jobs, r)
  {
    UnfinishedStays(s, cfg, a, r);
    if a.Worker? { hide Apply; }
    hide AtWork, Planning, Cancelling, Inv;
  }

  lemma LosesIsNeeded(s: State, cfg: Config, a: Action, r: RunId)
    requires Enabled(s, cfg, a) && Inv(s, cfg) && FinishInv(s) && r < |s.runs| && !Lost(s, r)
    requires r < |Apply(s, cfg, a).runs| && Lost(Apply(s, cfg, a), r)
    ensures Loses(s, a, r)
  {
    hide Apply, Enabled, Inv, AtWork, Unfinished, LastUnfinished;
    var s' := Apply(s, cfg, a);
    RunRowStep(s, cfg, a, r);
    CancellingStep(s, cfg, a, r);
    PlanningStep(s, cfg, a, r);
    if Unfinished(s.jobs, r) { CompletionIsSeen(s, cfg, a, r); }
    forall w: WorkerId | !(a.Worker? && a.w == w) ensures !AtWork(s, w, r) { WorkKept(s, cfg, a, w, r); }
    if a.Worker? && !Unfinished(s.jobs, r) { OwnWork(s, cfg, a.w, a.step, r); }
  }

  /** In every execution, a run that is not lost becomes so by exactly the steps of Loses; a
      lost one ceases to be by exactly the cancellation of the run. */
  lemma LostExactlyWhen(cfg: Config, trace: seq<State>, acts: seq<Action>, i: nat, r: RunId)
    requires Execution(cfg, trace, acts) && i < |acts| && r < |trace[i].runs|
    ensures r < |trace[i + 1].runs|
    ensures !Lost(trace[i], r) ==> (Lost(trace[i + 1], r) <==> Loses(trace[i], acts[i], r))
    ensures Lost(trace[i], r) ==> (Lost(trace[i + 1], r) <==> !CancelsRun(acts[i], r))
  {
    hide Lost, Loses;
    var s, a := trace[i], acts[i];
    assert trace[i + 1] == Apply(s, cfg, a);
    Reachable(cfg, trace, acts, i);
    FinishReachable(cfg, trace, acts, i);
    hide Apply, Enabled;
    ClosingStep(s, cfg, a, r);
    if Lost(s, r) {
      LostStays(s, cfg, a, r);
    } else if Loses(s, a, r) {
      LosesIsEnough(s, cfg, a, r);
    } else if Lost(trace[i + 1], r) {
      LosesIsNeeded(s, cfg, a, r);
    }
  }

  // ---- whole executions -------------------------------------------------------------------------

  /** Step k loses the run and nobody cancels the run between then and n. */
  ghost predicate LostAt(trace: seq<State>, acts: seq<Action>, k: nat, n: nat, r: RunId) {
    && k < n <= |acts| && |acts| <= |trace| && r < |trace[k].runs| && Loses(trace[k], acts[k], r)
    && forall m :: k < m < n ==> !CancelsRun(acts[m], r)
  }

  lemma {:induction false} LossFound(cfg: Config, trace: seq<State>, acts: seq<Action>, n: nat, r: RunId)
      returns (k: nat)
    requires Execution(cfg, trace, acts) && n < |trace| && r < |trace[n].runs| && Lost(trace[n], r)
    ensures LostAt(trace, acts, k, n, r)
  {
    hide Lost, Loses, Apply, Enabled;
    assert n > 0;
    assert trace[(n - 1) + 1] == Apply(trace[n - 1], cfg, acts[n - 1]);
    if r >= |trace[n - 1].runs| { NewRunOpen(cfg, trace, acts, n - 1, r); }
    LostExactlyWhen(cfg, trace, acts, n - 1, r);
    if Lost(trace[n - 1], r) {
      k := LossFound(cfg, trace, acts, n - 1, r);
    } else {
      k := n - 1;
    }
  }

  lemma NewRunOpen(cfg: Config, trace: seq<State>, acts: seq<Action>, i: nat, r: RunId)
    requires Execution(cfg, trace, acts) && i < |acts| && |trace[i].runs| <= r < |trace[i + 1].runs|
    ensures !Lost(trace[i + 1], r)
  {
    hide Apply, Enabled, Lost;
    assert trace[i + 1] == Apply(trace[i], cfg, acts[i]);
    CreatedOpen(trace[i], cfg, acts[i], r);
  }

  lemma CreatedOpen(s: State, cfg: Config, a: Action, r: RunId)
    requires Enabled(s, cfg, a) && |s.runs| <= r < |Apply(s, cfg, a).runs|
    ensures !Lost(Apply(s, cfg, a), r)
  {
    hide Unfinished, AtWork, Cancelling;
    if a.Worker? { DoPlans(s, cfg, a.w, Pc(s, a.w), a.step); }
    hide Do, CanStep;
    var s' := Apply(s, cfg, a);
    assert a.PlanCreate? && a.planner in s'.planners && s'.planners[a.planner].run == r;
  }

  /** Once lost and never cancelled, a run is open at every later moment. */
  lemma {:induction false} LostForGood(cfg: Config, trace: seq<State>, acts: seq<Action>, k: nat, n: nat, r: RunId)
    requires Execution(cfg, trace, acts) && n < |trace| && LostAt(trace, acts, k, n, r)
    ensures r < |trace[n].runs| && Lost(trace[n], r)
  {
    hide Lost, Loses, Apply, Enabled;
    LostExactlyWhen(cfg, trace, acts, k, r);
    if k + 1 < n {
      LostForGood(cfg, trace, acts, k, n - 1, r);
      LostExactlyWhen(cfg, trace, acts, n - 1, r);
    } else if Lost(trace[k], r) {
      LostNeverLoses(trace[k], acts[k], r);
    }
  }

  lemma LostNeverLoses(s: State, a: Action, r: RunId)
    requires r < |s.runs|
    ensures !(Lost(s, r) && Loses(s, a, r))
  {
  }

  /** When planners, workers and cancellers are idle and no job is pending, a run is still
      open if and only if some step lost it and nobody cancelled the run since. */
  lemma QuietMeansFinished(cfg: Config, trace: seq<State>, acts: seq<Action>, r: RunId)
    requires Execution(cfg, trace, acts) && Quiet(trace[|acts|]) && r < |trace[|acts|].runs|
    ensures !trace[|acts|].runs[r].status.Terminal() <==> exists k: nat :: LostAt(trace, acts, k, |acts|, r)
  {
    var n := |acts|;
    if !trace[n].runs[r].status.Terminal() {
      var k := LossFound(cfg, trace, acts, n, r);
    }
    if k: nat :| LostAt(trace, acts, k, n, r) {
      LostForGood(cfg, trace, acts, k, n, r);
    }
  }

  // ---- two ways to strand a run ----------------------------------------------------------------

  /** One run with one queued job, its plan done, and nobody about. */
  ghost predicate OneJobQueued(s: State) {
    && |s.runs| == |s.jobs| == 1 && s.runs[0].status == RunRunning
    && s.jobs[0].work.run == 0 && s.jobs[0].status.Queued?
    && s.planners == map[] && s.cancellers == map[] && s.workers == map[] && s.rowLocks == map[]
  }

  lemma OneJobPlanned(cfg: Config) returns (trace: seq<State>, acts: seq<Action>)
    ensures Execution(cfg, trace, acts) && |acts| == 3 && OneJobQueued(trace[3])
  {
    acts := [PlanCreate(0, 0), PlanEnqueue(0, "c", "host", "h", 0), PlanEnd(0)];
    var s0 := Start();
    var s1 := Apply(s0, cfg, acts[0]);
    var s2 := Apply(s1, cfg, acts[1]);
    var s3 := Apply(s2, cfg, acts[2]);
    hide Enabled, Apply;
    trace := [s0, s1, s2, s3];
  }

  lemma CancelledJob(s: State, cfg: Config)
    requires OneJobQueued(s)
    ensures Loses(s, CancelJob(0), 0) && Enabled(s, cfg, CancelJob(0))
    ensures var t := Apply(s, cfg, CancelJob(0)); Quiet(t) && |t.runs| == 1 && t.runs[0].status == RunRunning
  {
  }

  /** Cancelling the last pending job by id leaves its run running with nobody to finish it. */
  lemma CancelJobStrandsRun(cfg: Config) returns (trace: seq<State>, acts: seq<Action>)
    ensures Execution(cfg, trace, acts) && Quiet(trace[|acts|])
    ensures |trace[|acts|].runs| == 1 && trace[|acts|].runs[0].status == RunRunning
    ensures |acts| == 4 && acts[3] == CancelJob(0) && 0 < |trace[3].runs| && Loses(trace[3], acts[3], 0)
  {
    trace, acts := OneJobPlanned(cfg);
    CancelledJob(trace[3], cfg);
    OneMoreStep(cfg, trace, acts, CancelJob(0));
    hide Execution, Enabled, Apply, Quiet, Loses;
    trace, acts := trace + [Apply(trace[3], cfg, CancelJob(0))], acts + [CancelJob(0)];
  }

  lemma CancelBegun(s: State, cfg: Config)
    requires OneJobQueued(s)
    ensures Enabled(s, cfg, CancelRunJobs(0, 0))
    ensures var t := Apply(s, cfg, CancelRunJobs(0, 0));
      && |t.runs| == |t.jobs| == 1 && t.runs[0].status == RunRunning
      && t.jobs[0].work.run == 0 && t.jobs[0].status.Cancelled?
      && t.planners == map[] && t.cancellers == map[0 := 0] && t.workers == map[]
  {
  }

  lemma CancelLeft(s: State, cfg: Config)
    requires |s.runs| == |s.jobs| == 1 && s.runs[0].status == RunRunning
    requires s.jobs[0].work.run == 0 && s.jobs[0].status.Cancelled?
    requires s.planners == map[] && s.cancellers == map[0 := 0] && s.workers == map[]
    ensures Loses(s, CancelAbort(0), 0) && Enabled(s, cfg, CancelAbort(0))
    ensures var t := Apply(s, cfg, CancelAbort(0)); Quiet(t) && |t.runs| == 1 && t.runs[0].status == RunRunning
  {
  }

  /** A caller that goes away between the two updates of CancelRun leaves the run running,
      its jobs cancelled. */
  lemma CancelRunStrandsRun(cfg: Config) returns (trace: seq<State>, acts: seq<Action>)
    ensures Execution(cfg, trace, acts) && Quiet(trace[|acts|])
    ensures |trace[|acts|].runs| == 1 && trace[|acts|].runs[0].status == RunRunning
    ensures |acts| == 5 && acts[3..] == [CancelRunJobs(0, 0), CancelAbort(0)]
    ensures 0 < |trace[4].runs| && Loses(trace[4], acts[4], 0)
  {
    trace, acts := OneJobPlanned(cfg);
    var a, b := CancelRunJobs(0, 0), CancelAbort(0);
    CancelBegun(trace[3], cfg);
    OneMoreStep(cfg, trace, acts, a);
    trace, acts := trace + [Apply(trace[3], cfg, a)], acts + [a];
    CancelLeft(trace[4], cfg);
    OneMoreStep(cfg, trace, acts, b);
    hide Execution, Enabled, Apply, Quiet, Loses;
    trace, acts := trace + [Apply(trace[4], cfg, b)], acts + [b];
  }
}
