/** Runs are finished soundly, and no run with work done is left behind. */
module RunFinish {
  import opened Wrappers
  import opened Rows
  import opened Protocol
  import opened Invariants
  import opened LeaseSafety

  ghost predicate HasJob(jobs: seq<Job>, r: RunId) { exists i :: 0 <= i < |jobs| && jobs[i].work.run == r }

  ghost predicate Unfinished(jobs: seq<Job>, r: RunId) {
    exists i :: 0 <= i < |jobs| && jobs[i].work.run == r && !jobs[i].status.Terminal()
  }

  ghost predicate AnyFailed(jobs: seq<Job>, r: RunId) {
    exists i :: 0 <= i < |jobs| && jobs[i].work.run == r && (jobs[i].status.Failed? || jobs[i].status.TimedOut?)
  }

  /** A full count MaybeFinishRun holds between its two statements: the jobs it saw are the
      first `seen` rows, and they are still done. */
  ghost predicate FullCount(jobs: seq<Job>, r: RunId, verdict: RunStatus, seen: nat, total: nat, failed: nat) {
    && seen <= |jobs|
    && HasJob(jobs[..seen], r) && !Unfinished(jobs[..seen], r)
    && total == Count(OfRun(r), jobs[..seen]) && failed == Count(FailedIn(r), jobs[..seen])
    && verdict == (if AnyFailed(jobs[..seen], r) then RunFailed else RunSucceeded)
  }

  ghost predicate FinishOk(jobs: seq<Job>, pc: WorkerPc) {
    match pc
    case Finishing(r) => HasJob(jobs, r)
    case Closing(r, verdict, seen, total, failed) => FullCount(jobs, r, verdict, seen, total, failed)
    case _ => true
  }

  // ---- planners -----------------------------------------------------------------------------

  ghost predicate JobsPlanned(s: State) { forall i :: 0 <= i < |s.jobs| ==> s.jobs[i].work.run < |s.runs| }

  /** `kept` says whether the run has a job yet. */
  ghost predicate KeptOk(s: State) {
    forall pl :: pl in s.planners ==>
      && s.planners[pl].run < |s.runs|
      && (s.planners[pl].kept == 0 <==> !HasJob(s.jobs, s.planners[pl].run))
  }

  predicate OwnRuns(s: State) {
    forall pl, pl' :: pl in s.planners && pl' in s.planners && pl != pl' ==>
      s.planners[pl].run != s.planners[pl'].run
  }

  ghost predicate PlansOk(s: State) { JobsPlanned(s) && KeptOk(s) && OwnRuns(s) }

  ghost predicate FinishInv(s: State) {
    PlansOk(s) && forall w: WorkerId :: FinishOk(s.jobs, Pc(s, w))
  }

  // ---- counting is exact ----------------------------------------------------------------------

  lemma CountsSay(jobs: seq<Job>, r: RunId)
    ensures Count(OfRun(r), jobs) == 0 <==> !HasJob(jobs, r)
    ensures Count(DoneIn(r), jobs) < Count(OfRun(r), jobs) <==> Unfinished(jobs, r)
    ensures Count(FailedIn(r), jobs) > 0 <==> AnyFailed(jobs, r)
  {
    CountNone(OfRun(r), jobs);
    CountCompare(DoneIn(r), jobs, OfRun(r), jobs);
    CountNone(FailedIn(r), jobs);
    if HasJob(jobs, r) { var i :| 0 <= i < |jobs| && jobs[i].work.run == r; assert Matches(OfRun(r), jobs[i]); }
    if Unfinished(jobs, r) {
      var i :| 0 <= i < |jobs| && jobs[i].work.run == r && !jobs[i].status.Terminal();
      assert Matches(OfRun(r), jobs[i]) && !Matches(DoneIn(r), jobs[i]);
    }
    if AnyFailed(jobs, r) {
      var i :| 0 <= i < |jobs| && jobs[i].work.run == r && (jobs[i].status.Failed? || jobs[i].status.TimedOut?);
      assert Matches(FailedIn(r), jobs[i]);
    }
  }

  /** Rows of the run that were done stay as they were, so a full count stays full. */
  lemma FullCountStays(was: seq<Job>, jobs: seq<Job>, r: RunId, verdict: RunStatus, seen: nat, total: nat, failed: nat)
    requires Extends(was, jobs) && FullCount(was, r, verdict, seen, total, failed)
    ensures FullCount(jobs, r, verdict, seen, total, failed)
  {
    var a, b := was[..seen], jobs[..seen];
    assert forall i :: 0 <= i < seen ==> b[i].work == a[i].work && (a[i].work.run == r ==> b[i] == a[i]);
    assert forall i :: 0 <= i < seen ==> Matches(OfRun(r), a[i]) == Matches(OfRun(r), b[i]);
    assert forall i :: 0 <= i < seen ==> Matches(FailedIn(r), a[i]) == Matches(FailedIn(r), b[i]);
    CountCompare(OfRun(r), a, OfRun(r), b);
    CountCompare(FailedIn(r), a, FailedIn(r), b);
    var i :| 0 <= i < seen && a[i].work.run == r;
    assert b[i].work.run == r;
    assert AnyFailed(a, r) <==> AnyFailed(b, r) by {
      if AnyFailed(a, r) {
        var k :| 0 <= k < seen && a[k].work.run == r && (a[k].status.Failed? || a[k].status.TimedOut?);
        assert b[k] == a[k];
      }
    }
  }

  lemma FinishOkStays(was: seq<Job>, jobs: seq<Job>, pc: WorkerPc)
    requires Extends(was, jobs) && FinishOk(was, pc)
    ensures FinishOk(jobs, pc)
  {
    match pc
    case Closing(r, verdict, seen, total, failed) => FullCountStays(was, jobs, r, verdict, seen, total, failed);
    case Finishing(r) =>
      var i :| 0 <= i < |was| && was[i].work.run == r;
      assert jobs[i].work.run == r;
    case _ =>
  }

  lemma DoFinishOk(s: State, cfg: Config, w: WorkerId, pc: WorkerPc, step: Step)
    requires CanStep(s, cfg, pc, step) && FinishOk(s.jobs, pc)
    requires Extends(s.jobs, Do(s, cfg, w, pc, step).0.jobs)
    ensures var r := Do(s, cfg, w, pc, step); FinishOk(r.0.jobs, r.1)
  {
    var r := Do(s, cfg, w, pc, step);
    if step.Complete? {
      assert r.0.jobs[pc.job].work.run == s.jobs[pc.job].work.run;
    } else if step.FinishCount? {
      CountsSay(s.jobs, pc.run);
      assert s.jobs[..|s.jobs|] == s.jobs;
    }
  }

  lemma HasJobStays(was: seq<Job>, jobs: seq<Job>, r: RunId)
    requires Extends(was, jobs)
    ensures HasJob(was, r) ==> HasJob(jobs, r)
    ensures |jobs| == |was| ==> (HasJob(was, r) <==> HasJob(jobs, r))
  {
  }

  lemma DoPlans(s: State, cfg: Config, w: WorkerId, pc: WorkerPc, step: Step)
    requires CanStep(s, cfg, pc, step)
    ensures var s' := Do(s, cfg, w, pc, step).0;
      |s'.runs| == |s.runs| && s'.planners == s.planners && |s'.jobs| == |s.jobs|
  {
  }

  /** Only an enqueue gives a run its first job. */
  ghost predicate GainsJob(s: State, a: Action, r: RunId) {
    a.PlanEnqueue? && a.planner in s.planners && s.planners[a.planner].run == r
  }

  lemma RunsWithJobs(s: State, cfg: Config, a: Action, r: RunId)
    requires Enabled(s, cfg, a) && Extends(s.jobs, Apply(s, cfg, a).jobs)
    ensures HasJob(Apply(s, cfg, a).jobs, r) <==> HasJob(s.jobs, r) || GainsJob(s, a, r)
  {
    var jobs := Apply(s, cfg, a).jobs;
    HasJobStays(s.jobs, jobs, r);
    if a.PlanEnqueue? {
      assert jobs[|s.jobs|].work.run == s.planners[a.planner].run;
      assert forall i :: 0 <= i < |s.jobs| ==> jobs[i].work == s.jobs[i].work;
    } else if a.Worker? {
      hide Do, CanStep;
      DoPlans(s, cfg, a.w, Pc(s, a.w), a.step);
    }
  }

  lemma EnvOwnRuns(s: State, cfg: Config, a: Action)
    requires Enabled(s, cfg, a) && !a.Worker? && OwnRuns(s)
    requires forall pl :: pl in s.planners ==> s.planners[pl].run < |s.runs|
    ensures OwnRuns(Env(s, a))
  {
  }

  lemma EnvPlanner(s: State, cfg: Config, a: Action, pl: PlannerId)
    requires Enabled(s, cfg, a) && !a.Worker? && pl in Env(s, a).planners
    ensures |Env(s, a).runs| == |s.runs| + if a.PlanCreate? then 1 else 0
    ensures var pc := Env(s, a).planners[pl];
      if a.PlanCreate? && a.planner == pl then pc == PlanPc(|s.runs|, 0, 0)
      else
        && pl in s.planners && pc.run == s.planners[pl].run
        && pc.kept == s.planners[pl].kept + if a.PlanEnqueue? && a.planner == pl then 1 else 0
  {
  }

  lemma EnvJobsPlanned(s: State, cfg: Config, a: Action)
    requires Enabled(s, cfg, a) && !a.Worker? && JobsPlanned(s) && Extends(s.jobs, Env(s, a).jobs)
    ensures JobsPlanned(Env(s, a))
  {
  }

  lemma EnvKept(s: State, cfg: Config, a: Action, pl: PlannerId)
    requires Enabled(s, cfg, a) && !a.Worker? && PlansOk(s) && pl in Env(s, a).planners
    requires forall r: RunId :: HasJob(Env(s, a).jobs, r) <==> HasJob(s.jobs, r) || GainsJob(s, a, r)
    ensures var s', pc := Env(s, a), Env(s, a).planners[pl];
      pc.run < |s'.runs| && (pc.kept == 0 <==> !HasJob(s'.jobs, pc.run))
  {
    if a.PlanCreate? { NoSuchRun(s.jobs, |s.runs|); }
    EnvPlanner(s, cfg, a, pl);
    hide Env, HasJob, JobsPlanned;
    assert pl in s.planners ==> s.planners[pl].run < |s.runs|;
  }

  lemma EnvPlans(s: State, cfg: Config, a: Action)
    requires Enabled(s, cfg, a) && !a.Worker? && PlansOk(s) && Extends(s.jobs, Env(s, a).jobs)
    requires forall r: RunId :: HasJob(Env(s, a).jobs, r) <==> HasJob(s.jobs, r) || GainsJob(s, a, r)
    ensures PlansOk(Env(s, a))
  {
    hide Env, HasJob, JobsPlanned, OwnRuns;
    EnvJobsPlanned(s, cfg, a);
    EnvOwnRuns(s, cfg, a);
    forall pl | pl in Env(s, a).planners
      ensures Env(s, a).planners[pl].run < |Env(s, a).runs|
        && (Env(s, a).planners[pl].kept == 0 <==> !HasJob(Env(s, a).jobs, Env(s, a).planners[pl].run))
    {
      EnvKept(s, cfg, a, pl);
    }
  }

  lemma NoSuchRun(jobs: seq<Job>, r: RunId)
    requires forall i :: 0 <= i < |jobs| ==> jobs[i].work.run < r
    ensures !HasJob(jobs, r)
  {
  }

  lemma PlansStep(s: State, cfg: Config, a: Action)
    requires Enabled(s, cfg, a) && PlansOk(s) && Extends(s.jobs, Apply(s, cfg, a).jobs)
    ensures PlansOk(Apply(s, cfg, a))
  {
    hide Do, Env, CanStep, HasJob;
    var s' := Apply(s, cfg, a);
    forall r: RunId ensures HasJob(s'.jobs, r) <==> HasJob(s.jobs, r) || GainsJob(s, a, r) {
      RunsWithJobs(s, cfg, a, r);
    }
    if a.Worker? {
      DoPlans(s, cfg, a.w, Pc(s, a.w), a.step);
    } else {
      EnvPlans(s, cfg, a);
    }
  }

  lemma FinishInvKept(s: State, cfg: Config, a: Action)
    requires Enabled(s, cfg, a) && Inv(s, cfg) && FinishInv(s)
    ensures FinishInv(Apply(s, cfg, a))
  {
    hide Do, Env, CanStep, FinishOk, PlansOk, Locks, AllRowsOk, AttemptOk;
    var s' := Apply(s, cfg, a);
    StepExtends(s, cfg, a);
    PlansStep(s, cfg, a);
    forall w: WorkerId ensures FinishOk(s'.jobs, Pc(s', w)) {
      assert FinishOk(s.jobs, Pc(s, w));
      if a.Worker? && a.w == w {
        DoFinishOk(s, cfg, w, Pc(s, w), a.step);
      } else {
        FinishOkStays(s.jobs, s'.jobs, Pc(s, w));
      }
    }
  }

  lemma {:induction false} FinishReachable(cfg: Config, trace: seq<State>, acts: seq<Action>, i: nat)
    requires Execution(cfg, trace, acts) && i < |trace|
    ensures FinishInv(trace[i])
  {
    if i > 0 {
      FinishReachable(cfg, trace, acts, i - 1);
      Reachable(cfg, trace, acts, i - 1);
      assert trace[(i - 1) + 1] == Apply(trace[i - 1], cfg, acts[i - 1]);
      FinishInvKept(trace[i - 1], cfg, acts[i - 1]);
    }
  }

  // ---- what is written when a run is finished ------------------------------------------------

  /** MaybeFinishRun counts in one statement and writes in another. At the write, whatever
      happened in between: every job it counted is done, its counts still describe those
      rows, and a run that was not terminal becomes failed exactly when one of them failed
      or timed out, succeeded otherwise. A terminal run is left alone. */
  lemma FinishIsSound(cfg: Config, trace: seq<State>, acts: seq<Action>, i: nat)
    requires Execution(cfg, trace, acts) && i < |acts|
    requires acts[i].Worker? && acts[i].step.FinishUpdate?
    ensures Pc(trace[i], acts[i].w).Closing?
    ensures var pc, jobs := Pc(trace[i], acts[i].w), trace[i].jobs;
      && pc.seen <= |jobs| && pc.run < |trace[i].runs| <= |trace[i + 1].runs|
      && HasJob(jobs[..pc.seen], pc.run) && !Unfinished(jobs[..pc.seen], pc.run)
      && var was, row := trace[i].runs[pc.run], trace[i + 1].runs[pc.run];
         if was.status.Terminal() then row == was
         else
           && row.status == (if AnyFailed(jobs[..pc.seen], pc.run) then RunFailed else RunSucceeded)
           && row.summary == Counts(Count(OfRun(pc.run), jobs[..pc.seen]), Count(FailedIn(pc.run), jobs[..pc.seen]))
           && row.finishedAt == Some(trace[i].now)
  {
    FinishReachable(cfg, trace, acts, i);
    var s := trace[i];
    var pc := Pc(s, acts[i].w);
    assert FinishOk(s.jobs, pc);
    var k :| 0 <= k < pc.seen && s.jobs[..pc.seen][k].work.run == pc.run;
    assert s.jobs[k].work.run == pc.run;
  }

  // ---- terminal runs --------------------------------------------------------------------------

  ghost predicate EndsEmptyPlan(s: State, a: Action, r: RunId) {
    a.PlanEnd? && a.planner in s.planners && s.planners[a.planner].run == r && s.planners[a.planner].kept == 0
  }

  /** A step that ends a plan with nothing kept writes its run unguarded; every other step
      leaves a terminal run as it is. */
  lemma RunRowStep(s: State, cfg: Config, a: Action, r: RunId)
    requires Enabled(s, cfg, a) && r < |s.runs|
    ensures r < |Apply(s, cfg, a).runs|
    ensures EndsEmptyPlan(s, a, r) ==> Apply(s, cfg, a).runs[r].status == RunSucceeded
    ensures s.runs[r].status.Terminal() && !EndsEmptyPlan(s, a, r) ==> Apply(s, cfg, a).runs[r] == s.runs[r]
  {
    if a.Worker? { DoRun(s, cfg, a.w, Pc(s, a.w), a.step, r); hide Do, CanStep; }
  }

  lemma DoRun(s: State, cfg: Config, w: WorkerId, pc: WorkerPc, step: Step, r: RunId)
    requires CanStep(s, cfg, pc, step) && r < |s.runs|
    ensures r < |Do(s, cfg, w, pc, step).0.runs|
    ensures s.runs[r].status.Terminal() ==> Do(s, cfg, w, pc, step).0.runs[r] == s.runs[r]
  {
  }

  /** A run whose planner has kept nothing yet was never finished by a worker. */
  ghost predicate EmptyPlans(s: State) {
    forall pl :: pl in s.planners && s.planners[pl].kept == 0 && s.planners[pl].run < |s.runs| ==>
      !s.runs[s.planners[pl].run].status.RunSucceeded? && !s.runs[s.planners[pl].run].status.RunFailed?
  }

  lemma DoEmptyPlans(s: State, cfg: Config, w: WorkerId, pc: WorkerPc, step: Step)
    requires CanStep(s, cfg, pc, step) && EmptyPlans(s) && PlansOk(s) && FinishOk(s.jobs, pc)
    ensures EmptyPlans(Do(s, cfg, w, pc, step).0)
  {
    if pc.Closing? {
      var k :| 0 <= k < pc.seen && s.jobs[..pc.seen][k].work.run == pc.run;
      assert s.jobs[k].work.run == pc.run;
    }
  }

  lemma EnvEmptyPlans(s: State, cfg: Config, a: Action)
    requires Enabled(s, cfg, a) && !a.Worker? && EmptyPlans(s) && PlansOk(s)
    ensures EmptyPlans(Env(s, a))
  {
    hide Env, HasJob, JobsPlanned;
    forall pl | pl in Env(s, a).planners && Env(s, a).planners[pl].kept == 0
                && Env(s, a).planners[pl].run < |Env(s, a).runs|
      ensures !Env(s, a).runs[Env(s, a).planners[pl].run].status.RunSucceeded?
      ensures !Env(s, a).runs[Env(s, a).planners[pl].run].status.RunFailed?
    {
      EnvPlanner(s, cfg, a, pl);
      EnvRun(s, cfg, a, Env(s, a).planners[pl].run);
    }
  }

  lemma EnvRun(s: State, cfg: Config, a: Action, r: RunId)
    requires Enabled(s, cfg, a) && !a.Worker? && r < |Env(s, a).runs|
    ensures r >= |s.runs| ==> Env(s, a).runs[r].status.RunRunning?
    ensures r < |s.runs| ==>
      || Env(s, a).runs[r].status == s.runs[r].status
      || Env(s, a).runs[r].status.RunCancelled?
      || (EndsEmptyPlan(s, a, r) && a.planner !in Env(s, a).planners)
  {
  }

  lemma {:induction false} EmptyPlansReachable(cfg: Config, trace: seq<State>, acts: seq<Action>, i: nat)
    requires Execution(cfg, trace, acts) && i < |trace|
    ensures EmptyPlans(trace[i])
  {
    if i > 0 {
      hide Do, Env, CanStep;
      EmptyPlansReachable(cfg, trace, acts, i - 1);
      FinishReachable(cfg, trace, acts, i - 1);
      var s, a := trace[i - 1], acts[i - 1];
      assert trace[(i - 1) + 1] == Apply(s, cfg, a);
      if a.Worker? {
        assert FinishOk(s.jobs, Pc(s, a.w));
        DoEmptyPlans(s, cfg, a.w, Pc(s, a.w), a.step);
      } else {
        EnvEmptyPlans(s, cfg, a);
      }
    }
  }

  /** A terminal run changes in exactly one way: it was cancelled while its plan had kept
      nothing, and the end of the plan overwrites that with succeeded. */
  lemma TerminalRunChangesExactlyWhen(cfg: Config, trace: seq<State>, acts: seq<Action>, i: nat, r: RunId)
    requires Execution(cfg, trace, acts) && i < |acts| && r < |trace[i].runs|
    requires trace[i].runs[r].status.Terminal()
    ensures r < |trace[i + 1].runs|
    ensures trace[i + 1].runs[r].status != trace[i].runs[r].status <==> EndsEmptyPlan(trace[i], acts[i], r)
    ensures !EndsEmptyPlan(trace[i], acts[i], r) ==> trace[i + 1].runs[r] == trace[i].runs[r]
    ensures EndsEmptyPlan(trace[i], acts[i], r) ==>
      trace[i].runs[r].status.RunCancelled? && trace[i + 1].runs[r].status.RunSucceeded?
  {
    EmptyPlansReachable(cfg, trace, acts, i);
    RunRowStep(trace[i], cfg, acts[i], r);
  }

  // ---- no lost finish -------------------------------------------------------------------------

  predicate ClosesRun(pc: WorkerPc, r: RunId) { (pc.Finishing? || pc.Closing?) && pc.run == r }

  /** What is under way for run r ends in its becoming terminal, unless it is taken away. (A
      run that is not in hand may still be brought back, by a planner with more to enqueue
      or a worker still on one of its cancelled jobs: see Lost for those beyond that.) */
  ghost predicate InHand(s: State, r: RunId)
    requires r < |s.runs|
  {
    || s.runs[r].status.Terminal()
    || (!HasJob(s.jobs, r) && exists pl :: pl in s.planners && s.planners[pl].run == r)
    || Unfinished(s.jobs, r)
    || (exists w: WorkerId :: ClosesRun(Pc(s, w), r))
    || (exists c :: c in s.cancellers && s.cancellers[c] == r)
  }

  ghost predicate OnlyCanceller(s: State, c: CancellerId, r: RunId) {
    && c in s.cancellers && s.cancellers[c] == r
    && forall d :: d in s.cancellers && d != c ==> s.cancellers[d] != r
  }

  /** The step takes away the one thing that keeps run r in hand: it cancels by id the last
      unfinished job, or is the planner's failure before the first job, or the death of the
      one worker that was to close the run, or the failure of the one cancellation between
      its updates. */
  ghost predicate OnlyHope(s: State, a: Action, r: RunId)
    requires r < |s.runs|
  {
    && !s.runs[r].status.Terminal()
    && (a.CancelAbort? || forall c :: c in s.cancellers ==> s.cancellers[c] != r)
    && match a
       case CancelAbort(c) =>
         && OnlyCanceller(s, c, r) && !Unfinished(s.jobs, r)
         && (HasJob(s.jobs, r) || forall pl :: pl in s.planners ==> s.planners[pl].run != r)
         && (forall w: WorkerId :: !ClosesRun(Pc(s, w), r))
       case CancelJob(j) =>
         && j < |s.jobs| && s.jobs[j].work.run == r && !s.jobs[j].status.Terminal()
         && (forall i :: 0 <= i < |s.jobs| && i != j && s.jobs[i].work.run == r ==> s.jobs[i].status.Terminal())
         && (forall w: WorkerId :: !ClosesRun(Pc(s, w), r))
       case PlanAbort(pl) => pl in s.planners && s.planners[pl].run == r && !HasJob(s.jobs, r)
       case Worker(w, Crash) =>
         && ClosesRun(Pc(s, w), r) && !Unfinished(s.jobs, r)
         && (forall v: WorkerId :: v != w ==> !ClosesRun(Pc(s, v), r))
       case _ => false
  }

  lemma UnfinishedStep(s: State, cfg: Config, a: Action, r: RunId, i: nat)
    requires Enabled(s, cfg, a) && Locks(s, cfg) && r < |s.runs| && !OnlyHope(s, a, r)
    requires i < |s.jobs| && s.jobs[i].work.run == r && !s.jobs[i].status.Terminal()
    ensures r < |Apply(s, cfg, a).runs| && InHand(Apply(s, cfg, a), r)
  {
    hide Locks;
    RunRowStep(s, cfg, a, r);
    RowStep(s, cfg, a, i);
    var s' := Apply(s, cfg, a);
    if !s'.jobs[i].status.Terminal() {
      assert Unfinished(s'.jobs, r);
    } else if a.Worker? {
      LeaseOf(s, cfg, a.w);
      assert ClosesRun(Pc(s', a.w), r);
    } else if a.CancelRunJobs? {
      assert a.canceller in s'.cancellers && s'.cancellers[a.canceller] == r;
    } else {
      OtherHope(s, cfg, a.job, r);
    }
  }

  /** After a job is cancelled by id, what else kept the run in hand still does. */
  lemma OtherHope(s: State, cfg: Config, j: JobId, r: RunId)
    requires Enabled(s, cfg, CancelJob(j)) && r < |s.runs| && !OnlyHope(s, CancelJob(j), r)
    requires s.jobs[j].work.run == r && !s.jobs[j].status.Terminal()
    ensures InHand(Apply(s, cfg, CancelJob(j)), r)
  {
    var s' := Apply(s, cfg, CancelJob(j));
    if s.runs[r].status.Terminal() {
    } else if c :| c in s.cancellers && s.cancellers[c] == r {
      assert c in s'.cancellers;
    } else if w: WorkerId :| ClosesRun(Pc(s, w), r) {
      assert ClosesRun(Pc(s', w), r);
    } else {
      var i :| 0 <= i < |s.jobs| && i != j && s.jobs[i].work.run == r && !s.jobs[i].status.Terminal();
      assert s'.jobs[i] == s.jobs[i];
    }
  }

  lemma CloserStep(s: State, cfg: Config, a: Action, r: RunId, w: WorkerId)
    requires Enabled(s, cfg, a) && Inv(s, cfg) && FinishInv(s) && r < |s.runs| && !OnlyHope(s, a, r)
    requires ClosesRun(Pc(s, w), r)
    ensures r < |Apply(s, cfg, a).runs| && InHand(Apply(s, cfg, a), r)
  {
    hide Locks, AllRowsOk, AttemptOk, PlansOk;
    RunRowStep(s, cfg, a, r);
    var s' := Apply(s, cfg, a);
    if !(a.Worker? && a.w == w) {
      assert ClosesRun(Pc(s', w), r);
    } else if a.step.Crash? {
      CrashStep(s, cfg, r, w);
    } else if a.step.FinishCount? {
      assert FinishOk(s.jobs, Pc(s, w));
      CountsSay(s.jobs, r);
      assert Pc(s', w).Closing? || Unfinished(s'.jobs, r);
      assert Pc(s', w).Closing? ==> ClosesRun(Pc(s', w), r);
    } else {
      assert FinishOk(s.jobs, Pc(s, w));
      assert a.step.FinishUpdate?;
      assert s'.runs[r].status.Terminal();
    }
  }

  lemma CrashStep(s: State, cfg: Config, r: RunId, w: WorkerId)
    requires Enabled(s, cfg, Worker(w, Crash)) && r < |s.runs| && !OnlyHope(s, Worker(w, Crash), r)
    requires ClosesRun(Pc(s, w), r)
    ensures InHand(Apply(s, cfg, Worker(w, Crash)), r)
  {
    hide HasJob, Unfinished;
    var s' := Apply(s, cfg, Worker(w, Crash));
    if v: WorkerId :| v != w && ClosesRun(Pc(s, v), r) { assert ClosesRun(Pc(s', v), r); }
  }

  lemma CancellerStep(s: State, cfg: Config, a: Action, r: RunId, c: CancellerId)
    requires Enabled(s, cfg, a) && r < |s.runs| && c in s.cancellers && s.cancellers[c] == r
    requires a == CancelAbort(c) ==> !OnlyHope(s, a, r)
    ensures r < |Apply(s, cfg, a).runs| && InHand(Apply(s, cfg, a), r)
  {
    if a == CancelAbort(c) {
      AbortStep(s, cfg, c, r);
      return;
    }
    hide Do, CanStep, HasJob, Unfinished;
    RunRowStep(s, cfg, a, r);
    var s' := Apply(s, cfg, a);
    assert s'.runs[r].status.Terminal() || (c in s'.cancellers && s'.cancellers[c] == r);
  }

  lemma AbortStep(s: State, cfg: Config, c: CancellerId, r: RunId)
    requires Enabled(s, cfg, CancelAbort(c)) && r < |s.runs| && s.cancellers[c] == r
    requires !OnlyHope(s, CancelAbort(c), r)
    ensures r < |Apply(s, cfg, CancelAbort(c)).runs| && InHand(Apply(s, cfg, CancelAbort(c)), r)
  {
    hide HasJob, Unfinished;
    var s' := Apply(s, cfg, CancelAbort(c));
    if d :| d in s.cancellers && d != c && s.cancellers[d] == r {
      assert d in s'.cancellers && s'.cancellers[d] == r;
    } else if w: WorkerId :| ClosesRun(Pc(s, w), r) {
      assert ClosesRun(Pc(s', w), r);
    }
  }

  lemma PlannerStep(s: State, cfg: Config, a: Action, r: RunId, pl: PlannerId)
    requires Enabled(s, cfg, a) && Inv(s, cfg) && FinishInv(s) && r < |s.runs| && !OnlyHope(s, a, r)
    requires pl in s.planners && s.planners[pl].run == r && !HasJob(s.jobs, r)
    requires !s.runs[r].status.Terminal() && forall c :: c in s.cancellers ==> s.cancellers[c] != r
    ensures r < |Apply(s, cfg, a).runs| && InHand(Apply(s, cfg, a), r)
  {
    hide Do, CanStep, Inv, Extends, HasJob;
    assert s.planners[pl].kept == 0;
    hide FinishInv;
    RunRowStep(s, cfg, a, r);
    StepExtends(s, cfg, a);
    RunsWithJobs(s, cfg, a, r);
    var s' := Apply(s, cfg, a);
    if GainsJob(s, a, r) {
      var i := |s.jobs|;
      assert s'.jobs[i].work.run == r && !s'.jobs[i].status.Terminal();
      assert Unfinished(s'.jobs, r);
    } else if !(a.PlanEnd? && a.planner == pl) {
      assert pl in s'.planners && s'.planners[pl].run == r;
    }
  }

  lemma InHandKept(s: State, cfg: Config, a: Action, r: RunId)
    requires Enabled(s, cfg, a) && Inv(s, cfg) && FinishInv(s)
    requires r < |s.runs| ==> InHand(s, r) && !OnlyHope(s, a, r)
    requires r < |Apply(s, cfg, a).runs|
    ensures InHand(Apply(s, cfg, a), r)
  {
    if r >= |s.runs| {
      NewRun(s, cfg, a, r);
    } else {
      hide Apply, Enabled, Locks, AllRowsOk, AttemptOk, PlansOk, FinishOk;
      if s.runs[r].status.Terminal() {
        RunRowStep(s, cfg, a, r);
      } else if Unfinished(s.jobs, r) {
        var i :| 0 <= i < |s.jobs| && s.jobs[i].work.run == r && !s.jobs[i].status.Terminal();
        UnfinishedStep(s, cfg, a, r, i);
      } else if w: WorkerId :| ClosesRun(Pc(s, w), r) {
        CloserStep(s, cfg, a, r, w);
      } else if c :| c in s.cancellers && s.cancellers[c] == r {
        CancellerStep(s, cfg, a, r, c);
      } else {
        var pl :| pl in s.planners && s.planners[pl].run == r;
        PlannerStep(s, cfg, a, r, pl);
      }
    }
  }

  lemma NewRun(s: State, cfg: Config, a: Action, r: RunId)
    requires Enabled(s, cfg, a) && FinishInv(s) && |s.runs| <= r < |Apply(s, cfg, a).runs|
    ensures InHand(Apply(s, cfg, a), r)
  {
    if a.Worker? {
      hide Do, CanStep;
      DoPlans(s, cfg, a.w, Pc(s, a.w), a.step);
    } else {
      NoSuchRun(s.jobs, r);
      assert a.planner in Apply(s, cfg, a).planners;
    }
  }

  lemma OnlyHopeDrops(s: State, cfg: Config, a: Action, r: RunId)
    requires Enabled(s, cfg, a) && FinishInv(s) && r < |s.runs| && OnlyHope(s, a, r)
    ensures r < |Apply(s, cfg, a).runs| && !InHand(Apply(s, cfg, a), r)
  {
    var s' := Apply(s, cfg, a);
    hide FinishOk;
    forall w: WorkerId ensures ClosesRun(Pc(s, w), r) ==> HasJob(s.jobs, r) {
      if ClosesRun(Pc(s, w), r) { CloserHasJob(s.jobs, Pc(s, w)); }
    }
    match a {
      case PlanAbort(pl) =>
        assert forall w: WorkerId :: Pc(s', w) == Pc(s, w);
      case CancelAbort(_) =>
        assert forall w: WorkerId :: Pc(s', w) == Pc(s, w);
      case CancelJob(j) =>
        assert forall w: WorkerId :: Pc(s', w) == Pc(s, w);
        assert s'.jobs[j].work.run == r;
      case Worker(w, _) =>
        assert forall v: WorkerId :: v != w ==> Pc(s', v) == Pc(s, v);
        assert Pc(s', w).Idle? && s'.jobs == s.jobs;
    }
  }

  lemma CloserHasJob(jobs: seq<Job>, pc: WorkerPc)
    requires FinishOk(jobs, pc) && (pc.Finishing? || pc.Closing?)
    ensures HasJob(jobs, pc.run)
  {
  }

  /** Of all the steps of all the processes, exactly those of OnlyHope take a run out of hand. */
  lemma OutOfHandExactlyWhen(cfg: Config, trace: seq<State>, acts: seq<Action>, i: nat, r: RunId)
    requires Execution(cfg, trace, acts) && i < |acts| && r < |trace[i].runs| && InHand(trace[i], r)
    ensures r < |trace[i + 1].runs|
    ensures InHand(trace[i + 1], r) <==> !OnlyHope(trace[i], acts[i], r)
  {
    hide InHand, OnlyHope;
    var s, a := trace[i], acts[i];
    assert trace[i + 1] == Apply(s, cfg, a);
    Reachable(cfg, trace, acts, i);
    FinishReachable(cfg, trace, acts, i);
    hide Apply, Enabled;
    RunRowStep(s, cfg, a, r);
    if OnlyHope(s, a, r) { OnlyHopeDrops(s, cfg, a, r); } else { InHandKept(s, cfg, a, r); }
  }

  /** No lost finish: as long as no step took a run out of hand, the run is terminal, or
      is being planned with nothing enqueued yet, or has a job to do, or a worker is about
      to count it or holds a full count for it, or a cancellation is between its updates. */
  lemma {:induction false} NoLostFinish(cfg: Config, trace: seq<State>, acts: seq<Action>, i: nat, r: RunId)
    requires Execution(cfg, trace, acts) && i < |trace| && r < |trace[i].runs|
    requires forall k :: 0 <= k < i && r < |trace[k].runs| ==> !OnlyHope(trace[k], acts[k], r)
    ensures InHand(trace[i], r)
  {
    hide Do, Env, CanStep, Apply, Enabled, InHand, OnlyHope;
    if i > 0 {
      hide Init;
      var s, a := trace[i - 1], acts[i - 1];
      assert trace[(i - 1) + 1] == Apply(s, cfg, a);
      if r < |s.runs| { NoLostFinish(cfg, trace, acts, i - 1, r); }
      Reachable(cfg, trace, acts, i - 1);
      FinishReachable(cfg, trace, acts, i - 1);
      InHandKept(s, cfg, a, r);
    }
  }

  ghost predicate Quiet(s: State) {
    && s.planners == map[] && s.cancellers == map[]
    && (forall w: WorkerId :: Pc(s, w).Idle?)
    && (forall j :: 0 <= j < |s.jobs| ==> s.jobs[j].status.Terminal())
  }

  /** Once planners, workers and cancellers are idle and no job is pending, every run is
      terminal, provided no job was cancelled by id, no plan failed, no cancellation failed
      between its updates and no worker died while it was closing a run. */
  lemma FaultlessRunsFinish(cfg: Config, trace: seq<State>, acts: seq<Action>, r: RunId)
    requires Execution(cfg, trace, acts) && Quiet(trace[|acts|]) && r < |trace[|acts|].runs|
    requires forall k :: 0 <= k < |acts| ==>
      && !acts[k].CancelJob? && !acts[k].PlanAbort? && !acts[k].CancelAbort?
      && (acts[k].Worker? && acts[k].step.Crash? ==>
            !Pc(trace[k], acts[k].w).Finishing? && !Pc(trace[k], acts[k].w).Closing?)
    ensures trace[|acts|].runs[r].status.Terminal()
  {
    NoLostFinish(cfg, trace, acts, |acts|, r);
  }

  // ---- an overwritten cancellation ------------------------------------------------------------

  function Start(): State { State(0, [], [], map[0 := 0], map[], map[], map[], map[], map[], []) }

  /** Cancelling a run whose plan then keeps nothing ends with the run succeeded. */
  lemma CancelledPlanSucceeds(cfg: Config) returns (trace: seq<State>, acts: seq<Action>)
    ensures Execution(cfg, trace, acts) && |acts| == 4
    ensures |trace[3].runs| == |trace[4].runs| == 1
    ensures trace[3].runs[0].status == RunCancelled && trace[4].runs[0].status == RunSucceeded
  {
    acts := [PlanCreate(0, 0), CancelRunJobs(0, 0), CancelRunStatus(0), PlanEnd(0)];
    var s0 := Start();
    var s1 := Apply(s0, cfg, acts[0]);
    var s2 := Apply(s1, cfg, acts[1]);
    var s3 := Apply(s2, cfg, acts[2]);
    var s4 := Apply(s3, cfg, acts[3]);
    trace := [s0, s1, s2, s3, s4];
  }
}
