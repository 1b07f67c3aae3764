/** From the stored scope rules to the finding table: over whole executions of the protocol,
    every finding is about a target that was in scope when its job was planned. */
module ScopeSafety {
  import opened Wrappers
  import opened Rows
  import opened Protocol
  import opened LeaseSafety
  import opened RunFinish
  import Scope
  import ScopeStore
  import opened Planner
  import opened Findings

  /** One call of Plan: the rule table it read, when, for what request, and by whom. */
  datatype PlanCall = PlanCall(pl: PlannerId, req: Request, table: seq<ScopeStore.Stored>, net: Scope.Net, now: int) {
    function Sc(): Scoping { Scoping(net, ScopeStore.Listed(table, req.project), now) }

    ghost predicate Valid() { Sc().Valid() }
  }

  /** The step belongs to the plan of run r. */
  predicate PlansRun(s: State, a: Action, r: RunId) {
    match a
    case PlanCreate(_, _) => |s.runs| == r
    case PlanEnqueue(pl, _, _, _, _) => pl in s.planners && s.planners[pl].run == r
    case PlanDrop(pl) => pl in s.planners && s.planners[pl].run == r
    case PlanEnd(pl) => pl in s.planners && s.planners[pl].run == r
    case PlanAbort(pl) => pl in s.planners && s.planners[pl].run == r
    case _ => false
  }

  /** What the planner of run r did in the first n steps. */
  function PlanSoFar(trace: seq<State>, acts: seq<Action>, r: RunId, n: nat): seq<Action>
    requires n <= |acts| <= |trace|
  {
    if n == 0 then []
    else PlanSoFar(trace, acts, r, n - 1) + if PlansRun(trace[n - 1], acts[n - 1], r) then [acts[n - 1]] else []
  }

  /** Some first steps of the plan, and perhaps its failure at the next. */
  predicate RunsAs(done: seq<Action>, plan: seq<Action>, pl: PlannerId) {
    || done <= plan
    || (done != [] && done[|done| - 1] == PlanAbort(pl) && done[..|done| - 1] <= plan)
  }

  /** The plan of run r, as far as it has got. */
  ghost predicate Follows(trace: seq<State>, acts: seq<Action>, r: RunId, call: PlanCall)
    requires |acts| <= |trace|
  {
    && call.Valid()
    && RunsAs(PlanSoFar(trace, acts, r, |acts|), PlanActs(call.Sc(), call.pl, call.req), call.pl)
  }

  /** All runs come of calls of Plan, each as far as it has got. */
  ghost predicate FollowsPlans(trace: seq<State>, acts: seq<Action>, calls: seq<PlanCall>)
    requires |trace| == |acts| + 1
  {
    && |trace[|acts|].runs| <= |calls|
    && forall r :: 0 <= r < |trace[|acts|].runs| ==> Follows(trace, acts, r, calls[r])
  }

  lemma RunsAsPlanned(done: seq<Action>, plan: seq<Action>, pl: PlannerId, a: Action)
    requires RunsAs(done, plan, pl) && a in done && !a.PlanAbort?
    ensures a in plan
  {
  }

  lemma {:induction false} StepIsPlanned(trace: seq<State>, acts: seq<Action>, r: RunId, i: nat, n: nat)
    requires i < n <= |acts| <= |trace| && PlansRun(trace[i], acts[i], r)
    ensures acts[i] in PlanSoFar(trace, acts, r, n)
  {
    if i + 1 < n { StepIsPlanned(trace, acts, r, i, n - 1); }
  }

  // ---- calls of Plan make such executions -------------------------------------------------------

  lemma {:induction false} SoFarStays(trace: seq<State>, acts: seq<Action>, t: State, a: Action, r: RunId, n: nat)
    requires n <= |acts| <= |trace|
    ensures PlanSoFar(trace + [t], acts + [a], r, n) == PlanSoFar(trace, acts, r, n)
  {
    if n > 0 { SoFarStays(trace, acts, t, a, r, n - 1); }
  }

  lemma {:induction false} NothingYet(cfg: Config, trace: seq<State>, acts: seq<Action>, r: RunId, n: nat)
    requires Execution(cfg, trace, acts) && n <= |acts| && |trace[n].runs| <= r
    ensures PlanSoFar(trace, acts, r, n) == []
  {
    hide Apply, Enabled;
    if n > 0 {
      assert trace[(n - 1) + 1] == Apply(trace[n - 1], cfg, acts[n - 1]);
      RunsStep(trace[n - 1], cfg, acts[n - 1]);
      NothingYet(cfg, trace, acts, r, n - 1);
      FinishReachable(cfg, trace, acts, n - 1);
    }
  }

  lemma RunFollows(cfg: Config, trace: seq<State>, acts: seq<Action>, call: PlanCall, a: Action, r: RunId)
    requires Execution(cfg, trace, acts) && Enabled(trace[|acts|], cfg, a)
    requires r < |trace[|acts|].runs| ==> Follows(trace, acts, r, call)
    requires PlansRun(trace[|acts|], a, r) ==>
      && call.Valid()
      && RunsAs(PlanSoFar(trace, acts, r, |acts|) + [a], PlanActs(call.Sc(), call.pl, call.req), call.pl)
    requires r < |Apply(trace[|acts|], cfg, a).runs|
    ensures Follows(trace + [Apply(trace[|acts|], cfg, a)], acts + [a], r, call)
  {
    hide Apply, Enabled, PlanActs, RunsAs;
    var n, s := |acts|, trace[|acts|];
    var t := Apply(s, cfg, a);
    RunsStep(s, cfg, a);
    SoFarStays(trace, acts, t, a, r, n);
    assert PlanSoFar(trace + [t], acts + [a], r, n + 1) ==
      if PlansRun(s, a, r) then PlanSoFar(trace, acts, r, n) + [a] else PlanSoFar(trace, acts, r, n);
    if r == |s.runs| { assert PlansRun(s, a, r); }
  }
  /** An execution that follows plans still does after any step that is no planner's, and
      after a planner's step that is the next of its plan. */
  lemma StepFollows(cfg: Config, trace: seq<State>, acts: seq<Action>, calls: seq<PlanCall>, a: Action)
    requires Execution(cfg, trace, acts) && FollowsPlans(trace, acts, calls) && Enabled(trace[|acts|], cfg, a)
    requires forall r :: 0 <= r < |calls| && PlansRun(trace[|acts|], a, r) ==>
      && calls[r].Valid()
      && RunsAs(PlanSoFar(trace, acts, r, |acts|) + [a],
                PlanActs(calls[r].Sc(), calls[r].pl, calls[r].req), calls[r].pl)
    requires a.PlanCreate? ==> |trace[|acts|].runs| < |calls|
    ensures Execution(cfg, trace + [Apply(trace[|acts|], cfg, a)], acts + [a])
    ensures FollowsPlans(trace + [Apply(trace[|acts|], cfg, a)], acts + [a], calls)
  {
    hide Apply, Enabled, PlanActs, RunsAs, Follows;
    var t := Apply(trace[|acts|], cfg, a);
    OneMoreStep(cfg, trace, acts, a);
    RunsStep(trace[|acts|], cfg, a);
    forall r | 0 <= r < |t.runs| ensures Follows(trace + [t], acts + [a], r, calls[r]) {
      RunFollows(cfg, trace, acts, calls[r], a, r);
    }
  }

  lemma {:induction false} OwnActsFor(sc: Scoping, pl: PlannerId, req: Request, c: string,
        targets: seq<Scope.Target>, a: Action)
    requires sc.Valid() && a in ActsFor(sc, pl, req, c, targets)
    ensures (a.PlanEnqueue? && a.planner == pl) || a == PlanDrop(pl)
  {
    hide Scope.Evaluate;
    var n := |targets| - 1;
    if a in ActsFor(sc, pl, req, c, targets[..n]) { OwnActsFor(sc, pl, req, c, targets[..n], a); }
  }

  lemma {:induction false} OwnActs(sc: Scoping, pl: PlannerId, req: Request, caps: seq<string>, a: Action)
    requires sc.Valid() && a in ActsOf(sc, pl, req, caps)
    ensures (a.PlanEnqueue? && a.planner == pl) || a == PlanDrop(pl)
  {
    hide ActsFor;
    var n := |caps| - 1;
    if a in ActsOf(sc, pl, req, caps[..n]) {
      OwnActs(sc, pl, req, caps[..n], a);
    } else {
      OwnActsFor(sc, pl, req, caps[n], req.targets, a);
    }
  }

  /** A plan creates its run first and ends or gives up last. */
  lemma PlanShape(call: PlanCall, i: nat)
    requires call.Valid() && i < |PlanActs(call.Sc(), call.pl, call.req)|
    ensures var acts := PlanActs(call.Sc(), call.pl, call.req);
      if i == 0 then acts[i] == PlanCreate(call.pl, call.req.project)
      else if i == |acts| - 1 then acts[i] in [PlanEnd(call.pl), PlanAbort(call.pl)]
      else (acts[i].PlanEnqueue? && acts[i].planner == call.pl) || acts[i] == PlanDrop(call.pl)
  {
    var sc, acts := call.Sc(), PlanActs(call.Sc(), call.pl, call.req);
    var n := Stop(sc, call.req.targets);
    hide Stop, ActsOf, ActsFor, Scope.Evaluate;
    if 0 < i < |acts| - 1 {
      if n == |call.req.targets| {
        OwnActs(sc, call.pl, call.req, call.req.capabilities, acts[i]);
      } else {
        OwnActsFor(sc, call.pl, call.req, call.req.capabilities[0], call.req.targets[..n], acts[i]);
      }
    }
  }

  lemma PlannerAfter(s: State, cfg: Config, a: Action, pl: PlannerId)
    requires Enabled(s, cfg, a)
    ensures var t := Apply(s, cfg, a);
      && (a.PlanCreate? && a.planner == pl ==> pl in t.planners && t.planners[pl].run == |s.runs|)
      && (a.PlanEnqueue? || a.PlanDrop? ==>
            (pl in s.planners ==> pl in t.planners && t.planners[pl].run == s.planners[pl].run))
  {
  }

  /** The planner of the last of the calls is n steps into its plan. */
  ghost predicate IsAt(trace: seq<State>, acts: seq<Action>, calls: seq<PlanCall>, n: nat)
    requires |trace| == |acts| + 1 && calls != [] && calls[|calls| - 1].Valid()
  {
    var r := |calls| - 1;
    var call, s := calls[r], trace[|acts|];
    var plan := PlanActs(call.Sc(), call.pl, call.req);
    && FollowsPlans(trace, acts, calls) && n <= |plan|
    && PlanSoFar(trace, acts, r, |acts|) == plan[..n]
    && (if n == 0 then |s.runs| == r
        else n < |plan| ==> call.pl in s.planners && s.planners[call.pl].run == r)
  }

  lemma NextOfPlan(cfg: Config, trace: seq<State>, acts: seq<Action>, calls: seq<PlanCall>, n: nat)
    requires Execution(cfg, trace, acts) && calls != [] && calls[|calls| - 1].Valid()
    requires IsAt(trace, acts, calls, n)
    requires var call := calls[|calls| - 1];
      var plan := PlanActs(call.Sc(), call.pl, call.req);
      n < |plan| && Enabled(trace[|acts|], cfg, plan[n])
    ensures var call := calls[|calls| - 1];
      var a := PlanActs(call.Sc(), call.pl, call.req)[n];
      var t := Apply(trace[|acts|], cfg, a);
      Execution(cfg, trace + [t], acts + [a]) && IsAt(trace + [t], acts + [a], calls, n + 1)
  {
    hide Apply, Enabled, PlanActs, Follows, PlansRun, Init;
    var r := |calls| - 1;
    var call, s := calls[r], trace[|acts|];
    var plan := PlanActs(call.Sc(), call.pl, call.req);
    var a := plan[n];
    PlanShape(call, n);
    assert plan[..n + 1] == plan[..n] + [a] && plan[..n + 1] <= plan;
    OnlyItsRun(s, a, call.pl, r);
    StepFollows(cfg, trace, acts, calls, a);
    PlannerAfter(s, cfg, a, call.pl);
    SoFarStays(trace, acts, Apply(s, cfg, a), a, r, |acts|);
  }

  /** A call of Plan after any execution that follows plans is another such execution, at
      every moment of the call. */
  lemma {:induction false} PlanFollows(cfg: Config, trace: seq<State>, acts: seq<Action>, calls: seq<PlanCall>,
        call: PlanCall, trace': seq<State>, acts': seq<Action>, m: nat)
    requires Execution(cfg, trace, acts) && FollowsPlans(trace, acts, calls) && |calls| == |trace[|acts|].runs|
    requires Path(cfg, trace', acts') && trace'[0] == trace[|acts|] && m <= |acts'|
    requires call.Valid() && acts' == PlanActs(call.Sc(), call.pl, call.req)
    ensures var all, steps := trace + trace'[1..m + 1], acts + acts'[..m];
      && Execution(cfg, all, steps) && all[|steps|] == trace'[m]
      && IsAt(all, steps, calls + [call], m) && FollowsPlans(all, steps, calls + [call])
  {
    hide Apply, Enabled, PlanActs, Follows, PlansRun, Init, PlanSoFar;
    if m == 0 {
      assert trace + trace'[1..1] == trace && acts + acts'[..0] == acts;
      NothingYet(cfg, trace, acts, |calls|, |acts|);
    } else {
      PlanFollows(cfg, trace, acts, calls, call, trace', acts', m - 1);
      var all, steps := trace + trace'[1..m], acts + acts'[..m - 1];
      assert trace'[(m - 1) + 1] == Apply(trace'[m - 1], cfg, acts'[m - 1]);
      assert trace + trace'[1..m + 1] == all + [trace'[m]] && acts + acts'[..m] == steps + [acts'[m - 1]];
      hide FollowsPlans;
      NextOfPlan(cfg, all, steps, calls + [call], m - 1);
      Followed(all + [trace'[m]], steps + [acts'[m - 1]], calls + [call], m);
    }
  }

  lemma Followed(trace: seq<State>, acts: seq<Action>, calls: seq<PlanCall>, n: nat)
    requires |trace| == |acts| + 1 && calls != [] && calls[|calls| - 1].Valid() && IsAt(trace, acts, calls, n)
    ensures FollowsPlans(trace, acts, calls)
  {
  }

  lemma OnlyItsRun(s: State, a: Action, pl: PlannerId, r: RunId)
    requires (a.PlanCreate? && |s.runs| == r)
      || ((a.PlanEnqueue? || a.PlanDrop? || a.PlanEnd? || a.PlanAbort?) && a.planner == pl
          && pl in s.planners && s.planners[pl].run == r)
    ensures forall q: RunId :: PlansRun(s, a, q) <==> q == r
  {
  }

  // ---- where rows and runs come from --------------------------------------------------------------

  lemma RunsStep(s: State, cfg: Config, a: Action)
    requires Enabled(s, cfg, a)
    ensures var runs := Apply(s, cfg, a).runs;
      && |runs| == |s.runs| + (if a.PlanCreate? then 1 else 0)
      && (forall r :: 0 <= r < |s.runs| ==> runs[r].project == s.runs[r].project)
      && (a.PlanCreate? ==> runs[|s.runs|].project == a.project)
  {
    if a.Worker? { DoRunsStep(s, cfg, a.w, Pc(s, a.w), a.step); }
    hide Do, CanStep;
  }

  lemma DoRunsStep(s: State, cfg: Config, w: WorkerId, pc: WorkerPc, step: Step)
    requires CanStep(s, cfg, pc, step)
    ensures var runs := Do(s, cfg, w, pc, step).0.runs;
      |runs| == |s.runs| && forall r :: 0 <= r < |s.runs| ==> runs[r].project == s.runs[r].project
  {
    hide Count;
  }

  /** A run's project is the one it was created for, by the one step that created it. */
  lemma {:induction false} RunCreated(cfg: Config, trace: seq<State>, acts: seq<Action>, i: nat, r: RunId)
      returns (n: nat)
    requires Execution(cfg, trace, acts) && i < |trace| && r < |trace[i].runs|
    ensures n < i && |trace[n].runs| == r && acts[n].PlanCreate? && acts[n].project == trace[i].runs[r].project
  {
    hide Apply, Enabled;
    assert i > 0;
    assert trace[(i - 1) + 1] == Apply(trace[i - 1], cfg, acts[i - 1]);
    RunsStep(trace[i - 1], cfg, acts[i - 1]);
    if r < |trace[i - 1].runs| { n := RunCreated(cfg, trace, acts, i - 1, r); } else { n := i - 1; }
  }

  lemma NewWork(s: State, cfg: Config, a: Action)
    requires Enabled(s, cfg, a)
    ensures var jobs := Apply(s, cfg, a).jobs;
      && |jobs| == |s.jobs| + (if a.PlanEnqueue? then 1 else 0)
      && (a.PlanEnqueue? ==>
            var work := jobs[|s.jobs|].work;
            && a.planner in s.planners && work.run == s.planners[a.planner].run < |s.runs|
            && work.project == s.runs[work.run].project
            && work.targetKind == a.targetKind && work.target == a.target)
  {
    if a.Worker? { DoSize(s, cfg, a.w, Pc(s, a.w), a.step); }
    hide Do, CanStep;
  }

  /** A job's run, project and target are those it was enqueued with. */
  lemma {:induction false} RowEnqueued(cfg: Config, trace: seq<State>, acts: seq<Action>, i: nat, j: JobId)
      returns (n: nat)
    requires Execution(cfg, trace, acts) && i < |trace| && j < |trace[i].jobs|
    ensures n < i && acts[n].PlanEnqueue? && acts[n].planner in trace[n].planners
    ensures var work := trace[i].jobs[j].work;
      && work.run == trace[n].planners[acts[n].planner].run < |trace[n].runs|
      && work.project == trace[n].runs[work.run].project
      && work.targetKind == acts[n].targetKind && work.target == acts[n].target
  {
    hide Apply, Enabled, Extends;
    assert i > 0;
    assert trace[(i - 1) + 1] == Apply(trace[i - 1], cfg, acts[i - 1]);
    NewWork(trace[i - 1], cfg, acts[i - 1]);
    if j < |trace[i - 1].jobs| {
      n := RowEnqueued(cfg, trace, acts, i - 1, j);
      ExecutionExtends(cfg, trace, acts, i - 1);
      SameWork(trace[i - 1].jobs, trace[i].jobs, j);
    } else {
      n := i - 1;
    }
  }

  lemma SameWork(was: seq<Job>, jobs: seq<Job>, j: JobId)
    requires Extends(was, jobs) && j < |was|
    ensures jobs[j].work == was[j].work
  {
  }

  // ---- the result -----------------------------------------------------------------------------------

  lemma CreateOnce(call: PlanCall, a: Action)
    requires call.Valid() && a in PlanActs(call.Sc(), call.pl, call.req) && a.PlanCreate?
    ensures a.project == call.req.project
  {
    hide PlanActs;
    var i :| 0 <= i < |PlanActs(call.Sc(), call.pl, call.req)| && PlanActs(call.Sc(), call.pl, call.req)[i] == a;
    PlanShape(call, i);
  }

  /** Every job of the queue, at every moment, is for a target its project's rules allowed. */
  lemma JobInScope(cfg: Config, trace: seq<State>, acts: seq<Action>, calls: seq<PlanCall>, i: nat, j: JobId)
      returns (t: Scope.Target)
    requires Execution(cfg, trace, acts) && FollowsPlans(trace, acts, calls)
    requires i < |trace| && j < |trace[i].jobs|
    ensures var work := trace[i].jobs[j].work;
      && work.run < |calls| && calls[work.run].Valid() && calls[work.run].req.project == work.project
      && t in calls[work.run].req.targets && t.kind == work.targetKind && t.identity == work.target
      && calls[work.run].Sc().Of(t).effect.Allow?
  {
    hide Apply, Enabled, PlanActs, Scope.Evaluate;
    var n := RowEnqueued(cfg, trace, acts, i, j);
    var r := trace[i].jobs[j].work.run;
    RunsGrow(cfg, trace, acts, n, |acts|);
    StepIsPlanned(trace, acts, r, n, |acts|);
    var call := calls[r];
    RunsAsPlanned(PlanSoFar(trace, acts, r, |acts|), PlanActs(call.Sc(), call.pl, call.req), call.pl, acts[n]);
    t := PlannedInScope(call.Sc(), call.pl, call.req, acts[n]);
    var m := RunCreated(cfg, trace, acts, n, r);
    StepIsPlanned(trace, acts, r, m, |acts|);
    RunsAsPlanned(PlanSoFar(trace, acts, r, |acts|), PlanActs(call.Sc(), call.pl, call.req), call.pl, acts[m]);
    CreateOnce(call, acts[m]);
  }

  lemma {:induction false} RunsGrow(cfg: Config, trace: seq<State>, acts: seq<Action>, i: nat, k: nat)
    requires Execution(cfg, trace, acts) && i <= k < |trace|
    ensures |trace[i].runs| <= |trace[k].runs|
  {
    hide Apply, Enabled;
    if i < k {
      RunsGrow(cfg, trace, acts, i, k - 1);
      assert trace[(k - 1) + 1] == Apply(trace[k - 1], cfg, acts[k - 1]);
      RunsStep(trace[k - 1], cfg, acts[k - 1]);
    }
  }

  /** A worker executing a job, perhaps one it has lost, hands on what its collector says. */
  ghost predicate Emitted(s: State, w: WorkerId, e: Emission) {
    var pc := Pc(s, w);
    && pc.Executing? && pc.job < |s.jobs|
    && exists labels, p :: Ingested(s.jobs[pc.job].work, pc.job, labels, p) == Some(e.input)
  }

  /** However planners, workers, cancellers and the sweep interleave, and whatever collectors
      put into their payloads: if the runs come of calls of Plan and the emissions of
      workers executing jobs, every finding's project is that of a plan, and its target one
      of that plan's targets that the project's stored rules allowed when it was planned. */
  lemma FindingsInScope(cfg: Config, trace: seq<State>, acts: seq<Action>, calls: seq<PlanCall>,
        digest: Digest, h: seq<Emission>, k: Key)
      returns (r: RunId, t: Scope.Target)
    requires Execution(cfg, trace, acts) && FollowsPlans(trace, acts, calls)
    requires forall m :: 0 <= m < |h| ==> exists i: nat, w :: i < |trace| && Emitted(trace[i], w, h[m])
    requires k in Fold(digest, map[], h)
    ensures var f := Fold(digest, map[], h)[k];
      && r < |calls| && calls[r].Valid() && calls[r].req.project == k.project
      && t in calls[r].req.targets && t.kind == f.targetKind && t.identity == f.target
      && Scope.Evaluate(calls[r].net, t, ScopeStore.Listed(calls[r].table, k.project), calls[r].now).effect.Allow?
  {
    hide Execution, FollowsPlans, Fold, Scope.Evaluate, ScopeStore.Listed;
    var first := RowFromFirst(digest, h, k);
    var i: nat, w :| i < |trace| && Emitted(trace[i], w, h[first]);
    var j := Pc(trace[i], w).job;
    t := JobInScope(cfg, trace, acts, calls, i, j);
    r := trace[i].jobs[j].work.run;
  }
}
