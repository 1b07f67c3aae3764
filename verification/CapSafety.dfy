/** The per-project concurrency cap holds under every interleaving. */
module CapSafety {
  import opened Rows
  import opened Protocol
  import opened Invariants

  function InFlight(s: State, p: ProjectId): nat { Count(BusyIn(p), s.jobs) }

  /** What a Lease transaction for project p has established, m being a bound on its caps. */
  predicate CapOk(s: State, p: ProjectId, m: nat, pc: WorkerPc) {
    pc.InLease() && pc.job < |s.jobs| && s.jobs[pc.job].work.project == p ==>
      match pc
      case Selected(_, cap) => 0 < cap <= m
      case CapLocked(_, cap) => 0 < cap <= m
      case Counted(_) => InFlight(s, p) < m
      case Updated(_, _, capped) => capped && InFlight(s, p) < m
      case _ => true
  }

  ghost predicate CapInv(s: State, p: ProjectId, m: nat) {
    InFlight(s, p) <= m && forall w: WorkerId :: CapOk(s, p, m, Pc(s, w))
  }

  predicate CapWithin(s: State, p: ProjectId, m: nat) { p in s.caps ==> 0 < s.caps[p] <= m }

  // ---- how the statements move the count ---------------------------------------------------

  lemma DoBusy(s: State, cfg: Config, w: WorkerId, pc: WorkerPc, step: Step, p: ProjectId)
    requires CanStep(s, cfg, pc, step) && LeaseOk(s, cfg, w, pc)
    ensures var s' := Do(s, cfg, w, pc, step).0;
      InFlight(s', p) <= InFlight(s, p)
        + (if step.LeaseCommit? && s.jobs[pc.job].work.project == p then 1 else 0)
  {
    DoJobs(s, cfg, w, pc, step);
    hide Count, Do;
    var jobs := Do(s, cfg, w, pc, step).0.jobs;
    if pc.OnJob() {
      CountUpdate(BusyIn(p), s.jobs, pc.job, jobs[pc.job]);
      assert jobs == s.jobs || jobs == s.jobs[pc.job := jobs[pc.job]];
    }
  }

  lemma EnvBusy(s: State, cfg: Config, a: Action, p: ProjectId)
    requires Enabled(s, cfg, a) && !a.Worker?
    ensures InFlight(Env(s, a), p) <= InFlight(s, p)
  {
    hide Count;
    if a.PlanEnqueue? {
      CountAppend(BusyIn(p), s.jobs, Env(s, a).jobs[|s.jobs|]);
    } else {
      var jobs := Env(s, a).jobs;
      assert forall i :: 0 <= i < |jobs| && Matches(BusyIn(p), jobs[i]) ==> Matches(BusyIn(p), s.jobs[i]);
      CountCompare(BusyIn(p), jobs, BusyIn(p), s.jobs);
    }
  }

  /** The actor: its own statement keeps what it knows, the commit using up the headroom. */
  lemma ActorCap(s: State, cfg: Config, w: WorkerId, pc: WorkerPc, step: Step, p: ProjectId, m: nat)
    requires CanStep(s, cfg, pc, step) && LeaseOk(s, cfg, w, pc) && CapOk(s, p, m, pc)
    requires CapWithin(s, p, m) && InFlight(s, p) <= m
    ensures var r := Do(s, cfg, w, pc, step); InFlight(r.0, p) <= m && CapOk(r.0, p, m, r.1)
  {
    DoBusy(s, cfg, w, pc, step, p);
  }

  lemma BystanderCap(s: State, cfg: Config, a: Action, p: ProjectId, m: nat, w: WorkerId)
    requires Enabled(s, cfg, a) && Locks(s, cfg) && CapInv(s, p, m) && !(a.Worker? && a.w == w)
    ensures CapOk(Apply(s, cfg, a), p, m, Pc(s, w))
  {
    hide Do, Env, CanStep, OwnLocks;
    var pc := Pc(s, w);
    assert LeaseOk(s, cfg, w, pc) && CapOk(s, p, m, pc);
    if pc.InLease() {
      RowStep(s, cfg, a, pc.job);
      if s.jobs[pc.job].work.project != p {
        // not a transaction of p
      } else if a.Worker? {
        var pc' := Pc(s, a.w);
        assert LeaseOk(s, cfg, a.w, pc') && CapOk(s, p, m, pc');
        DoBusy(s, cfg, a.w, pc', a.step, p);
        if pc.HoldsKey() && !pc.CapLocked? && a.step.LeaseCommit? {
          CommitIsUpdated(s, cfg, pc', a.step);
          // Both would hold the one advisory lock of p.
          assert pc'.job < |s.jobs| && s.jobs[pc'.job].work.project != p;
        }
      } else {
        EnvBusy(s, cfg, a, p);
      }
    }
  }

  lemma CommitIsUpdated(s: State, cfg: Config, pc: WorkerPc, step: Step)
    requires CanStep(s, cfg, pc, step) && step.LeaseCommit?
    ensures pc.Updated?
  {
  }

  lemma CapKept(s: State, cfg: Config, a: Action, p: ProjectId, m: nat)
    requires Enabled(s, cfg, a) && Locks(s, cfg) && CapInv(s, p, m) && CapWithin(s, p, m)
    ensures CapInv(Apply(s, cfg, a), p, m)
  {
    hide Do, Env, CanStep, OwnLocks, CapOk, LeaseOk;
    var s' := Apply(s, cfg, a);
    if a.Worker? {
      assert LeaseOk(s, cfg, a.w, Pc(s, a.w)) && CapOk(s, p, m, Pc(s, a.w));
      ActorCap(s, cfg, a.w, Pc(s, a.w), a.step, p, m);
      assert InFlight(s', p) == InFlight(Do(s, cfg, a.w, Pc(s, a.w), a.step).0, p);
      CapOkJobs(Do(s, cfg, a.w, Pc(s, a.w), a.step).0, s', p, m, Pc(s', a.w));
    } else {
      EnvBusy(s, cfg, a, p);
    }
    forall w: WorkerId ensures CapOk(s', p, m, Pc(s', w)) {
      if !(a.Worker? && a.w == w) {
        BystanderCap(s, cfg, a, p, m, w);
        assert Pc(s', w) == Pc(s, w);
      }
    }
  }

  /** CapOk reads nothing of the state but the jobs table. */
  lemma CapOkJobs(s: State, s': State, p: ProjectId, m: nat, pc: WorkerPc)
    requires s.jobs == s'.jobs
    ensures CapOk(s, p, m, pc) == CapOk(s', p, m, pc)
  {
  }

  /** However Lease transactions, completions, cancellations, sweeps and planners
      interleave, and however an operator moves the cap while it stays positive, a project
      never has more jobs leased or running than the largest cap that was in force. */
  lemma {:induction false} CapNeverExceeded(cfg: Config, trace: seq<State>, acts: seq<Action>,
        p: ProjectId, m: nat, i: nat)
    requires Execution(cfg, trace, acts) && i < |trace|
    requires forall k :: 0 <= k < i ==> CapWithin(trace[k], p, m)
    ensures CapInv(trace[i], p, m)
    ensures |set j | 0 <= j < |trace[i].jobs| && trace[i].jobs[j].work.project == p
                     && trace[i].jobs[j].status.InFlight() :: j| <= m
  {
    if i > 0 {
      CapNeverExceeded(cfg, trace, acts, p, m, i - 1);
      Reachable(cfg, trace, acts, i - 1);
      assert trace[(i - 1) + 1] == Apply(trace[i - 1], cfg, acts[i - 1]);
      CapKept(trace[i - 1], cfg, acts[i - 1], p, m);
    }
    CountIsCardinality(BusyIn(p), trace[i].jobs);
    assert (set j | 0 <= j < |trace[i].jobs| && trace[i].jobs[j].work.project == p
                    && trace[i].jobs[j].status.InFlight() :: j) == Hits(BusyIn(p), trace[i].jobs);
  }

  function Hits(q: Where, jobs: seq<Job>): set<int> { set i | 0 <= i < |jobs| && Matches(q, jobs[i]) :: i }

  lemma HitsStep(q: Where, jobs: seq<Job>)
    requires jobs != []
    ensures var n := |jobs| - 1;
      && n !in Hits(q, jobs[..n])
      && Hits(q, jobs) == Hits(q, jobs[..n]) + if Matches(q, jobs[n]) then {n} else {}
  {
  }

  lemma {:induction false} CountIsCardinality(q: Where, jobs: seq<Job>)
    ensures Count(q, jobs) == |Hits(q, jobs)|
  {
    hide Hits;
    assert jobs == [] ==> Hits(q, jobs) == {} by { NoHits(q); }
    var n := |jobs| - 1;
    if n >= 0 {
      CountIsCardinality(q, jobs[..n]);
      HitsStep(q, jobs);
    }
  }

  lemma NoHits(q: Where)
    ensures Hits(q, []) == {}
  {
  }
}
