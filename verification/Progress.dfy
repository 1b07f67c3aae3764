/** How much work the queue can do: an amortized bound on status transitions. */
module Progress {
  import opened Rows
  import opened Protocol
  import opened Invariants
  import opened LeaseSafety

  function Weight(j: Job): nat {
    match j.status
    case Queued => 3
    case Leased => 2
    case Running => 1
    case _ => 0
  }

  function Potential(jobs: seq<Job>): nat {
    if jobs == [] then 0 else Potential(jobs[..|jobs| - 1]) + Weight(jobs[|jobs| - 1])
  }

  /** The number of rows of `was` that `jobs` holds a different image of. */
  function Changed(was: seq<Job>, jobs: seq<Job>): nat
    requires |was| <= |jobs|
  {
    if was == [] then 0
    else Changed(was[..|was| - 1], jobs[..|was| - 1]) + (if was[|was| - 1] != jobs[|was| - 1] then 1 else 0)
  }

  lemma {:induction false} PotentialMoves(was: seq<Job>, jobs: seq<Job>, gain: int)
    requires |was| == |jobs|
    requires forall i :: 0 <= i < |was| && was[i] != jobs[i] ==> Weight(jobs[i]) <= Weight(was[i]) + gain
    ensures Potential(jobs) <= Potential(was) + gain * Changed(was, jobs)
  {
    var n := |was| - 1;
    if n >= 0 {
      PotentialMoves(was[..n], jobs[..n], gain);
      var c := Changed(was[..n], jobs[..n]);
      OneMore(gain, c);
    }
  }

  lemma OneMore(gain: int, c: nat)
    ensures gain * (c + 1) == gain * c + gain
  {
  }

  // What an execution did up to its n-th step.
  ghost function Enqueues(trace: seq<State>, n: nat): nat
    requires n < |trace|
    requires forall i :: 0 <= i < n ==> |trace[i].jobs| <= |trace[i + 1].jobs|
  {
    if n == 0 then 0 else Enqueues(trace, n - 1) + |trace[n].jobs| - |trace[n - 1].jobs|
  }

  /** Rows changed by steps of the given kind: sweeps, or everything else. */
  ghost function Moves(trace: seq<State>, acts: seq<Action>, sweep: bool, n: nat): nat
    requires n < |trace| && |trace| == |acts| + 1
    requires forall i :: 0 <= i < n ==> |trace[i].jobs| <= |trace[i + 1].jobs|
  {
    if n == 0 then 0
    else
      Moves(trace, acts, sweep, n - 1) + (
      if acts[n - 1].Reclaim? == sweep then Changed(trace[n - 1].jobs, trace[n].jobs) else 0)
  }

  lemma StepPotential(s: State, cfg: Config, a: Action)
    requires Enabled(s, cfg, a) && Inv(s, cfg)
    ensures var jobs := Apply(s, cfg, a).jobs;
      && |jobs| >= |s.jobs|
      && Potential(jobs) + (if a.Reclaim? then 0 else Changed(s.jobs, jobs))
         <= Potential(s.jobs) + 3 * (|jobs| - |s.jobs|) + (if a.Reclaim? then 2 * Changed(s.jobs, jobs) else 0)
  {
    if a.PlanEnqueue? {
      EnqueuePotential(s, cfg, a);
    } else {
      hide Do, Env, AllRowsOk, AttemptOk, Apply, Enabled, Potential, Changed;
      var jobs := Apply(s, cfg, a).jobs;
      SameSize(s, cfg, a);
      forall i | 0 <= i < |s.jobs| && s.jobs[i] != jobs[i]
        ensures Weight(jobs[i]) <= Weight(s.jobs[i]) + (if a.Reclaim? then 2 else -1)
      {
        RowStep(s, cfg, a, i);
        if a.Worker? { LeaseOf(s, cfg, a.w); }
      }
      PotentialMoves(s.jobs, jobs, if a.Reclaim? then 2 else -1);
    }
  }

  lemma EnqueuePotential(s: State, cfg: Config, a: Action)
    requires Enabled(s, cfg, a) && a.PlanEnqueue?
    ensures var jobs := Apply(s, cfg, a).jobs;
      |jobs| == |s.jobs| + 1 && Changed(s.jobs, jobs) == 0 && Potential(jobs) == Potential(s.jobs) + 3
  {
    var jobs := Apply(s, cfg, a).jobs;
    assert jobs[..|s.jobs|] == s.jobs;
    NothingChanged(s.jobs, jobs);
  }

  lemma SameSize(s: State, cfg: Config, a: Action)
    requires Enabled(s, cfg, a) && !a.PlanEnqueue?
    ensures |Apply(s, cfg, a).jobs| == |s.jobs|
  {
    if a.Worker? { hide Do; DoSize(s, cfg, a.w, Pc(s, a.w), a.step); }
  }

  lemma {:induction false} NothingChanged(was: seq<Job>, jobs: seq<Job>)
    requires was <= jobs
    ensures Changed(was, jobs) == 0
  {
    if was != [] { NothingChanged(was[..|was| - 1], jobs[..|was| - 1]); }
  }

  /** E enqueues and R row reclaims pay for every other transition: leases, starts,
      completions and cancellations together number at most 3E + 2R. */
  lemma {:induction false} TransitionsBounded(cfg: Config, trace: seq<State>, acts: seq<Action>, n: nat)
    requires Execution(cfg, trace, acts) && n < |trace|
    ensures forall i :: 0 <= i < n ==> |trace[i].jobs| <= |trace[i + 1].jobs|
    ensures Moves(trace, acts, false, n) + Potential(trace[n].jobs)
         <= 3 * Enqueues(trace, n) + 2 * Moves(trace, acts, true, n)
  {
    if n > 0 {
      TransitionsBounded(cfg, trace, acts, n - 1);
      Reachable(cfg, trace, acts, n - 1);
      assert trace[(n - 1) + 1] == Apply(trace[n - 1], cfg, acts[n - 1]);
      StepPotential(trace[n - 1], cfg, acts[n - 1]);
    }
  }
}
