/** Leases of a job exclude one another, and no completion is stale. */
module LeaseSafety {
  import opened Wrappers
  import opened Rows
  import opened Protocol
  import opened Invariants

  // ---- rows over time ------------------------------------------------------------------

  /** The later table keeps every row's identity, its first start, and terminal rows whole. */
  ghost predicate Extends(was: seq<Job>, jobs: seq<Job>) {
    |was| <= |jobs| && forall i :: 0 <= i < |was| ==>
      && jobs[i].work == was[i].work
      && (was[i].startedAt.Some? ==> jobs[i].startedAt == was[i].startedAt)
      && (was[i].status.Terminal() ==> jobs[i] == was[i])
  }

  lemma ExtendsTransitive(a: seq<Job>, b: seq<Job>, c: seq<Job>)
    requires Extends(a, b) && Extends(b, c)
    ensures Extends(a, c)
  {
  }

  lemma StepExtends(s: State, cfg: Config, a: Action)
    requires Enabled(s, cfg, a) && Inv(s, cfg)
    ensures Extends(s.jobs, Apply(s, cfg, a).jobs)
  {
    hide Do, Env, CanStep, Locks, AllRowsOk, AttemptOk;
    var jobs := Apply(s, cfg, a).jobs;
    assert |s.jobs| <= |jobs| by {
      if a.Worker? { DoSize(s, cfg, a.w, Pc(s, a.w), a.step); } else { EnvSize(s, cfg, a); }
    }
    forall i | 0 <= i < |s.jobs|
      ensures jobs[i].work == s.jobs[i].work
      ensures s.jobs[i].startedAt.Some? ==> jobs[i].startedAt == s.jobs[i].startedAt
      ensures s.jobs[i].status.Terminal() ==> jobs[i] == s.jobs[i]
    {
      RowStep(s, cfg, a, i);
      if a.Worker? { LeaseOf(s, cfg, a.w); }
    }
  }

  lemma LeaseOf(s: State, cfg: Config, w: WorkerId)
    requires Locks(s, cfg)
    ensures LeaseOk(s, cfg, w, Pc(s, w))
  {
  }

  lemma DoSize(s: State, cfg: Config, w: WorkerId, pc: WorkerPc, step: Step)
    requires CanStep(s, cfg, pc, step)
    ensures |Do(s, cfg, w, pc, step).0.jobs| == |s.jobs|
  {
  }

  lemma EnvSize(s: State, cfg: Config, a: Action)
    requires Enabled(s, cfg, a) && !a.Worker?
    ensures |Env(s, a).jobs| >= |s.jobs|
  {
  }

  lemma ExecutionExtends(cfg: Config, trace: seq<State>, acts: seq<Action>, k: nat)
    requires Execution(cfg, trace, acts) && k + 1 < |trace|
    ensures Extends(trace[k].jobs, trace[k + 1].jobs)
  {
    hide Do, Env, CanStep, Extends;
    Reachable(cfg, trace, acts, k);
    StepExtends(trace[k], cfg, acts[k]);
  }

  /** Terminal is absorbing, whatever runs in between; nothing ever changes what a job is
      for; started_at survives every reclaim. */
  lemma {:induction false} JobHistory(cfg: Config, trace: seq<State>, acts: seq<Action>, i: nat, k: nat)
    requires Execution(cfg, trace, acts) && i <= k < |trace|
    ensures Extends(trace[i].jobs, trace[k].jobs)
  {
    hide Execution;
    if i < k {
      JobHistory(cfg, trace, acts, i, k - 1);
      ExecutionExtends(cfg, trace, acts, k - 1);
      ExtendsTransitive(trace[i].jobs, trace[k - 1].jobs, trace[k].jobs);
    }
  }

  // ---- leases ------------------------------------------------------------------------------

  /** In every reachable state: each lease of a job was granted for exactly the configured
      duration and starts after every earlier one has expired; attempts counts the leases,
      which are the reclaims plus the one in force or completed; a queued row has no
      holder; finished_at is set exactly on terminal rows. */
  lemma LeasesExclude(cfg: Config, trace: seq<State>, acts: seq<Action>, i: nat, j: JobId)
    requires Execution(cfg, trace, acts) && i < |trace| && j < |trace[i].jobs|
    ensures j < |trace[i].ledger|
    ensures var row, l := trace[i].jobs[j], trace[i].ledger[j];
      && (forall k, m :: 0 <= k < m < |l.windows| ==>
            l.windows[k].from + cfg.lease == l.windows[k].until < l.windows[m].from)
      && row.attempts == |l.windows|
      && (row.attempts == l.reclaims + 1 <==> row.leasedBy.Some?)
      && (row.attempts == l.reclaims <==> row.leasedBy.None?)
      && (row.status.InFlight() ==> row.leasedBy.Some? && row.leaseExpiresAt == Some(l.windows[|l.windows| - 1].until))
      && (row.status.Queued? ==> row.leasedBy.None? && row.leaseExpiresAt.None?)
      && (row.status.Running? ==> row.startedAt.Some?)
      && (row.finishedAt.Some? <==> row.status.Terminal())
  {
    Reachable(cfg, trace, acts, i);
    assert RowOk(trace[i], cfg, j);
  }

  /** A MarkRunning or Complete that changes the table changes the one row its worker
      leased, and does so under that row's latest lease, which this worker was granted;
      a worker whose lease was reclaimed and granted again changes nothing. */
  lemma NoStaleCompletion(cfg: Config, trace: seq<State>, acts: seq<Action>, i: nat)
    requires Execution(cfg, trace, acts) && i < |acts|
    requires acts[i].Worker? && (acts[i].step.MarkRunning? || acts[i].step.Complete?)
    requires trace[i + 1].jobs != trace[i].jobs
    ensures var s, w := trace[i], acts[i].w; var pc := Pc(s, w);
      && pc.OnJob() && pc.job < |s.jobs| && pc.job < |s.ledger| && (pc.Holding? || pc.Executing?)
      && s.jobs[pc.job].status.InFlight()
      && s.jobs[pc.job].attempts == pc.attempt == |s.ledger[pc.job].windows| > 0
      && s.ledger[pc.job].windows[pc.attempt - 1].holder == w
      && (forall k :: 0 <= k < |s.jobs| && k != pc.job ==> trace[i + 1].jobs[k] == s.jobs[k])
  {
    var s, w := trace[i], acts[i].w;
    Reachable(cfg, trace, acts, i);
    assert AttemptOk(s, cfg, w, Pc(s, w));
    assert RowOk(s, cfg, Pc(s, w).job);
  }

  // ---- what is leased first ----------------------------------------------------------------------

  /** In every execution, what a worker selects is a queued job that nobody has locked, and of
      all such jobs of existing projects none has a higher priority, or is older at the same. */
  lemma LeaseOrder(cfg: Config, trace: seq<State>, acts: seq<Action>, i: nat, w: WorkerId, j: JobId)
    requires Execution(cfg, trace, acts) && i < |acts| && acts[i] == Worker(w, LeaseSelect(j))
    ensures j < |trace[i].jobs| && trace[i].jobs[j].status.Queued? && j !in trace[i].rowLocks
    ensures forall k: nat ::
      k < |trace[i].jobs| && trace[i].jobs[k].status.Queued? && k !in trace[i].rowLocks
      && trace[i].jobs[k].work.project in trace[i].caps ==>
        var it, other := trace[i].jobs[j].work, trace[i].jobs[k].work;
        && other.priority <= it.priority
        && (other.priority == it.priority ==> it.createdAt <= other.createdAt)
  {
    var s := trace[i];
    assert Enabled(s, cfg, acts[i]);
    assert forall k: nat :: Leasable(s, k) ==> !Precedes(s.jobs[k], s.jobs[j]);
  }

  // ---- the sweep ------------------------------------------------------------------------------

  /** Every job in flight has an expiry; the sweep requeues it exactly if that has passed, and
      leaves every other row alone. */
  lemma SweepIsExact(cfg: Config, trace: seq<State>, acts: seq<Action>, i: nat, j: JobId)
    requires Execution(cfg, trace, acts) && i < |acts| && acts[i] == Reclaim && j < |trace[i].jobs|
    ensures |trace[i + 1].jobs| == |trace[i].jobs|
    ensures var was, row := trace[i].jobs[j], trace[i + 1].jobs[j];
      if was.status.Leased? || was.status.Running? then
        && was.leaseExpiresAt.Some?
        && row == if was.leaseExpiresAt.value < trace[i].now
                  then was.(status := Queued, leasedBy := None, leaseExpiresAt := None) else was
      else row == was
  {
    LeasesExclude(cfg, trace, acts, i, j);
    assert trace[i + 1] == ReclaimAll(trace[i]);
  }

  /** A job whose worker died or hangs is never stuck: at whatever moment its lease is over,
      one sweep makes it leasable again, its attempts and first start kept. */
  lemma StuckJobReturns(cfg: Config, trace: seq<State>, acts: seq<Action>, j: JobId, to: Time)
      returns (longer: seq<State>)
    requires Execution(cfg, trace, acts) && j < |trace[|acts|].jobs| && trace[|acts|].now <= to
    requires trace[|acts|].jobs[j].status.Leased? || trace[|acts|].jobs[j].status.Running?
    ensures Execution(cfg, longer, acts + [Tick(to), Reclaim]) && longer[..|trace|] == trace
    ensures var was, s := trace[|acts|].jobs[j], longer[|acts| + 2];
      && was.leaseExpiresAt.Some? && s.now == to && j < |s.jobs| && j !in s.rowLocks
      && s.jobs[j] == if was.leaseExpiresAt.value < to
                      then was.(status := Queued, leasedBy := None, leaseExpiresAt := None) else was
  {
    var n := |acts|;
    var s := trace[n];
    Reachable(cfg, trace, acts, n);
    assert |s.ledger| == |s.jobs|;
    var ticked := Env(s, Tick(to));
    var swept := Env(ticked, Reclaim);
    longer := trace + [ticked] + [swept];
    var all := acts + [Tick(to)] + [Reclaim];
    OneMoreStep(cfg, trace, acts, Tick(to));
    OneMoreStep(cfg, trace + [ticked], acts + [Tick(to)], Reclaim);
    assert all == acts + [Tick(to), Reclaim];
    SweepIsExact(cfg, longer, all, n + 1, j);
    LockedIsQueued(s, cfg, j);
  }

  lemma LockedIsQueued(s: State, cfg: Config, j: JobId)
    requires Locks(s, cfg) && j < |s.jobs|
    ensures j in s.rowLocks ==> s.jobs[j].status.Queued?
  {
    if j in s.rowLocks {
      var w := s.rowLocks[j];
      assert OwnLocks(s, cfg, w, Pc(s, w)) && LeaseOk(s, cfg, w, Pc(s, w));
    }
  }

  // ---- the Lease transactions never block one another for good ----------------------------

  ghost predicate Advances(s: State, cfg: Config, w: WorkerId, step: Step) {
    Pc(s, w).InLease() && (step.CapLock? || step.CapCount? || step.LeaseUpdate? || step.LeaseCommit?)
    && Enabled(s, cfg, Worker(w, step))
  }

  /** While some worker is inside Lease, some worker's transaction can take its next
      statement: whoever holds the advisory lock never waits, so waiting cannot be a cycle,
      also when the keys of two projects collide. */
  lemma LeaseNeverDeadlocks(cfg: Config, trace: seq<State>, acts: seq<Action>, i: nat, w: WorkerId)
    requires Execution(cfg, trace, acts) && i < |trace| && Pc(trace[i], w).InLease()
    ensures exists v, step :: Advances(trace[i], cfg, v, step)
  {
    var s := trace[i];
    Reachable(cfg, trace, acts, i);
    var pc := Pc(s, w);
    assert LeaseOk(s, cfg, w, pc);
    if pc.Selected? && pc.cap > 0 && Key(cfg, s, pc.job) in s.advLocks {
      var v := s.advLocks[Key(cfg, s, pc.job)];
      assert OwnLocks(s, cfg, v, Pc(s, v)) && LeaseOk(s, cfg, v, Pc(s, v));
      assert Advances(s, cfg, v, NextStep(Pc(s, v)));
    } else {
      assert Advances(s, cfg, w, NextStep(pc));
    }
  }

  function NextStep(pc: WorkerPc): Step {
    match pc
    case Selected(_, cap) => if cap > 0 then CapLock else LeaseUpdate
    case CapLocked(_, _) => CapCount
    case Counted(_) => LeaseUpdate
    case _ => LeaseCommit
  }
}
