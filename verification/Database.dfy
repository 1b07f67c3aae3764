/** The tables as mutable state, and the queue, worker and planner code that runs against
    them. Each statement is shown to be the protocol step of its name, each Go function the
    path of exactly the steps it names, so that everything proved of all interleavings holds
    of this code's runs. */
module Database {
  import opened Wrappers
  import opened Rows
  import opened Protocol
  import opened RunFinish

  /** How a collector's Execute ends. */
  datatype Ending = Done | DeadlineExceeded(message: string) | Canceled | Error(message: string)

  /** A queued, unlocked row of an existing project. */
  predicate Waiting(s: State, j: JobId) {
    j < |s.jobs| && s.jobs[j].status.Queued? && j !in s.rowLocks && s.jobs[j].work.project in s.caps
  }

  /** Of the waiting jobs none has a higher priority, and of those of its priority none is older. */
  ghost predicate HeadOfQueue(s: State, j: JobId) {
    Waiting(s, j) && forall k: nat :: Waiting(s, k) ==>
      && s.jobs[k].work.priority <= s.jobs[j].work.priority
      && (s.jobs[k].work.priority == s.jobs[j].work.priority ==> s.jobs[j].work.createdAt <= s.jobs[k].work.createdAt)
  }

  predicate AtCap(s: State, p: ProjectId)
    requires p in s.caps
  {
    0 < s.caps[p] <= Count(BusyIn(p), s.jobs)
  }

  // ---- the steps of the Go functions -------------------------------------------------------

  /** Lease up to its cap check, which a project without a cap skips. */
  function CheckActs(w: WorkerId, cap: nat): seq<Action> {
    if cap > 0 then [Worker(w, CapLock), Worker(w, CapCount)] else []
  }

  function GrantActs(w: WorkerId): seq<Action> { [Worker(w, LeaseUpdate), Worker(w, LeaseCommit)] }

  /** MaybeFinishRun, after the tables it finds. */
  ghost function FinishActs(w: WorkerId, jobs: seq<Job>, r: RunId): seq<Action> {
    [Worker(w, FinishCount)] + if HasJob(jobs, r) && !Unfinished(jobs, r) then [Worker(w, FinishUpdate)] else []
  }

  /** The error column: an empty message is NULL. */
  predicate Says(error: Option<string>, message: string) {
    if message == "" then error.None? else error == Some(message)
  }

  /** Run r is terminal if its jobs are done, and if it was open, failed exactly if one of them
      failed or timed out and succeeded otherwise; while one is not done it stays as it was,
      and every other run does. */
  ghost predicate Closed(was: seq<Run>, runs: seq<Run>, jobs: seq<Job>, r: RunId) {
    && |runs| == |was| && r < |runs| && (forall k :: 0 <= k < |runs| && k != r ==> runs[k] == was[k])
    && (was[r].status.Terminal() || Unfinished(jobs, r) ==> runs[r] == was[r])
    && (!was[r].status.Terminal() && !Unfinished(jobs, r) ==>
          && runs[r].status == (if AnyFailed(jobs, r) then RunFailed else RunSucceeded)
          && runs[r].project == was[r].project && runs[r].finishedAt.Some?
          && runs[r].summary == Counts(Count(OfRun(r), jobs), Count(FailedIn(r), jobs)))
  }

  /** A run with one job goes the way of the job. */
  lemma OnlyJobDecides(before: seq<Job>, was: seq<Run>, runs: seq<Run>, jobs: seq<Job>, j: JobId)
    requires j < |jobs| == |before| && jobs[j].work == before[j].work
    requires forall k :: 0 <= k < |jobs| && k != j ==> jobs[k] == before[k]
    ensures var r := jobs[j].work.run;
      OnlyJob(before, j) && jobs[j].status.Terminal() && Closed(was, runs, jobs, r) && was[r].status.RunRunning? ==>
        runs[r].status == if jobs[j].status.Failed? || jobs[j].status.TimedOut? then RunFailed else RunSucceeded
  {
  }

  predicate OnlyJob(jobs: seq<Job>, j: JobId) {
    j < |jobs| && forall k :: 0 <= k < |jobs| && k != j ==> jobs[k].work.run != jobs[j].work.run
  }

  // ---- affected rows ---------------------------------------------------------------------------

  function Differing(was: seq<Job>, jobs: seq<Job>): set<int>
    requires |jobs| == |was|
  {
    set i | 0 <= i < |was| && jobs[i] != was[i]
  }

  lemma NoneDiffer(jobs: seq<Job>)
    ensures Differing(jobs, jobs) == {}
  {
  }

  lemma OneMoreDiffers(was: seq<Job>, jobs: seq<Job>, i: nat, row: Job)
    requires |jobs| == |was| && i < |was| && jobs[i] == was[i] != row
    ensures |Differing(was, jobs[i := row])| == |Differing(was, jobs)| + 1
  {
    assert Differing(was, jobs[i := row]) == Differing(was, jobs) + {i};
  }

  // ---- locks ---------------------------------------------------------------------------------

  lemma WithoutNew<K>(locks: map<K, WorkerId>, k: K, w: WorkerId)
    requires k !in locks && w !in locks.Values
    ensures Without(locks[k := w], w) == locks
  {
  }

  lemma WithoutNone<K>(locks: map<K, WorkerId>, w: WorkerId)
    requires w !in locks.Values
    ensures Without(locks, w) == locks
  {
  }

  class Database {
    const cfg: Config
    const quote: string -> string      // fmt's %q
    var now: Time
    var jobs: seq<Job>
    var runs: seq<Run>
    var caps: map<ProjectId, nat>
    var rowLocks: map<JobId, WorkerId>
    var advLocks: map<int, WorkerId>
    // Local variables of the sessions: where each process stands.
    var workers: map<WorkerId, WorkerPc>
    var cancellers: map<CancellerId, RunId>
    var planners: map<PlannerId, PlanPc>
    ghost var ledger: seq<Ledger>

    ghost function View(): State
      reads this
    {
      State(now, jobs, runs, caps, rowLocks, advLocks, workers, cancellers, planners, ledger)
    }

    ghost predicate Stepped(s: State, a: Action)
      reads this
    {
      Enabled(s, cfg, a) && View() == Apply(s, cfg, a)
    }

    /** The code ran as these protocol steps. */
    ghost predicate Ran(s: State, trace: seq<State>, acts: seq<Action>)
      reads this
    {
      Path(cfg, trace, acts) && trace[0] == s && trace[|acts|] == View()
    }

    function At(w: WorkerId): WorkerPc
      reads this`workers
    {
      if w in workers then workers[w] else Idle
    }

    predicate HoldsNothing(w: WorkerId)
      reads this`rowLocks, this`advLocks
    {
      w !in rowLocks.Values && w !in advLocks.Values
    }

    ghost predicate OnRow(pc: WorkerPc)
      reads this
    {
      pc.OnJob() && pc.job < |jobs| && pc.job < |ledger|
    }

    lemma RanStep(s: State, trace: seq<State>, acts: seq<Action>, a: Action)
      requires Path(cfg, trace, acts) && trace[0] == s && Stepped(trace[|acts|], a)
      ensures Ran(s, trace + [View()], acts + [a])
    {
      hide Enabled, Apply;
    }

    lemma RanConcat(s: State, trace: seq<State>, acts: seq<Action>, trace': seq<State>, acts': seq<Action>)
      requires Path(cfg, trace, acts) && trace[0] == s && Ran(trace[|acts|], trace', acts')
      ensures Ran(s, trace + trace'[1..], acts + acts')
    {
      hide Enabled, Apply;
      PathConcat(cfg, trace, acts, trace', acts');
    }

    // ---- planners ---------------------------------------------------------------------------

    method CreateRun(pl: PlannerId, project: ProjectId) returns (run: RunId)
      requires pl !in planners && project in caps
      modifies this`runs, this`planners
      ensures Stepped(old(View()), PlanCreate(pl, project))
      ensures run == |old(runs)| && |runs| == run + 1 && runs[..run] == old(runs)
      ensures runs[run].project == project && runs[run].status.RunRunning? && runs[run].finishedAt.None?
      ensures planners == old(planners)[pl := PlanPc(run, 0, 0)]
    {
      run := |runs|;
      runs := runs + [Run(project, RunRunning, None, None, NoSummary)];
      planners := planners[pl := PlanPc(run, 0, 0)];
    }

    method Enqueue(pl: PlannerId, collector: string, kind: string, target: string, priority: int) returns (id: JobId)
      requires pl in planners && planners[pl].run < |runs|
      modifies this`jobs, this`ledger, this`planners
      ensures id == |old(jobs)| && Stepped(old(View()), PlanEnqueue(pl, collector, kind, target, priority))
      ensures |jobs| == id + 1 && jobs[..id] == old(jobs)
      ensures var j, run := jobs[id], old(planners)[pl].run;
        && j.work.run == run && j.work.project == runs[run].project
        && j.work.collector == collector && j.work.targetKind == kind && j.work.target == target
        && j.work.priority == priority && j.work.createdAt == now
        && j.status.Queued? && j.attempts == 0 && j.leasedBy.None? && j.leaseExpiresAt.None? && j.error.None?
        && j.startedAt.None? && j.finishedAt.None?
      ensures planners == old(planners)[pl := old(planners)[pl].(kept := old(planners)[pl].kept + 1)]
    {
      id := |jobs|;
      var pc := planners[pl];
      var work := Work(pc.run, runs[pc.run].project, collector, kind, target, priority, now);
      jobs := jobs + [Job(work, Queued, None, None, 0, None, None, None)];
      ledger := ledger + [Ledger([], 0)];
      planners := planners[pl := pc.(kept := pc.kept + 1)];
    }

    method CountDrop(pl: PlannerId)
      requires pl in planners
      modifies this`planners
      ensures Stepped(old(View()), PlanDrop(pl))
      ensures planners == old(planners)[pl := old(planners)[pl].(dropped := old(planners)[pl].dropped + 1)]
    {
      planners := planners[pl := planners[pl].(dropped := planners[pl].dropped + 1)];
    }

    /** The end of Plan; with nothing kept the run is succeeded, whatever it was before. */
    method EndPlan(pl: PlannerId)
      requires pl in planners && planners[pl].run < |runs|
      modifies this`runs, this`planners
      ensures Stepped(old(View()), PlanEnd(pl)) && planners == old(planners) - {pl}
      ensures var pc := old(planners)[pl];
        && |runs| == |old(runs)|
        && (pc.kept > 0 ==> runs == old(runs))
        && (pc.kept == 0 ==>
              && runs[pc.run].status.RunSucceeded? && runs[pc.run].finishedAt == Some(now)
              && runs[pc.run].summary == NothingKept(pc.dropped)
              && forall r :: 0 <= r < |runs| && r != pc.run ==> runs[r] == old(runs)[r])
    {
      var pc := planners[pl];
      planners := planners - {pl};
      if pc.kept == 0 {
        runs := runs[pc.run := runs[pc.run].(status := RunSucceeded, finishedAt := Some(now),
                                             summary := NothingKept(pc.dropped))];
      }
    }

    method AbortPlan(pl: PlannerId)
      requires pl in planners
      modifies this`planners
      ensures Stepped(old(View()), PlanAbort(pl)) && planners == old(planners) - {pl}
    {
      planners := planners - {pl};
    }

    // ---- API callers and the sweep --------------------------------------------------------

    /** UPDATE projects SET ..., max_concurrent_jobs = COALESCE($9, max_concurrent_jobs) ...; no
        row means the project is not found. */
    method UpdateProject(p: ProjectId, cap: Option<nat>) returns (ok: bool)
      modifies this`caps
      ensures ok <==> p in old(caps)
      ensures if ok && cap.Some? then Stepped(old(View()), SetCap(p, cap.value)) else View() == old(View())
      ensures caps.Keys == old(caps).Keys && (ok ==> caps[p] == if cap.Some? then cap.value else old(caps)[p])
      ensures forall q :: q in caps && q != p ==> caps[q] == old(caps)[q]
    {
      ok := p in caps;
      if ok && cap.Some? { caps := caps[p := cap.value]; }
    }

    method Cancel(id: JobId) returns (ok: bool)
      requires id < |jobs| && id !in rowLocks
      modifies this`jobs
      ensures Stepped(old(View()), CancelJob(id)) && ok == !old(jobs[id].status.Terminal())
      ensures jobs == (
        if ok then old(jobs)[id := old(jobs)[id].(status := Cancelled, finishedAt := Some(now))] else old(jobs))
    {
      ok := !jobs[id].status.Terminal();
      if ok {
        jobs := jobs[id := jobs[id].(status := Cancelled, finishedAt := Some(now))];
      }
    }

    /** CancelRun's first update, with the affected-row count the driver reports. Rows it hits
        must not be locked: it would wait for them. */
    method CancelJobs(c: CancellerId, r: RunId) returns (n: nat)
      requires c !in cancellers && r < |runs|
      requires forall j :: 0 <= j < |jobs| && CancelHits(jobs[j], r) ==> j !in rowLocks
      modifies this`jobs, this`cancellers
      ensures Stepped(old(View()), CancelRunJobs(c, r))
      ensures !Unfinished(jobs, r) && cancellers == old(cancellers)[c := r]
      ensures |jobs| == |old(jobs)| && forall i :: 0 <= i < |jobs| ==>
        var was := old(jobs)[i];
        jobs[i] == if was.work.run == r && !was.status.Terminal()
          then was.(status := Cancelled, finishedAt := Some(now)) else was
      ensures n == Count(OfRun(r), old(jobs)) - Count(DoneIn(r), old(jobs))
    {
      n := CancelRows(r);
      cancellers := cancellers[c := r];
    }

    /** UPDATE jobs SET status = 'cancelled' ... WHERE run_id = r, row by row */
    method CancelRows(r: RunId) returns (n: nat)
      modifies this`jobs
      ensures jobs == CancelRunRows(old(jobs), r, now)
      ensures n == Count(OfRun(r), old(jobs)) - Count(DoneIn(r), old(jobs))
    {
      n := 0;
      for i := 0 to |jobs|
        invariant |jobs| == |old(jobs)|
        invariant forall k :: i <= k < |jobs| ==> jobs[k] == old(jobs)[k]
        invariant forall k :: 0 <= k < i ==>
          jobs[k] == if CancelHits(old(jobs)[k], r) then CancelRow(old(jobs)[k], now) else old(jobs)[k]
        invariant n == Count(OfRun(r), old(jobs)[..i]) - Count(DoneIn(r), old(jobs)[..i])
      {
        assert old(jobs)[..i + 1][..i] == old(jobs)[..i];
        if jobs[i].work.run == r && !jobs[i].status.Terminal() {
          jobs := jobs[i := jobs[i].(status := Cancelled, finishedAt := Some(now))];
          n := n + 1;
        }
      }
      assert old(jobs)[..|old(jobs)|] == old(jobs);
    }

    method CancelStatus(c: CancellerId)
      requires c in cancellers && cancellers[c] < |runs|
      modifies this`runs, this`cancellers
      ensures Stepped(old(View()), CancelRunStatus(c)) && cancellers == old(cancellers) - {c}
      ensures var r := old(cancellers)[c];
        && |runs| == |old(runs)| && runs[r].status.Terminal()
        && (old(runs)[r].status.Terminal() ==> runs == old(runs))
        && (!old(runs)[r].status.Terminal() ==>
              runs[r].status.RunCancelled? && runs[r].cancelledAt == runs[r].finishedAt == Some(now))
    {
      var r := cancellers[c];
      cancellers := cancellers - {c};
      if !runs[r].status.Terminal() {
        runs := runs[r := runs[r].(status := RunCancelled, cancelledAt := Some(now), finishedAt := Some(now))];
      }
    }

    /** CancelRun returning before its second update. */
    method AbandonCancel(c: CancellerId)
      requires c in cancellers
      modifies this`cancellers
      ensures Stepped(old(View()), CancelAbort(c)) && cancellers == old(cancellers) - {c}
    {
      cancellers := cancellers - {c};
    }

    /** Both updates of CancelRun, nothing else running in between. `gone` says that the second
        fails, the context being the request's: the call then answers an error, with the
        jobs cancelled and the run as it was. */
    method CancelRun(c: CancellerId, r: RunId, gone: bool)
      returns (n: Option<nat>, ghost trace: seq<State>, ghost acts: seq<Action>)
      requires c !in cancellers && r < |runs|
      requires forall j :: 0 <= j < |jobs| && CancelHits(jobs[j], r) ==> j !in rowLocks
      modifies this`jobs, this`runs, this`cancellers
      ensures Ran(old(View()), trace, acts)
      ensures acts == [CancelRunJobs(c, r), if gone then CancelAbort(c) else CancelRunStatus(c)]
      ensures |runs| == |old(runs)| && !Unfinished(jobs, r)
      ensures if gone then runs == old(runs) else runs[r].status.Terminal()
      ensures n == if gone then None else Some(Count(OfRun(r), old(jobs)) - Count(DoneIn(r), old(jobs)))
    {
      hide Enabled, Apply;
      trace, acts := [View()], [];
      var hit := CancelJobs(c, r);
      RanStep(old(View()), trace, acts, CancelRunJobs(c, r));
      trace, acts := trace + [View()], acts + [CancelRunJobs(c, r)];
      if gone {
        AbandonCancel(c);
        n := None;
      } else {
        CancelStatus(c);
        n := Some(hit);
      }
      RanStep(old(View()), trace, acts, if gone then CancelAbort(c) else CancelRunStatus(c));
      trace, acts := trace + [View()], acts + [if gone then CancelAbort(c) else CancelRunStatus(c)];
    }

    method ReclaimExpired() returns (n: nat)
      requires |ledger| == |jobs|
      modifies this`jobs, this`ledger
      ensures Stepped(old(View()), Reclaim)
      ensures |jobs| == |old(jobs)| && forall i :: 0 <= i < |jobs| ==>
        var was := old(jobs)[i];
        jobs[i] == if (was.status.Leased? || was.status.Running?) && was.leaseExpiresAt.Some?
                      && was.leaseExpiresAt.value < now
          then was.(status := Queued, leasedBy := None, leaseExpiresAt := None) else was
      ensures n == |Differing(old(jobs), jobs)|
    {
      hide Differing;
      n := 0;
      assert Differing(old(jobs), jobs) == {} by { NoneDiffer(jobs); }
      for i := 0 to |jobs|
        invariant |jobs| == |old(jobs)| && n == |Differing(old(jobs), jobs)|
        invariant |ledger| == |jobs| == |old(jobs)| == |old(ledger)|
        invariant forall k :: i <= k < |jobs| ==> jobs[k] == old(jobs)[k] && ledger[k] == old(ledger)[k]
        invariant forall k :: 0 <= k < i ==>
          jobs[k] == if Expired(old(jobs)[k], now) then RequeueRow(old(jobs)[k]) else old(jobs)[k]
        invariant forall k :: 0 <= k < i ==>
          var was := old(ledger)[k];
          ledger[k] == if Expired(old(jobs)[k], now) then was.(reclaims := was.reclaims + 1) else was
      {
        var j := jobs[i];
        if (j.status.Leased? || j.status.Running?) && j.leaseExpiresAt.Some? && j.leaseExpiresAt.value < now {
          n := n + 1;
          OneMoreDiffers(old(jobs), jobs, i, j.(status := Queued, leasedBy := None, leaseExpiresAt := None));
          ledger := ledger[i := ledger[i].(reclaims := ledger[i].reclaims + 1)];
          jobs := jobs[i := j.(status := Queued, leasedBy := None, leaseExpiresAt := None)];
        }
      }
      assert View() == ReclaimAll(old(View()));
    }

    // ---- Lease, statement by statement --------------------------------------------------------

    /** SELECT ... ORDER BY priority DESC, created_at FOR UPDATE SKIP LOCKED LIMIT 1 */
    method SelectQueued(w: WorkerId) returns (best: Option<JobId>)
      requires At(w).Idle? && |ledger| == |jobs|
      modifies this`rowLocks, this`workers
      ensures best.None? ==> (forall k: nat :: !Waiting(View(), k)) && View() == old(View())
      ensures best.Some? ==>
        && best.value < |jobs| && Stepped(old(View()), Worker(w, LeaseSelect(best.value)))
        && HeadOfQueue(old(View()), best.value)
        && At(w) == Selected(best.value, caps[jobs[best.value].work.project])
        && rowLocks == old(rowLocks)[best.value := w]
    {
      best := None;
      for i := 0 to |jobs|
        invariant best.None? ==> forall k: nat :: k < i ==> !Waiting(View(), k)
        invariant best.Some? ==> best.value < i && Waiting(View(), best.value)
        invariant best.Some? ==> forall k: nat :: k < i && Waiting(View(), k) ==>
          var a, b := jobs[k].work, jobs[best.value].work;
          a.priority < b.priority || (a.priority == b.priority && a.createdAt >= b.createdAt)
      {
        if jobs[i].status.Queued? && i !in rowLocks && jobs[i].work.project in caps {
          var better := true;
          if best.Some? {
            var a, b := jobs[i].work, jobs[best.value].work;
            better := a.priority > b.priority || (a.priority == b.priority && a.createdAt < b.createdAt);
          }
          if better { best := Some(i); }
        }
      }
      assert forall k: nat :: Leasable(View(), k) <==> Waiting(View(), k);
      if best.Some? {
        workers := workers[w := Selected(best.value, caps[jobs[best.value].work.project])];
        rowLocks := rowLocks[best.value := w];
      }
    }

    /** COMMIT or ROLLBACK */
    method EndTransaction(w: WorkerId, pc: WorkerPc)
      modifies this`rowLocks, this`advLocks, this`workers
      ensures View() == Unlock(old(View()), w).(workers := old(workers)[w := pc])
      ensures HoldsNothing(w)
    {
      rowLocks, advLocks := Without(rowLocks, w), Without(advLocks, w);
      workers := workers[w := pc];
    }

    /** A statement of Lease fails, and the deferred rollback runs. */
    method RollBackLease(w: WorkerId)
      requires OnRow(At(w)) && At(w).InLease()
      modifies this`rowLocks, this`advLocks, this`workers
      ensures Stepped(old(View()), Worker(w, LeaseRollback)) && At(w).Idle? && HoldsNothing(w)
    {
      EndTransaction(w, Idle);
    }

    /** The worker's process dies; the server rolls its open transaction back. */
    method Die(w: WorkerId)
      requires At(w).OnJob() ==> OnRow(At(w))
      modifies this`rowLocks, this`advLocks, this`workers
      ensures Stepped(old(View()), Worker(w, Crash)) && At(w).Idle? && HoldsNothing(w)
    {
      EndTransaction(w, Idle);
    }

    /** pg_advisory_xact_lock, once the key is free */
    method LockCap(w: WorkerId)
      requires OnRow(At(w)) && At(w).Selected? && At(w).cap > 0
      requires cfg.key(jobs[At(w).job].work.project) !in advLocks
      modifies this`advLocks, this`workers
      ensures Stepped(old(View()), Worker(w, CapLock))
      ensures At(w) == CapLocked(old(At(w)).job, old(At(w)).cap)
      ensures advLocks == old(advLocks)[cfg.key(jobs[old(At(w)).job].work.project) := w]
    {
      var pc := At(w);
      advLocks := advLocks[cfg.key(jobs[pc.job].work.project) := w];
      workers := workers[w := CapLocked(pc.job, pc.cap)];
    }

    /** SELECT COUNT(*) of the busy jobs, and the rollback at the cap */
    method CountCap(w: WorkerId) returns (below: bool)
      requires OnRow(At(w)) && At(w).CapLocked?
      modifies this`rowLocks, this`advLocks, this`workers
      ensures Stepped(old(View()), Worker(w, CapCount))
      ensures below <==> Count(BusyIn(jobs[old(At(w)).job].work.project), jobs) < old(At(w)).cap
      ensures below ==> At(w) == Counted(old(At(w)).job) && rowLocks == old(rowLocks) && advLocks == old(advLocks)
      ensures !below ==>
        At(w).Idle? && rowLocks == Without(old(rowLocks), w) && advLocks == Without(old(advLocks), w)
    {
      var pc := At(w);
      var busy := 0;
      for i := 0 to |jobs|
        invariant busy == Count(BusyIn(jobs[pc.job].work.project), jobs[..i])
      {
        assert jobs[..i + 1][..i] == jobs[..i];
        if jobs[i].work.project == jobs[pc.job].work.project && (jobs[i].status.Leased? || jobs[i].status.Running?) {
          busy := busy + 1;
        }
      }
      assert jobs[..|jobs|] == jobs;
      below := busy < pc.cap;
      if below {
        workers := workers[w := Counted(pc.job)];
      } else {
        EndTransaction(w, Idle);
      }
    }

    /** UPDATE jobs SET status = 'leased', ..., visible to this transaction only */
    method UpdateLeased(w: WorkerId)
      requires OnRow(At(w)) && (At(w).Counted? || (At(w).Selected? && At(w).cap == 0))
      modifies this`workers
      ensures Stepped(old(View()), Worker(w, LeaseUpdate))
      ensures var j := old(At(w)).job;
        && At(w).Updated? && At(w).job == j && At(w).capped == old(At(w)).Counted?
        && At(w).image == LeaseRow(jobs[j], w, now + cfg.lease)
    {
      var pc := At(w);
      var j := jobs[pc.job];
      var image := j.(status := Leased, leasedBy := Some(w), leaseExpiresAt := Some(now + cfg.lease),
                      attempts := j.attempts + 1);
      workers := workers[w := Updated(pc.job, image, pc.Counted?)];
    }

    method CommitLease(w: WorkerId)
      requires OnRow(At(w)) && At(w).Updated?
      modifies this`jobs, this`ledger, this`rowLocks, this`advLocks, this`workers
      ensures Stepped(old(View()), Worker(w, LeaseCommit))
      ensures jobs == old(jobs)[old(At(w)).job := old(At(w)).image] && |ledger| == |old(ledger)|
      ensures At(w) == Holding(old(At(w)).job, old(At(w)).image.attempts)
      ensures rowLocks == Without(old(rowLocks), w) && advLocks == Without(old(advLocks), w)
    {
      var pc := At(w);
      ghost var until := if pc.image.leaseExpiresAt.Some? then pc.image.leaseExpiresAt.value else now;
      ghost var past := ledger[pc.job].windows;
      ledger := ledger[pc.job := ledger[pc.job].(windows := past + [Window(w, until - cfg.lease, until)])];
      jobs := jobs[pc.job := pc.image];
      EndTransaction(w, Holding(pc.job, pc.image.attempts));
    }

    /** Lease's concurrency check, the project's key being free; at the cap it ends the
        transaction. */
    method CheckCap(w: WorkerId) returns (ok: bool, ghost trace: seq<State>, ghost acts: seq<Action>)
      requires OnRow(At(w)) && At(w).Selected? && w !in advLocks.Values
      requires At(w).cap > 0 ==> cfg.key(jobs[At(w).job].work.project) !in advLocks
      modifies this`rowLocks, this`advLocks, this`workers
      ensures Ran(old(View()), trace, acts) && acts == CheckActs(w, old(At(w)).cap)
      ensures ok <==> (old(At(w)).cap > 0 ==> Count(BusyIn(jobs[old(At(w)).job].work.project), jobs) < old(At(w)).cap)
      ensures ok ==>
        && rowLocks == old(rowLocks) && Without(advLocks, w) == old(advLocks)
        && (At(w).Counted? || (At(w).Selected? && At(w).cap == 0)) && At(w).job == old(At(w)).job
      ensures !ok ==> At(w).Idle? && rowLocks == Without(old(rowLocks), w) && advLocks == old(advLocks)
    {
      hide Enabled, Apply, Count;
      trace, acts, ok := [View()], [], true;
      if At(w).cap > 0 {
        WithoutNew(advLocks, cfg.key(jobs[At(w).job].work.project), w);
        LockCap(w);
        RanStep(old(View()), trace, acts, Worker(w, CapLock));
        trace, acts := trace + [View()], acts + [Worker(w, CapLock)];
        ok := CountCap(w);
        RanStep(old(View()), trace, acts, Worker(w, CapCount));
        trace, acts := trace + [View()], acts + [Worker(w, CapCount)];
      } else {
        WithoutNone(advLocks, w);
      }
    }

    /** Lease's UPDATE and COMMIT. */
    method Grant(w: WorkerId) returns (ghost trace: seq<State>, ghost acts: seq<Action>)
      requires OnRow(At(w)) && (At(w).Counted? || (At(w).Selected? && At(w).cap == 0))
      modifies this`jobs, this`ledger, this`rowLocks, this`advLocks, this`workers
      ensures Ran(old(View()), trace, acts) && acts == GrantActs(w)
      ensures rowLocks == Without(old(rowLocks), w) && advLocks == Without(old(advLocks), w)
      ensures |ledger| == |old(ledger)|
      ensures var j := old(At(w)).job;
        && jobs == old(jobs)[j := LeaseRow(old(jobs)[j], w, now + cfg.lease)]
        && At(w) == Holding(j, jobs[j].attempts)
    {
      hide Enabled, Apply, Without;
      trace, acts := [View()], [];
      UpdateLeased(w);
      RanStep(old(View()), trace, acts, Worker(w, LeaseUpdate));
      trace, acts := trace + [View()], acts + [Worker(w, LeaseUpdate)];
      CommitLease(w);
      RanStep(old(View()), trace, acts, Worker(w, LeaseCommit));
      trace, acts := trace + [View()], acts + [Worker(w, LeaseCommit)];
    }

    /** Lease once it has selected a job. */
    method LeaseSelected(w: WorkerId) returns (ok: bool, ghost trace: seq<State>, ghost acts: seq<Action>)
      requires OnRow(At(w)) && At(w).Selected? && w !in advLocks.Values
      requires At(w).cap > 0 ==> cfg.key(jobs[At(w).job].work.project) !in advLocks
      modifies this`jobs, this`ledger, this`rowLocks, this`advLocks, this`workers
      ensures Ran(old(View()), trace, acts)
      ensures acts == CheckActs(w, old(At(w)).cap) + if ok then GrantActs(w) else []
      ensures rowLocks == Without(old(rowLocks), w) && advLocks == old(advLocks) && |ledger| == |old(ledger)|
      ensures var j, cap := old(At(w)).job, old(At(w)).cap;
        && (ok <==> (cap > 0 ==> Count(BusyIn(old(jobs)[j].work.project), old(jobs)) < cap))
        && (!ok ==> jobs == old(jobs) && At(w).Idle?)
        && (ok ==>
              && jobs == old(jobs)[j := LeaseRow(old(jobs)[j], w, now + cfg.lease)]
              && At(w) == Holding(j, jobs[j].attempts))
    {
      hide Enabled, Apply, Without, Count;
      ok, trace, acts := CheckCap(w);
      if ok {
        var trace', acts' := Grant(w);
        RanConcat(old(View()), trace, acts, trace', acts');
        trace, acts := trace + trace'[1..], acts + acts';
      }
    }

    /** Queue.Lease beside whatever other transactions are open, so long as it need not wait
        for an advisory lock: it takes a best queued job unless there is none or the best
        one's project is at its cap, and otherwise changes no row. */
    method Lease(w: WorkerId) returns (id: Option<JobId>, ghost trace: seq<State>, ghost acts: seq<Action>)
      requires At(w).Idle? && |ledger| == |jobs| && HoldsNothing(w)
      requires forall j: nat :: Waiting(View(), j) && caps[jobs[j].work.project] > 0 ==>
        cfg.key(jobs[j].work.project) !in advLocks
      modifies this`jobs, this`ledger, this`rowLocks, this`advLocks, this`workers
      ensures Ran(old(View()), trace, acts) && |ledger| == |jobs| == |old(jobs)|
      ensures rowLocks == old(rowLocks) && advLocks == old(advLocks)
      ensures id.None? ==> jobs == old(jobs) && At(w).Idle?
      ensures id.None? ==>
        || ((forall k: nat :: !Waiting(old(View()), k)) && acts == [])
        || (exists k: nat ::
              && HeadOfQueue(old(View()), k) && AtCap(old(View()), jobs[k].work.project)
              && acts == [Worker(w, LeaseSelect(k))] + CheckActs(w, caps[jobs[k].work.project]))
      ensures id.Some? ==>
        && HeadOfQueue(old(View()), id.value) && !AtCap(old(View()), old(jobs)[id.value].work.project)
        && jobs == old(jobs)[id.value := old(jobs)[id.value].(
                    status := Leased, leasedBy := Some(w), leaseExpiresAt := Some(now + cfg.lease),
                    attempts := old(jobs)[id.value].attempts + 1)]
        && At(w) == Holding(id.value, jobs[id.value].attempts)
        && acts == [Worker(w, LeaseSelect(id.value))]
             + CheckActs(w, caps[old(jobs)[id.value].work.project]) + GrantActs(w)
    {
      hide Apply, Without, Count, CheckActs, GrantActs;
      trace, acts := [View()], [];
      id := SelectQueued(w);
      if id.None? { return; }
      hide Enabled;
      RanStep(old(View()), trace, acts, Worker(w, LeaseSelect(id.value)));
      trace, acts := trace + [View()], acts + [Worker(w, LeaseSelect(id.value))];
      WithoutNew(old(rowLocks), id.value, w);
      var ok, trace', acts' := LeaseSelected(w);
      RanConcat(old(View()), trace, acts, trace', acts');
      trace, acts := trace + trace'[1..], acts + acts';
      if !ok {
        assert HeadOfQueue(old(View()), id.value);
        id := None;
      }
    }

    // ---- the worker loop --------------------------------------------------------------------

    method MarkRunning(w: WorkerId) returns (ok: bool)
      requires OnRow(At(w)) && At(w).Holding?
      modifies this`jobs, this`workers
      ensures Stepped(old(View()), Worker(w, Protocol.MarkRunning))
      ensures var j, was := old(At(w)).job, old(jobs)[old(At(w)).job];
        && (ok <==> was.leasedBy == Some(w) && was.status.Leased?)
        && (!ok ==> jobs == old(jobs) && At(w).Idle?)
        && (ok ==>
              && jobs == old(jobs)[j := was.(status := Running, startedAt := jobs[j].startedAt)]
              && jobs[j].startedAt == (if was.startedAt.Some? then was.startedAt else Some(now))
              && At(w) == Executing(j, old(At(w)).attempt))
    {
      var pc := At(w);
      var j := jobs[pc.job];
      ok := j.leasedBy == Some(w) && j.status.Leased?;
      if ok {
        var started := if j.startedAt.None? then Some(now) else j.startedAt;
        jobs := jobs[pc.job := j.(status := Running, startedAt := started)];
        workers := workers[w := Executing(pc.job, pc.attempt)];
      } else {
        workers := workers[w := Idle];
      }
    }

    /** The error column: an empty message is stored as NULL. */
    static function Nullable(message: string): Option<string> { if message == "" then None else Some(message) }

    /** Refuses a status that is not terminal before it touches the database. */
    method Complete(w: WorkerId, outcome: Status, message: string) returns (ok: bool)
      requires OnRow(At(w)) && (At(w).Holding? || At(w).Executing?)
      modifies this`jobs, this`workers
      ensures !outcome.Terminal() ==> !ok && View() == old(View())
      ensures outcome.Terminal() ==> Stepped(old(View()), Worker(w, Step.Complete(outcome, Nullable(message))))
      ensures outcome.Terminal() ==>
        var j, was := old(At(w)).job, old(jobs)[old(At(w)).job];
        && (ok <==> was.leasedBy == Some(w) && was.status.InFlight())
        && At(w) == Finishing(was.work.run)
        && (!ok ==> jobs == old(jobs))
        && (ok ==>
              && jobs == old(jobs)[j := was.(status := outcome, finishedAt := Some(now), error := jobs[j].error)]
              && (jobs[j].error.None? <==> message == "") && (message != "" ==> jobs[j].error.value == message))
    {
      if !outcome.Terminal() { return false; }
      var pc := At(w);
      var j := jobs[pc.job];
      ok := j.leasedBy == Some(w) && (j.status.Leased? || j.status.Running?);
      workers := workers[w := Finishing(j.work.run)];
      if ok {
        jobs := jobs[pc.job := j.(status := outcome, finishedAt := Some(now), error := Nullable(message))];
      }
    }

    /** Complete returns an error with nothing written; execute does not look at it. */
    method FailToComplete(w: WorkerId)
      requires OnRow(At(w)) && (At(w).Holding? || At(w).Executing?)
      modifies this`workers
      ensures Stepped(old(View()), Worker(w, CompleteFails)) && At(w) == Finishing(jobs[old(At(w)).job].work.run)
    {
      workers := workers[w := Finishing(jobs[At(w).job].work.run)];
    }

    /** MaybeFinishRun's SELECT COUNT: it goes on only with every job of the run done. */
    method CountRun(w: WorkerId) returns (full: bool)
      requires At(w).Finishing?
      modifies this`workers
      ensures Stepped(old(View()), Worker(w, FinishCount))
      ensures var r := old(At(w)).run;
        && (full <==> HasJob(jobs, r) && !Unfinished(jobs, r))
        && (full ==> At(w) == Closing(r, if AnyFailed(jobs, r) then RunFailed else RunSucceeded,
                                      |jobs|, Count(OfRun(r), jobs), Count(FailedIn(r), jobs)))
        && (!full ==> At(w).Idle?)
    {
      var r := At(w).run;
      var total, done, failed := CountJobs(r);
      full := !(total == 0 || done < total);
      CountsSay(jobs, r);
      CountCompare(DoneIn(r), jobs, OfRun(r), jobs);
      hide Count, HasJob, Unfinished, AnyFailed;
      workers := workers[w := if full
        then Closing(r, if failed > 0 then RunFailed else RunSucceeded, |jobs|, total, failed) else Idle];
    }

    /** COUNT(*), twice with a FILTER */
    method CountJobs(r: RunId) returns (total: nat, done: nat, failed: nat)
      ensures total == Count(OfRun(r), jobs) && done == Count(DoneIn(r), jobs) && failed == Count(FailedIn(r), jobs)
    {
      total, done, failed := 0, 0, 0;
      for i := 0 to |jobs|
        invariant total == Count(OfRun(r), jobs[..i]) && done == Count(DoneIn(r), jobs[..i])
        invariant failed == Count(FailedIn(r), jobs[..i])
      {
        assert jobs[..i + 1][..i] == jobs[..i];
        if jobs[i].work.run == r {
          total := total + 1;
          if jobs[i].status.Terminal() { done := done + 1; }
          if jobs[i].status.Failed? || jobs[i].status.TimedOut? { failed := failed + 1; }
        }
      }
      assert jobs[..|jobs|] == jobs;
    }

    /** MaybeFinishRun's guarded UPDATE. */
    method WriteVerdict(w: WorkerId)
      requires At(w).Closing? && At(w).run < |runs|
      modifies this`runs, this`workers
      ensures Stepped(old(View()), Worker(w, FinishUpdate)) && At(w).Idle? && |runs| == |old(runs)|
      ensures var pc := old(At(w));
        && (old(runs)[pc.run].status.Terminal() ==> runs == old(runs))
        && (!old(runs)[pc.run].status.Terminal() ==>
              && runs[pc.run].status == pc.verdict && runs[pc.run].finishedAt == Some(now)
              && runs[pc.run].summary == Counts(pc.total, pc.failed)
              && runs[pc.run].project == old(runs)[pc.run].project)
        && forall r :: 0 <= r < |runs| && r != pc.run ==> runs[r] == old(runs)[r]
    {
      var pc := At(w);
      if !runs[pc.run].status.Terminal() {
        runs := runs[pc.run := runs[pc.run].(status := pc.verdict, finishedAt := Some(now),
                                             summary := Counts(pc.total, pc.failed))];
      }
      workers := workers[w := Idle];
    }

    /** MaybeFinishRun, nothing else running between its two statements. */
    method MaybeFinishRun(w: WorkerId) returns (ghost trace: seq<State>, ghost acts: seq<Action>)
      requires At(w).Finishing? && At(w).run < |runs|
      modifies this`runs, this`workers
      ensures Ran(old(View()), trace, acts) && acts == FinishActs(w, jobs, old(At(w)).run) && At(w).Idle?
      ensures HasJob(jobs, old(At(w)).run) ==> Closed(old(runs), runs, jobs, old(At(w)).run)
      ensures !HasJob(jobs, old(At(w)).run) ==> runs == old(runs)
    {
      hide Enabled, Apply, Count, HasJob, Unfinished, AnyFailed;
      trace, acts := [View()], [];
      var full := CountRun(w);
      RanStep(old(View()), trace, acts, Worker(w, FinishCount));
      trace, acts := trace + [View()], acts + [Worker(w, FinishCount)];
      if full {
        WriteVerdict(w);
        RanStep(old(View()), trace, acts, Worker(w, FinishUpdate));
        trace, acts := trace + [View()], acts + [Worker(w, FinishUpdate)];
      }
    }

    /** Complete, then MaybeFinishRun, which runs also when Complete changed nothing. */
    method CompleteAndFinish(w: WorkerId, outcome: Status, message: string)
      returns (ghost trace: seq<State>, ghost acts: seq<Action>)
      requires OnRow(At(w)) && (At(w).Holding? || At(w).Executing?) && outcome.Terminal()
      requires jobs[At(w).job].work.run < |runs|
      modifies this`jobs, this`runs, this`workers
      ensures Ran(old(View()), trace, acts) && At(w).Idle?
      ensures var j, was := old(At(w)).job, old(jobs)[old(At(w)).job];
        && acts == [Worker(w, Step.Complete(outcome, Nullable(message)))] + FinishActs(w, jobs, was.work.run)
        && jobs == (if was.leasedBy == Some(w) && was.status.InFlight()
                    then old(jobs)[j := CompleteRow(was, outcome, Nullable(message), now)] else old(jobs))
        && Closed(old(runs), runs, jobs, was.work.run)
    {
      hide Enabled, Apply, Closed;
      trace, acts := [View()], [];
      var _ := Complete(w, outcome, message);
      RanStep(old(View()), trace, acts, Worker(w, Step.Complete(outcome, Nullable(message))));
      trace, acts := trace + [View()], acts + [Worker(w, Step.Complete(outcome, Nullable(message)))];
      assert jobs[old(At(w)).job].work.run == At(w).run;
      var trace', acts' := MaybeFinishRun(w);
      RanConcat(old(View()), trace, acts, trace', acts');
      trace, acts := trace + trace'[1..], acts + acts';
    }

    /** What execute reports of the job when it completes it. */
    ghost function Report(job: Job, registered: bool, secrets: Option<string>, ending: Ending): (Status, string) {
      if !registered then (Failed, "collector " + quote(job.work.collector) + " not registered")
      else if secrets.Some? then (Failed, secrets.value)
      else match ending
           case Done => (Succeeded, "")
           case DeadlineExceeded(m) => (TimedOut, m)
           case Error(m) => (Failed, m)
           case Canceled => (Failed, "")
    }

    /** execute once the job is marked running. */
    method Conclude(w: WorkerId, secrets: Option<string>, ending: Ending)
      returns (ghost trace: seq<State>, ghost acts: seq<Action>)
      requires OnRow(At(w)) && At(w).Executing? && jobs[At(w).job].work.run < |runs|
      modifies this`jobs, this`runs, this`workers
      ensures Ran(old(View()), trace, acts) && At(w).Idle?
      ensures var j, was := old(At(w)).job, old(jobs)[old(At(w)).job];
        var completes := secrets.Some? || !ending.Canceled?;
        var (outcome, message) := Report(was, true, secrets, ending);
        && acts == (if completes then [Worker(w, Step.Complete(outcome, Nullable(message)))]
                                    + FinishActs(w, jobs, was.work.run) else [Worker(w, Preempt)])
        && jobs == (if completes && was.leasedBy == Some(w) && was.status.InFlight()
                    then old(jobs)[j := CompleteRow(was, outcome, Nullable(message), now)] else old(jobs))
        && (if completes then Closed(old(runs), runs, jobs, was.work.run) else runs == old(runs))
    {
      hide Enabled, Apply, Nullable, Path, Unfinished, FinishActs, Closed;
      if secrets.Some? {
        trace, acts := CompleteAndFinish(w, Failed, secrets.value);
        return;
      }
      match ending
      case Done => trace, acts := CompleteAndFinish(w, Succeeded, "");
      case DeadlineExceeded(m) => trace, acts := CompleteAndFinish(w, TimedOut, m);
      case Canceled => trace, acts := Preempted(w);
      case Error(m) => trace, acts := CompleteAndFinish(w, Failed, m);
    }

    /** MarkRunning, as a run of one step. */
    method Begin(w: WorkerId) returns (ok: bool, ghost trace: seq<State>, ghost acts: seq<Action>)
      requires OnRow(At(w)) && At(w).Holding?
      modifies this`jobs, this`workers
      ensures Ran(old(View()), trace, acts) && acts == [Worker(w, Protocol.MarkRunning)]
      ensures var j, was := old(At(w)).job, old(jobs)[old(At(w)).job];
        && (ok <==> was.leasedBy == Some(w) && was.status.Leased?)
        && (!ok ==> jobs == old(jobs) && At(w).Idle?)
        && (ok ==>
              && jobs == old(jobs)[j := StartRow(was, now)] && At(w).Executing? && At(w).job == j
              && jobs[j].leasedBy == Some(w) && jobs[j].status.InFlight() && jobs[j].work == was.work)
    {
      hide Enabled, Apply;
      trace, acts := [View()], [];
      ok := MarkRunning(w);
      RanStep(old(View()), trace, acts, Worker(w, Protocol.MarkRunning));
      trace, acts := trace + [View()], acts + [Worker(w, Protocol.MarkRunning)];
    }

    /** execute for a collector that is registered. */
    method ExecuteKnown(w: WorkerId, secrets: Option<string>, ending: Ending)
      returns (ghost trace: seq<State>, ghost acts: seq<Action>)
      requires OnRow(At(w)) && At(w).Holding? && jobs[At(w).job].work.run < |runs|
      modifies this`jobs, this`runs, this`workers
      ensures Ran(old(View()), trace, acts) && At(w).Idle?
      ensures var j, was := old(At(w)).job, old(jobs)[old(At(w)).job];
        var starts := was.leasedBy == Some(w) && was.status.Leased?;
        var completes := starts && (secrets.Some? || !ending.Canceled?);
        var (outcome, message) := Report(was, true, secrets, ending);
        && acts == [Worker(w, Protocol.MarkRunning)]
             + (if completes then [Worker(w, Step.Complete(outcome, Nullable(message)))]
                               + FinishActs(w, jobs, was.work.run)
                else if starts then [Worker(w, Preempt)] else [])
        && jobs == (
             if completes then old(jobs)[j := CompleteRow(StartRow(was, now), outcome, Nullable(message), now)]
             else if starts then old(jobs)[j := StartRow(was, now)] else old(jobs))
        && (if completes then Closed(old(runs), runs, jobs, was.work.run) else runs == old(runs))
    {
      hide Enabled, Apply, Nullable, Unfinished, FinishActs, Closed, CompleteRow, StartRow;
      var ok;
      ok, trace, acts := Begin(w);
      if !ok { return; }
      var trace', acts' := Conclude(w, secrets, ending);
      RanConcat(old(View()), trace, acts, trace', acts');
      trace, acts := trace + trace'[1..], acts + acts';
    }

    /** Pool.execute. The job of an unknown collector is failed without being started; any
        other is started, then failed if its secrets cannot be resolved, left running for the
        sweep on shutdown, and otherwise recorded as its collector ended. A worker that no
        longer holds the job changes nothing in the table. Once completed, an open run whose
        jobs are all done is closed as they say. */
    method Execute(w: WorkerId, registered: bool, secrets: Option<string>, ending: Ending)
      returns (ghost trace: seq<State>, ghost acts: seq<Action>)
      requires OnRow(At(w)) && At(w).Holding? && jobs[At(w).job].work.run < |runs|
      modifies this`jobs, this`runs, this`workers
      ensures Ran(old(View()), trace, acts) && At(w).Idle?
      ensures var j, was := old(At(w)).job, old(jobs)[old(At(w)).job];
        var starts := registered && was.leasedBy == Some(w) && was.status.Leased?;
        var completes := !registered || (starts && (secrets.Some? || !ending.Canceled?));
        var (outcome, message) := Report(was, registered, secrets, ending);
        && acts == (if registered then [Worker(w, Protocol.MarkRunning)] else [])
             + (if completes then [Worker(w, Step.Complete(outcome, Nullable(message)))]
                               + FinishActs(w, jobs, was.work.run)
                else if starts then [Worker(w, Preempt)] else [])
        && |jobs| == |old(jobs)|
        && (forall k :: 0 <= k < |jobs| && k != j ==> jobs[k] == old(jobs)[k])
        && (!(was.leasedBy == Some(w) && was.status.InFlight()) ==> jobs == old(jobs))
        && (if completes then Closed(old(runs), runs, jobs, was.work.run) else runs == old(runs))
      ensures var was, row := old(jobs)[old(At(w)).job], jobs[old(At(w)).job];
        was.leasedBy == Some(w) && was.status.Leased? ==>
          && row.work == was.work && row.leasedBy == was.leasedBy && row.attempts == was.attempts
          && (row.finishedAt == if row.status.Running? then was.finishedAt else Some(now))
          && (row.startedAt == if registered && was.startedAt.None? then Some(now) else was.startedAt)
          && (!registered ==> row.status.Failed?
                              && row.error == Some("collector " + quote(was.work.collector) + " not registered"))
          && (registered && secrets.Some? ==> row.status.Failed? && Says(row.error, secrets.value))
          && (registered && secrets.None? ==> match ending
                case Done => row.status.Succeeded? && row.error.None?
                case DeadlineExceeded(m) => row.status.TimedOut? && Says(row.error, m)
                case Error(m) => row.status.Failed? && Says(row.error, m)
                case Canceled => row.status.Running? && row.error == was.error)
      ensures var j, was := old(At(w)).job, old(jobs)[old(At(w)).job];
        was.leasedBy == Some(w) && was.status.Leased? && !(registered && secrets.None? && ending.Canceled?)
        && OnlyJob(old(jobs), j) && old(runs)[was.work.run].status.RunRunning? ==>
          runs[was.work.run].status ==
            if registered && secrets.None? && ending.Done? then RunSucceeded else RunFailed
    {
      hide Enabled, Apply, Unfinished, FinishActs, Path, Closed, OnlyJob;
      ghost var j, r := At(w).job, jobs[At(w).job].work.run;
      if !registered {
        trace, acts := CompleteAndFinish(
          w, Failed, "collector " + quote(jobs[At(w).job].work.collector) + " not registered");
      } else {
        trace, acts := ExecuteKnown(w, secrets, ending);
      }
      OnlyJobDecides(old(jobs), old(runs), runs, jobs, j);
    }

    /** The worker is shutting down: nothing is written. */
    method Preempted(w: WorkerId) returns (ghost trace: seq<State>, ghost acts: seq<Action>)
      requires OnRow(At(w)) && At(w).Executing?
      modifies this`workers
      ensures Ran(old(View()), trace, acts) && acts == [Worker(w, Preempt)] && At(w).Idle?
    {
      trace, acts := [View()], [];
      workers := workers[w := Idle];
      RanStep(old(View()), trace, acts, Worker(w, Preempt));
      trace, acts := trace + [View()], acts + [Worker(w, Preempt)];
    }
  }
}
