/** What every step of the protocol keeps. */
module Invariants {
  import opened Wrappers
  import opened Rows
  import opened Protocol

  // ---- locks and program counters ----------------------------------------------------

  predicate HoldsRow(s: State, w: WorkerId, j: JobId) {
    j < |s.jobs| && j in s.rowLocks && s.rowLocks[j] == w && s.jobs[j].status.Queued?
  }

  predicate HoldsKey(s: State, cfg: Config, w: WorkerId, j: JobId) {
    j < |s.jobs| && Key(cfg, s, j) in s.advLocks && s.advLocks[Key(cfg, s, j)] == w
  }

  predicate LeaseOk(s: State, cfg: Config, w: WorkerId, pc: WorkerPc) {
    pc.InLease() ==>
      && HoldsRow(s, w, pc.job)
      && (pc.HoldsKey() ==> HoldsKey(s, cfg, w, pc.job))
      && (pc.CapLocked? ==> pc.cap > 0)
      && (pc.Updated? ==>
           && pc.image.leaseExpiresAt.Some? && pc.image.leaseExpiresAt.value <= s.now + cfg.lease
           && pc.image == LeaseRow(s.jobs[pc.job], w, pc.image.leaseExpiresAt.value))
  }

  /** The locks of session v, against the place v is at. */
  ghost predicate OwnLocks(s: State, cfg: Config, v: WorkerId, pc: WorkerPc) {
    && (forall j :: j in s.rowLocks && s.rowLocks[j] == v ==> pc.InLease() && pc.job == j)
    && (forall k :: k in s.advLocks && s.advLocks[k] == v ==>
          pc.HoldsKey() && pc.job < |s.jobs| && Key(cfg, s, pc.job) == k)
  }

  /** Locks are held by live Lease transactions on exactly those rows and keys. */
  ghost predicate Locks(s: State, cfg: Config) {
    && |s.ledger| == |s.jobs|
    && (forall w: WorkerId :: LeaseOk(s, cfg, w, Pc(s, w)))
    && (forall w: WorkerId :: OwnLocks(s, cfg, w, Pc(s, w)))
  }

  /** How one worker statement may change row i. */
  predicate WorkerChange(s: State, w: WorkerId, pc: WorkerPc, step: Step, i: JobId, was: Job, row: Job) {
    row == was || (pc.OnJob() && pc.job == i && (
      || (step.LeaseCommit? && was.status.Queued? && pc.Updated? && row == pc.image)
      || (step.MarkRunning? && was.leasedBy == Some(w) && was.status.Leased? && row == StartRow(was, s.now))
      || (step.Complete? && was.leasedBy == Some(w) && was.status.InFlight() && step.outcome.Terminal()
          && row == CompleteRow(was, step.outcome, step.error, s.now))))
  }

  /** How a statement of any other process may change row i. */
  predicate EnvChange(s: State, a: Action, i: JobId, was: Job, row: Job) {
    || row == was
    || ((a.CancelRunJobs? || a.CancelJob?) && i !in s.rowLocks
        && !was.status.Terminal() && row == CancelRow(was, s.now))
    || (a.Reclaim? && Expired(was, s.now) && row == RequeueRow(was))
  }

  predicate RowChange(s: State, a: Action, i: JobId, was: Job, row: Job) {
    if a.Worker? then WorkerChange(s, a.w, Pc(s, a.w), a.step, i, was, row) else EnvChange(s, a, i, was, row)
  }

  lemma DoJobs(s: State, cfg: Config, w: WorkerId, pc: WorkerPc, step: Step)
    requires CanStep(s, cfg, pc, step)
    ensures Do(s, cfg, w, pc, step).0.jobs == (
      if step.LeaseCommit? then s.jobs[pc.job := pc.image]
      else if step.MarkRunning? && Owns(s, w, pc.job) && s.jobs[pc.job].status.Leased?
      then s.jobs[pc.job := StartRow(s.jobs[pc.job], s.now)]
      else if step.Complete? && Owns(s, w, pc.job) && s.jobs[pc.job].status.InFlight()
      then s.jobs[pc.job := CompleteRow(s.jobs[pc.job], step.outcome, step.error, s.now)]
      else s.jobs)
  {
  }

  lemma DoRow(s: State, cfg: Config, w: WorkerId, pc: WorkerPc, step: Step, i: JobId)
    requires CanStep(s, cfg, pc, step) && LeaseOk(s, cfg, w, pc) && i < |s.jobs|
    ensures var jobs := Do(s, cfg, w, pc, step).0.jobs;
      |jobs| == |s.jobs| && WorkerChange(s, w, pc, step, i, s.jobs[i], jobs[i]) && jobs[i].work == s.jobs[i].work
  {
    DoJobs(s, cfg, w, pc, step);
    hide Do;
  }

  lemma EnvRow(s: State, cfg: Config, a: Action, i: JobId)
    requires Enabled(s, cfg, a) && !a.Worker? && i < |s.jobs|
    ensures var jobs := Env(s, a).jobs;
      |jobs| >= |s.jobs| && EnvChange(s, a, i, s.jobs[i], jobs[i]) && jobs[i].work == s.jobs[i].work
  {
  }

  lemma RowStep(s: State, cfg: Config, a: Action, i: JobId)
    requires Enabled(s, cfg, a) && Locks(s, cfg) && i < |s.jobs|
    ensures |Apply(s, cfg, a).jobs| >= |s.jobs|
    ensures RowChange(s, a, i, s.jobs[i], Apply(s, cfg, a).jobs[i])
    ensures Apply(s, cfg, a).jobs[i].work == s.jobs[i].work
  {
    hide Do, Env, WorkerChange, EnvChange, LeaseOk;
    if a.Worker? {
      assert LeaseOk(s, cfg, a.w, Pc(s, a.w));
      DoRow(s, cfg, a.w, Pc(s, a.w), a.step, i);
    } else {
      EnvRow(s, cfg, a, i);
    }
  }

  /** Only the transaction that ends drops locks, and only its own. */
  lemma DoOthersLocks(s: State, cfg: Config, v: WorkerId, pc: WorkerPc, step: Step, w: WorkerId)
    requires CanStep(s, cfg, pc, step) && v != w
    ensures var s' := Do(s, cfg, v, pc, step).0;
      && (forall j :: j in s.rowLocks && s.rowLocks[j] == w ==> j in s'.rowLocks && s'.rowLocks[j] == w)
      && (forall k :: k in s.advLocks && s.advLocks[k] == w ==> k in s'.advLocks && s'.advLocks[k] == w)
  {
  }

  lemma DoLeaseOk(s: State, cfg: Config, w: WorkerId, pc: WorkerPc, step: Step)
    requires CanStep(s, cfg, pc, step) && LeaseOk(s, cfg, w, pc)
    ensures var r := Do(s, cfg, w, pc, step);
      && LeaseOk(r.0, cfg, w, r.1)
      && |r.0.ledger| == |s.ledger| && |r.0.jobs| == |s.jobs|
  {
    hide Count;
  }

  lemma LeaseOkStep(s: State, cfg: Config, a: Action, w: WorkerId)
    requires Enabled(s, cfg, a) && Locks(s, cfg)
    ensures LeaseOk(Apply(s, cfg, a), cfg, w, Pc(Apply(s, cfg, a), w))
  {
    hide Do, Env, CanStep;
    var pc := Pc(s, w);
    assert LeaseOk(s, cfg, w, pc);
    if a.Worker? && a.w == w {
      DoLeaseOk(s, cfg, w, pc, a.step);
    } else {
      if a.Worker? { DoOthersLocks(s, cfg, a.w, Pc(s, a.w), a.step, w); }
      if pc.InLease() {
        RowStep(s, cfg, a, pc.job);
      }
    }
  }

  lemma DoOwnLocks(s: State, cfg: Config, v: WorkerId, pc: WorkerPc, step: Step)
    requires CanStep(s, cfg, pc, step) && OwnLocks(s, cfg, v, pc)
    ensures var r := Do(s, cfg, v, pc, step); OwnLocks(r.0, cfg, v, r.1)
  {
  }

  lemma DoNoNewLocks(s: State, cfg: Config, v: WorkerId, pc: WorkerPc, step: Step, w: WorkerId)
    requires CanStep(s, cfg, pc, step) && v != w
    ensures var s' := Do(s, cfg, v, pc, step).0;
      && (forall j :: j in s'.rowLocks && s'.rowLocks[j] == w ==> j in s.rowLocks && s.rowLocks[j] == w)
      && (forall k :: k in s'.advLocks && s'.advLocks[k] == w ==> k in s.advLocks && s.advLocks[k] == w)
  {
  }

  lemma OwnLocksStep(s: State, cfg: Config, a: Action, w: WorkerId)
    requires Enabled(s, cfg, a) && Locks(s, cfg)
    ensures OwnLocks(Apply(s, cfg, a), cfg, w, Pc(Apply(s, cfg, a), w))
  {
    hide Do, Env, CanStep, LeaseOk, RowChange, OwnLocks;
    var pc, s' := Pc(s, w), Apply(s, cfg, a);
    assert OwnLocks(s, cfg, w, pc);
    if a.Worker? && a.w == w {
      DoOwnLocks(s, cfg, w, pc, a.step);
      var r := Do(s, cfg, w, pc, a.step);
      OwnLocksFrame(r.0, s', cfg, w, r.1);
    } else {
      if a.Worker? { DoNoNewLocks(s, cfg, a.w, Pc(s, a.w), a.step, w); }
      if pc.OnJob() && pc.job < |s.jobs| { RowStep(s, cfg, a, pc.job); }
      OwnLocksFrame(s, s', cfg, w, pc);
    }
  }

  /** OwnLocks needs no more than that w gains no lock and its row keeps its project. */
  lemma OwnLocksFrame(s: State, s': State, cfg: Config, w: WorkerId, pc: WorkerPc)
    requires OwnLocks(s, cfg, w, pc)
    requires forall j :: j in s'.rowLocks && s'.rowLocks[j] == w ==> j in s.rowLocks && s.rowLocks[j] == w
    requires forall k :: k in s'.advLocks && s'.advLocks[k] == w ==> k in s.advLocks && s.advLocks[k] == w
    requires pc.OnJob() && pc.job < |s.jobs| ==> pc.job < |s'.jobs| && s'.jobs[pc.job].work == s.jobs[pc.job].work
    ensures OwnLocks(s', cfg, w, pc)
  {
  }

  lemma LedgerLength(s: State, cfg: Config, a: Action)
    requires Enabled(s, cfg, a) && Locks(s, cfg)
    ensures |Apply(s, cfg, a).ledger| == |Apply(s, cfg, a).jobs|
  {
    if a.Worker? {
      hide Do, CanStep;
      assert LeaseOk(s, cfg, a.w, Pc(s, a.w));
      DoLeaseOk(s, cfg, a.w, Pc(s, a.w), a.step);
    }
  }

  lemma LocksKept(s: State, cfg: Config, a: Action)
    requires Enabled(s, cfg, a) && Locks(s, cfg)
    ensures Locks(Apply(s, cfg, a), cfg)
  {
    hide Apply, LeaseOk, OwnLocks, Enabled;
    var s' := Apply(s, cfg, a);
    LedgerLength(s, cfg, a);
    forall w: WorkerId ensures LeaseOk(s', cfg, w, Pc(s', w)) && OwnLocks(s', cfg, w, Pc(s', w)) {
      LeaseOkStep(s, cfg, a, w);
      OwnLocksStep(s, cfg, a, w);
    }
  }

  // ---- job rows and their past -----------------------------------------------------------

  /** A job row against its ledger: the shape of each status and the attempt count. */
  predicate ShapeOk(j: Job, l: Ledger) {
    var past := l.windows;
    && |past| == j.attempts
    && j.attempts == l.reclaims + (if j.leasedBy.Some? then 1 else 0)
    && (j.status.Queued? ==> j.leasedBy.None? && j.leaseExpiresAt.None?)
    && (j.status.InFlight() ==> j.leasedBy.Some?)
    && (j.leasedBy.Some? ==> past != [] && past[|past| - 1].holder == j.leasedBy.value
                             && j.leaseExpiresAt == Some(past[|past| - 1].until))
    && (j.status.Running? ==> j.startedAt.Some?)
    && (j.startedAt.Some? ==> past != [])
    && (j.finishedAt.Some? <==> j.status.Terminal())
  }

  /** The intervals the leases were granted for follow one another, and a row that is back
      in the queue has outlived its last one. */
  ghost predicate PastOk(past: seq<Window>, queued: bool, lease: nat, now: Time) {
    && (forall k :: 0 <= k < |past| ==> past[k].until == past[k].from + lease && past[k].from <= now)
    && (forall k, m :: 0 <= k < m < |past| ==> past[k].until < past[m].from)
    && (queued && past != [] ==> past[|past| - 1].until < now)
  }

  ghost predicate RowOk(s: State, cfg: Config, i: JobId)
    requires i < |s.jobs| && i < |s.ledger|
  {
    ShapeOk(s.jobs[i], s.ledger[i]) && PastOk(s.ledger[i].windows, s.jobs[i].status.Queued?, cfg.lease, s.now)
  }

  /** What a worker that is on a job knows about its row. */
  predicate AttemptOk(s: State, cfg: Config, w: WorkerId, pc: WorkerPc) {
    && (pc.Holding? || pc.Executing? ==>
          pc.job < |s.jobs| && (s.jobs[pc.job].leasedBy == Some(w) ==> s.jobs[pc.job].attempts == pc.attempt))
    && (pc.Updated? && pc.image.leaseExpiresAt.Some? && pc.job < |s.ledger| ==>
          var past := s.ledger[pc.job].windows;
          past != [] ==> past[|past| - 1].until < pc.image.leaseExpiresAt.value - cfg.lease)
  }

  ghost predicate AllRowsOk(s: State, cfg: Config)
    requires |s.ledger| == |s.jobs|
  {
    forall i :: 0 <= i < |s.jobs| ==> RowOk(s, cfg, i)
  }

  ghost predicate Inv(s: State, cfg: Config) {
    && Locks(s, cfg)
    && AllRowsOk(s, cfg)
    && (forall w: WorkerId :: AttemptOk(s, cfg, w, Pc(s, w)))
  }

  lemma DoLedgers(s: State, cfg: Config, w: WorkerId, pc: WorkerPc, step: Step)
    requires CanStep(s, cfg, pc, step)
    ensures Do(s, cfg, w, pc, step).0.ledger == (
      if !step.LeaseCommit? then s.ledger
      else
        var until := if pc.image.leaseExpiresAt.Some? then pc.image.leaseExpiresAt.value else s.now;
        var l := s.ledger[pc.job];
        s.ledger[pc.job := l.(windows := l.windows + [Window(w, until - cfg.lease, until)])])
  {
  }

  /** A row's past grows by one window at a commit, and not otherwise. */
  lemma DoLedger(s: State, cfg: Config, w: WorkerId, pc: WorkerPc, step: Step, i: JobId)
    requires CanStep(s, cfg, pc, step) && LeaseOk(s, cfg, w, pc) && |s.ledger| == |s.jobs| && i < |s.jobs|
    ensures var s', commits := Do(s, cfg, w, pc, step).0, step.LeaseCommit? && pc.Updated? && pc.job == i;
      && |s'.ledger| == |s'.jobs| == |s.jobs|
      && s'.ledger[i].reclaims == s.ledger[i].reclaims
      && (commits ==> pc.image.leaseExpiresAt.Some? && s'.jobs[i] == pc.image)
      && s'.ledger[i].windows == s.ledger[i].windows + if commits
        then [Window(w, pc.image.leaseExpiresAt.value - cfg.lease, pc.image.leaseExpiresAt.value)] else []
  {
    DoLedgers(s, cfg, w, pc, step);
    DoJobs(s, cfg, w, pc, step);
    hide Do;
  }

  lemma EnvLedger(s: State, cfg: Config, a: Action, i: JobId)
    requires Enabled(s, cfg, a) && !a.Worker? && i < |s.ledger|
    ensures i < |Env(s, a).ledger| && Env(s, a).ledger[i].windows == s.ledger[i].windows
  {
  }

  lemma DoShapeOk(s: State, cfg: Config, w: WorkerId, pc: WorkerPc, step: Step, i: JobId)
    requires CanStep(s, cfg, pc, step) && LeaseOk(s, cfg, w, pc) && |s.ledger| == |s.jobs|
    requires i < |s.jobs| && ShapeOk(s.jobs[i], s.ledger[i])
    ensures var s' := Do(s, cfg, w, pc, step).0;
      |s'.ledger| == |s'.jobs| == |s.jobs| && ShapeOk(s'.jobs[i], s'.ledger[i])
  {
    DoRow(s, cfg, w, pc, step, i);
    DoLedger(s, cfg, w, pc, step, i);
    hide Do, CanStep;
  }

  lemma DoPastOk(s: State, cfg: Config, w: WorkerId, pc: WorkerPc, step: Step, i: JobId)
    requires CanStep(s, cfg, pc, step) && LeaseOk(s, cfg, w, pc) && AttemptOk(s, cfg, w, pc)
    requires |s.ledger| == |s.jobs| && i < |s.jobs| && RowOk(s, cfg, i)
    ensures var s' := Do(s, cfg, w, pc, step).0;
      && |s'.ledger| == |s'.jobs| == |s.jobs|
      && PastOk(s'.ledger[i].windows, s'.jobs[i].status.Queued?, cfg.lease, s'.now)
  {
    hide Do, CanStep, PastOk;
    DoRow(s, cfg, w, pc, step, i);
    DoLedger(s, cfg, w, pc, step, i);
    var past, more := s.ledger[i].windows, Do(s, cfg, w, pc, step).0.ledger[i].windows;
    if step.LeaseCommit? && pc.Updated? && pc.job == i {
      PastGrows(past, cfg.lease, s.now, more);
    } else {
      assert more == past;
      PastRelaxes(past, s.jobs[i].status.Queued?, Do(s, cfg, w, pc, step).0.jobs[i].status.Queued?, cfg.lease, s.now);
    }
  }

  lemma PastRelaxes(past: seq<Window>, was: bool, queued: bool, lease: nat, now: Time)
    requires PastOk(past, was, lease, now) && (queued ==> was)
    ensures PastOk(past, queued, lease, now)
  {
  }

  lemma PastGrows(past: seq<Window>, lease: nat, now: Time, more: seq<Window>)
    requires PastOk(past, true, lease, now) && |more| == |past| + 1 && past == more[..|past|]
    requires var last := more[|past|]; last.until == last.from + lease && last.from <= now
    requires past != [] ==> past[|past| - 1].until < more[|past|].from
    ensures PastOk(more, false, lease, now)
  {
  }

  lemma EnvShapeOk(s: State, cfg: Config, a: Action, i: JobId)
    requires Enabled(s, cfg, a) && !a.Worker? && |s.ledger| == |s.jobs| && i < |Env(s, a).jobs|
    requires i < |s.jobs| ==> ShapeOk(s.jobs[i], s.ledger[i])
    ensures |Env(s, a).ledger| == |Env(s, a).jobs| && ShapeOk(Env(s, a).jobs[i], Env(s, a).ledger[i])
  {
  }

  lemma EnvPastOk(s: State, cfg: Config, a: Action, i: JobId)
    requires Enabled(s, cfg, a) && !a.Worker? && |s.ledger| == |s.jobs| && i < |Env(s, a).jobs|
    requires i < |s.jobs| ==> RowOk(s, cfg, i)
    ensures |Env(s, a).ledger| == |Env(s, a).jobs|
    ensures PastOk(Env(s, a).ledger[i].windows, Env(s, a).jobs[i].status.Queued?, cfg.lease, Env(s, a).now)
  {
    if i < |s.jobs| {
      EnvRow(s, cfg, a, i);
      EnvLedger(s, cfg, a, i);
    }
    hide ShapeOk;
  }

  lemma RowOkStep(s: State, cfg: Config, a: Action, i: JobId)
    requires Enabled(s, cfg, a) && Inv(s, cfg) && i < |Apply(s, cfg, a).jobs|
    ensures |Apply(s, cfg, a).ledger| == |Apply(s, cfg, a).jobs| && RowOk(Apply(s, cfg, a), cfg, i)
  {
    hide Do, Env, CanStep, LeaseOk, AttemptOk, OwnLocks, PastOk, ShapeOk;
    LedgerLength(s, cfg, a);
    assert i < |s.jobs| ==> RowOk(s, cfg, i);
    if a.Worker? {
      var pc := Pc(s, a.w);
      assert LeaseOk(s, cfg, a.w, pc) && AttemptOk(s, cfg, a.w, pc);
      DoLeaseOk(s, cfg, a.w, pc, a.step);
      DoShapeOk(s, cfg, a.w, pc, a.step, i);
      DoPastOk(s, cfg, a.w, pc, a.step, i);
    } else {
      EnvShapeOk(s, cfg, a, i);
      EnvPastOk(s, cfg, a, i);
    }
  }

  // ---- what the workers on a job know ---------------------------------------------------

  lemma DoAttemptOk(s: State, cfg: Config, w: WorkerId, pc: WorkerPc, step: Step)
    requires CanStep(s, cfg, pc, step) && LeaseOk(s, cfg, w, pc) && AttemptOk(s, cfg, w, pc)
    requires |s.ledger| == |s.jobs| && AllRowsOk(s, cfg)
    ensures var r := Do(s, cfg, w, pc, step); AttemptOk(r.0, cfg, w, r.1)
  {
    assert pc.OnJob() ==> RowOk(s, cfg, pc.job);
  }

  /** A row somebody else may touch: it never comes back under w's name, and a locked
      row's past stands still. */
  lemma OthersOnRow(s: State, cfg: Config, a: Action, w: WorkerId, i: JobId)
    requires Enabled(s, cfg, a) && Inv(s, cfg) && i < |s.jobs| && !(a.Worker? && a.w == w)
    ensures var s' := Apply(s, cfg, a);
      && i < |s'.jobs| && i < |s'.ledger|
      && (s'.jobs[i].leasedBy == Some(w) ==>
            s.jobs[i].leasedBy == Some(w) && s'.jobs[i].attempts == s.jobs[i].attempts)
      && (HoldsRow(s, w, i) ==> s'.ledger[i].windows == s.ledger[i].windows)
  {
    hide AttemptOk, OwnLocks, PastOk, Do, Env, CanStep;
    LedgerLength(s, cfg, a);
    RowStep(s, cfg, a, i);
    if a.Worker? {
      assert LeaseOk(s, cfg, a.w, Pc(s, a.w));
      DoLedger(s, cfg, a.w, Pc(s, a.w), a.step, i);
    } else {
      EnvLedger(s, cfg, a, i);
    }
  }

  lemma AttemptOkStep(s: State, cfg: Config, a: Action, w: WorkerId)
    requires Enabled(s, cfg, a) && Inv(s, cfg)
    ensures AttemptOk(Apply(s, cfg, a), cfg, w, Pc(Apply(s, cfg, a), w))
  {
    hide Do, Env, CanStep, OwnLocks, RowOk;
    var pc := Pc(s, w);
    assert AttemptOk(s, cfg, w, pc) && LeaseOk(s, cfg, w, pc);
    if a.Worker? && a.w == w {
      DoAttemptOk(s, cfg, w, pc, a.step);
    } else if pc.OnJob() {
      OthersOnRow(s, cfg, a, w, pc.job);
    }
  }

  lemma InvKept(s: State, cfg: Config, a: Action)
    requires Enabled(s, cfg, a) && Inv(s, cfg)
    ensures Inv(Apply(s, cfg, a), cfg)
  {
    hide Apply, Enabled, LeaseOk, OwnLocks, AttemptOk, RowOk;
    var s' := Apply(s, cfg, a);
    LocksKept(s, cfg, a);
    forall i | 0 <= i < |s'.jobs| ensures RowOk(s', cfg, i) { RowOkStep(s, cfg, a, i); }
    forall w: WorkerId ensures AttemptOk(s', cfg, w, Pc(s', w)) { AttemptOkStep(s, cfg, a, w); }
  }

  lemma {:induction false} Reachable(cfg: Config, trace: seq<State>, acts: seq<Action>, i: nat)
    requires Execution(cfg, trace, acts) && i < |trace|
    ensures Inv(trace[i], cfg)
  {
    if i > 0 {
      Reachable(cfg, trace, acts, i - 1);
      assert trace[(i - 1) + 1] == Apply(trace[i - 1], cfg, acts[i - 1]);
      InvKept(trace[i - 1], cfg, acts[i - 1]);
    }
  }
}
