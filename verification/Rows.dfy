/** Rows of the `jobs` and `runs` tables, the row images the SQL statements write,
    and `SELECT COUNT(*) ... WHERE ...` over the jobs table. */
module Rows {
  import opened Wrappers

  // Postgres NOW() and the workers' time.Now() are read off one clock.
  type Time = int
  // Row ids are insertion positions; the other ids are opaque numbers.
  type JobId = nat
  type RunId = nat
  type ProjectId = nat
  type WorkerId = nat

  datatype Status = Queued | Leased | Running | Succeeded | Failed | Cancelled | TimedOut {
    predicate Terminal() {
      match this
      case Succeeded | Failed | Cancelled | TimedOut => true
      case _ => false
    }

    predicate InFlight() { Leased? || Running? }
  }

  /** The columns no statement ever updates. */
  datatype Work = Work(run: RunId, project: ProjectId, collector: string,
                       targetKind: string, target: string, priority: int, createdAt: Time)

  datatype Job = Job(work: Work, status: Status, leasedBy: Option<WorkerId>,
                     leaseExpiresAt: Option<Time>, attempts: nat, error: Option<string>,
                     startedAt: Option<Time>, finishedAt: Option<Time>)

  datatype RunStatus = RunPlanning | RunRunning | RunSucceeded | RunFailed | RunCancelled {
    predicate Terminal() { RunSucceeded? || RunFailed? || RunCancelled? }
  }

  datatype Summary = NoSummary | Counts(total: nat, failed: nat) | NothingKept(dropped: nat)

  datatype Run = Run(project: ProjectId, status: RunStatus, finishedAt: Option<Time>,
                     cancelledAt: Option<Time>, summary: Summary)

  // ---- row images ---------------------------------------------------------------

  function NewJob(work: Work): Job {
    Job(work, Queued, None, None, 0, None, None, None)
  }

  function LeaseRow(j: Job, w: WorkerId, expiry: Time): Job {
    j.(status := Leased, leasedBy := Some(w), leaseExpiresAt := Some(expiry), attempts := j.attempts + 1)
  }

  function StartRow(j: Job, now: Time): Job {
    j.(status := Running, startedAt := if j.startedAt.Some? then j.startedAt else Some(now))
  }

  function CompleteRow(j: Job, outcome: Status, error: Option<string>, now: Time): Job {
    j.(status := outcome, finishedAt := Some(now), error := error)
  }

  function CancelRow(j: Job, now: Time): Job {
    j.(status := Cancelled, finishedAt := Some(now))
  }

  function RequeueRow(j: Job): Job {
    j.(status := Queued, leasedBy := None, leaseExpiresAt := None)
  }

  // ---- UPDATE ... WHERE over the whole table ---------------------------------------

  predicate CancelHits(j: Job, r: RunId) { j.work.run == r && !j.status.Terminal() }

  function CancelRunRows(jobs: seq<Job>, r: RunId, now: Time): (rows: seq<Job>)
    ensures |rows| == |jobs|
  {
    seq(|jobs|, i requires 0 <= i < |jobs| =>
      if CancelHits(jobs[i], r) then CancelRow(jobs[i], now) else jobs[i])
  }

  predicate Expired(j: Job, now: Time) {
    j.status.InFlight() && j.leaseExpiresAt.Some? && j.leaseExpiresAt.value < now
  }

  function ReclaimRows(jobs: seq<Job>, now: Time): (rows: seq<Job>)
    ensures |rows| == |jobs|
  {
    seq(|jobs|, i requires 0 <= i < |jobs| =>
      if Expired(jobs[i], now) then RequeueRow(jobs[i]) else jobs[i])
  }

  // ---- SELECT COUNT(*) FILTER (WHERE ...) -------------------------------------------

  datatype Where = OfRun(run: RunId) | DoneIn(run: RunId) | FailedIn(run: RunId) | BusyIn(project: ProjectId)

  predicate Matches(q: Where, j: Job) {
    match q
    case OfRun(r) => j.work.run == r
    case DoneIn(r) => j.work.run == r && j.status.Terminal()
    case FailedIn(r) => j.work.run == r && (j.status.Failed? || j.status.TimedOut?)
    case BusyIn(p) => j.work.project == p && j.status.InFlight()
  }

  function Bit(q: Where, j: Job): nat { if Matches(q, j) then 1 else 0 }

  function Count(q: Where, jobs: seq<Job>): nat {
    if jobs == [] then 0 else Count(q, jobs[..|jobs| - 1]) + Bit(q, jobs[|jobs| - 1])
  }

  lemma CountAppend(q: Where, jobs: seq<Job>, j: Job)
    ensures Count(q, jobs + [j]) == Count(q, jobs) + Bit(q, j)
  {
  }

  lemma {:induction false} CountUpdate(q: Where, jobs: seq<Job>, i: nat, j: Job)
    requires i < |jobs|
    ensures Count(q, jobs[i := j]) + Bit(q, jobs[i]) == Count(q, jobs) + Bit(q, j)
  {
    hide Matches;
    var n := |jobs| - 1;
    if i == n {
      assert jobs[i := j][..n] == jobs[..n];
    } else {
      CountUpdate(q, jobs[..n], i, j);
      assert jobs[i := j][..n] == jobs[..n][i := j];
    }
  }

  /** A count is bounded by another when its rows are among the other's, and the two
      agree exactly when no row of the other is left out. */
  lemma {:induction false} CountCompare(q: Where, fewer: seq<Job>, q': Where, more: seq<Job>)
    requires |fewer| == |more|
    requires forall i :: 0 <= i < |fewer| && Matches(q, fewer[i]) ==> Matches(q', more[i])
    ensures Count(q, fewer) <= Count(q', more)
    ensures Count(q, fewer) == Count(q', more)
       <==> forall i :: 0 <= i < |more| && Matches(q', more[i]) ==> Matches(q, fewer[i])
  {
    hide Matches;
    var n := |fewer| - 1;
    if n >= 0 {
      CountCompare(q, fewer[..n], q', more[..n]);
      if forall i :: 0 <= i < n && Matches(q', more[..n][i]) ==> Matches(q, fewer[..n][i]) {
        assert forall i :: 0 <= i < n && Matches(q', more[i]) ==> more[..n][i] == more[i];
      } else {
        var i :| 0 <= i < n && Matches(q', more[..n][i]) && !Matches(q, fewer[..n][i]);
        assert Matches(q', more[i]) && !Matches(q, fewer[i]);
      }
    }
  }

  lemma {:induction false} CountNone(q: Where, jobs: seq<Job>)
    ensures Count(q, jobs) == 0 <==> forall i :: 0 <= i < |jobs| ==> !Matches(q, jobs[i])
  {
    var n := |jobs| - 1;
    if n >= 0 {
      CountNone(q, jobs[..n]);
      if exists i :: 0 <= i < n && Matches(q, jobs[i]) {
        var i :| 0 <= i < n && Matches(q, jobs[i]);
        assert Matches(q, jobs[..n][i]);
      }
    }
  }
}
