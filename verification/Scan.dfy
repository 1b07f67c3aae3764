/** The bounded scan of the TCP connect collector: one launcher, one goroutine per port, a
    buffered channel as the semaphore, a WaitGroup and a mutex around the list of open ports.
    Every channel, mutex or WaitGroup operation and every access to the list is one step. */
module Scan {
  import opened Wrappers

  /** A goroutine's place. Appending to `open` is a read and a later write. The deferred
      functions run last in first out: the slot is freed before the WaitGroup is told. */
  datatype Phase =
    | Dialing
    | Connected                        // the dial succeeded, the mutex is not held yet
    | Entered
    | Loaded(snapshot: seq<int>)
    | Stored
    | Returning(ok: bool)
    | Released(ok: bool)
    | Finished(ok: bool)
  {
    predicate Critical() { Entered? || Loaded? || Stored? }

    /** How the dial ended, once it has. */
    function Outcome(): Option<bool> {
      match this
      case Dialing => None
      case Returning(ok) => Some(ok)
      case Released(ok) => Some(ok)
      case Finished(ok) => Some(ok)
      case _ => Some(true)
    }
  }

  datatype Routine = Routine(port: int, phase: Phase)

  /** The launcher: at the head of its loop, or before wg.Add, `sem <-`, `go`, past wg.Wait. */
  datatype Launcher = Top | Adding | Sending | Starting | Waiting | Returned

  datatype State = State(
    launcher: Launcher, next: nat, cancelled: bool,
    slots: nat, wg: int, mutex: Option<nat>, open: seq<int>, routines: seq<Routine>)

  datatype Action =
    | Cancel | Launch
    | Dialed(k: nat, ok: bool) | Enter(k: nat) | Load(k: nat) | Store(k: nat) | Leave(k: nat)
    | Free(k: nat) | Finish(k: nat)

  datatype Job = Job(ports: seq<int>, concurrency: int) {
    function Capacity(): nat { if concurrency < 1 then 1 else concurrency }
  }

  const START := State(Top, 0, false, 0, 0, None, [], [])

  predicate At(s: State, k: nat, phase: Phase) { k < |s.routines| && s.routines[k].phase == phase }

  predicate Enabled(s: State, job: Job, a: Action) {
    match a
    case Cancel => !s.cancelled
    case Launch =>
      (match s.launcher
       case Sending => s.slots < job.Capacity()
       case Starting => s.next < |job.ports|
       case Waiting => s.wg == 0
       case Returned => false
       case _ => true)
    case Dialed(k, _) => At(s, k, Dialing)
    case Enter(k) => At(s, k, Connected) && s.mutex.None?
    case Load(k) => At(s, k, Entered)
    case Store(k) => k < |s.routines| && s.routines[k].phase.Loaded?
    case Leave(k) => At(s, k, Stored)
    case Free(k) => k < |s.routines| && s.routines[k].phase.Returning? && s.slots > 0
    case Finish(k) => k < |s.routines| && s.routines[k].phase.Released?
  }

  function Move(s: State, k: nat, phase: Phase): State
    requires k < |s.routines|
  {
    s.(routines := s.routines[k := s.routines[k].(phase := phase)])
  }

  function Advance(s: State, job: Job): State
    requires Enabled(s, job, Launch)
  {
    match s.launcher
    case Top => s.(launcher := if s.next >= |job.ports| || s.cancelled then Waiting else Adding)
    case Adding => s.(launcher := Sending, wg := s.wg + 1)
    case Sending => s.(launcher := Starting, slots := s.slots + 1)
    case Starting =>
      s.(launcher := Top, next := s.next + 1, routines := s.routines + [Routine(job.ports[s.next], Dialing)])
    case Waiting => s.(launcher := Returned)
  }

  function Apply(s: State, job: Job, a: Action): State
    requires Enabled(s, job, a)
  {
    match a
    case Cancel => s.(cancelled := true)
    case Launch => Advance(s, job)
    case Dialed(k, ok) => Move(s, k, if ok then Connected else Returning(false))
    case Enter(k) => Move(s, k, Entered).(mutex := Some(k))
    case Load(k) => Move(s, k, Loaded(s.open))
    case Store(k) => Move(s, k, Stored).(open := s.routines[k].phase.snapshot + [s.routines[k].port])
    case Leave(k) => Move(s, k, Returning(true)).(mutex := None)
    case Free(k) => Move(s, k, Released(s.routines[k].phase.ok)).(slots := s.slots - 1)
    case Finish(k) => Move(s, k, Finished(s.routines[k].phase.ok)).(wg := s.wg - 1)
  }

  // ---- sums over the goroutines ------------------------------------------------------------

  function Total(rs: seq<Routine>, weight: Phase -> nat): nat {
    if rs == [] then 0 else weight(rs[0].phase) + Total(rs[1..], weight)
  }

  lemma {:induction false} TotalAppend(rs: seq<Routine>, r: Routine, weight: Phase -> nat)
    ensures Total(rs + [r], weight) == Total(rs, weight) + weight(r.phase)
  {
    if rs == [] {
      assert rs + [r] == [r];
    } else {
      TotalAppend(rs[1..], r, weight);
      assert (rs + [r])[1..] == rs[1..] + [r];
    }
  }

  lemma {:induction false} TotalUpdate(rs: seq<Routine>, k: nat, r: Routine, weight: Phase -> nat)
    requires k < |rs|
    ensures Total(rs[k := r], weight) == Total(rs, weight) - weight(rs[k].phase) + weight(r.phase)
  {
    if k == 0 {
      assert rs[0 := r][1..] == rs[1..];
    } else {
      TotalUpdate(rs[1..], k - 1, r, weight);
      assert rs[k := r][1..] == rs[1..][k - 1 := r];
    }
  }

  lemma {:induction false} TotalCompare(rs: seq<Routine>, f: Phase -> nat, g: Phase -> nat)
    requires forall p :: f(p) <= g(p)
    ensures Total(rs, f) <= Total(rs, g)
  {
    if rs != [] { TotalCompare(rs[1..], f, g); }
  }

  lemma {:induction false} TotalZero(rs: seq<Routine>, weight: Phase -> nat)
    ensures Total(rs, weight) == 0 <==> forall k :: 0 <= k < |rs| ==> weight(rs[k].phase) == 0
  {
    if rs != [] {
      TotalZero(rs[1..], weight);
      if forall k :: 0 <= k < |rs| ==> weight(rs[k].phase) == 0 {
        assert forall k :: 0 <= k < |rs| - 1 ==> rs[1..][k] == rs[k + 1];
      } else {
        var k :| 0 <= k < |rs| && weight(rs[k].phase) != 0;
        if k > 0 { assert rs[1..][k - 1] == rs[k]; }
      }
    }
  }

  function InFlight(p: Phase): nat { if p.Dialing? then 1 else 0 }
  function Slot(p: Phase): nat { if p.Released? || p.Finished? then 0 else 1 }
  function Alive(p: Phase): nat { if p.Finished? then 0 else 1 }

  /** The ports that have been added to `open`. */
  function Gathered(rs: seq<Routine>): multiset<int> {
    if rs == [] then multiset{}
    else (if Kept(rs[0].phase) then multiset{rs[0].port} else multiset{}) + Gathered(rs[1..])
  }

  predicate Kept(p: Phase) { p.Stored? || (!p.Critical() && !p.Connected? && p.Outcome() == Some(true)) }

  lemma {:induction false} GatheredAppend(rs: seq<Routine>, r: Routine)
    requires !Kept(r.phase)
    ensures Gathered(rs + [r]) == Gathered(rs)
  {
    if rs == [] {
      assert rs + [r] == [r];
    } else {
      GatheredAppend(rs[1..], r);
      assert (rs + [r])[1..] == rs[1..] + [r];
    }
  }

  lemma {:induction false} GatheredMove(rs: seq<Routine>, k: nat, phase: Phase)
    requires k < |rs| && (Kept(rs[k].phase) ==> Kept(phase))
    ensures var r := rs[k].(phase := phase);
      Gathered(rs[k := r]) == Gathered(rs) + (
        if Kept(phase) && !Kept(rs[k].phase) then multiset{r.port} else multiset{})
  {
    var r := rs[k].(phase := phase);
    if k == 0 {
      assert rs[0 := r][1..] == rs[1..];
    } else {
      GatheredMove(rs[1..], k - 1, phase);
      assert rs[k := r][1..] == rs[1..][k - 1 := r];
    }
  }

  // ---- what every step keeps -----------------------------------------------------------------

  predicate Accounts(s: State, job: Job) {
    && s.slots == Total(s.routines, Slot) + (if s.launcher.Starting? then 1 else 0)
    && s.slots <= job.Capacity()
    && s.wg == Total(s.routines, Alive) + (if s.launcher.Sending? || s.launcher.Starting? then 1 else 0)
  }

  predicate Prefix(s: State, job: Job) {
    && s.next == |s.routines| <= |job.ports|
    && (s.launcher.Adding? || s.launcher.Sending? || s.launcher.Starting? ==> s.next < |job.ports|)
    && (forall k :: 0 <= k < |s.routines| ==> s.routines[k].port == job.ports[k])
    && ((s.launcher.Waiting? || s.launcher.Returned?) && !s.cancelled ==> s.next == |job.ports|)
  }

  predicate Exclusive(s: State) {
    && (s.mutex.Some? ==> s.mutex.value < |s.routines|)
    && (forall k :: 0 <= k < |s.routines| ==> (s.routines[k].phase.Critical() <==> s.mutex == Some(k)))
    && (forall k :: 0 <= k < |s.routines| && s.routines[k].phase.Loaded? ==> s.routines[k].phase.snapshot == s.open)
  }

  predicate Complete(s: State) { multiset(s.open) == Gathered(s.routines) }

  predicate Joined(s: State) {
    s.launcher.Returned? ==> forall k :: 0 <= k < |s.routines| ==> s.routines[k].phase.Finished?
  }

  predicate Inv(s: State, job: Job) {
    Accounts(s, job) && Prefix(s, job) && Exclusive(s) && Complete(s) && Joined(s)
  }

  lemma AccountsKept(s: State, job: Job, a: Action)
    requires Accounts(s, job) && Enabled(s, job, a)
    ensures Accounts(Apply(s, job, a), job)
  {
    hide Total;
    if a.Launch? {
      if s.launcher.Starting? {
        var r := Routine(job.ports[s.next], Dialing);
        TotalAppend(s.routines, r, Slot);
        TotalAppend(s.routines, r, Alive);
      }
    } else if !a.Cancel? {
      var r := Apply(s, job, a).routines[a.k];
      MoveShape(s, job, a);
      hide Apply, Slot, Alive;
      TotalUpdate(s.routines, a.k, r, Slot);
      TotalUpdate(s.routines, a.k, r, Alive);
    }
  }

  /** A goroutine's step moves only that goroutine; it frees its slot with Free, leaves the
      WaitGroup with Finish. */
  lemma MoveShape(s: State, job: Job, a: Action)
    requires Enabled(s, job, a) && !a.Launch? && !a.Cancel?
    ensures a.k < |s.routines|
    ensures var t := Apply(s, job, a);
      && |t.routines| == |s.routines|
      && t.routines == s.routines[a.k := t.routines[a.k]]
      && t.launcher == s.launcher && t.next == s.next && t.cancelled == s.cancelled
      && t.slots == s.slots - Slot(s.routines[a.k].phase) + Slot(t.routines[a.k].phase)
      && t.wg == s.wg - Alive(s.routines[a.k].phase) + Alive(t.routines[a.k].phase)
  {
  }

  lemma PrefixKept(s: State, job: Job, a: Action)
    requires Prefix(s, job) && Enabled(s, job, a)
    ensures Prefix(Apply(s, job, a), job)
  {
  }

  lemma ExclusiveKept(s: State, job: Job, a: Action)
    requires Exclusive(s) && Enabled(s, job, a)
    ensures Exclusive(Apply(s, job, a))
  {
  }

  /** `open` grows by a goroutine's port at the moment that port counts as kept. */
  lemma KeptShape(s: State, job: Job, a: Action)
    requires Exclusive(s) && Enabled(s, job, a) && !a.Launch? && !a.Cancel?
    ensures a.k < |s.routines|
    ensures var r, t := s.routines[a.k], Apply(s, job, a);
      && |t.routines| == |s.routines|
      && t.routines == s.routines[a.k := r.(phase := t.routines[a.k].phase)]
      && (Kept(r.phase) ==> Kept(t.routines[a.k].phase))
      && t.open == s.open + if Kept(t.routines[a.k].phase) && !Kept(r.phase) then [r.port] else []
  {
  }

  lemma CompleteKept(s: State, job: Job, a: Action)
    requires Exclusive(s) && Complete(s) && Enabled(s, job, a)
    ensures Complete(Apply(s, job, a))
  {
    hide Gathered, Exclusive;
    if a.Launch? {
      if s.launcher.Starting? { GatheredAppend(s.routines, Routine(job.ports[s.next], Dialing)); }
    } else if !a.Cancel? {
      KeptShape(s, job, a);
      hide Apply, Kept;
      GatheredMove(s.routines, a.k, Apply(s, job, a).routines[a.k].phase);
    }
  }

  lemma JoinedKept(s: State, job: Job, a: Action)
    requires Accounts(s, job) && Joined(s) && Enabled(s, job, a)
    ensures Joined(Apply(s, job, a))
  {
    if a.Launch? && s.launcher.Waiting? { TotalZero(s.routines, Alive); }
  }

  ghost predicate Execution(trace: seq<State>, acts: seq<Action>, job: Job) {
    && |trace| == |acts| + 1 && trace[0] == START
    && forall i {:trigger acts[i]} :: 0 <= i < |acts| ==>
         Enabled(trace[i], job, acts[i]) && trace[i + 1] == Apply(trace[i], job, acts[i])
  }

  lemma {:induction false} Reachable(trace: seq<State>, acts: seq<Action>, job: Job, i: nat)
    requires Execution(trace, acts, job) && i < |trace|
    ensures Inv(trace[i], job)
  {
    hide Accounts, Prefix, Exclusive, Complete, Joined, Apply, Enabled;
    if i == 0 {
      StartIsFine(job);
    } else {
      Reachable(trace, acts, job, i - 1);
      var s, a := trace[i - 1], acts[i - 1];
      assert trace[(i - 1) + 1] == Apply(s, job, a);
      AccountsKept(s, job, a);
      PrefixKept(s, job, a);
      ExclusiveKept(s, job, a);
      CompleteKept(s, job, a);
      JoinedKept(s, job, a);
    }
  }

  lemma StartIsFine(job: Job)
    ensures Inv(START, job)
  {
  }

  // ---- the results -----------------------------------------------------------------------------

  function Dialling(rs: seq<Routine>): set<nat> { set k: nat | k < |rs| && rs[k].phase.Dialing? }

  lemma {:induction false} DiallingCounted(rs: seq<Routine>)
    ensures |Dialling(rs)| == Total(rs, InFlight)
  {
    if rs == [] {
      assert Dialling(rs) == {};
    } else {
      var n := |rs| - 1;
      DiallingCounted(rs[..n]);
      TotalAppend(rs[..n], rs[n], InFlight);
      assert rs == rs[..n] + [rs[n]];
      assert Dialling(rs) == Dialling(rs[..n]) + if rs[n].phase.Dialing? then {n as nat} else {};
    }
  }

  /** At every moment at most `concurrency` dials are in flight (one, if it is below one), the
      launcher waits for a slot only while that many are taken, and the ports dialled so far
      are the first ones of the list. */
  lemma DialsAreBounded(trace: seq<State>, acts: seq<Action>, job: Job, i: nat)
    requires Execution(trace, acts, job) && i < |trace|
    ensures |Dialling(trace[i].routines)| <= if job.concurrency < 1 then 1 else job.concurrency
    ensures trace[i].launcher.Sending? && !Enabled(trace[i], job, Launch) ==>
      trace[i].slots == if job.concurrency < 1 then 1 else job.concurrency
    ensures |trace[i].routines| <= |job.ports|
    ensures forall k :: 0 <= k < |trace[i].routines| ==> trace[i].routines[k].port == job.ports[k]
  {
    Reachable(trace, acts, job, i);
    TotalCompare(trace[i].routines, InFlight, Slot);
    DiallingCounted(trace[i].routines);
  }

  function Pending(l: Launcher): nat { if l.Adding? || l.Sending? || l.Starting? then 1 else 0 }

  /** After a cancellation at most one more port is dialled, the one the launcher was at. */
  lemma {:induction false} CancelStopsLaunching(trace: seq<State>, acts: seq<Action>, job: Job, i: nat, k: nat)
    requires Execution(trace, acts, job) && i <= k < |trace| && trace[i].cancelled
    ensures trace[k].cancelled
    ensures |trace[k].routines| + Pending(trace[k].launcher) <= |trace[i].routines| + Pending(trace[i].launcher)
    ensures |trace[k].routines| <= |trace[i].routines| + 1
  {
    if i < k {
      CancelStopsLaunching(trace, acts, job, i, k - 1);
      assert trace[(k - 1) + 1] == Apply(trace[k - 1], job, acts[k - 1]);
    }
  }

  /** Something other than a cancellation can happen until Wait has returned, and nothing after. */
  lemma NeverDeadlocks(trace: seq<State>, acts: seq<Action>, job: Job, i: nat)
    requires Execution(trace, acts, job) && i < |trace|
    ensures trace[i].launcher.Returned? <==> forall a :: Enabled(trace[i], job, a) ==> a.Cancel?
  {
    var s := trace[i];
    Reachable(trace, acts, job, i);
    if !s.launcher.Returned? { SomethingMoves(s, job); }
  }

  lemma SomethingMoves(s: State, job: Job)
    requires Inv(s, job) && !s.launcher.Returned?
    ensures exists a :: Enabled(s, job, a) && !a.Cancel?
  {
    TotalZero(s.routines, Slot);
    if k :| 0 <= k < |s.routines| && !s.routines[k].phase.Finished? {
      var m := if s.routines[k].phase.Connected? && s.mutex.Some? then s.mutex.value else k;
      var a := match s.routines[m].phase
        case Dialing => Dialed(m, true)
        case Connected => Enter(m)
        case Entered => Load(m)
        case Loaded(_) => Store(m)
        case Stored => Leave(m)
        case Returning(_) => Free(m)
        case _ => Finish(m);
      assert Enabled(s, job, a);
    } else {
      TotalZero(s.routines, Alive);
      assert Enabled(s, job, Launch);
    }
  }

  function Left(p: Phase): nat {
    match p
    case Dialing => 7
    case Connected => 6
    case Entered => 5
    case Loaded(_) => 4
    case Stored => 3
    case Returning(_) => 2
    case Released(_) => 1
    case Finished(_) => 0
  }

  /** The most steps that can still be taken. */
  function Budget(s: State, job: Job): int {
    11 * (|job.ports| - s.next) + Total(s.routines, Left) + (if s.cancelled then 0 else 1) +
    match s.launcher
    case Top => 2
    case Adding => 1
    case Sending => 0
    case Starting => -1
    case Waiting => 1
    case Returned => 0
  }

  lemma StepCosts(s: State, job: Job, a: Action)
    requires Enabled(s, job, a)
    ensures Budget(Apply(s, job, a), job) < Budget(s, job)
  {
    hide Total;
    if a.Launch? {
      if s.launcher.Starting? { TotalAppend(s.routines, Routine(job.ports[s.next], Dialing), Left); }
    } else if !a.Cancel? {
      TotalUpdate(s.routines, a.k, Apply(s, job, a).routines[a.k], Left);
    }
  }

  /** Every run is over after eleven steps a port and three more, so with no deadlock the
      scan always returns. */
  lemma {:induction false} ScanEnds(trace: seq<State>, acts: seq<Action>, job: Job, i: nat)
    requires Execution(trace, acts, job) && i <= |acts|
    ensures i + Budget(trace[i], job) <= 11 * |job.ports| + 3
    ensures i <= 11 * |job.ports| + 3
  {
    if i > 0 {
      ScanEnds(trace, acts, job, i - 1);
      assert trace[(i - 1) + 1] == Apply(trace[i - 1], job, acts[i - 1]);
      StepCosts(trace[i - 1], job, acts[i - 1]);
    }
    Reachable(trace, acts, job, i);
  }

  /** A goroutine's outcome is what its one dial reported. */
  lemma {:induction false} OutcomeIsDialled(trace: seq<State>, acts: seq<Action>, job: Job, i: nat, k: nat, ok: bool)
    requires Execution(trace, acts, job) && i < |trace|
    ensures Dialed(k, ok) in acts[..i] <==>
      k < |trace[i].routines| && trace[i].routines[k].phase.Outcome() == Some(ok)
  {
    if i > 0 {
      OutcomeIsDialled(trace, acts, job, i - 1, k, ok);
      assert trace[(i - 1) + 1] == Apply(trace[i - 1], job, acts[i - 1]);
      assert acts[..i] == acts[..i - 1] + [acts[i - 1]];
    }
  }

  lemma {:induction false} GatheredOnce(rs: seq<Routine>, p: int)
    requires forall i, j :: 0 <= i < j < |rs| ==> rs[i].port < rs[j].port
    ensures Gathered(rs)[p] == if exists k :: 0 <= k < |rs| && rs[k].port == p && Kept(rs[k].phase) then 1 else 0
  {
    if rs != [] {
      GatheredOnce(rs[1..], p);
      forall k | 0 < k < |rs| ensures rs[k] == rs[1..][k - 1] {}
      assert forall k :: 0 <= k < |rs| - 1 ==> rs[1..][k] == rs[k + 1];
    }
  }

  /** When Wait has returned, `open` holds exactly the launched ports whose dial succeeded,
      each once; and every port was launched unless the context was cancelled. */
  lemma OpenIsWhatAnswered(trace: seq<State>, acts: seq<Action>, job: Job, i: nat, p: int)
    requires Execution(trace, acts, job) && i < |trace| && trace[i].launcher.Returned?
    requires forall a, b :: 0 <= a < b < |job.ports| ==> job.ports[a] < job.ports[b]
    ensures multiset(trace[i].open)[p] ==
      if exists k :: 0 <= k < |job.ports| && job.ports[k] == p && Dialed(k, true) in acts[..i] then 1 else 0
    ensures trace[i].next == |job.ports| || trace[i].cancelled
  {
    var s := trace[i];
    Reachable(trace, acts, job, i);
    GatheredOnce(s.routines, p);
    forall k | 0 <= k < |job.ports|
      ensures Dialed(k, true) in acts[..i] <==> k < |s.routines| && Kept(s.routines[k].phase)
    {
      OutcomeIsDialled(trace, acts, job, i, k, true);
    }
  }
}
