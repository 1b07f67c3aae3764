/** Planner.Plan: the product of capabilities and targets, clamped to the project's scope and
    enqueued as steps of the protocol. */
module Planner {
  import opened Wrappers
  import opened Rows
  import opened Protocol
  import opened Scope
  import ScopeStore
  import AuditLog
  import Audit
  import Database

  datatype Request = Request(project: ProjectId, requestedBy: Option<string>, capabilities: seq<string>,
                             targets: seq<Target>, priority: int)

  datatype PlanError = CapabilitiesRequired | TargetsRequired | AuditFailed

  /** Text the planner only passes on: uuid.String() and the engine's reason. */
  datatype Format = Format(uuid: nat -> string, reason: Verdict -> string)

  /** The scope rules and the moment of planning. */
  datatype Scoping = Scoping(net: Net, rules: seq<Rule>, now: int) {
    ghost predicate Valid() { AllSliceable(rules) }

    function Of(t: Target): Verdict
      requires Valid()
    {
      Evaluate(net, t, rules, now)
    }
  }

  function EffectText(e: Effect): string {
    match e
    case Allow => "allow"
    case Deny => "deny"
    case OutOfScope => "out_of_scope"
  }

  function DropOf(fmt: Format, req: Request, run: RunId, c: string, t: Target, v: Verdict): Audit.Event {
    Audit.Event(Some(fmt.uuid(req.project)), req.requestedBy, "scope.dropped", t.kind, t.identity,
                map["effect" := Audit.JString(EffectText(v.effect)), "reason" := Audit.JString(fmt.reason(v)),
                    "capability" := Audit.JString(c), "run_id" := Audit.JString(fmt.uuid(run))])
  }

  /** The audit log refuses an event without a target kind, and Plan fails on that. */
  predicate Undroppable(sc: Scoping, t: Target)
    requires sc.Valid()
  {
    t.kind == "" && !sc.Of(t).effect.Allow?
  }

  // ---- the steps of a plan --------------------------------------------------------------------

  function PairAct(sc: Scoping, pl: PlannerId, req: Request, c: string, t: Target): Action
    requires sc.Valid()
  {
    if sc.Of(t).effect.Allow? then PlanEnqueue(pl, c, t.kind, t.identity, req.priority) else PlanDrop(pl)
  }

  function ActsFor(sc: Scoping, pl: PlannerId, req: Request, c: string, targets: seq<Target>): (acts: seq<Action>)
    requires sc.Valid()
    ensures |acts| == |targets|
  {
    if targets == [] then []
    else
      var n := |targets| - 1;
      ActsFor(sc, pl, req, c, targets[..n]) + [PairAct(sc, pl, req, c, targets[n])]
  }

  function ActsOf(sc: Scoping, pl: PlannerId, req: Request, caps: seq<string>): seq<Action>
    requires sc.Valid()
  {
    if caps == [] then []
    else ActsOf(sc, pl, req, caps[..|caps| - 1]) + ActsFor(sc, pl, req, caps[|caps| - 1], req.targets)
  }

  /** Where the inner loop stops: the first target it can neither enqueue nor audit. */
  function Stop(sc: Scoping, targets: seq<Target>): (n: nat)
    requires sc.Valid()
    ensures n <= |targets| && (n < |targets| ==> Undroppable(sc, targets[n]))
    ensures forall m :: 0 <= m < n ==> !Undroppable(sc, targets[m])
  {
    if targets == [] || Undroppable(sc, targets[0]) then 0 else 1 + Stop(sc, targets[1..])
  }

  /** All that a plan does to the tables of the queue. */
  function PlanActs(sc: Scoping, pl: PlannerId, req: Request): seq<Action>
    requires sc.Valid()
  {
    if req.capabilities == [] || req.targets == [] then []
    else
      var n := Stop(sc, req.targets);
      [PlanCreate(pl, req.project)] +
      if n == |req.targets| then ActsOf(sc, pl, req, req.capabilities) + [PlanEnd(pl)]
      else ActsFor(sc, pl, req, req.capabilities[0], req.targets[..n]) + [PlanAbort(pl)]
  }

  function KeptIn(acts: seq<Action>): nat {
    if acts == [] then 0 else KeptIn(acts[..|acts| - 1]) + if acts[|acts| - 1].PlanEnqueue? then 1 else 0
  }

  function DroppedIn(acts: seq<Action>): nat {
    if acts == [] then 0 else DroppedIn(acts[..|acts| - 1]) + if acts[|acts| - 1].PlanDrop? then 1 else 0
  }

  /** The rows the enqueues among the steps insert. */
  function RowsOf(req: Request, run: RunId, now: Time, acts: seq<Action>): seq<Job> {
    if acts == [] then []
    else
      var n := |acts| - 1;
      RowsOf(req, run, now, acts[..n]) +
      match acts[n]
      case PlanEnqueue(_, c, kind, target, priority) => [NewJob(Work(run, req.project, c, kind, target, priority, now))]
      case _ => []
  }

  lemma {:induction false} ActsConcat(req: Request, run: RunId, now: Time, a: seq<Action>, b: seq<Action>)
    ensures KeptIn(a + b) == KeptIn(a) + KeptIn(b) && DroppedIn(a + b) == DroppedIn(a) + DroppedIn(b)
    ensures RowsOf(req, run, now, a + b) == RowsOf(req, run, now, a) + RowsOf(req, run, now, b)
  {
    if b == [] {
      assert a + b == a;
    } else {
      var n := |b| - 1;
      ActsConcat(req, run, now, a, b[..n]);
      assert (a + b)[..|a + b| - 1] == a + b[..n];
    }
  }

  lemma OneAct(req: Request, run: RunId, now: Time, a: Action)
    ensures KeptIn([a]) == (if a.PlanEnqueue? then 1 else 0) && DroppedIn([a]) == (if a.PlanDrop? then 1 else 0)
    ensures RowsOf(req, run, now, [a]) == (
      if a.PlanEnqueue? then [NewJob(Work(run, req.project, a.collector, a.targetKind, a.target, a.priority, now))]
      else [])
  {
    assert [a][..0] == [];
  }

  // ---- exactness --------------------------------------------------------------------------------

  function Occurrences(caps: seq<string>, c: string): nat {
    if caps == [] then 0 else Occurrences(caps[..|caps| - 1], c) + (if caps[|caps| - 1] == c then 1 else 0)
  }

  /** How many of the targets are allowed and go by this kind and identity. */
  function Allowed(sc: Scoping, targets: seq<Target>, kind: string, identity: string): nat
    requires sc.Valid()
  {
    if targets == [] then 0
    else
      var t := targets[|targets| - 1];
      Allowed(sc, targets[..|targets| - 1], kind, identity)
      + (if sc.Of(t).effect.Allow? && t.kind == kind && t.identity == identity then 1 else 0)
  }

  lemma {:induction false} ActsForMultiplicity(sc: Scoping, pl: PlannerId, req: Request, c: string,
        targets: seq<Target>, a: Action)
    requires sc.Valid() && a.PlanEnqueue? && a.planner == pl && a.priority == req.priority
    ensures multiset(ActsFor(sc, pl, req, c, targets))[a] ==
      (if a.collector == c then Allowed(sc, targets, a.targetKind, a.target) else 0)
  {
    hide Evaluate;
    if targets != [] { ActsForMultiplicity(sc, pl, req, c, targets[..|targets| - 1], a); }
  }

  /** `per` for every occurrence of c. */
  function Weighted(caps: seq<string>, c: string, per: nat): nat {
    if caps == [] then 0 else Weighted(caps[..|caps| - 1], c, per) + (if caps[|caps| - 1] == c then per else 0)
  }

  lemma {:induction false} WeightedIsProduct(caps: seq<string>, c: string, per: nat)
    ensures Weighted(caps, c, per) == Occurrences(caps, c) * per
  {
    if caps != [] {
      WeightedIsProduct(caps[..|caps| - 1], c, per);
      Distribute(Occurrences(caps[..|caps| - 1], c), 1, per);
    }
  }

  lemma Distribute(a: nat, b: nat, c: nat)
    ensures (a + b) * c == a * c + b * c && 1 * c == c
  {
  }

  lemma {:induction false} ActsWeighted(sc: Scoping, pl: PlannerId, req: Request, caps: seq<string>, a: Action)
    requires sc.Valid() && a.PlanEnqueue? && a.planner == pl && a.priority == req.priority
    ensures multiset(ActsOf(sc, pl, req, caps))[a]
         == Weighted(caps, a.collector, Allowed(sc, req.targets, a.targetKind, a.target))
  {
    hide Allowed, ActsFor;
    if caps != [] {
      var n := |caps| - 1;
      ActsWeighted(sc, pl, req, caps[..n], a);
      ActsForMultiplicity(sc, pl, req, caps[n], req.targets, a);
    }
  }

  /** The jobs of a plan are exactly the pairs of a requested capability and an allowed
      target, each as often as the request repeats it. */
  lemma {:induction false} EnqueueMultiplicity(sc: Scoping, pl: PlannerId, req: Request, caps: seq<string>, a: Action)
    requires sc.Valid() && a.PlanEnqueue? && a.planner == pl && a.priority == req.priority
    ensures multiset(ActsOf(sc, pl, req, caps))[a]
         == Occurrences(caps, a.collector) * Allowed(sc, req.targets, a.targetKind, a.target)
  {
    hide ActsOf, Allowed, Occurrences, Weighted;
    ActsWeighted(sc, pl, req, caps, a);
    WeightedIsProduct(caps, a.collector, Allowed(sc, req.targets, a.targetKind, a.target));
  }

  lemma {:induction false} EnqueuedFor(sc: Scoping, pl: PlannerId, req: Request, c: string, targets: seq<Target>,
        a: Action) returns (t: Target)
    requires sc.Valid() && a.PlanEnqueue? && a in ActsFor(sc, pl, req, c, targets)
    ensures t in targets && sc.Of(t).effect.Allow? && t.kind == a.targetKind && t.identity == a.target
    ensures a.collector == c
  {
    hide Evaluate;
    var n := |targets| - 1;
    if a == PairAct(sc, pl, req, c, targets[n]) {
      t := targets[n];
    } else {
      t := EnqueuedFor(sc, pl, req, c, targets[..n], a);
    }
  }

  lemma {:induction false} EnqueuedOf(sc: Scoping, pl: PlannerId, req: Request, caps: seq<string>, a: Action)
      returns (t: Target)
    requires sc.Valid() && a.PlanEnqueue? && a in ActsOf(sc, pl, req, caps)
    ensures t in req.targets && sc.Of(t).effect.Allow? && t.kind == a.targetKind && t.identity == a.target
  {
    hide Evaluate, ActsFor;
    var n := |caps| - 1;
    if a in ActsOf(sc, pl, req, caps[..n]) {
      t := EnqueuedOf(sc, pl, req, caps[..n], a);
    } else {
      t := EnqueuedFor(sc, pl, req, caps[n], req.targets, a);
    }
  }

  /** Whatever a plan enqueues, also one that fails, is for a target scope allowed. */
  lemma PlannedInScope(sc: Scoping, pl: PlannerId, req: Request, a: Action) returns (t: Target)
    requires sc.Valid() && a.PlanEnqueue? && a in PlanActs(sc, pl, req)
    ensures t in req.targets && sc.Of(t).effect.Allow? && t.kind == a.targetKind && t.identity == a.target
  {
    hide Evaluate, ActsFor, ActsOf;
    var n := Stop(sc, req.targets);
    if n == |req.targets| {
      t := EnqueuedOf(sc, pl, req, req.capabilities, a);
    } else {
      t := EnqueuedFor(sc, pl, req, req.capabilities[0], req.targets[..n], a);
    }
  }

  lemma {:induction false} ForAddsUp(sc: Scoping, pl: PlannerId, req: Request, c: string, targets: seq<Target>)
    requires sc.Valid()
    ensures var acts := ActsFor(sc, pl, req, c, targets);
      KeptIn(acts) + DroppedIn(acts) == |targets|
  {
    hide Evaluate;
    if targets != [] {
      var n := |targets| - 1;
      ForAddsUp(sc, pl, req, c, targets[..n]);
      assert ActsFor(sc, pl, req, c, targets)[..n] == ActsFor(sc, pl, req, c, targets[..n]);
    }
  }

  /** Every pair is either enqueued or dropped. */
  lemma {:induction false} AddsUp(sc: Scoping, pl: PlannerId, req: Request, caps: seq<string>)
    requires sc.Valid()
    ensures var acts := ActsOf(sc, pl, req, caps);
      KeptIn(acts) + DroppedIn(acts) == |caps| * |req.targets|
  {
    hide ActsFor, KeptIn, DroppedIn;
    if caps == [] {
      assert KeptIn([]) + DroppedIn([]) == 0 by { NothingIn(); }
    } else {
      var n := |caps| - 1;
      AddsUp(sc, pl, req, caps[..n]);
      ForAddsUp(sc, pl, req, caps[n], req.targets);
      ActsConcat(req, 0, 0, ActsOf(sc, pl, req, caps[..n]), ActsFor(sc, pl, req, caps[n], req.targets));
      Distribute(n, 1, |req.targets|);
    }
  }

  lemma NothingIn()
    ensures KeptIn([]) == 0 && DroppedIn([]) == 0
  {
  }

  // ---- what is audited ----------------------------------------------------------------------------

  function DropsFor(sc: Scoping, fmt: Format, req: Request, run: RunId, c: string,
        targets: seq<Target>): seq<Audit.Event>
    requires sc.Valid()
  {
    if targets == [] then []
    else
      var n := |targets| - 1;
      DropsFor(sc, fmt, req, run, c, targets[..n])
      + (if sc.Of(targets[n]).effect.Allow? then [] else [DropOf(fmt, req, run, c, targets[n], sc.Of(targets[n]))])
  }

  function Drops(sc: Scoping, fmt: Format, req: Request, run: RunId, caps: seq<string>): seq<Audit.Event>
    requires sc.Valid()
  {
    if caps == [] then []
    else Drops(sc, fmt, req, run, caps[..|caps| - 1]) + DropsFor(sc, fmt, req, run, caps[|caps| - 1], req.targets)
  }

  /** One event for every step that drops. */
  lemma {:induction false} DropsForCount(sc: Scoping, fmt: Format, pl: PlannerId, req: Request, run: RunId, c: string,
        targets: seq<Target>)
    requires sc.Valid()
    ensures |DropsFor(sc, fmt, req, run, c, targets)| == DroppedIn(ActsFor(sc, pl, req, c, targets))
  {
    hide Evaluate, DropOf;
    if targets != [] {
      var n := |targets| - 1;
      DropsForCount(sc, fmt, pl, req, run, c, targets[..n]);
      assert ActsFor(sc, pl, req, c, targets)[..n] == ActsFor(sc, pl, req, c, targets[..n]);
    }
  }

  /** Over a whole plan as well. */
  lemma {:induction false} DropsCount(sc: Scoping, fmt: Format, pl: PlannerId, req: Request, run: RunId,
        caps: seq<string>)
    requires sc.Valid()
    ensures |Drops(sc, fmt, req, run, caps)| == DroppedIn(ActsOf(sc, pl, req, caps))
  {
    hide ActsFor, DropsFor, DroppedIn, KeptIn, RowsOf;
    if caps == [] {
      NothingIn();
    } else {
      var n := |caps| - 1;
      DropsCount(sc, fmt, pl, req, run, caps[..n]);
      DropsForCount(sc, fmt, pl, req, run, caps[n], req.targets);
      ActsConcat(req, run, 0, ActsOf(sc, pl, req, caps[..n]), ActsFor(sc, pl, req, caps[n], req.targets));
    }
  }

  /** The event says which pair was dropped, in which run, by what effect and why. */
  predicate Explains(sc: Scoping, fmt: Format, req: Request, run: RunId, c: string, t: Target, e: Audit.Event)
    requires sc.Valid()
  {
    && !sc.Of(t).effect.Allow?
    && e.action == "scope.dropped" && e.targetKind == t.kind && e.targetId == t.identity
    && e.project == Some(fmt.uuid(req.project)) && e.actor == req.requestedBy
    && "capability" in e.metadata && e.metadata["capability"] == Audit.JString(c)
    && "run_id" in e.metadata && e.metadata["run_id"] == Audit.JString(fmt.uuid(run))
    && "reason" in e.metadata && e.metadata["reason"] == Audit.JString(fmt.reason(sc.Of(t)))
    && "effect" in e.metadata
    && e.metadata["effect"] == Audit.JString(if sc.Of(t).effect.Deny? then "deny" else "out_of_scope")
    && |e.metadata.Keys| == 4
  }

  lemma DropExplains(sc: Scoping, fmt: Format, req: Request, run: RunId, c: string, t: Target)
    requires sc.Valid()
    ensures !sc.Of(t).effect.Allow? ==> Explains(sc, fmt, req, run, c, t, DropOf(fmt, req, run, c, t, sc.Of(t)))
  {
  }

  lemma {:induction false} DropsForExplained(sc: Scoping, fmt: Format, req: Request, run: RunId, c: string,
        targets: seq<Target>)
    requires sc.Valid()
    ensures forall e :: e in DropsFor(sc, fmt, req, run, c, targets) ==>
      exists t :: t in targets && Explains(sc, fmt, req, run, c, t, e)
    ensures forall t :: t in targets && !sc.Of(t).effect.Allow? ==>
      exists e :: e in DropsFor(sc, fmt, req, run, c, targets) && Explains(sc, fmt, req, run, c, t, e)
  {
    hide Explains, DropOf, Evaluate;
    if targets != [] {
      var n := |targets| - 1;
      DropsForExplained(sc, fmt, req, run, c, targets[..n]);
      DropExplains(sc, fmt, req, run, c, targets[n]);
      assert targets == targets[..n] + [targets[n]];
    }
  }

  /** Every audited drop is a requested pair that scope does not allow, and every such pair
      is audited. */
  lemma {:induction false} DropsExplained(sc: Scoping, fmt: Format, req: Request, run: RunId, caps: seq<string>)
    requires sc.Valid()
    ensures forall e :: e in Drops(sc, fmt, req, run, caps) ==>
      exists c, t :: c in caps && t in req.targets && Explains(sc, fmt, req, run, c, t, e)
    ensures forall c, t :: c in caps && t in req.targets && !sc.Of(t).effect.Allow? ==>
      exists e :: e in Drops(sc, fmt, req, run, caps) && Explains(sc, fmt, req, run, c, t, e)
  {
    hide Explains, DropsFor, Evaluate;
    if caps != [] {
      var n := |caps| - 1;
      DropsExplained(sc, fmt, req, run, caps[..n]);
      DropsForExplained(sc, fmt, req, run, caps[n], req.targets);
      assert caps == caps[..n] + [caps[n]];
    }
  }

  // ---- the planner ---------------------------------------------------------------------------------

  /** The rows the log has gained are, in order, those of the given events. */
  ghost predicate Appended(env: Audit.Env, was: seq<Audit.Row>, rows: seq<Audit.Row>, events: seq<Audit.Event>) {
    && |rows| == |was| + |events| && rows[..|was|] == was
    && forall i :: |was| <= i < |rows| ==>
         rows[i].event == Audit.Stored(env, events[i - |was|]) && rows[i].prev == AuditLog.Head(rows[..i])
  }

  lemma AppendedMore(env: Audit.Env, a: seq<Audit.Row>, b: seq<Audit.Row>, c: seq<Audit.Row>,
        d: seq<Audit.Event>, e: seq<Audit.Event>)
    requires Appended(env, a, b, d) && Appended(env, b, c, e)
    ensures Appended(env, a, c, d + e)
  {
    hide Audit.Stored;
    assert c[..|a|] == c[..|b|][..|a|] == a;
    forall i | |a| <= i < |c|
      ensures c[i].event == Audit.Stored(env, (d + e)[i - |a|]) && c[i].prev == AuditLog.Head(c[..i])
    {
      if i < |b| { assert c[i] == b[i] && c[..i] == b[..i]; }
    }
  }

  /** The queue's tables and the audit log at one moment. */
  datatype Moment = Moment(s: State, log: seq<Audit.Row>)

  /** From moment m to moment n the planner took the steps `acts`, its counters and the jobs
      table gained what they say, and the log gained `events`. */
  ghost predicate Went(cfg: Config, env: Audit.Env, pl: PlannerId, req: Request, m: Moment, n: Moment,
                       trace: seq<State>, acts: seq<Action>, events: seq<Audit.Event>)
  {
    && Path(cfg, trace, acts) && trace[0] == m.s && trace[|acts|] == n.s && n.s.now == m.s.now
    && pl in m.s.planners && pl in n.s.planners
    && var pc := m.s.planners[pl];
    && n.s.planners[pl] == pc.(kept := pc.kept + KeptIn(acts), dropped := pc.dropped + DroppedIn(acts))
    && n.s.jobs == m.s.jobs + RowsOf(req, pc.run, m.s.now, acts)
    && Appended(env, m.log, n.log, events)
  }

  lemma WentNowhere(cfg: Config, env: Audit.Env, pl: PlannerId, req: Request, m: Moment)
    requires pl in m.s.planners
    ensures Went(cfg, env, pl, req, m, m, [m.s], [], [])
  {
  }

  lemma WentOn(cfg: Config, env: Audit.Env, pl: PlannerId, req: Request, l: Moment, m: Moment, n: Moment,
        trace: seq<State>, acts: seq<Action>, events: seq<Audit.Event>,
        trace': seq<State>, acts': seq<Action>, events': seq<Audit.Event>)
    requires Went(cfg, env, pl, req, l, m, trace, acts, events) && Went(cfg, env, pl, req, m, n, trace', acts', events')
    ensures |trace'| > 0 && Went(cfg, env, pl, req, l, n, trace + trace'[1..], acts + acts', events + events')
  {
    hide Appended, RowsOf, KeptIn, DroppedIn, Enabled, Apply;
    PathConcat(cfg, trace, acts, trace', acts');
    ActsConcat(req, l.s.planners[pl].run, l.s.now, acts, acts');
    AppendedMore(env, l.log, m.log, n.log, events, events');
  }

  /** One step, an enqueue or a drop. */
  lemma WentOne(cfg: Config, env: Audit.Env, pl: PlannerId, req: Request, m: Moment, n: Moment, a: Action,
        events: seq<Audit.Event>)
    requires Enabled(m.s, cfg, a) && n.s == Apply(m.s, cfg, a)
    requires pl in m.s.planners && m.s.planners[pl].run < |m.s.runs|
    requires m.s.runs[m.s.planners[pl].run].project == req.project && Appended(env, m.log, n.log, events)
    requires a == PlanDrop(pl) || (a.PlanEnqueue? && a.planner == pl)
    ensures Went(cfg, env, pl, req, m, n, [m.s, n.s], [a], events)
  {
    hide Appended;
    OneAct(req, m.s.planners[pl].run, m.s.now, a);
    hide KeptIn, DroppedIn, RowsOf;
    assert Path(cfg, [m.s, n.s], [a]) by { hide Apply, Enabled; }
  }

  lemma JoinPaths(cfg: Config, s: State, t: State, u: State, v: State, a: Action,
        trace: seq<State>, acts: seq<Action>, trace': seq<State>, acts': seq<Action>)
      returns (all: seq<State>, steps: seq<Action>)
    requires Enabled(s, cfg, a) && t == Apply(s, cfg, a)
    requires Path(cfg, trace, acts) && trace[0] == t && trace[|acts|] == u
    requires Path(cfg, trace', acts') && trace'[0] == u && trace'[|acts'|] == v
    ensures Path(cfg, all, steps) && all[0] == s && all[|steps|] == v && steps == [a] + acts + acts'
  {
    assert Path(cfg, [s, t], [a]) by { hide Apply, Enabled; }
    hide Apply, Enabled;
    PathConcat(cfg, [s, t], [a], trace, acts);
    PathConcat(cfg, [s, t] + trace[1..], [a] + acts, trace', acts');
    all, steps := [s, t] + trace[1..] + trace'[1..], [a] + acts + acts';
  }

  class Planner {
    const fmt: Format
    const net: Net
    const scopes: ScopeStore.Store
    const log: AuditLog.Logger
    const db: Database.Database

    constructor (fmt: Format, net: Net, scopes: ScopeStore.Store, log: AuditLog.Logger, db: Database.Database)
      ensures this.fmt == fmt && this.net == net && this.scopes == scopes && this.log == log && this.db == db
    {
      this.fmt, this.net, this.scopes, this.log, this.db := fmt, net, scopes, log, db;
    }

    ghost function Scoped(req: Request, now: int): Scoping
      reads scopes
    {
      Scoping(net, ScopeStore.Listed(scopes.rows, req.project), now)
    }

    ghost function Now(): Moment
      reads db, log
    {
      Moment(db.View(), log.rows)
    }

    ghost predicate Planning(pl: PlannerId, req: Request, run: RunId)
      reads db, log
    {
      && log.Valid() && pl in db.planners && db.planners[pl].run == run < |db.runs|
      && db.runs[run].project == req.project
    }

    /** Handles one (capability, target) pair. */
    method PlanOne(pl: PlannerId, req: Request, sc: Scoping, run: RunId, c: string, t: Target)
      returns (ok: bool, ghost trace: seq<State>, ghost acts: seq<Action>)
      requires sc.Valid() && Planning(pl, req, run)
      modifies db`jobs, db`ledger, db`planners, log
      ensures Planning(pl, req, run) && ok == !Undroppable(sc, t)
      ensures acts == if ok then [PairAct(sc, pl, req, c, t)] else []
      ensures Went(db.cfg, log.env, pl, req, old(Now()), Now(), trace, acts,
                   if ok && !sc.Of(t).effect.Allow? then [DropOf(fmt, req, run, c, t, sc.Of(t))] else [])
    {
      hide Enabled, Apply, Evaluate, DropOf, Went;
      ghost var was := Now();
      trace, acts := [db.View()], [];
      WentNowhere(db.cfg, log.env, pl, req, was);
      var v := Evaluate(sc.net, t, sc.rules, sc.now);
      if !v.effect.Allow? {
        DropNamesTarget(req, run, c, t, v);
        var r := log.Append(DropOf(fmt, req, run, c, t, v));
        ok := r.Success?;
        assert !ok ==> log.rows == was.log;
        if ok {
          OneEvent(was.log, log.rows, DropOf(fmt, req, run, c, t, v));
          db.CountDrop(pl);
          acts := [PlanDrop(pl)];
          trace := [was.s, db.View()];
          WentOne(db.cfg, log.env, pl, req, was, Now(), acts[0], [DropOf(fmt, req, run, c, t, v)]);
        }
        return;
      }
      var id := db.Enqueue(pl, c, t.kind, t.identity, req.priority);
      acts := [PlanEnqueue(pl, c, t.kind, t.identity, req.priority)];
      trace := [was.s, db.View()];
      NoEvent(log.rows);
      WentOne(db.cfg, log.env, pl, req, was, Now(), acts[0], []);
      ok := true;
    }

    lemma OneEvent(was: seq<Audit.Row>, rows: seq<Audit.Row>, e: Audit.Event)
      requires |rows| == |was| + 1 && rows[..|was|] == was
      requires rows[|was|].event == Audit.Stored(log.env, e) && rows[|was|].prev == AuditLog.Head(was)
      ensures Appended(log.env, was, rows, [e])
    {
    }

    lemma NoEvent(rows: seq<Audit.Row>)
      ensures Appended(log.env, rows, rows, [])
    {
    }

    lemma DropNamesTarget(req: Request, run: RunId, c: string, t: Target, v: Verdict)
      ensures var e := DropOf(fmt, req, run, c, t, v); e.action != "" && e.targetKind == t.kind
    {
    }

    lemma StartsEmpty(req: Request, run: RunId, now: Time, rows: seq<Audit.Row>)
      ensures RowsOf(req, run, now, []) == [] && KeptIn([]) == 0 && DroppedIn([]) == 0
      ensures Appended(log.env, rows, rows, [])
    {
    }

    /** The inner loop: one capability over all targets, up to the first undroppable one. */
    method PlanCapability(pl: PlannerId, req: Request, sc: Scoping, run: RunId, c: string)
      returns (n: nat, ghost trace: seq<State>, ghost acts: seq<Action>)
      requires sc.Valid() && Planning(pl, req, run)
      modifies db`jobs, db`ledger, db`planners, log
      ensures Planning(pl, req, run) && n == Stop(sc, req.targets)
      ensures acts == ActsFor(sc, pl, req, c, req.targets[..n])
      ensures Went(db.cfg, log.env, pl, req, old(Now()), Now(), trace, acts,
                   DropsFor(sc, fmt, req, run, c, req.targets[..n]))
    {
      hide Evaluate, DropOf, Undroppable, PairAct, Went;
      n, trace, acts := 0, [db.View()], [];
      WentNowhere(db.cfg, log.env, pl, req, Now());
      while n < |req.targets|
        invariant Planning(pl, req, run) && n <= |req.targets|
        invariant forall m :: 0 <= m < n ==> !Undroppable(sc, req.targets[m])
        invariant acts == ActsFor(sc, pl, req, c, req.targets[..n])
        invariant Went(db.cfg, log.env, pl, req, old(Now()), Now(), trace, acts,
                       DropsFor(sc, fmt, req, run, c, req.targets[..n]))
      {
        assert req.targets[..n + 1][..n] == req.targets[..n];
        ghost var before, t := Now(), req.targets[n];
        ghost var drops := DropsFor(sc, fmt, req, run, c, req.targets[..n]);
        var ok, trace', acts' := PlanOne(pl, req, sc, run, c, req.targets[n]);
        ghost var drops' := if ok && !sc.Of(t).effect.Allow? then [DropOf(fmt, req, run, c, t, sc.Of(t))] else [];
        WentOn(db.cfg, log.env, pl, req, old(Now()), before, Now(), trace, acts, drops, trace', acts', drops');
        trace, acts := trace + trace'[1..], acts + acts';
        if !ok {
          assert drops + [] == drops;
          break;
        }
        n := n + 1;
      }
      StopsAt(sc, req.targets, n);
    }

    lemma StopsAt(sc: Scoping, targets: seq<Target>, n: nat)
      requires sc.Valid() && n <= |targets| && forall m :: 0 <= m < n ==> !Undroppable(sc, targets[m])
      requires n < |targets| ==> Undroppable(sc, targets[n])
      ensures Stop(sc, targets) == n
    {
      hide Undroppable;
    }

    /** The outer loop, over the capabilities. */
    method PlanAll(pl: PlannerId, req: Request, sc: Scoping, run: RunId)
      returns (ok: bool, ghost trace: seq<State>, ghost acts: seq<Action>)
      requires sc.Valid() && Planning(pl, req, run) && req.capabilities != []
      modifies db`jobs, db`ledger, db`planners, log
      ensures Planning(pl, req, run) && (ok <==> Stop(sc, req.targets) == |req.targets|)
      ensures acts ==
        if ok then ActsOf(sc, pl, req, req.capabilities)
        else ActsFor(sc, pl, req, req.capabilities[0], req.targets[..Stop(sc, req.targets)])
      ensures Went(db.cfg, log.env, pl, req, old(Now()), Now(), trace, acts,
                   if ok then Drops(sc, fmt, req, run, req.capabilities)
                   else DropsFor(sc, fmt, req, run, req.capabilities[0], req.targets[..Stop(sc, req.targets)]))
    {
      hide Evaluate, Undroppable, Went, ActsFor, DropsFor, Stop;
      trace, acts := [db.View()], [];
      WentNowhere(db.cfg, log.env, pl, req, Now());
      for i := 0 to |req.capabilities|
        invariant Planning(pl, req, run)
        invariant i > 0 ==> Stop(sc, req.targets) == |req.targets|
        invariant acts == ActsOf(sc, pl, req, req.capabilities[..i])
        invariant Went(db.cfg, log.env, pl, req, old(Now()), Now(), trace, acts,
                       Drops(sc, fmt, req, run, req.capabilities[..i]))
      {
        assert req.capabilities[..i + 1][..i] == req.capabilities[..i];
        ghost var before, drops := Now(), Drops(sc, fmt, req, run, req.capabilities[..i]);
        var n, trace', acts' := PlanCapability(pl, req, sc, run, req.capabilities[i]);
        ghost var drops' := DropsFor(sc, fmt, req, run, req.capabilities[i], req.targets[..n]);
        WentOn(db.cfg, log.env, pl, req, old(Now()), before, Now(), trace, acts, drops, trace', acts', drops');
        trace, acts := trace + trace'[1..], acts + acts';
        if n < |req.targets| {
          assert [] + drops' == drops' && [] + acts' == acts';
          ok := false;
          return;
        }
        assert req.targets[..n] == req.targets;
      }
      assert req.capabilities[..|req.capabilities|] == req.capabilities;
      ok := true;
    }

    /** Plan once its request is checked and the scope rules are loaded. */
    method PlanRun(pl: PlannerId, req: Request, sc: Scoping)
      returns (ok: bool, run: RunId, kept: nat, dropped: nat, ghost trace: seq<State>, ghost acts: seq<Action>)
      requires log.Valid() && sc.Valid() && req.capabilities != [] && req.targets != []
      requires pl !in db.planners && req.project in db.caps
      modifies db`jobs, db`ledger, db`planners, db`runs, log
      ensures log.Valid() && db.Ran(old(db.View()), trace, acts) && acts == PlanActs(sc, pl, req)
      ensures ok <==> Stop(sc, req.targets) == |req.targets|
      ensures db.jobs == old(db.jobs) + RowsOf(req, run, db.now, acts)
      ensures run == |old(db.runs)| && |db.runs| == run + 1 && db.runs[..run] == old(db.runs)
      ensures ok ==> kept == KeptIn(acts) && dropped == DroppedIn(acts)
      ensures db.runs[run].status == if ok && kept == 0 then RunSucceeded else RunRunning
      ensures Appended(log.env, old(log.rows), log.rows,
                       if ok then Drops(sc, fmt, req, run, req.capabilities)
                       else DropsFor(sc, fmt, req, run, req.capabilities[0], req.targets[..Stop(sc, req.targets)]))
    {
      hide Evaluate, DropOf, Undroppable, Enabled, Apply, Path;
      hide RowsOf, KeptIn, DroppedIn, Appended, ActsFor, ActsOf, DropsFor, Drops, Stop;
      run := db.CreateRun(pl, req.project);
      ghost var created := db.View();
      ghost var trace', acts', trace'', acts'';
      ok, trace', acts' := PlanAll(pl, req, sc, run);
      ghost var planned := db.View();
      kept, dropped, trace'', acts'' := Close(pl, ok);
      trace, acts := JoinPaths(db.cfg, old(db.View()), created, planned, db.View(), PlanCreate(pl, req.project),
                               trace', acts', trace'', acts'');
      EndActs(req, run, db.now, pl, acts', acts''[0]);
    }

    /** What Plan does after its loops, or when they fail. */
    method Close(pl: PlannerId, ok: bool)
      returns (kept: nat, dropped: nat, ghost trace: seq<State>, ghost acts: seq<Action>)
      requires pl in db.planners && db.planners[pl].run < |db.runs|
      modifies db`planners, db`runs
      ensures db.Ran(old(db.View()), trace, acts) && acts == [if ok then PlanEnd(pl) else PlanAbort(pl)]
      ensures var pc := old(db.planners[pl]);
        && kept == pc.kept && dropped == pc.dropped && |db.runs| == |old(db.runs)|
        && (forall r :: 0 <= r < |db.runs| && r != pc.run ==> db.runs[r] == old(db.runs)[r])
        && db.runs[pc.run].status == if ok && kept == 0 then RunSucceeded else old(db.runs)[pc.run].status
    {
      hide Enabled, Apply;
      trace, acts := [db.View()], [];
      kept, dropped := db.planners[pl].kept, db.planners[pl].dropped;
      if ok { db.EndPlan(pl); } else { db.AbortPlan(pl); }
      db.RanStep(old(db.View()), trace, acts, if ok then PlanEnd(pl) else PlanAbort(pl));
      trace, acts := trace + [db.View()], acts + [if ok then PlanEnd(pl) else PlanAbort(pl)];
    }

    /** Plan fails on an empty request, and when a target that is not allowed has no kind; in
        that last case it leaves its run running, with the first capability's jobs and drops
        up to that target. Otherwise the run's jobs are all the allowed pairs, in order,
        every other pair is one scope.dropped event, and a run with no job is at once
        succeeded. Either way it has run as the steps of PlanActs. */
    method Plan(pl: PlannerId, req: Request, now: int)
      returns (r: Result<(RunId, nat, nat), PlanError>, ghost trace: seq<State>, ghost acts: seq<Action>)
      requires log.Valid() && scopes.Valid() && AllSliceable(ScopeStore.Listed(scopes.rows, req.project))
      requires pl !in db.planners && req.project in db.caps
      modifies db`jobs, db`ledger, db`planners, db`runs, log
      ensures log.Valid() && db.Ran(old(db.View()), trace, acts)
      ensures acts == PlanActs(old(Scoped(req, now)), pl, req)
      ensures r.Failure? <==>
        || req.capabilities == [] || req.targets == []
        || exists t :: t in req.targets && t.kind == "" && !old(Scoped(req, now)).Of(t).effect.Allow?
      ensures r.Failure? ==>
        r.error == if req.capabilities == [] then CapabilitiesRequired
                   else if req.targets == [] then TargetsRequired else AuditFailed
      ensures db.jobs == old(db.jobs) + RowsOf(req, |old(db.runs)|, db.now, acts)
      ensures r.Failure? && (req.capabilities == [] || req.targets == []) ==>
        db.runs == old(db.runs) && log.rows == old(log.rows)
      ensures r.Failure? && req.capabilities != [] && req.targets != [] ==>
        var sc, run := old(Scoped(req, now)), |old(db.runs)|;
        && |db.runs| == run + 1 && db.runs[..run] == old(db.runs) && db.runs[run].status.RunRunning?
        && Appended(log.env, old(log.rows), log.rows,
                    DropsFor(sc, fmt, req, run, req.capabilities[0], req.targets[..Stop(sc, req.targets)]))
      ensures r.Success? ==>
        var sc, run := old(Scoped(req, now)), |old(db.runs)|;
        && r.value == (run, KeptIn(acts), DroppedIn(acts))
        && r.value.1 + r.value.2 == |req.capabilities| * |req.targets|
        && Appended(log.env, old(log.rows), log.rows, Drops(sc, fmt, req, run, req.capabilities))
        && |log.rows| == |old(log.rows)| + r.value.2
        && |db.runs| == run + 1 && db.runs[..run] == old(db.runs)
        && db.runs[run].status == if r.value.1 == 0 then RunSucceeded else RunRunning
    {
      hide Evaluate, Undroppable, Enabled, Apply;
      hide RowsOf, KeptIn, DroppedIn, Appended, ActsFor, ActsOf, DropsFor, Drops, Stop;
      trace, acts := [db.View()], [];
      StartsEmpty(req, |db.runs|, db.now, log.rows);
      if |req.capabilities| == 0 { return Failure(CapabilitiesRequired), trace, acts; }
      if |req.targets| == 0 { return Failure(TargetsRequired), trace, acts; }
      var rules := scopes.List(req.project);
      var sc := Scoping(net, rules, now);
      StopMeans(sc, req.targets);
      if Stop(sc, req.targets) == |req.targets| { PlanAddsUp(sc, pl, req, |db.runs|); }
      var ok, run, kept, dropped;
      ok, run, kept, dropped, trace, acts := PlanRun(pl, req, sc);
      AppendedLength(old(log.rows), log.rows, if ok then Drops(sc, fmt, req, run, req.capabilities)
        else DropsFor(sc, fmt, req, run, req.capabilities[0], req.targets[..Stop(sc, req.targets)]));
      r := if ok then Success((run, kept, dropped)) else Failure(AuditFailed);
    }

    lemma AppendedLength(was: seq<Audit.Row>, rows: seq<Audit.Row>, events: seq<Audit.Event>)
      requires Appended(log.env, was, rows, events)
      ensures |rows| == |was| + |events|
    {
    }

    lemma PlanAddsUp(sc: Scoping, pl: PlannerId, req: Request, run: RunId)
      requires sc.Valid() && req.capabilities != [] && req.targets != []
      requires Stop(sc, req.targets) == |req.targets|
      ensures var acts := PlanActs(sc, pl, req);
        && KeptIn(acts) + DroppedIn(acts) == |req.capabilities| * |req.targets|
        && |Drops(sc, fmt, req, run, req.capabilities)| == DroppedIn(acts)
    {
      hide KeptIn, DroppedIn, RowsOf, ActsOf, Evaluate, Stop;
      AddsUp(sc, pl, req, req.capabilities);
      DropsCount(sc, fmt, pl, req, run, req.capabilities);
      var acts := ActsOf(sc, pl, req, req.capabilities);
      EndActs(req, 0, 0, pl, acts, PlanEnd(pl));
      assert PlanActs(sc, pl, req) == [PlanCreate(pl, req.project)] + acts + [PlanEnd(pl)];
    }

    lemma StopMeans(sc: Scoping, targets: seq<Target>)
      requires sc.Valid()
      ensures Stop(sc, targets) == |targets| <==> forall t :: t in targets ==> t.kind != "" || sc.Of(t).effect.Allow?
    {
      hide Stop, Evaluate;
      var n := Stop(sc, targets);
      if n < |targets| { assert targets[n] in targets; }
    }

    /** The first and the last step of a plan enqueue and drop nothing. */
    lemma EndActs(req: Request, run: RunId, now: Time, pl: PlannerId, acts: seq<Action>, last: Action)
      requires !last.PlanEnqueue? && !last.PlanDrop?
      ensures var all := [PlanCreate(pl, req.project)] + acts + [last];
        && KeptIn(all) == KeptIn(acts) && DroppedIn(all) == DroppedIn(acts)
        && RowsOf(req, run, now, all) == RowsOf(req, run, now, acts)
    {
      var first := [PlanCreate(pl, req.project)];
      ActsConcat(req, run, now, first, acts);
      assert (first + acts + [last])[..|first + acts|] == first + acts;
      assert first[..0] == [];
    }
  }
}
