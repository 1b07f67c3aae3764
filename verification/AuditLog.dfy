/** Appending to and verifying the audit table, first as one session's code, then with any
    number of Append transactions interleaved. */
module AuditLog {
  import opened Wrappers
  import opened Audit

  function Head(rows: seq<Row>): Option<bytes> {
    if rows == [] then None else Some(rows[|rows| - 1].self)
  }

  /** The row Append inserts when `prev` is the head: signed for the event at hand, to be
      read with the metadata that storing leaves. */
  function NewRow(env: Env, prev: Option<bytes>, id: nat, e: Event): Row {
    Row(id, Stored(env, e), prev, ChainHash(env, prev, e))
  }

  /** What storing does to the metadata does not show in the hash. */
  predicate ReadsBack(env: Env, prev: Option<bytes>, e: Event) {
    Stored(env, e).Some? && ChainHash(env, prev, Stored(env, e).value) == ChainHash(env, prev, e)
  }

  /** Where the two messages do not collide, that is for the canonical bytes to be the same
      before and after storing; where they are, it holds whatever the head. */
  lemma ReadsBackMeans(env: Env, prev: Option<bytes>, e: Event)
    ensures var s := Stored(env, e);
      && (s.Some? && Canon(env, s.value) == Canon(env, e) ==> ReadsBack(env, prev, e))
      && (ReadsBack(env, prev, e) && !Collide(env, Message(prev, Canon(env, s.value)), Message(prev, Canon(env, e))) ==>
            Canon(env, s.value) == Canon(env, e))
  {
    if Stored(env, e).Some? { SameTail(prev, Canon(env, Stored(env, e).value), Canon(env, e)); }
  }

  predicate Collide(env: Env, m: bytes, n: bytes) { m != n && env.mac(m) == env.mac(n) }

  lemma SameTail(prev: Option<bytes>, c: bytes, d: bytes)
    ensures Message(prev, c) == Message(prev, d) <==> c == d
  {
    var h := BigEndian(|Bytes(prev)|, 8) + Bytes(prev);
    assert (h + c)[|h|..] == c && (h + d)[|h|..] == d;
  }

  /** Ids rise and are positive, as a BIGSERIAL's are. */
  predicate Ordered(rows: seq<Row>) {
    (forall k :: 0 <= k < |rows| ==> rows[k].id > 0)
    && forall i, j :: 0 <= i < j < |rows| ==> rows[i].id < rows[j].id
  }

  /** One more row verifies exactly when the log did and the event reads back. */
  lemma NewRowChains(env: Env, rows: seq<Row>, id: nat, e: Event)
    ensures var longer := rows + [NewRow(env, Head(rows), id, e)];
      && (RowOk(env, longer, |rows|) <==> ReadsBack(env, Head(rows), e))
      && (Chain(env, longer) <==> Chain(env, rows) && ReadsBack(env, Head(rows), e))
  {
    var longer := rows + [NewRow(env, Head(rows), id, e)];
    forall k | 0 <= k < |rows| ensures RowOk(env, longer, k) <==> RowOk(env, rows, k) {
      assert longer[k] == rows[k] && (k > 0 ==> longer[k - 1] == rows[k - 1]);
    }
  }

  class Logger {
    const env: Env
    var rows: seq<Row>
    var nextId: nat

    /** What the table's own constraints see to; its hashes are not taken on trust. */
    predicate Valid()
      reads this
    {
      Ordered(rows) && nextId > 0 && forall k :: 0 <= k < |rows| ==> rows[k].id < nextId
    }

    constructor (env: Env)
      ensures Valid() && rows == [] && this.env == env
    {
      this.env, rows, nextId := env, [], 1;
    }

    method Append(e: Event) returns (r: Result<Row, string>)
      requires Valid()
      modifies this
      ensures Valid()
      ensures r.Failure? <==> e.action == "" || e.targetKind == ""
      ensures rows == old(rows) + (if r.Success? then [r.value] else [])
      ensures r.Success? ==>
        && r.value.event == Stored(env, e) && r.value.id == old(nextId)
        && r.value.prev == (if old(rows) == [] then None else Some(old(rows)[|old(rows)| - 1].self))
        && r.value.self == env.mac(Message(r.value.prev, env.marshal(Canonical(e))))
        && (r.value.event.Some? <==> env.readBack(e.metadata).Some?)
        && (r.value.event.Some? ==> r.value.event.value == e.(metadata := env.readBack(e.metadata).value))
      ensures Chain(env, rows) <==> old(Chain(env, rows)) && (r.Success? ==> ReadsBack(env, r.value.prev, e))
    {
      if e.action == "" || e.targetKind == "" {
        return Failure("audit: action and target_kind required");
      }
      var prev := Head(rows);
      var row := Row(nextId, Stored(env, e), prev, ChainHash(env, prev, e));
      NewRowChains(env, rows, nextId, e);
      rows := rows + [row];
      nextId := nextId + 1;
      r := Success(row);
    }

    /** Verify reads whatever the table holds; no part of it is taken on trust. */
    method Verify() returns (id: nat)
      ensures Verdict(env, rows, id)
    {
      var last: bytes := [];
      for i := 0 to |rows|
        invariant last == HashBefore(rows, i)
        invariant forall k :: 0 <= k < i ==> RowOk(env, rows, k)
      {
        var r := rows[i];
        var same := if |Bytes(r.prev)| == 0 && |last| == 0 then true else Bytes(r.prev) == last;
        if !same || r.event.None? || ChainHash(env, r.prev, r.event.value) != r.self {
          FirstBadRow(env, rows, i, r.id);
          return r.id;
        }
        last := r.self;
      }
      id := 0;
    }
  }

  // ---- concurrent appends --------------------------------------------------------------------

  type Session = nat

  /** An Append transaction: waiting for the advisory lock, holding it, having read the
      head, having inserted its row (not yet visible to anyone else). */
  datatype Stage = Locked(e: Event) | Read(e: Event, prev: Option<bytes>) | Inserted(e: Event, row: Row)

  /** `events` remembers, for no step to read, what the committed rows were appended for. */
  datatype Table = Table(rows: seq<Row>, nextId: nat, lock: Option<Session>, open: map<Session, Stage>,
                         events: seq<Event>)

  datatype Action = Lock(s: Session, e: Event) | ReadHead(s: Session) | Insert(s: Session)
                  | Commit(s: Session) | Rollback(s: Session)

  predicate Enabled(t: Table, a: Action) {
    match a
    case Lock(s, e) => s !in t.open && t.lock.None? && e.action != "" && e.targetKind != ""
    case ReadHead(s) => s in t.open && t.open[s].Locked?
    case Insert(s) => s in t.open && t.open[s].Read?
    case Commit(s) => s in t.open && t.open[s].Inserted?
    case Rollback(s) => s in t.open
  }

  /** The end of a transaction frees the lock if the session holds it. */
  function Release(t: Table, s: Session): Table {
    t.(open := t.open - {s}, lock := if t.lock == Some(s) then None else t.lock)
  }

  function Apply(t: Table, env: Env, a: Action): Table
    requires Enabled(t, a)
  {
    match a
    case Lock(s, e) => t.(open := t.open[s := Locked(e)], lock := Some(s))
    case ReadHead(s) => t.(open := t.open[s := Read(t.open[s].e, Head(t.rows))])
    case Insert(s) =>
      // nextval is not undone by a rollback, so ids may leave gaps.
      var st := t.open[s];
      t.(open := t.open[s := Inserted(st.e, NewRow(env, st.prev, t.nextId, st.e))], nextId := t.nextId + 1)
    case Commit(s) =>
      Release(t.(rows := t.rows + [t.open[s].row], events := t.events + [t.open[s].e]), s)
    case Rollback(s) => Release(t, s)
  }

  /** Every committed row continues the one before it, for the event it was appended for. */
  ghost predicate Linked(env: Env, rows: seq<Row>, events: seq<Event>) {
    && |events| == |rows|
    && forall k :: 0 <= k < |rows| ==> rows[k] == NewRow(env, Head(rows[..k]), rows[k].id, events[k])
  }

  ghost predicate Inv(t: Table, env: Env) {
    && Linked(env, t.rows, t.events) && Ordered(t.rows)
    && t.nextId > 0 && (forall k :: 0 <= k < |t.rows| ==> t.rows[k].id < t.nextId)
    && (forall s :: s in t.open ==> t.lock == Some(s) && match t.open[s]
          case Locked(_) => true
          case Read(_, prev) => prev == Head(t.rows)
          case Inserted(e, row) => row == NewRow(env, Head(t.rows), row.id, e) && row.id < t.nextId
                                   && (t.rows != [] ==> t.rows[|t.rows| - 1].id < row.id) && row.id > 0)
  }

  lemma LinkedGrows(env: Env, rows: seq<Row>, events: seq<Event>, row: Row, e: Event)
    requires Linked(env, rows, events) && row == NewRow(env, Head(rows), row.id, e)
    ensures Linked(env, rows + [row], events + [e])
  {
    hide ChainHash;
    var longer := rows + [row];
    forall k | 0 <= k < |longer| ensures longer[k] == NewRow(env, Head(longer[..k]), longer[k].id, (events + [e])[k]) {
      assert longer[..k] == rows[..k];
      assert rows[..|rows|] == rows;
    }
  }

  lemma InvKept(t: Table, env: Env, a: Action)
    requires Inv(t, env) && Enabled(t, a)
    ensures Inv(Apply(t, env, a), env)
  {
    hide Linked, ChainHash;
    if a.Commit? {
      LinkedGrows(env, t.rows, t.events, t.open[a.s].row, t.open[a.s].e);
    }
  }

  /** Undisturbed, the transaction does what the method Append does. */
  lemma AppendAlone(t: Table, env: Env, s: Session, e: Event)
    requires s !in t.open && t.lock.None? && e.action != "" && e.targetKind != ""
    ensures Enabled(t, Lock(s, e))
    ensures var t1 := Apply(t, env, Lock(s, e));
      Enabled(t1, ReadHead(s)) && var t2 := Apply(t1, env, ReadHead(s));
      Enabled(t2, Insert(s)) && var t3 := Apply(t2, env, Insert(s));
      Enabled(t3, Commit(s)) && var t4 := Apply(t3, env, Commit(s));
      && t1.rows == t2.rows == t3.rows == t.rows
      && t4.rows == t.rows + [NewRow(env, Head(t.rows), t.nextId, e)]
      && t4.open == t.open && t4.lock.None? && t4.nextId == t.nextId + 1
  {
    var t1 := Apply(t, env, Lock(s, e));
    var t2 := Apply(t1, env, ReadHead(s));
    var t3 := Apply(t2, env, Insert(s));
    var t4 := Apply(t3, env, Commit(s));
    assert t4.open == t.open;
  }

  /** From every stage it can roll back, which leaves the log alone and frees the lock. */
  lemma RollbackLeavesLog(t: Table, env: Env, s: Session)
    requires Inv(t, env) && s in t.open
    ensures Enabled(t, Rollback(s))
    ensures var t' := Apply(t, env, Rollback(s));
      t'.rows == t.rows && t'.open == map[] && t'.lock.None? && t'.nextId == t.nextId
  {
    assert t.open.Keys == {s} by {
      forall r | r in t.open ensures r == s { assert t.lock == Some(r) && t.lock == Some(s); }
    }
    assert (t.open - {s}).Keys == {};
  }

  lemma LinkedVerifies(env: Env, rows: seq<Row>, events: seq<Event>, k: nat)
    requires Linked(env, rows, events) && k < |rows|
    ensures RowOk(env, rows, k) <==> ReadsBack(env, rows[k].prev, events[k])
  {
    assert rows[..k] == [] || rows[..k][k - 1] == rows[k - 1];
  }

  /** However many Append transactions interleave, commit or roll back, the committed table
      is at every moment one unforked list in rising id order, each row linked to the one
      before it. Verify answers 0 exactly if every event it holds reads back from its
      column, and otherwise the row of the first that does not. */
  lemma {:induction false} ConcurrentAppendsVerify(env: Env, trace: seq<Table>, acts: seq<Action>, i: nat, id: nat)
    requires |trace| == |acts| + 1 && i < |trace|
    requires trace[0] == Table([], 1, None, map[], [])
    requires forall k {:trigger acts[k]} :: 0 <= k < |acts| ==>
      Enabled(trace[k], acts[k]) && trace[k + 1] == Apply(trace[k], env, acts[k])
    ensures Inv(trace[i], env)
    ensures var t := trace[i];
      && Ordered(t.rows) && |t.events| == |t.rows|
      && (forall k :: 0 < k < |t.rows| ==> t.rows[k].prev == Some(t.rows[k - 1].self))
      && ((forall k :: 0 <= k < |t.rows| ==> ReadsBack(env, t.rows[k].prev, t.events[k])) ==>
            (Verdict(env, t.rows, id) <==> id == 0))
      && forall m :: FirstUnread(env, t.rows, t.events, m) ==> (Verdict(env, t.rows, id) <==> id == t.rows[m].id)
  {
    hide Verdict, ReadsBack, RowOk, Apply, Enabled;
    if i > 0 {
      ConcurrentAppendsVerify(env, trace, acts, i - 1, id);
      assert trace[(i - 1) + 1] == Apply(trace[i - 1], env, acts[i - 1]);
      InvKept(trace[i - 1], env, acts[i - 1]);
    }
    LinkedVerdict(env, trace[i].rows, trace[i].events, id);
  }

  lemma LinkedVerdict(env: Env, rows: seq<Row>, events: seq<Event>, id: nat)
    requires Linked(env, rows, events)
    ensures |events| == |rows| && forall k :: 0 < k < |rows| ==> rows[k].prev == Some(rows[k - 1].self)
    ensures (forall k :: 0 <= k < |rows| ==> ReadsBack(env, rows[k].prev, events[k])) ==>
      (Verdict(env, rows, id) <==> id == 0)
    ensures forall m :: FirstUnread(env, rows, events, m) ==> (Verdict(env, rows, id) <==> id == rows[m].id)
  {
    forall k | 0 <= k < |rows| ensures RowOk(env, rows, k) <==> ReadsBack(env, rows[k].prev, events[k]) {
      LinkedVerifies(env, rows, events, k);
    }
    forall k | 0 < k < |rows| ensures rows[k].prev == Some(rows[k - 1].self) {
      assert rows[..k][k - 1] == rows[k - 1];
    }
    hide Verdict, ReadsBack, RowOk, Linked;
    if forall k :: 0 <= k < |rows| ==> ReadsBack(env, rows[k].prev, events[k]) { AllRowsGood(env, rows, id); }
    forall m | FirstUnread(env, rows, events, m) ensures Verdict(env, rows, id) <==> id == rows[m].id {
      FirstBadRow(env, rows, m, id);
    }
  }

  ghost predicate FirstUnread(env: Env, rows: seq<Row>, events: seq<Event>, m: int) {
    && 0 <= m < |rows| && |events| == |rows| && !ReadsBack(env, rows[m].prev, events[m])
    && forall k :: 0 <= k < m ==> ReadsBack(env, rows[k].prev, events[k])
  }
}
