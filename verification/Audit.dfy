/** The HMAC-chained audit log: what Verify accepts, and what tampering it locates. */
module Audit {
  import opened Wrappers

  datatype Json = JNull | JBool(b: bool) | JNumber(text: string) | JString(s: string)
                | JArray(items: seq<Json>) | JObject(fields: map<string, Json>)

  /** The hashed fields; None is a nil UUID pointer, an empty map nil or empty metadata. */
  datatype Event = Event(project: Option<string>, actor: Option<string>, action: string,
                         targetKind: string, targetId: string, metadata: map<string, Json>)

  /** A row of audit_events with its event as Verify reads it, None when the stored metadata
      does not parse; a prev of None is a NULL prev_hash. */
  datatype Row = Row(id: nat, event: Option<Event>, prev: Option<bytes>, self: bytes)

  /** What the code calls but does not define: HMAC-SHA256 under the logger's key,
      json.Marshal of an object with sorted keys, and what json.Unmarshal makes of metadata
      that went through json.Marshal and the JSONB column. */
  datatype Env = Env(mac: bytes -> bytes, marshal: map<string, Json> -> bytes,
                     readBack: map<string, Json> -> Option<map<string, Json>>)

  /** An appended event as Verify will read it. */
  function Stored(env: Env, e: Event): Option<Event> {
    match env.readBack(e.metadata)
    case None => None
    case Some(m) => Some(e.(metadata := m))
  }

  // ---- canonical form --------------------------------------------------------------------

  /** The object with those of the named fields that have a value. */
  function Object(names: seq<string>, values: seq<Option<Json>>): map<string, Json>
    requires |names| == |values|
  {
    if names == [] then map[]
    else
      var n := |names| - 1;
      var rest := Object(names[..n], values[..n]);
      if values[n].Some? then rest[names[n] := values[n].value] else rest
  }

  function FieldNames(): seq<string> {
    ["action", "target_kind", "target_id", "project_id", "actor_token_id", "metadata"]
  }

  function Text(s: Option<string>): Option<Json> { if s.Some? then Some(JString(s.value)) else None }

  function FieldValues(e: Event): seq<Option<Json>> {
    [Text(Some(e.action)), Text(Some(e.targetKind)), Text(Some(e.targetId)), Text(e.project), Text(e.actor),
     if |e.metadata| > 0 then Some(JObject(e.metadata)) else None]
  }

  function Canonical(e: Event): map<string, Json> { Object(FieldNames(), FieldValues(e)) }

  ghost predicate Distinct(names: seq<string>) { forall i, j :: 0 <= i < j < |names| ==> names[i] != names[j] }

  lemma {:induction false} ObjectFields(names: seq<string>, values: seq<Option<Json>>, i: nat)
    requires |names| == |values| && Distinct(names) && i < |names|
    ensures names[i] in Object(names, values) <==> values[i].Some?
    ensures values[i].Some? ==> Object(names, values)[names[i]] == values[i].value
  {
    var n := |names| - 1;
    if i < n {
      ObjectFields(names[..n], values[..n], i);
      assert names[..n][i] != names[n];
    } else {
      ObjectOnly(names[..n], values[..n], names[n]);
    }
  }

  lemma {:induction false} ObjectOnly(names: seq<string>, values: seq<Option<Json>>, name: string)
    requires |names| == |values| && name !in names
    ensures name !in Object(names, values)
  {
    if names != [] { ObjectOnly(names[..|names| - 1], values[..|names| - 1], name); }
  }

  /** Leaving absent fields out of the object loses nothing. */
  lemma CanonicalInjective(d: Event, e: Event)
    ensures Canonical(d) == Canonical(e) <==> d == e
  {
    if Canonical(d) == Canonical(e) {
      var v, w := FieldValues(d), FieldValues(e);
      FieldNamesDistinct();
      hide Object;
      forall i | 0 <= i < 6 ensures v[i] == w[i] {
        ObjectFields(FieldNames(), v, i);
        ObjectFields(FieldNames(), w, i);
      }
      assert v[0] == w[0] && v[1] == w[1] && v[2] == w[2] && v[3] == w[3] && v[4] == w[4] && v[5] == w[5];
      assert |d.metadata| == 0 ==> d.metadata == map[];
      assert |e.metadata| == 0 ==> e.metadata == map[];
    }
  }

  lemma FieldNamesDistinct()
    ensures Distinct(FieldNames())
  {
  }

  /** The JSON object that is hashed, field by field. */
  lemma CanonicalFields(e: Event)
    ensures var o := Canonical(e);
      && (forall name :: name in o ==>
            name in ["action", "target_kind", "target_id", "project_id", "actor_token_id", "metadata"])
      && "action" in o && o["action"] == JString(e.action)
      && "target_kind" in o && o["target_kind"] == JString(e.targetKind)
      && "target_id" in o && o["target_id"] == JString(e.targetId)
      && ("project_id" in o <==> e.project.Some?)
      && (e.project.Some? ==> o["project_id"] == JString(e.project.value))
      && ("actor_token_id" in o <==> e.actor.Some?)
      && (e.actor.Some? ==> o["actor_token_id"] == JString(e.actor.value))
      && ("metadata" in o <==> e.metadata != map[])
      && (e.metadata != map[] ==> o["metadata"] == JObject(e.metadata))
  {
    var names, values := FieldNames(), FieldValues(e);
    FieldNamesDistinct();
    hide Object;
    forall i | 0 <= i < 6
      ensures names[i] in Canonical(e) <==> values[i].Some?
      ensures values[i].Some? ==> Canonical(e)[names[i]] == values[i].value
    {
      ObjectFields(names, values, i);
    }
    assert names[0] == "action" && names[1] == "target_kind" && names[2] == "target_id";
    assert names[3] == "project_id" && names[4] == "actor_token_id" && names[5] == "metadata";
    assert |e.metadata| > 0 <==> e.metadata != map[];
    forall name | name !in names ensures name !in Canonical(e) { ObjectOnly(names, values, name); }
  }

  // ---- the hashed message -------------------------------------------------------------------

  /** The k low base-256 digits of n, most significant first (binary.BigEndian, k = 8). */
  function BigEndian(n: nat, k: nat): (r: bytes)
    ensures |r| == k
  {
    if k == 0 then [] else BigEndian(n / 256, k - 1) + [n % 256]
  }

  function Pow256(k: nat): nat { if k == 0 then 1 else 256 * Pow256(k - 1) }

  lemma {:induction false} BigEndianInjective(n: nat, m: nat, k: nat)
    requires n < Pow256(k) && m < Pow256(k) && BigEndian(n, k) == BigEndian(m, k)
    ensures n == m
  {
    if k > 0 {
      var a, b := BigEndian(n, k), BigEndian(m, k);
      assert a[k - 1] == b[k - 1] && a[..k - 1] == b[..k - 1];
      BigEndianInjective(n / 256, m / 256, k - 1);
    }
  }

  function Bytes(prev: Option<bytes>): bytes { if prev.Some? then prev.value else [] }

  /** What chainHash feeds the MAC: eight bytes of length, prev, the canonical bytes. */
  function Message(prev: Option<bytes>, canon: bytes): bytes {
    BigEndian(|Bytes(prev)|, 8) + Bytes(prev) + canon
  }

  // A Go slice is shorter than 2^63.
  predicate IsSlice(b: bytes) { |b| < 0x8000_0000_0000_0000 }

  lemma EightBytes(n: nat, m: nat)
    requires n < 0x8000_0000_0000_0000 && m < 0x8000_0000_0000_0000
    ensures BigEndian(n, 8) == BigEndian(m, 8) ==> n == m
  {
    assert Pow256(4) == 0x1_0000_0000;
    assert Pow256(6) == 0x1_0000_0000_0000;
    assert Pow256(8) == 0x1_0000_0000_0000_0000;
    if BigEndian(n, 8) == BigEndian(m, 8) { BigEndianInjective(n, m, 8); }
  }

  /** The number that eight bytes stand for, the first being the highest. */
  function Number(s: bytes): nat { if s == [] then 0 else 256 * Number(s[..|s| - 1]) + s[|s| - 1] }

  lemma {:induction false} BigEndianReads(n: nat, k: nat)
    requires n < Pow256(k)
    ensures Number(BigEndian(n, k)) == n
  {
    if k > 0 {
      var s := BigEndian(n, k);
      BigEndianReads(n / 256, k - 1);
      assert s[..k - 1] == BigEndian(n / 256, k - 1) && s[k - 1] == n % 256;
    }
  }

  lemma {:induction false} BigEndianSmall(n: nat, k: nat)
    requires n < 256 && k > 0
    ensures BigEndian(n, k) == Zeros(k - 1) + [n]
  {
    if k == 1 {
      assert BigEndian(n / 256, 0) == [];
    } else {
      BigEndianSmall(0, k - 1);
    }
  }

  function Zeros(k: nat): (r: bytes)
    ensures |r| == k && forall i :: 0 <= i < k ==> r[i] == 0
  {
    if k == 0 then [] else Zeros(k - 1) + [0]
  }

  /** What is signed, byte for byte: in front of the first event eight zeros, in front of any
      other seven zeros and 32, and then the previous hash and the event. */
  lemma MessageBytes(prev: Option<bytes>, canon: bytes)
    requires prev.Some? ==> IsSlice(prev.value)
    ensures var m, p := Message(prev, canon), if prev.Some? then prev.value else [];
      && |m| == 8 + |p| + |canon| && Number(m[..8]) == |p| && m[8..8 + |p|] == p && m[8 + |p|..] == canon
      && (|p| == 0 ==> m[..8] == [0, 0, 0, 0, 0, 0, 0, 0])
      && (|p| == 32 ==> m[..8] == [0, 0, 0, 0, 0, 0, 0, 32])
  {
    var p := Bytes(prev);
    assert Pow256(4) == 0x1_0000_0000;
    assert Pow256(6) == 0x1_0000_0000_0000;
    assert Pow256(8) == 0x1_0000_0000_0000_0000;
    BigEndianReads(|p|, 8);
    if |p| < 256 { BigEndianSmall(|p|, 8); }
    hide BigEndian, Number, Zeros, Pow256;
    var m := Message(prev, canon);
    assert m[..8] == BigEndian(|p|, 8);
  }

  /** The length prefix keeps prev and the event apart; it does not tell NULL from empty. */
  lemma MessageInjective(p: Option<bytes>, c: bytes, q: Option<bytes>, d: bytes)
    requires IsSlice(Bytes(p)) && IsSlice(Bytes(q))
    ensures Message(p, c) == Message(q, d) <==> Bytes(p) == Bytes(q) && c == d
  {
    hide BigEndian;
    var a, b := Bytes(p), Bytes(q);
    if Message(p, c) == Message(q, d) {
      assert Message(p, c)[..8] == BigEndian(|a|, 8) && Message(q, d)[..8] == BigEndian(|b|, 8);
      EightBytes(|a|, |b|);
      assert Message(p, c)[8..8 + |a|] == a && Message(q, d)[8..8 + |b|] == b;
      assert Message(p, c)[8 + |a|..] == c && Message(q, d)[8 + |b|..] == d;
    }
  }

  // ---- the chain -----------------------------------------------------------------------------

  function Canon(env: Env, e: Event): bytes { env.marshal(Canonical(e)) }

  function ChainHash(env: Env, prev: Option<bytes>, e: Event): bytes { env.mac(Message(prev, Canon(env, e))) }

  function HashBefore(rows: seq<Row>, k: nat): bytes
    requires k <= |rows|
  {
    if k == 0 then [] else rows[k - 1].self
  }

  /** The second of Verify's tests: the row's own hash is that of what it says. */
  predicate Signed(env: Env, r: Row) { r.event.Some? && ChainHash(env, r.prev, r.event.value) == r.self }

  /** Both tests Verify makes on a row; NULL and empty count as equal. */
  predicate RowOk(env: Env, rows: seq<Row>, k: nat)
    requires k < |rows|
  {
    Bytes(rows[k].prev) == HashBefore(rows, k) && Signed(env, rows[k])
  }

  ghost predicate Chain(env: Env, rows: seq<Row>) { forall k :: 0 <= k < |rows| ==> RowOk(env, rows, k) }

  /** What Verify answers: 0 for an intact chain, else the id of the first bad row. */
  ghost predicate Verdict(env: Env, rows: seq<Row>, id: nat) {
    if Chain(env, rows) then id == 0
    else exists k :: 0 <= k < |rows| && !RowOk(env, rows, k) && rows[k].id == id
                     && forall i :: 0 <= i < k ==> RowOk(env, rows, i)
  }

  lemma FirstBadRow(env: Env, rows: seq<Row>, k: nat, id: nat)
    requires k < |rows| && !RowOk(env, rows, k) && forall i :: 0 <= i < k ==> RowOk(env, rows, i)
    ensures Verdict(env, rows, id) <==> id == rows[k].id
  {
  }

  // ---- what is assumed of the hash -----------------------------------------------------------

  /** HMAC-SHA256 yields 32 bytes. */
  ghost predicate IsMac(env: Env) { forall m :: |env.mac(m)| == 32 }

  /** No two different messages occurring in these logs have the same MAC, and no two
      different objects occurring in them the same JSON. Nothing is said of other inputs. */
  ghost predicate NoCollisions(env: Env, rows: seq<Row>, rows': seq<Row>) {
    forall r, r' :: r in rows + rows' && r' in rows + rows' && r.event.Some? && r'.event.Some? ==>
      var c, c' := Canon(env, r.event.value), Canon(env, r'.event.value);
      && (env.mac(Message(r.prev, c)) == env.mac(Message(r'.prev, c')) ==> Message(r.prev, c) == Message(r'.prev, c'))
      && (c == c' ==> Canonical(r.event.value) == Canonical(r'.event.value))
  }

  lemma SameHash(env: Env, rows: seq<Row>, rows': seq<Row>, r: Row, r': Row)
    requires NoCollisions(env, rows, rows') && r in rows + rows' && r' in rows + rows'
    requires IsSlice(Bytes(r.prev)) && IsSlice(Bytes(r'.prev)) && r.event.Some? && r'.event.Some?
    ensures ChainHash(env, r.prev, r.event.value) == ChainHash(env, r'.prev, r'.event.value)
       <==> Bytes(r.prev) == Bytes(r'.prev) && r.event == r'.event
  {
    hide Message;
    var c, c' := Canon(env, r.event.value), Canon(env, r'.event.value);
    MessageInjective(r.prev, c, r'.prev, c');
    CanonicalInjective(r.event.value, r'.event.value);
    assert env.mac(Message(r.prev, c)) == env.mac(Message(r'.prev, c')) ==> Message(r.prev, c) == Message(r'.prev, c');
  }

  lemma HashLengths(env: Env, rows: seq<Row>, k: nat)
    requires IsMac(env) && Chain(env, rows) && k < |rows|
    ensures |rows[k].self| == 32 && |Bytes(rows[k].prev)| == (if k == 0 then 0 else 32)
    ensures rows[k].event.Some?
  {
    assert RowOk(env, rows, k);
    if k > 0 { assert RowOk(env, rows, k - 1); }
  }

  // ---- tampering ----------------------------------------------------------------------------------

  lemma {:induction false} SelfHashesDistinct(env: Env, rows: seq<Row>, i: nat, j: nat)
    requires IsMac(env) && Chain(env, rows) && NoCollisions(env, rows, []) && i < j < |rows|
    ensures rows[i].self != rows[j].self
  {
    assert RowOk(env, rows, i) && RowOk(env, rows, j);
    HashLengths(env, rows, i);
    HashLengths(env, rows, j);
    hide ChainHash, NoCollisions, IsMac;
    SameHash(env, rows, [], rows[i], rows[j]);
    if i > 0 { SelfHashesDistinct(env, rows, i - 1, j - 1); }
  }

  /** In an intact log the hash before a position tells the position. */
  lemma HashTellsPlace(env: Env, rows: seq<Row>, i: nat, j: nat)
    requires IsMac(env) && Chain(env, rows) && NoCollisions(env, rows, []) && i <= |rows| && j <= |rows|
    ensures HashBefore(rows, i) == HashBefore(rows, j) <==> i == j
  {
    if i > 0 { HashLengths(env, rows, i - 1); }
    if j > 0 { HashLengths(env, rows, j - 1); }
    hide Chain, NoCollisions, IsMac;
    if 0 < i < j { SelfHashesDistinct(env, rows, i - 1, j - 1); }
    if 0 < j < i { SelfHashesDistinct(env, rows, j - 1, i - 1); }
  }

  /** Whatever rows of an intact log are dropped, put in another order or repeated, under
      whatever ids: the result verifies exactly if it is the log up to some row, and else
      Verify names the first row that is not where it was. */
  lemma SelectionLocated(env: Env, rows: seq<Row>, places: seq<nat>, table: seq<Row>, k: nat, id: nat)
    requires IsMac(env) && Chain(env, rows) && NoCollisions(env, rows, [])
    requires |table| == |places| && forall i :: 0 <= i < |places| ==>
      places[i] < |rows| && table[i] == rows[places[i]].(id := table[i].id)
    requires k <= |places| && (forall i :: 0 <= i < k ==> places[i] == i) && (k < |places| ==> places[k] != k)
    ensures Verdict(env, table, id) <==> id == (if k < |places| then table[k].id else 0)
  {
    hide ChainHash, NoCollisions, IsMac, Verdict;
    forall i | 0 <= i <= k && i < |places| ensures RowOk(env, table, i) <==> i < k {
      assert RowOk(env, rows, places[i]);
      if i > 0 { assert places[i - 1] == i - 1; }
      InOrder(rows, places, k);
      HashTellsPlace(env, rows, i, places[i]);
    }
    if k < |places| { FirstBadRow(env, table, k, id); } else { AllRowsGood(env, table, id); }
  }

  lemma AllRowsGood(env: Env, rows: seq<Row>, id: nat)
    requires forall i :: 0 <= i < |rows| ==> RowOk(env, rows, i)
    ensures Verdict(env, rows, id) <==> id == 0
  {
  }

  lemma InOrder(rows: seq<Row>, places: seq<nat>, k: nat)
    requires k <= |places| && forall i :: 0 <= i < k ==> places[i] == i
    requires forall i :: 0 <= i < |places| ==> places[i] < |rows|
    ensures k <= |rows|
  {
    if k > 0 { assert places[k - 1] == k - 1; }
  }

  /** Deleting a row other than the last makes Verify name exactly its successor. */
  lemma DeletionLocated(env: Env, rows: seq<Row>, k: nat, id: nat)
    requires IsMac(env) && Chain(env, rows) && NoCollisions(env, rows, []) && k + 1 < |rows|
    ensures Verdict(env, rows[..k] + rows[k + 1..], id) <==> id == rows[k + 1].id
  {
    var places := seq(|rows| - 1, i requires 0 <= i < |rows| - 1 => if i < k then i else i + 1);
    SelectionLocated(env, rows, places, rows[..k] + rows[k + 1..], k, id);
  }

  /** Cutting off the end of the log is invisible: every prefix of an intact log is intact. */
  lemma TruncationUnseen(env: Env, rows: seq<Row>, n: nat, id: nat)
    requires Chain(env, rows) && n <= |rows|
    ensures Verdict(env, rows[..n], id) <==> id == 0
  {
    forall k | 0 <= k < n ensures RowOk(env, rows[..n], k) { assert RowOk(env, rows, k); }
  }

  /** Whatever events are rewritten in place, a row still passes Verify's tests exactly when
      its event is the one that was appended. */
  lemma EditsShow(env: Env, rows: seq<Row>, edited: seq<Row>, k: nat)
    requires IsMac(env) && Chain(env, rows) && NoCollisions(env, rows, edited)
    requires |edited| == |rows| && k < |rows|
    requires forall i :: 0 <= i < |rows| ==> edited[i] == rows[i].(event := edited[i].event)
    ensures RowOk(env, edited, k) <==> edited[k].event == rows[k].event
  {
    assert RowOk(env, rows, k);
    HashLengths(env, rows, k);
    hide ChainHash, IsMac, NoCollisions;
    if edited[k].event.Some? { SameHash(env, rows, edited, rows[k], edited[k]); }
  }

  /** Whatever one row is overwritten with, in any column but the id, Verify names that row,
      unless the new row is signed and linked as the old one was; then it carries another
      event, which only a holder of the key can sign, and Verify names the row after it, if
      there is one. */
  lemma OverwriteLocated(env: Env, rows: seq<Row>, k: nat, x: Row, id: nat)
    requires IsMac(env) && Chain(env, rows) && k < |rows| && x.id == rows[k].id
    requires NoCollisions(env, rows, rows[k := x])
    requires x.event != rows[k].event || Bytes(x.prev) != Bytes(rows[k].prev) || x.self != rows[k].self
    ensures var forged := Signed(env, x) && Bytes(x.prev) == Bytes(rows[k].prev);
      && (forged ==> x.event != rows[k].event)
      && (Verdict(env, rows[k := x], id) <==>
            id == if !forged then rows[k].id else if k + 1 < |rows| then rows[k + 1].id else 0)
  {
    var edited := rows[k := x];
    HashLengths(env, rows, k);
    assert RowOk(env, rows, k);
    if Signed(env, x) && Bytes(x.prev) == Bytes(rows[k].prev) {
      Forged(env, rows, k, x);
      assert x.self != rows[k].self;
    }
    hide ChainHash, IsMac, NoCollisions, Verdict, Signed;
    OverwrittenRows(env, rows, k, x);
    hide RowOk;
    if !RowOk(env, edited, k) {
      FirstBadRow(env, edited, k, id);
    } else if k + 1 < |rows| {
      FirstBadRow(env, edited, k + 1, id);
    } else {
      AllRowsGood(env, edited, id);
    }
  }

  lemma OverwrittenRows(env: Env, rows: seq<Row>, k: nat, x: Row)
    requires Chain(env, rows) && k < |rows|
    ensures var edited := rows[k := x];
      && (forall i :: 0 <= i < k ==> RowOk(env, edited, i))
      && (RowOk(env, edited, k) <==> Signed(env, x) && Bytes(x.prev) == Bytes(rows[k].prev))
      && (k + 1 < |rows| && x.self != rows[k].self ==> !RowOk(env, edited, k + 1))
  {
    hide Signed;
    var edited := rows[k := x];
    forall i | 0 <= i < k ensures RowOk(env, edited, i) { assert RowOk(env, rows, i); }
    assert RowOk(env, rows, k) && (k + 1 < |rows| ==> RowOk(env, rows, k + 1));
  }

  lemma Forged(env: Env, rows: seq<Row>, k: nat, x: Row)
    requires IsMac(env) && Chain(env, rows) && k < |rows| && NoCollisions(env, rows, rows[k := x])
    requires Signed(env, x) && Bytes(x.prev) == Bytes(rows[k].prev)
    ensures x.self == rows[k].self <==> x.event == rows[k].event
  {
    assert RowOk(env, rows, k);
    HashLengths(env, rows, k);
    var edited := rows[k := x];
    assert edited[k] == x && x in rows + edited;
    hide ChainHash, IsMac, NoCollisions;
    SameHash(env, rows, edited, rows[k], x);
  }

  /** Editing one row's event makes Verify name exactly that row. */
  lemma EditLocated(env: Env, rows: seq<Row>, k: nat, e: Option<Event>, id: nat)
    requires IsMac(env) && Chain(env, rows) && k < |rows| && e != rows[k].event
    requires NoCollisions(env, rows, rows[k := rows[k].(event := e)])
    ensures Verdict(env, rows[k := rows[k].(event := e)], id) <==> id == rows[k].id
  {
    var x := rows[k].(event := e);
    OverwriteLocated(env, rows, k, x, id);
    assert !Signed(env, x) by { if Signed(env, x) { Forged(env, rows, k, x); } }
  }

  /** Deleting a project deletes its tokens as well, and the foreign keys then null both
      columns in audit_events: the log verifies only if it held no event of the project or
      by one of its tokens, and otherwise Verify names the first one. */
  lemma DeletingProjectBreaksChain(env: Env, rows: seq<Row>, p: string, tokens: set<string>, k: nat, id: nat)
    requires IsMac(env) && Chain(env, rows) && NoCollisions(env, rows, WithoutProject(rows, p, tokens))
    requires k <= |rows| && (k < |rows| ==> Mentions(rows[k].event, p, tokens))
    requires forall i :: 0 <= i < k ==> !Mentions(rows[i].event, p, tokens)
    ensures Verdict(env, WithoutProject(rows, p, tokens), id) <==> id == (if k < |rows| then rows[k].id else 0)
  {
    var edited := WithoutProject(rows, p, tokens);
    hide RowOk, Verdict, IsMac, NoCollisions;
    forall i | 0 <= i < |rows| ensures RowOk(env, edited, i) <==> !Mentions(rows[i].event, p, tokens) {
      EditsShow(env, rows, edited, i);
    }
    if k < |rows| { FirstBadRow(env, edited, k, id); } else { AllRowsGood(env, edited, id); }
  }

  predicate Mentions(e: Option<Event>, p: string, tokens: set<string>) {
    e.Some? && (e.value.project == Some(p) || (e.value.actor.Some? && e.value.actor.value in tokens))
  }

  function WithoutProject(rows: seq<Row>, p: string, tokens: set<string>): (r: seq<Row>)
    ensures |r| == |rows| && forall i :: 0 <= i < |r| ==>
      && !Mentions(r[i].event, p, tokens) && r[i] == rows[i].(event := r[i].event)
      && (r[i].event == rows[i].event <==> !Mentions(rows[i].event, p, tokens))
      && (r[i].event.Some? <==> rows[i].event.Some?)
      && (r[i].event.Some? ==>
            var was, e := rows[i].event.value, r[i].event.value;
            && e == was.(project := e.project, actor := e.actor)
            && e.project in [was.project, None] && e.actor in [was.actor, None])
  {
    seq(|rows|, i requires 0 <= i < |rows| =>
      if rows[i].event.None? then rows[i]
      else
        var e := rows[i].event.value;
        rows[i].(event := Some(e.(
          project := if e.project == Some(p) then None else e.project,
          actor := if e.actor.Some? && e.actor.value in tokens then None else e.actor))))
  }

  lemma HashesAgree(env: Env, a: seq<Row>, b: seq<Row>, m: nat, n: nat)
    requires IsMac(env) && Chain(env, a) && Chain(env, b) && NoCollisions(env, a, b)
    requires m <= |a| && n <= |b| && HashBefore(a, m) == HashBefore(b, n)
    ensures m == 0 <==> n == 0
    ensures m > 0 && n > 0 ==> a[m - 1].event == b[n - 1].event && HashBefore(a, m - 1) == HashBefore(b, n - 1)
  {
    if m > 0 { HashLengths(env, a, m - 1); assert RowOk(env, a, m - 1); }
    if n > 0 { HashLengths(env, b, n - 1); assert RowOk(env, b, n - 1); }
    if m > 0 && n > 0 {
      hide ChainHash;
      SameHash(env, a, b, a[m - 1], b[n - 1]);
    }
  }

  lemma {:induction false} PrefixesAgree(env: Env, a: seq<Row>, b: seq<Row>, m: nat, n: nat)
    requires IsMac(env) && Chain(env, a) && Chain(env, b) && NoCollisions(env, a, b)
    requires m <= |a| && n <= |b| && HashBefore(a, m) == HashBefore(b, n)
    ensures m == n && forall k :: 0 <= k < m ==> a[k].event == b[k].event && a[k].self == b[k].self
  {
    hide Chain, NoCollisions, IsMac, ChainHash;
    HashesAgree(env, a, b, m, n);
    if m > 0 { PrefixesAgree(env, a, b, m - 1, n - 1); }
  }

  /** Two intact logs with the same last hash hold the same events under the same hashes. */
  lemma HeadDeterminesLog(env: Env, a: seq<Row>, b: seq<Row>)
    requires IsMac(env) && Chain(env, a) && Chain(env, b) && NoCollisions(env, a, b)
    requires HashBefore(a, |a|) == HashBefore(b, |b|)
    ensures |a| == |b| && forall k :: 0 <= k < |a| ==> a[k].event == b[k].event && a[k].self == b[k].self
  {
    PrefixesAgree(env, a, b, |a|, |b|);
  }
}
