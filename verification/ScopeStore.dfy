/** The rule table: orders are unique per project, and List hands Evaluate the rules in
    order. */
module ScopeStore {
  import opened Wrappers
  import opened Sequences
  import opened Scope

  datatype Stored = Stored(project: nat, rule: Rule)

  datatype StoreError = OrderConflict | NotFound

  /** UNIQUE (project_id, rule_order), and the primary key. */
  predicate Unique(rows: seq<Stored>) {
    forall i, j :: 0 <= i < j < |rows| ==>
      && rows[i].rule.id != rows[j].rule.id
      && (rows[i].project == rows[j].project ==> rows[i].rule.order != rows[j].rule.order)
  }

  predicate Holds(rows: seq<Stored>, p: nat, r: Rule) { Stored(p, r) in rows }

  // ---- ORDER BY rule_order, id ----------------------------------------------------------------

  predicate Sooner(a: Rule, b: Rule) { a.order < b.order || (a.order == b.order && a.id < b.id) }

  function Place(list: seq<Rule>, r: Rule): seq<Rule> {
    if list == [] || Sooner(list[|list| - 1], r) then list + [r]
    else Place(list[..|list| - 1], r) + [list[|list| - 1]]
  }

  /** SELECT ... WHERE project_id = p ORDER BY rule_order ASC, id ASC */
  function Listed(rows: seq<Stored>, p: nat): seq<Rule> {
    if rows == [] then []
    else
      var n := |rows| - 1;
      if rows[n].project == p then Place(Listed(rows[..n], p), rows[n].rule) else Listed(rows[..n], p)
  }

  lemma {:induction false} PlaceSplits(list: seq<Rule>, r: Rule) returns (a: seq<Rule>, b: seq<Rule>)
    ensures list == a + b && Place(list, r) == a + [r] + b
    ensures a == [] || Sooner(a[|a| - 1], r)
    ensures b == [] || !Sooner(b[0], r)
  {
    if list == [] || Sooner(list[|list| - 1], r) {
      a, b := list, [];
    } else {
      var m := |list| - 1;
      a, b := PlaceSplits(list[..m], r);
      b := b + [list[m]];
      assert list == list[..m] + [list[m]];
    }
  }

  lemma {:induction false} ListedHolds(rows: seq<Stored>, p: nat, r: Rule)
    ensures r in Listed(rows, p) <==> Holds(rows, p, r)
  {
    if rows != [] {
      var n := |rows| - 1;
      ListedHolds(rows[..n], p, r);
      assert rows == rows[..n] + [rows[n]];
      if rows[n].project == p {
        var a, b := PlaceSplits(Listed(rows[..n], p), rows[n].rule);
      }
    }
  }

  lemma BetweenRises(a: seq<Rule>, r: Rule, b: seq<Rule>)
    requires OrdersRise(a) && OrdersRise(b)
    requires a == [] || a[|a| - 1].order < r.order
    requires b == [] || r.order < b[0].order
    ensures OrdersRise(a + [r] + b)
  {
  }

  lemma PlaceRises(list: seq<Rule>, r: Rule)
    requires OrdersRise(list) && forall i :: 0 <= i < |list| ==> list[i].order != r.order
    ensures OrdersRise(Place(list, r))
  {
    var a, b := PlaceSplits(list, r);
    assert a == list[..|a|] && b == list[|a|..];
    if a != [] { assert a[|a| - 1] == list[|a| - 1]; }
    if b != [] { assert b[0] == list[|a|]; }
    BetweenRises(a, r, b);
  }

  /** List returns a project's rules in strictly rising order. */
  lemma {:induction false} ListedRises(rows: seq<Stored>, p: nat)
    requires Unique(rows)
    ensures OrdersRise(Listed(rows, p))
  {
    if rows != [] {
      var n := |rows| - 1;
      var list, r := Listed(rows[..n], p), rows[n].rule;
      ListedRises(rows[..n], p);
      if rows[n].project == p {
        hide OrdersRise, Place;
        forall i | 0 <= i < |list| ensures list[i].order != r.order {
          ListedHolds(rows[..n], p, list[i]);
          var k :| 0 <= k < n && rows[..n][k] == Stored(p, list[i]);
          assert rows[k] == rows[..n][k];
        }
        PlaceRises(list, r);
      }
    }
  }

  // ---- the store ----------------------------------------------------------------------------------

  class Store {
    var rows: seq<Stored>
    var nextId: nat

    predicate Valid()
      reads this
    {
      Unique(rows) && forall i :: 0 <= i < |rows| ==> rows[i].rule.id < nextId
    }

    constructor ()
      ensures Valid() && rows == []
    {
      rows, nextId := [], 0;
    }

    /** INSERT; the unique constraint on the order is reported as a conflict. */
    method Create(p: nat, r: Rule) returns (out: Result<Rule, StoreError>)
      requires Valid()
      modifies this
      ensures Valid()
      ensures out.Failure? <==>
        exists i :: 0 <= i < |old(rows)| && old(rows)[i].project == p && old(rows)[i].rule.order == r.order
      ensures out.Failure? ==> out.error == OrderConflict && rows == old(rows)
      ensures out.Success? ==> out.value == r.(id := out.value.id) && rows == old(rows) + [Stored(p, out.value)]
    {
      for i := 0 to |rows|
        invariant forall k :: 0 <= k < i ==> !(rows[k].project == p && rows[k].rule.order == r.order)
        invariant rows == old(rows)
      {
        if rows[i].project == p && rows[i].rule.order == r.order { return Failure(OrderConflict); }
      }
      var stored := r.(id := nextId);
      rows := rows + [Stored(p, stored)];
      nextId := nextId + 1;
      out := Success(stored);
    }

    /** The project's rules and no others, in rising order. */
    method List(p: nat) returns (out: seq<Rule>)
      requires Valid()
      ensures OrdersRise(out) && forall r :: r in out <==> Holds(rows, p, r)
      ensures out == Listed(rows, p)
    {
      out := [];
      for i := 0 to |rows|
        invariant out == Listed(rows[..i], p)
      {
        assert rows[..i + 1][..i] == rows[..i];
        if rows[i].project == p { out := Place(out, rows[i].rule); }
      }
      assert rows[..|rows|] == rows;
      ListedRises(rows, p);
      forall r ensures r in out <==> Holds(rows, p, r) { ListedHolds(rows, p, r); }
    }

    /** DELETE ... WHERE project_id = p AND id = ruleId */
    method Delete(p: nat, ruleId: nat) returns (out: Result<(), StoreError>)
      requires Valid()
      modifies this`rows
      ensures Valid()
      ensures out.Failure? <==>
        !exists i :: 0 <= i < |old(rows)| && old(rows)[i].project == p && old(rows)[i].rule.id == ruleId
      ensures out.Failure? ==> out.error == NotFound && rows == old(rows)
      ensures out.Success? ==> exists k ::
        && 0 <= k < |old(rows)| && old(rows)[k].project == p && old(rows)[k].rule.id == ruleId
        && rows == old(rows)[..k] + old(rows)[k + 1..]
    {
      for i := 0 to |rows|
        invariant forall k :: 0 <= k < i ==> !(rows[k].project == p && rows[k].rule.id == ruleId)
        invariant rows == old(rows)
      {
        if rows[i].project == p && rows[i].rule.id == ruleId {
          rows := rows[..i] + rows[i + 1..];
          return Success(());
        }
      }
      out := Failure(NotFound);
    }
  }

  // ---- what changing the table does to verdicts --------------------------------------------------

  lemma ListedSliceable(rows: seq<Stored>, p: nat)
    requires forall i :: 0 <= i < |rows| ==> Sliceable(rows[i].rule)
    ensures AllSliceable(Listed(rows, p))
  {
    forall i | 0 <= i < |Listed(rows, p)| ensures Sliceable(Listed(rows, p)[i]) {
      var r := Listed(rows, p)[i];
      ListedHolds(rows, p, r);
      var k :| 0 <= k < |rows| && rows[k] == Stored(p, r);
    }
  }

  /** Creating a deny rule, at whatever free order, leaves every verdict of the project as it
      was or makes it deny; other projects' verdicts stay. */
  lemma CreatedDenyIsSafe(net: Net, rows: seq<Stored>, p: nat, r: Rule, q: nat, t: Target, now: int)
    requires forall i :: 0 <= i < |rows| ==> Sliceable(rows[i].rule)
    requires Sliceable(r) && r.effect.Deny?
    ensures AllSliceable(Listed(rows, q)) && AllSliceable(Listed(rows + [Stored(p, r)], q))
    ensures var was := Evaluate(net, t, Listed(rows, q), now);
      var v := Evaluate(net, t, Listed(rows + [Stored(p, r)], q), now);
      v == was || (q == p && v.effect.Deny?)
  {
    ListedSliceable(rows, q);
    ListedSliceable(rows + [Stored(p, r)], q);
    assert (rows + [Stored(p, r)])[..|rows|] == rows;
    if q == p {
      var a, b := PlaceSplits(Listed(rows, p), r);
      assert forall i :: 0 <= i < |a| ==> a[i] == Listed(rows, p)[i];
      assert forall i :: 0 <= i < |b| ==> b[i] == Listed(rows, p)[|a| + i];
      DenyIsSafe(net, t, a, r, b, now);
    }
  }

  /** Deleting a rule that does not decide a verdict leaves that verdict alone. */
  lemma DeletedRuleIsInert(net: Net, rows: seq<Stored>, k: nat, t: Target, now: int)
    requires Unique(rows) && k < |rows| && forall i :: 0 <= i < |rows| ==> Sliceable(rows[i].rule)
    ensures AllSliceable(Listed(rows, rows[k].project))
    ensures AllSliceable(Listed(rows[..k] + rows[k + 1..], rows[k].project))
    ensures var p := rows[k].project; var was := Evaluate(net, t, Listed(rows, p), now);
      was.rule != Some(rows[k].rule) ==> Evaluate(net, t, Listed(rows[..k] + rows[k + 1..], p), now) == was
  {
    var p, r, fewer := rows[k].project, rows[k].rule, rows[..k] + rows[k + 1..];
    ListedSliceable(rows, p);
    ListedSliceable(fewer, p);
    var a, b := ListedWithout(rows, k);
    var list := Listed(rows, p);
    hide Listed, Sliceable;
    assert forall i :: 0 <= i < |a| ==> a[i] == list[i];
    assert forall i :: 0 <= i < |b| ==> b[i] == list[|a| + 1 + i];
    DeletedRule(net, t, a, r, b, now);
  }

  lemma FewerUnique(rows: seq<Stored>, k: nat)
    requires Unique(rows) && k < |rows|
    ensures Unique(rows[..k] + rows[k + 1..])
  {
  }

  lemma WithoutOne(a: seq<Rule>, r: Rule, b: seq<Rule>, x: Rule)
    requires OrdersRise(a + [r] + b)
    ensures OrdersRise(a + b) && (x in a + b <==> x in a + [r] + b && x != r)
  {
    var list := a + [r] + b;
    assert list[|a|] == r;
    assert forall i :: 0 <= i < |a| ==> (a + b)[i] == list[i];
    assert forall i :: |a| <= i < |a + b| ==> (a + b)[i] == list[i + 1];
  }

  lemma HeldWithout(rows: seq<Stored>, k: nat, x: Rule)
    requires Unique(rows) && k < |rows|
    ensures var p := rows[k].project;
      Holds(rows[..k] + rows[k + 1..], p, x) <==> Holds(rows, p, x) && x != rows[k].rule
  {
  }

  lemma SameRules(a: seq<Rule>, b: seq<Rule>)
    requires OrdersRise(a) && OrdersRise(b) && forall r :: r in a <==> r in b
    ensures a == b
  {
    assert (forall i :: 0 <= i < |a| ==> a[i] in a) && (forall i :: 0 <= i < |b| ==> b[i] in b);
    RisingUnique(a, b, (r: Rule) => r.order);
  }

  lemma ListedWithout(rows: seq<Stored>, k: nat) returns (a: seq<Rule>, b: seq<Rule>)
    requires Unique(rows) && k < |rows|
    ensures var p := rows[k].project;
      Listed(rows, p) == a + [rows[k].rule] + b && Listed(rows[..k] + rows[k + 1..], p) == a + b
  {
    var p, r, fewer := rows[k].project, rows[k].rule, rows[..k] + rows[k + 1..];
    var list := Listed(rows, p);
    hide Listed;
    ListedHolds(rows, p, r);
    var m :| 0 <= m < |list| && list[m] == r;
    a, b := list[..m], list[m + 1..];
    ListedRises(rows, p);
    assert list == a + [r] + b;
    FewerUnique(rows, k);
    ListedRises(fewer, p);
    WithoutOne(a, r, b, r);
    forall x ensures x in a + b <==> x in Listed(fewer, p) {
      ListedHolds(rows, p, x);
      ListedHolds(fewer, p, x);
      WithoutOne(a, r, b, x);
      HeldWithout(rows, k, x);
    }
    SameRules(a + b, Listed(fewer, p));
  }
}
