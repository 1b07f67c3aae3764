/** The finding table as a fold of upserts, and the worker's way of filling it. */
module Findings {
  import opened Wrappers
  import opened Strings
  import opened Rows

  // Severity is a string in the source; "" and other unknown strings are refused.
  predicate ValidSeverity(s: string) { s in {"informational", "low", "medium", "high", "critical"} }

  /** None stands for the nil UUID. */
  datatype Input = Input(project: Option<nat>, run: nat, job: nat, collector: string, targetKind: string,
                         target: string, kind: string, severity: string, title: string, description: string,
                         cvss: string, dedupKey: string, evidence: seq<string>, payload: string)

  datatype Key = Key(project: nat, collector: string, dedupKey: string)

  datatype Finding = Finding(id: nat, targetKind: string, target: string, kind: string, firstSeen: int,
                             status: string, run: nat, job: nat, severity: string, title: string,
                             description: string, cvss: string, evidence: set<string>, payload: string, lastSeen: int)

  datatype Invalid = ProjectRequired | CollectorRequired | TargetRequired | KindRequired | TitleRequired | BadSeverity

  type Table = map<Key, Finding>

  /** SHA-256 in hex, a parameter. */
  type Digest = string -> string

  function Truncate(s: string): string { if |s| > 32 then s[..32] else s }

  /** What is digested when the collector gives no key. */
  function DigestInput(target: string, kind: string, title: string): string {
    target + "\0" + kind + "\0" + Lower(title)
  }

  function DeriveDedupKey(digest: Digest, target: string, kind: string, title: string): string {
    "auto:" + Truncate(digest(DigestInput(target, kind, title)))
  }

  /** Input.Validate: the first complaint, or the input with its dedup key filled in. */
  function Validated(digest: Digest, in_: Input): (r: Result<Input, Invalid>)
    ensures r.Success? <==>
      && in_.project.Some? && in_.collector != "" && in_.target != "" && in_.kind != "" && in_.title != ""
      && in_.severity in ["informational", "low", "medium", "high", "critical"]
    ensures r.Success? ==> r.value.dedupKey != "" && r.value == in_.(dedupKey := r.value.dedupKey)
    ensures r.Success? && in_.dedupKey != "" ==> r.value == in_
    ensures r.Success? && in_.dedupKey == "" ==>
      var hash := digest(DigestInput(in_.target, in_.kind, in_.title));
      "auto:" <= r.value.dedupKey && (|hash| >= 32 ==> r.value.dedupKey[5..] == hash[..32])
    ensures r == Failure(ProjectRequired) <==> in_.project.None?
    ensures r == Failure(CollectorRequired) <==> in_.project.Some? && in_.collector == ""
    ensures r == Failure(TargetRequired) <==> in_.project.Some? && in_.collector != "" && in_.target == ""
    ensures r == Failure(KindRequired) <==>
      in_.project.Some? && in_.collector != "" && in_.target != "" && in_.kind == ""
    ensures r == Failure(TitleRequired) <==>
      in_.project.Some? && in_.collector != "" && in_.target != "" && in_.kind != "" && in_.title == ""
  {
    if in_.project.None? then Failure(ProjectRequired)
    else if in_.collector == "" then Failure(CollectorRequired)
    else if in_.target == "" then Failure(TargetRequired)
    else if in_.kind == "" then Failure(KindRequired)
    else if in_.title == "" then Failure(TitleRequired)
    else if !ValidSeverity(in_.severity) then Failure(BadSeverity)
    else if in_.dedupKey == "" then Success(in_.(dedupKey := DeriveDedupKey(digest, in_.target, in_.kind, in_.title)))
    else Success(in_)
  }

  lemma SplitOne(s: string, part: string)
    requires Split(s, '\0') == [part]
    ensures s == part
  {
    JoinSplit(s, '\0');
  }

  lemma DigestSplits(target: string, kind: string, title: string)
    ensures Split(DigestInput(target, kind, title), '\0') ==
      Split(target, '\0') + Split(kind, '\0') + Split(Lower(title), '\0')
  {
    hide Split, Lower;
    SplitConcat(target, '\0', kind + "\0" + Lower(title));
    SplitConcat(kind, '\0', Lower(title));
    assert DigestInput(target, kind, title) == target + ['\0'] + (kind + "\0" + Lower(title));
    assert kind + "\0" + Lower(title) == kind + ['\0'] + Lower(title);
  }

  ghost predicate DigestUnique(target: string, kind: string, title: string) {
    forall t, k, l :: DigestInput(t, k, l) == DigestInput(target, kind, title) ==>
      t == target && k == kind && Lower(l) == Lower(title)
  }

  lemma LowerAgain(s: string)
    ensures Lower(Lower(s)) == Lower(s) && ('\0' in Lower(s) <==> '\0' in s)
    ensures forall n :: 0 <= n <= |s| ==> Lower(Lower(s)[n..]) == Lower(s)[n..]
  {
    if '\0' in s { var i :| 0 <= i < |s| && s[i] == '\0'; assert Lower(s)[i] == '\0'; }
  }

  lemma Regroup(a: string, b: string, c: string, d: string)
    ensures a + "\0" + b + "\0" + c + "\0" + d == a + "\0" + (b + "\0" + c) + "\0" + d
    ensures a + "\0" + b + "\0" + c + "\0" + d == a + "\0" + b + "\0" + (c + "\0" + d)
  {
  }

  lemma CutAt(s: string) returns (a: string, b: string)
    requires '\0' in s
    ensures s == a + "\0" + b && b == s[|s| - |b|..]
  {
    var i := IndexOf(s, '\0');
    a, b := s[..i], s[i + 1..];
  }

  /** With a NUL in one of them the fields can be cut elsewhere. */
  lemma NulMovesField(target: string, kind: string, title: string)
    requires '\0' in target || '\0' in kind || '\0' in title
    ensures !DigestUnique(target, kind, title)
  {
    hide DigestUnique;
    LowerAgain(title);
    var low := Lower(title);
    if '\0' in target {
      var a, b := CutAt(target);
      Regroup(a, b, kind, low);
      Differs(target, kind, title, a, b + "\0" + kind, title);
    } else if '\0' in kind {
      var a, b := CutAt(kind);
      Regroup(target, a, b, low);
      assert kind == a + "\0" + b;
      Differs(target, kind, title, target + "\0" + a, b, title);
    } else {
      var a, b := CutAt(low);
      Regroup(target, kind, a, b);
      Differs(target, kind, title, target, kind + "\0" + a, b);
    }
  }

  lemma Differs(target: string, kind: string, title: string, t: string, k: string, l: string)
    requires DigestInput(t, k, l) == DigestInput(target, kind, title) && (|t| != |target| || |k| != |kind|)
    ensures !DigestUnique(target, kind, title)
  {
    hide DigestInput;
  }

  lemma OneEach(a: seq<string>, b: seq<string>, c: seq<string>, x: string, y: string, z: string)
    requires |a| > 0 && |b| > 0 && |c| > 0 && a + b + c == [x, y, z]
    ensures a == [x] && b == [y] && c == [z]
  {
    assert |a| + |b| + |c| == |a + b + c| == 3;
    assert (a + b + c)[0] == a[0] && (a + b + c)[1] == b[0] && (a + b + c)[2] == c[0];
  }

  /** Target, kind and title, case aside, can be told from what is digested exactly if none of
      them contains a NUL. */
  lemma DigestTellsApart(target: string, kind: string, title: string)
    ensures DigestUnique(target, kind, title) <==> '\0' !in target && '\0' !in kind && '\0' !in title
  {
    if '\0' in target || '\0' in kind || '\0' in title {
      NulMovesField(target, kind, title);
    } else {
      LowerAgain(title);
      SplitAtom(target, '\0');
      SplitAtom(kind, '\0');
      SplitAtom(Lower(title), '\0');
      DigestSplits(target, kind, title);
      hide Split, Lower, DigestInput;
      forall t, k, l | DigestInput(t, k, l) == DigestInput(target, kind, title)
        ensures t == target && k == kind && Lower(l) == Lower(title)
      {
        DigestSplits(t, k, l);
        OneEach(Split(t, '\0'), Split(k, '\0'), Split(Lower(l), '\0'), target, kind, Lower(title));
        SplitOne(t, target);
        SplitOne(k, kind);
        SplitOne(Lower(l), Lower(title));
      }
    }
  }

  function KeyOf(in_: Input): Key
    requires in_.project.Some?
  {
    Key(in_.project.value, in_.collector, in_.dedupKey)
  }

  function Inserted(in_: Input, id: nat, now: int): Finding {
    Finding(id, in_.targetKind, in_.target, in_.kind, now, "new", in_.run, in_.job, in_.severity, in_.title,
            in_.description, in_.cvss, (set e | e in in_.evidence), in_.payload, now)
  }

  /** ON CONFLICT ... DO UPDATE SET */
  function Refreshed(f: Finding, in_: Input, now: int): Finding {
    f.(lastSeen := now, severity := in_.severity, title := in_.title, description := in_.description, cvss := in_.cvss,
       evidence := f.evidence + (set e | e in in_.evidence), payload := in_.payload, run := in_.run, job := in_.job)
  }

  /** An emission that reached Upsert: the input, the row id a new row would get, the time. */
  datatype Emission = Emission(input: Input, id: nat, now: int)

  function Step(digest: Digest, t: Table, e: Emission): Table {
    match Validated(digest, e.input)
    case Failure(_) => t
    case Success(v) =>
      var k := KeyOf(v);
      t[k := if k in t then Refreshed(t[k], v, e.now) else Inserted(v, e.id, e.now)]
  }

  function Fold(digest: Digest, t: Table, h: seq<Emission>): Table {
    if h == [] then t else Step(digest, Fold(digest, t, h[..|h| - 1]), h[|h| - 1])
  }

  // ---- what the table says about the history ----------------------------------------------------

  /** e is an accepted emission under key k. */
  predicate Hits(digest: Digest, e: Emission, k: Key) {
    var v := Validated(digest, e.input);
    v.Success? && KeyOf(v.value) == k
  }

  /** An emission reaches the row of its own project and collector, and of the key it brings
      along if it brings one. */
  lemma HitsMeans(digest: Digest, e: Emission, k: Key)
    ensures Hits(digest, e, k) ==> e.input.project == Some(k.project) && e.input.collector == k.collector
    ensures Hits(digest, e, k) && e.input.dedupKey != "" ==> e.input.dedupKey == k.dedupKey
    ensures Validated(digest, e.input).Success? ==> exists m :: Hits(digest, e, m)
    ensures forall m :: Hits(digest, e, k) && Hits(digest, e, m) ==> m == k
  {
    var v := Validated(digest, e.input);
    if v.Success? { assert Hits(digest, e, KeyOf(v.value)); }
  }

  ghost predicate AnyHit(digest: Digest, h: seq<Emission>, k: Key) {
    exists i :: 0 <= i < |h| && Hits(digest, h[i], k)
  }

  ghost predicate FirstHit(digest: Digest, h: seq<Emission>, k: Key, i: nat) {
    i < |h| && Hits(digest, h[i], k) && forall j :: 0 <= j < i ==> !Hits(digest, h[j], k)
  }

  ghost predicate LastHit(digest: Digest, h: seq<Emission>, k: Key, i: nat) {
    i < |h| && Hits(digest, h[i], k) && forall j :: i < j < |h| ==> !Hits(digest, h[j], k)
  }

  ghost predicate EvidenceIn(digest: Digest, h: seq<Emission>, k: Key, x: string) {
    exists i :: 0 <= i < |h| && Hits(digest, h[i], k) && x in h[i].input.evidence
  }

  predicate SameIdentity(f: Finding, e: Emission) {
    && f.id == e.id && f.firstSeen == e.now && f.kind == e.input.kind
    && f.targetKind == e.input.targetKind && f.target == e.input.target && f.status == "new"
  }

  predicate SameContent(f: Finding, e: Emission) {
    && f.lastSeen == e.now && f.severity == e.input.severity && f.title == e.input.title
    && f.description == e.input.description && f.cvss == e.input.cvss && f.payload == e.input.payload
    && f.run == e.input.run && f.job == e.input.job
  }

  /** One row for a key that was hit: identity from the first hit, mutable columns from the
      last, evidence from all. */
  ghost predicate Describes(digest: Digest, h: seq<Emission>, t: Table, k: Key) {
    && (k in t <==> AnyHit(digest, h, k))
    && (k in t ==>
          && (forall i: nat :: FirstHit(digest, h, k, i) ==> i < |h| && SameIdentity(t[k], h[i]))
          && (forall i: nat :: LastHit(digest, h, k, i) ==> i < |h| && SameContent(t[k], h[i]))
          && (forall x :: x in t[k].evidence <==> EvidenceIn(digest, h, k, x)))
  }

  lemma StepRow(digest: Digest, t: Table, e: Emission, k: Key)
    ensures !Hits(digest, e, k) ==> (k in Step(digest, t, e) <==> k in t) && (k in t ==> Step(digest, t, e)[k] == t[k])
    ensures Hits(digest, e, k) ==> k in Step(digest, t, e) && SameContent(Step(digest, t, e)[k], e)
    ensures Hits(digest, e, k) && k !in t ==>
      SameIdentity(Step(digest, t, e)[k], e) && Step(digest, t, e)[k].evidence == set x | x in e.input.evidence
    ensures Hits(digest, e, k) && k in t ==>
      && Step(digest, t, e)[k].evidence == t[k].evidence + (set x | x in e.input.evidence)
      && forall d :: SameIdentity(t[k], d) ==> SameIdentity(Step(digest, t, e)[k], d)
  {
  }

  lemma EvidenceStep(digest: Digest, h: seq<Emission>, k: Key, x: string)
    requires h != []
    ensures EvidenceIn(digest, h, k, x) <==>
      EvidenceIn(digest, h[..|h| - 1], k, x) || (Hits(digest, h[|h| - 1], k) && x in h[|h| - 1].input.evidence)
  {
  }

  lemma HitsStep(digest: Digest, h: seq<Emission>, k: Key, i: nat)
    requires h != []
    ensures i < |h| - 1 ==> (FirstHit(digest, h, k, i) <==> FirstHit(digest, h[..|h| - 1], k, i))
    ensures i < |h| - 1 ==>
      (LastHit(digest, h, k, i) <==> LastHit(digest, h[..|h| - 1], k, i) && !Hits(digest, h[|h| - 1], k))
    ensures i == |h| - 1 && LastHit(digest, h, k, i) ==> Hits(digest, h[|h| - 1], k)
    ensures i == |h| - 1 && FirstHit(digest, h, k, i) ==>
      Hits(digest, h[i], k) && !exists j :: 0 <= j < i && Hits(digest, h[..i][j], k)
  {
    hide Hits;
    var g := h[..|h| - 1];
    assert forall j :: 0 <= j < |g| ==> g[j] == h[j];
  }

  lemma AnyHitStep(digest: Digest, h: seq<Emission>, k: Key)
    requires h != []
    ensures AnyHit(digest, h, k) <==> AnyHit(digest, h[..|h| - 1], k) || Hits(digest, h[|h| - 1], k)
  {
  }

  lemma IdentityStep(digest: Digest, h: seq<Emission>, t: Table, k: Key, i: nat)
    requires h != [] && Describes(digest, h[..|h| - 1], t, k) && FirstHit(digest, h, k, i)
    ensures i < |h| && k in Step(digest, t, h[|h| - 1]) && SameIdentity(Step(digest, t, h[|h| - 1])[k], h[i])
  {
    hide Step, Hits, SameIdentity, SameContent, EvidenceIn;
    var g := h[..|h| - 1];
    HitsStep(digest, h, k, i);
    StepRow(digest, t, h[|h| - 1], k);
    if i < |g| {
      assert Hits(digest, g[i], k);
    } else {
      assert forall j :: 0 <= j < |g| ==> g[j] == h[j];
    }
  }

  lemma ContentStep(digest: Digest, h: seq<Emission>, t: Table, k: Key, i: nat)
    requires h != [] && Describes(digest, h[..|h| - 1], t, k) && LastHit(digest, h, k, i)
    ensures i < |h| && k in Step(digest, t, h[|h| - 1]) && SameContent(Step(digest, t, h[|h| - 1])[k], h[i])
  {
    hide Step, Hits, SameIdentity, SameContent, EvidenceIn, FirstHit;
    HitsStep(digest, h, k, i);
    StepRow(digest, t, h[|h| - 1], k);
    if i < |h| - 1 { assert Hits(digest, h[..|h| - 1][i], k); }
  }

  lemma EvidenceKept(digest: Digest, h: seq<Emission>, t: Table, k: Key, x: string)
    requires h != [] && Describes(digest, h[..|h| - 1], t, k)
    ensures k in Step(digest, t, h[|h| - 1]) ==>
      (x in Step(digest, t, h[|h| - 1])[k].evidence <==> EvidenceIn(digest, h, k, x))
  {
    hide Step, Hits, SameIdentity, SameContent, FirstHit, LastHit;
    EvidenceStep(digest, h, k, x);
    StepRow(digest, t, h[|h| - 1], k);
  }

  lemma NothingHit(digest: Digest, k: Key)
    ensures !AnyHit(digest, [], k)
  {
  }

  /** After any history of emissions, accepted or refused, the table is what the history
      says: at most one row per key, and each row as described. */
  lemma {:induction false} FoldDescribes(digest: Digest, h: seq<Emission>, k: Key)
    ensures Describes(digest, h, Fold(digest, map[], h), k)
  {
    hide Step, Hits, SameIdentity, SameContent, FirstHit, LastHit, AnyHit, EvidenceIn;
    if h == [] {
      assert !AnyHit(digest, h, k) by { NothingHit(digest, k); }
    } else {
      var n := |h| - 1;
      var s := Fold(digest, map[], h[..n]);
      var t := Step(digest, s, h[n]);
      assert t == Fold(digest, map[], h);
      FoldDescribes(digest, h[..n], k);
      StepRow(digest, s, h[n], k);
      AnyHitStep(digest, h, k);
      forall i: nat | FirstHit(digest, h, k, i) ensures i < |h| && k in t && SameIdentity(t[k], h[i]) {
        IdentityStep(digest, h, s, k, i);
      }
      forall i: nat | LastHit(digest, h, k, i) ensures i < |h| && k in t && SameContent(t[k], h[i]) {
        ContentStep(digest, h, s, k, i);
      }
      forall x ensures k in t ==> (x in t[k].evidence <==> EvidenceIn(digest, h, k, x)) {
        EvidenceKept(digest, h, s, k, x);
      }
    }
  }

  lemma {:induction false} FirstExists(digest: Digest, h: seq<Emission>, k: Key, i: nat) returns (f: nat)
    requires i < |h| && Hits(digest, h[i], k)
    ensures FirstHit(digest, h, k, f) && f <= i
  {
    hide Hits;
    if j: nat :| j < i && Hits(digest, h[j], k) { f := FirstExists(digest, h, k, j); } else { f := i; }
  }

  lemma {:induction false} LastExists(digest: Digest, h: seq<Emission>, k: Key, i: nat) returns (l: nat)
    requires i < |h| && Hits(digest, h[i], k)
    ensures LastHit(digest, h, k, l)
    decreases |h| - i
  {
    hide Hits;
    if j: nat :| i < j < |h| && Hits(digest, h[j], k) { l := LastExists(digest, h, k, j); } else { l := i; }
  }

  /** The same emissions once more, at other times. */
  predicate Replays(h: seq<Emission>, again: seq<Emission>) {
    |again| == |h| && forall i :: 0 <= i < |h| ==> again[i].input == h[i].input
  }

  lemma ReplayEvidence(digest: Digest, h: seq<Emission>, again: seq<Emission>, k: Key, x: string)
    requires Replays(h, again)
    ensures EvidenceIn(digest, h + again, k, x) <==> EvidenceIn(digest, h, k, x)
  {
    var both := h + again;
    if EvidenceIn(digest, h, k, x) {
      var i :| 0 <= i < |h| && Hits(digest, h[i], k) && x in h[i].input.evidence;
      assert both[i] == h[i];
    }
    if EvidenceIn(digest, both, k, x) {
      var i :| 0 <= i < |both| && Hits(digest, both[i], k) && x in both[i].input.evidence;
      var m := if i < |h| then i else i - |h|;
      assert Hits(digest, h[m], k) && x in h[m].input.evidence;
    }
  }

  lemma ReplayHits(digest: Digest, h: seq<Emission>, again: seq<Emission>, k: Key, f: nat, l: nat)
    requires Replays(h, again) && FirstHit(digest, h, k, f) && LastHit(digest, h, k, l)
    ensures FirstHit(digest, h + again, k, f) && LastHit(digest, h + again, k, |h| + l)
  {
  }

  /** Replaying a whole history changes nothing but last_seen_at. */
  lemma ReplayIsIdempotent(digest: Digest, h: seq<Emission>, again: seq<Emission>, k: Key)
    requires Replays(h, again)
    ensures var once, twice := Fold(digest, map[], h), Fold(digest, map[], h + again);
      (k in twice <==> k in once) && (k in once ==> twice[k] == once[k].(lastSeen := twice[k].lastSeen))
  {
    var once, twice := Fold(digest, map[], h), Fold(digest, map[], h + again);
    FoldDescribes(digest, h, k);
    FoldDescribes(digest, h + again, k);
    hide Fold, EvidenceIn, FirstHit, LastHit;
    if i :| 0 <= i < |h + again| && Hits(digest, (h + again)[i], k) {
      var m := if i < |h| then i else i - |h|;
      assert Hits(digest, h[m], k);
      hide Hits;
      var f := FirstExists(digest, h, k, m);
      var l := LastExists(digest, h, k, m);
      ReplayHits(digest, h, again, k, f, l);
      assert FirstHit(digest, h, k, f) && LastHit(digest, h, k, l);
      Bounds(digest, h, k, f, l);
      assert (h + again)[f] == h[f] && (h + again)[|h| + l] == again[l];
      assert k in twice;
      forall x ensures x in twice[k].evidence <==> x in once[k].evidence { ReplayEvidence(digest, h, again, k, x); }
    } else {
      assert forall i :: 0 <= i < |h| ==> (h + again)[i] == h[i];
    }
  }

  lemma Bounds(digest: Digest, h: seq<Emission>, k: Key, f: nat, l: nat)
    requires FirstHit(digest, h, k, f) && LastHit(digest, h, k, l)
    ensures f < |h| && l < |h|
  {
  }

  // ---- the two statements of Upsert ----------------------------------------------------------------

  class Store {
    const digest: Digest
    var rows: Table

    constructor (digest: Digest)
      ensures rows == map[] && this.digest == digest
    {
      this.digest, rows := digest, map[];
    }

    /** Validate, then INSERT ... ON CONFLICT DO UPDATE ... RETURNING */
    method Write(in_: Input, id: nat, now: int) returns (r: Result<Finding, Invalid>)
      modifies this`rows
      ensures rows == Step(digest, old(rows), Emission(in_, id, now))
      ensures r.Failure? <==> Validated(digest, in_).Failure?
      ensures r.Failure? ==> r.error == Validated(digest, in_).error && rows == old(rows)
      ensures r.Success? ==>
        var k := KeyOf(Validated(digest, in_).value);
        && k in rows && r.value == rows[k] && rows.Keys == old(rows).Keys + {k}
        && (k !in old(rows) ==> SameIdentity(rows[k], Emission(in_, id, now)))
        && (k in old(rows) ==> rows[k].id == old(rows)[k].id && rows[k].evidence >= old(rows)[k].evidence)
    {
      var v := Validated(digest, in_);
      if v.Failure? { return Failure(v.error); }
      var k := KeyOf(v.value);
      var f := if k in rows then Refreshed(rows[k], v.value, now) else Inserted(v.value, id, now);
      rows := rows[k := f];
      r := Success(f);
    }

    /** Upsert: a second statement reads the row again, by its id, for the inserted flag;
        `between` is what other sessions write in the meantime. */
    method Upsert(in_: Input, id: nat, now: int, between: seq<Emission>)
      returns (r: Result<Finding, Invalid>, isNew: bool)
      modifies this`rows
      ensures r.Failure? <==> Validated(digest, in_).Failure?
      ensures r.Failure? ==> r.error == Validated(digest, in_).error && rows == old(rows) && !isNew
      ensures r.Success? ==>
        var k, s := KeyOf(Validated(digest, in_).value), Step(digest, old(rows), Emission(in_, id, now));
        && k in s && r.value == s[k] && rows == Fold(digest, s, between) && k in rows
        && isNew == Flag(rows[k])
    {
      r := Write(in_, id, now);
      if r.Failure? { return r, false; }
      ghost var s := rows;
      var k := KeyOf(Validated(digest, in_).value);
      for i := 0 to |between|
        invariant rows == Fold(digest, s, between[..i]) && k in rows
      {
        assert between[..i + 1][..i] == between[..i];
        var _ := Write(between[i].input, between[i].id, between[i].now);
      }
      assert between[..|between|] == between;
      isNew := rows[k].firstSeen == rows[k].lastSeen;
    }
  }

  /** SELECT first_seen_at = last_seen_at */
  predicate Flag(f: Finding) { f.firstSeen == f.lastSeen }

  /** When the key was last hit. */
  function LastTime(digest: Digest, g: seq<Emission>, k: Key, before: int): int {
    if g == [] then before
    else
      var n := |g| - 1;
      if Hits(digest, g[n], k) then g[n].now else LastTime(digest, g[..n], k, before)
  }

  lemma {:induction false} LaterUpserts(digest: Digest, t: Table, g: seq<Emission>, k: Key)
    requires k in t
    ensures k in Fold(digest, t, g)
    ensures var f := Fold(digest, t, g)[k];
      f.firstSeen == t[k].firstSeen && f.lastSeen == LastTime(digest, g, k, t[k].lastSeen)
  {
    if g != [] { LaterUpserts(digest, t, g[..|g| - 1], k); }
  }

  /** Upsert's flag against the truth, for an emission e under k and whatever g is written
      before the second statement: a row that was inserted is reported so exactly if it was
      not refreshed at another time since, and a row that was refreshed is reported so
      exactly if its last refresh was not in the instant it was first seen. */
  lemma FlagExactlyRight(digest: Digest, t: Table, e: Emission, g: seq<Emission>, k: Key)
    requires Hits(digest, e, k)
    ensures var s := Fold(digest, Step(digest, t, e), g);
      && k in s
      && ((Flag(s[k]) <==> k !in t) <==>
            if k !in t then LastTime(digest, g, k, e.now) == e.now
            else LastTime(digest, g, k, e.now) != t[k].firstSeen)
  {
    LaterUpserts(digest, Step(digest, t, e), g, k);
  }

  predicate TimesRise(from: int, g: seq<Emission>) {
    (forall i :: 0 <= i < |g| ==> from <= g[i].now) && forall i, j :: 0 <= i < j < |g| ==> g[i].now <= g[j].now
  }

  lemma {:induction false} LastTimeRises(digest: Digest, g: seq<Emission>, k: Key, from: int)
    requires TimesRise(from, g)
    ensures LastTime(digest, g, k, from) >= from
    ensures LastTime(digest, g, k, from) == from <==>
      forall i :: 0 <= i < |g| && Hits(digest, g[i], k) ==> g[i].now == from
  {
    hide Hits;
    if g != [] {
      var n := |g| - 1;
      LastTimeRises(digest, g[..n], k, from);
      assert forall i :: 0 <= i < n ==> g[..n][i] == g[i];
    }
  }

  /** When the times of the upserts in between, which are those their transactions began,
      follow the order they were applied in: an insert is reported as a refresh exactly if
      some session refreshed the row at a later time before the second statement. */
  lemma InsertMisreported(digest: Digest, t: Table, e: Emission, g: seq<Emission>, k: Key)
    requires Hits(digest, e, k) && k !in t && TimesRise(e.now, g)
    ensures k in Fold(digest, Step(digest, t, e), g)
    ensures !Flag(Fold(digest, Step(digest, t, e), g)[k]) <==>
      exists i :: 0 <= i < |g| && Hits(digest, g[i], k) && g[i].now > e.now
  {
    FlagExactlyRight(digest, t, e, g, k);
    LastTimeRises(digest, g, k, e.now);
  }

  /** A worker's insert that another worker refreshes a moment later is reported as none. */
  lemma RefreshHidesInsert(digest: Digest) returns (e: Emission, other: Emission, k: Key)
    ensures Hits(digest, e, k) && Hits(digest, other, k) && e.input == other.input && e.now < other.now
    ensures k in Step(digest, map[], e) && Flag(Step(digest, map[], e)[k])
    ensures k in Fold(digest, Step(digest, map[], e), [other])
    ensures !Flag(Fold(digest, Step(digest, map[], e), [other])[k])
  {
    var input := Input(Some(0), 0, 0, "c", "host", "h", "open", "low", "t", "", "", "key", [], "");
    e, other, k := Emission(input, 0, 10), Emission(input, 1, 11), Key(0, "c", "key");
    assert Validated(digest, input) == Success(input);
    LaterUpserts(digest, Step(digest, map[], e), [other], k);
  }

  /** A row refreshed in the instant it was first seen is reported as inserted, with nobody
      else about. */
  lemma RefreshPassesForInsert(digest: Digest) returns (e: Emission, t: Table, k: Key)
    ensures Hits(digest, e, k) && k in t
    ensures k in Step(digest, t, e) && Flag(Step(digest, t, e)[k])
  {
    var input := Input(Some(0), 0, 0, "c", "host", "h", "open", "low", "t", "", "", "key", [], "");
    e, k := Emission(input, 0, 10), Key(0, "c", "key");
    assert Validated(digest, input) == Success(input);
    t := Step(digest, map[], e);
  }

  // ---- what a worker ingests ------------------------------------------------------------------------

  /** A finding event's payload; an absent text is "". */
  datatype Payload = Payload(targetKind: string, target: string, kind: string, severity: string, title: string,
                             description: string, cvss: string, dedupKey: string, refs: seq<string>, extra: string)

  /** A label stands for the artifact it was given; anything else is taken for a hash. */
  function Resolve(labels: map<string, string>, refs: seq<string>): seq<string> {
    if refs == [] then []
    else
      var n := |refs| - 1;
      Resolve(labels, refs[..n])
      + (if refs[n] == "" then [] else [if refs[n] in labels then labels[refs[n]] else refs[n]])
  }

  /** The evidence is the non-empty references, each label replaced by its artifact's hash. */
  lemma {:induction false} ResolvedRefs(labels: map<string, string>, refs: seq<string>, x: string)
    ensures x in Resolve(labels, refs) <==>
      exists i :: 0 <= i < |refs| && refs[i] != "" && x == (if refs[i] in labels then labels[refs[i]] else refs[i])
  {
    if refs != [] {
      var n := |refs| - 1;
      ResolvedRefs(labels, refs[..n], x);
      assert forall i :: 0 <= i < n ==> refs[..n][i] == refs[i];
    }
  }

  /** ingestFinding for a job's columns: a payload that names another target is quarantined
      (None). */
  function Ingested(job: Work, jobId: nat, labels: map<string, string>, p: Payload): Option<Input> {
    if p.targetKind != "" && p.targetKind != job.targetKind then None
    else if p.target != "" && p.target != job.target then None
    else Some(Input(Some(job.project), job.run, jobId, job.collector, job.targetKind, job.target, p.kind, p.severity,
                    p.title, p.description, p.cvss, p.dedupKey, Resolve(labels, p.refs), p.extra))
  }

  /** A payload is quarantined exactly if it claims another target than its job's. What is
      upserted otherwise names the job's own target, whatever the payload says. */
  lemma IngestedMeans(job: Work, jobId: nat, labels: map<string, string>, p: Payload)
    ensures var i := Ingested(job, jobId, labels, p);
      && (i.None? <==> p.targetKind !in ["", job.targetKind] || p.target !in ["", job.target])
      && (i.Some? ==>
            && i.value.project == Some(job.project) && i.value.run == job.run && i.value.job == jobId
            && i.value.collector == job.collector
            && i.value.targetKind == job.targetKind && i.value.target == job.target
            && (forall x :: x in i.value.evidence <==>
                  exists n :: 0 <= n < |p.refs| && p.refs[n] != ""
                    && x == (if p.refs[n] in labels then labels[p.refs[n]] else p.refs[n])))
  {
    forall x ensures x in Resolve(labels, p.refs) <==>
      exists n :: 0 <= n < |p.refs| && p.refs[n] != ""
        && x == (if p.refs[n] in labels then labels[p.refs[n]] else p.refs[n])
    {
      ResolvedRefs(labels, p.refs, x);
    }
  }

  /** From the payload to the table: an ingested finding lands in the row of its job's project
      and collector, with the payload's texts, and keeps the evidence that was there. */
  lemma IngestedRow(digest: Digest, t: Table, job: Work, jobId: nat, labels: map<string, string>, p: Payload, id: nat,
        now: int, k: Key)
    requires Ingested(job, jobId, labels, p).Some?
    requires Hits(digest, Emission(Ingested(job, jobId, labels, p).value, id, now), k)
    ensures k.project == job.project && k.collector == job.collector && (p.dedupKey != "" ==> k.dedupKey == p.dedupKey)
    ensures var s := Step(digest, t, Emission(Ingested(job, jobId, labels, p).value, id, now));
      && k in s
      && s[k].severity == p.severity && s[k].title == p.title && s[k].description == p.description
      && s[k].cvss == p.cvss && s[k].payload == p.extra && s[k].run == job.run && s[k].job == jobId
      && s[k].lastSeen == now
      && (k in t ==> t[k].evidence <= s[k].evidence && s[k].firstSeen == t[k].firstSeen && s[k].target == t[k].target)
      && (k !in t ==> s[k].target == job.target && s[k].targetKind == job.targetKind && s[k].kind == p.kind
                      && s[k].firstSeen == now)
  {
    var e := Emission(Ingested(job, jobId, labels, p).value, id, now);
    HitsMeans(digest, e, k);
    StepRow(digest, t, e, k);
    hide Resolve;
  }

  lemma RowFromFirst(digest: Digest, h: seq<Emission>, k: Key) returns (first: nat)
    requires k in Fold(digest, map[], h)
    ensures first < |h| && Hits(digest, h[first], k) && SameIdentity(Fold(digest, map[], h)[k], h[first])
  {
    FoldDescribes(digest, h, k);
    hide Fold, EvidenceIn, Hits, SameContent, SameIdentity;
    var m :| 0 <= m < |h| && Hits(digest, h[m], k);
    first := FirstExists(digest, h, k, m);
  }
}
