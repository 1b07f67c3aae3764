/** The scope engine: first match over ordered rules, and what a rule matches. */
module Scope {
  import opened Wrappers
  import opened Sequences
  import opened Strings

  datatype Effect = Allow | Deny | OutOfScope

  datatype Kind = Cidr | Host | DnsExact | DnsWildcard | DnsSuffix | UrlPrefix | PathGlob | VHost | Account

  // Target kinds are strings in the source, and a caller may pass any.
  datatype Target = Target(kind: string, identity: string, host: string, port: int, url: string)

  /** None is a zero time: no bound on that side. */
  datatype Window = Window(start: Option<int>, end: Option<int>) {
    predicate Contains(t: int) {
      (start.Some? ==> start.value <= t) && (end.Some? ==> t < end.value)
    }

    predicate Empty() { start.None? && end.None? }
  }

  datatype Rule = Rule(id: nat, order: int, effect: Effect, kind: Kind, value: string,
                       portMin: int, portMax: int, window: Window, maxConcurrent: int, maxRps: real)

  datatype Url = Url(host: string, path: string)

  /** net.ParseCIDR with Contains, and url.Parse: library calls the engine relies on. */
  datatype Net = Net(validCidr: string -> bool, cidrContains: (string, string) -> bool, parseUrl: string -> Option<Url>)

  datatype Verdict = Verdict(effect: Effect, rule: Option<Rule>, maxConcurrent: int, maxRps: real)

  // ---- matching --------------------------------------------------------------------------------

  predicate EqualFold(a: string, b: string) { Lower(a) == Lower(b) }

  predicate PortMatches(r: Rule, t: Target) {
    if r.portMin == 0 && r.portMax == 0 then true
    else if t.port == 0 then false
    else r.portMin <= t.port <= r.portMax
  }

  /** Position of the last c, or -1. */
  function LastIndexOf(s: string, c: char): (i: int)
    ensures -1 <= i < |s|
    ensures i < 0 <==> c !in s
    ensures i >= 0 ==> s[i] == c && c !in s[i + 1..]
  {
    if s == "" then -1
    else
      var n := |s| - 1;
      if s[n] == c then n else assert s == s[..n] + [s[n]]; LastIndexOf(s[..n], c)
  }

  function HostOnly(t: Target): string {
    if t.host != "" then t.host
    else
      var i := LastIndexOf(t.identity, ':');
      if i > 0 && ']' !in t.identity[i..] then t.identity[..i] else t.identity
  }

  predicate GlobMatch(pattern: string, s: string) {
    if HasSuffix(pattern, "*") then HasPrefix(s, pattern[..|pattern| - 1]) else pattern == s
  }

  /** The slice r.Value[2:] must exist; Validate sees to it. */
  predicate Sliceable(r: Rule) { r.kind.DnsWildcard? ==> |r.value| >= 2 }

  predicate ValueMatches(net: Net, r: Rule, t: Target)
    requires Sliceable(r)
  {
    match r.kind
    case Cidr => net.cidrContains(r.value, HostOnly(t))
    case Host => EqualFold(r.value, HostOnly(t))
    case DnsExact => t.kind == "dns_name" && EqualFold(r.value, t.identity)
    case DnsWildcard =>
      var base := r.value[2..];
      t.kind == "dns_name" && HasSuffix(Lower(t.identity), "." + Lower(base))
    case DnsSuffix =>
      var base := Lower(r.value);
      t.kind == "dns_name" && (Lower(t.identity) == base || HasSuffix(Lower(t.identity), "." + base))
    case UrlPrefix => t.kind == "url" && HasPrefix(t.url, r.value)
    case PathGlob =>
      t.kind == "url" && net.parseUrl(t.url).Some? && GlobMatch(r.value, net.parseUrl(t.url).value.path)
    case VHost =>
      t.kind == "url" && net.parseUrl(t.url).Some? && EqualFold(net.parseUrl(t.url).value.host, r.value)
    case Account => t.kind == "account" && r.value == t.identity
  }

  /** Rule.Validate; effect and kind are valid by their types here. */
  predicate Validate(net: Net, r: Rule) {
    && r.value != ""
    && 0 <= r.portMin <= r.portMax
    && (r.window.end.Some? && r.window.start.Some? ==> r.window.start.value <= r.window.end.value)
    && (r.kind.Cidr? ==> net.validCidr(r.value))
    && (r.kind.UrlPrefix? ==> net.parseUrl(r.value).Some?)
    && (r.kind.DnsWildcard? ==> HasPrefix(r.value, "*.") && |r.value| >= 4)
  }

  // ---- evaluation --------------------------------------------------------------------------------

  predicate Applies(net: Net, r: Rule, t: Target, now: int)
    requires Sliceable(r)
  {
    (r.window.Empty() || r.window.Contains(now)) && PortMatches(r, t) && ValueMatches(net, r, t)
  }

  ghost predicate AllSliceable(rules: seq<Rule>) { forall i :: 0 <= i < |rules| ==> Sliceable(rules[i]) }

  function Decided(r: Rule): Verdict { Verdict(r.effect, Some(r), r.maxConcurrent, r.maxRps) }

  const NO_RULE := Verdict(OutOfScope, None, 0, 0.0)

  function Evaluate(net: Net, t: Target, rules: seq<Rule>, now: int): Verdict
    requires AllSliceable(rules)
  {
    if rules == [] then NO_RULE
    else if Applies(net, rules[0], t, now) then Decided(rules[0])
    else Evaluate(net, t, rules[1..], now)
  }

  lemma {:induction false} EvaluateConcat(net: Net, t: Target, a: seq<Rule>, b: seq<Rule>, now: int)
    requires AllSliceable(a) && AllSliceable(b)
    ensures AllSliceable(a + b)
    ensures Evaluate(net, t, a + b, now) ==
      if Evaluate(net, t, a, now).rule.Some? then Evaluate(net, t, a, now) else Evaluate(net, t, b, now)
  {
    if a == [] {
      assert a + b == b;
    } else {
      assert (a + b)[1..] == a[1..] + b;
      EvaluateConcat(net, t, a[1..], b, now);
    }
  }

  /** Orders rise along the list, as List returns them. */
  predicate OrdersRise(rules: seq<Rule>) { RisingBy(rules, (r: Rule) => r.order) }

  ghost predicate NoneApplies(net: Net, t: Target, rules: seq<Rule>, now: int)
    requires AllSliceable(rules)
  {
    forall i :: 0 <= i < |rules| ==> !Applies(net, rules[i], t, now)
  }

  /** The engine's loop stops at the first rule that applies. */
  lemma {:induction false} FirstMatch(net: Net, t: Target, rules: seq<Rule>, now: int) returns (k: nat)
    requires AllSliceable(rules)
    ensures k <= |rules| && NoneApplies(net, t, rules[..k], now)
    ensures k < |rules| ==> Applies(net, rules[k], t, now) && Evaluate(net, t, rules, now) == Decided(rules[k])
    ensures k == |rules| ==> Evaluate(net, t, rules, now) == NO_RULE
  {
    hide Applies;
    if rules == [] || Applies(net, rules[0], t, now) {
      k := 0;
    } else {
      var m := FirstMatch(net, t, rules[1..], now);
      k := m + 1;
      assert forall i :: 0 < i < k ==> rules[i] == rules[1..][..m][i - 1];
    }
  }

  predicate LeastApplicable(net: Net, t: Target, rules: seq<Rule>, now: int, k: int)
    requires AllSliceable(rules)
  {
    && 0 <= k < |rules| && Applies(net, rules[k], t, now)
    && forall i :: 0 <= i < |rules| && Applies(net, rules[i], t, now) ==> rules[k].order <= rules[i].order
  }

  /** Over rising orders the verdict comes from the applicable rule of least order, and is
      out of scope exactly when no rule applies. */
  lemma {:induction false} EvaluateIsLeast(net: Net, t: Target, rules: seq<Rule>, now: int)
    requires AllSliceable(rules) && OrdersRise(rules)
    ensures NoneApplies(net, t, rules, now) <==> Evaluate(net, t, rules, now) == NO_RULE
    ensures forall k :: LeastApplicable(net, t, rules, now, k) ==> Evaluate(net, t, rules, now) == Decided(rules[k])
  {
    hide Applies, Evaluate;
    var f := FirstMatch(net, t, rules, now);
    if f == |rules| {
      assert rules[..f] == rules;
    } else {
      assert forall k :: 0 <= k < f ==> rules[..f][k] == rules[k];
    }
  }

  /** A rule put in anywhere either decides, or changes nothing. */
  lemma InsertedRule(net: Net, t: Target, a: seq<Rule>, r: Rule, b: seq<Rule>, now: int)
    requires AllSliceable(a) && AllSliceable(b) && Sliceable(r)
    ensures AllSliceable(a + [r] + b) && AllSliceable(a + b)
    ensures Evaluate(net, t, a + [r] + b, now) ==
      if Evaluate(net, t, a, now).rule.None? && Applies(net, r, t, now) then Decided(r)
      else Evaluate(net, t, a + b, now)
  {
    EvaluateConcat(net, t, a, b, now);
    EvaluateConcat(net, t, [r], b, now);
    EvaluateConcat(net, t, a, [r] + b, now);
    assert a + [r] + b == a + ([r] + b);
    assert [r][1..] == [];
  }

  /** A deny rule inserted anywhere leaves each verdict as it was or makes it deny. */
  lemma DenyIsSafe(net: Net, t: Target, a: seq<Rule>, r: Rule, b: seq<Rule>, now: int)
    requires AllSliceable(a) && AllSliceable(b) && Sliceable(r) && r.effect.Deny?
    ensures AllSliceable(a + [r] + b) && AllSliceable(a + b)
    ensures Evaluate(net, t, a + [r] + b, now) == Evaluate(net, t, a + b, now)
         || Evaluate(net, t, a + [r] + b, now).effect.Deny?
  {
    InsertedRule(net, t, a, r, b, now);
  }

  /** Appending changes only verdicts that no rule decided. */
  lemma AppendedRule(net: Net, t: Target, a: seq<Rule>, r: Rule, now: int)
    requires AllSliceable(a) && Sliceable(r)
    ensures AllSliceable(a + [r])
    ensures Evaluate(net, t, a, now).rule.Some? ==> Evaluate(net, t, a + [r], now) == Evaluate(net, t, a, now)
    ensures Evaluate(net, t, a, now).rule.None? ==>
      Evaluate(net, t, a + [r], now) == if Applies(net, r, t, now) then Decided(r) else NO_RULE
  {
    EvaluateConcat(net, t, a, [r], now);
    assert [r][1..] == [];
  }

  /** Deleting a rule that did not decide changes nothing. */
  lemma DeletedRule(net: Net, t: Target, a: seq<Rule>, r: Rule, b: seq<Rule>, now: int)
    requires AllSliceable(a) && AllSliceable(b) && Sliceable(r)
    ensures AllSliceable(a + [r] + b) && AllSliceable(a + b)
    ensures Evaluate(net, t, a + [r] + b, now) != Decided(r) ==>
      Evaluate(net, t, a + b, now) == Evaluate(net, t, a + [r] + b, now)
  {
    InsertedRule(net, t, a, r, b, now);
  }

  // ---- what a verdict means, in the rule's and the target's own columns ----------------------------

  /** The same letter, ASCII case aside. */
  predicate SameLetter(c: char, d: char) {
    || c == d
    || ('A' <= c <= 'Z' && d as int == c as int + 32)
    || ('A' <= d <= 'Z' && c as int == d as int + 32)
  }

  predicate SameName(a: string, b: string) { |a| == |b| && forall i :: 0 <= i < |a| ==> SameLetter(a[i], b[i]) }

  predicate NameEndsIn(a: string, b: string) { |b| <= |a| && SameName(a[|a| - |b|..], b) }

  predicate HostPort(identity: string, host: string, port: string) {
    identity == host + ":" + port && host != "" && ':' !in port && ']' !in port
  }

  /** The host a target is on: its own, else its identity up to a port, else its identity. */
  ghost predicate OnHost(t: Target, host: string) {
    if t.host != "" then host == t.host
    else
      || (exists port :: HostPort(t.identity, host, port))
      || (host == t.identity && forall other, port :: !HostPort(t.identity, other, port))
  }

  predicate UrlIs(net: Net, t: Target, u: Url) { t.kind == "url" && net.parseUrl(t.url) == Some(u) }

  /** A pattern with a final star stands for its extensions, any other for itself. */
  predicate PathFits(pattern: string, path: string) {
    if pattern != "" && pattern[|pattern| - 1] == '*' then pattern[..|pattern| - 1] <= path else path == pattern
  }

  /** The rule's value names the target, in the way of the rule's kind. */
  ghost predicate Names(net: Net, r: Rule, t: Target)
    requires Sliceable(r)
  {
    match r.kind
    case Cidr => exists host :: OnHost(t, host) && net.cidrContains(r.value, host)
    case Host => exists host :: OnHost(t, host) && SameName(r.value, host)
    case DnsExact => t.kind == "dns_name" && SameName(r.value, t.identity)
    case DnsWildcard => t.kind == "dns_name" && NameEndsIn(t.identity, "." + r.value[2..])
    case DnsSuffix =>
      t.kind == "dns_name" && (SameName(t.identity, r.value) || NameEndsIn(t.identity, "." + r.value))
    case UrlPrefix => t.kind == "url" && r.value <= t.url
    case PathGlob => exists u :: UrlIs(net, t, u) && PathFits(r.value, u.path)
    case VHost => exists u :: UrlIs(net, t, u) && SameName(u.host, r.value)
    case Account => t.kind == "account" && t.identity == r.value
  }

  /** The rule is about this target, now. */
  ghost predicate Covers(net: Net, r: Rule, t: Target, now: int)
    requires Sliceable(r)
  {
    && (r.portMin != 0 || r.portMax != 0 ==> t.port != 0 && r.portMin <= t.port && t.port <= r.portMax)
    && (r.window.start.Some? ==> r.window.start.value <= now)
    && (r.window.end.Some? ==> now < r.window.end.value)
    && Names(net, r, t)
  }

  lemma FoldedEqual(a: string, b: string)
    ensures Lower(a) == Lower(b) <==> SameName(a, b)
  {
    if Lower(a) == Lower(b) {
      forall i | 0 <= i < |a| ensures |a| == |b| && SameLetter(a[i], b[i]) {
        assert |a| == |Lower(a)| == |b| && Lower(a)[i] == Lower(b)[i];
      }
    }
  }

  lemma FoldedSuffix(a: string, b: string)
    ensures HasSuffix(Lower(a), "." + Lower(b)) <==> NameEndsIn(a, "." + b)
  {
    assert Lower("." + b) == "." + Lower(b);
    if |b| + 1 <= |a| {
      var n := |a| - |b| - 1;
      assert Lower(a)[n..] == Lower(a[n..]);
      FoldedEqual(a[n..], "." + b);
    }
  }

  lemma LastColon(s: string, host: string, port: string)
    requires HostPort(s, host, port)
    ensures LastIndexOf(s, ':') == |host| && s[..|host|] == host && ']' !in s[|host|..]
  {
    var i := LastIndexOf(s, ':');
    hide LastIndexOf;
    assert s[|host|] == ':' && s[|host|..] == [':'] + port;
    forall m | |host| < m < |s| ensures s[m] != ':' { assert s[m] == port[m - |host| - 1]; }
    forall m | i < m < |s| ensures s[m] != ':' { assert s[m] == s[i + 1..][m - i - 1]; }
  }

  lemma HostIsUnique(t: Target, host: string)
    ensures OnHost(t, host) <==> host == HostOnly(t)
  {
    hide LastIndexOf;
    if t.host == "" {
      var s, i := t.identity, LastIndexOf(t.identity, ':');
      forall other, port | HostPort(s, other, port) ensures i == |other| && s[..i] == other && ']' !in s[i..] {
        LastColon(s, other, port);
      }
      if i > 0 && ']' !in s[i..] {
        assert s[i..] == [':'] + s[i + 1..];
        assert HostPort(s, s[..i], s[i + 1..]);
      }
    }
  }

  lemma GlobFits(pattern: string, path: string)
    ensures GlobMatch(pattern, path) <==> PathFits(pattern, path)
  {
    if pattern != "" && pattern[|pattern| - 1] == '*' {
      assert pattern[|pattern| - 1..] == "*";
    }
  }

  lemma HostNames(net: Net, r: Rule, t: Target)
    requires r.kind.Cidr? || r.kind.Host?
    ensures ValueMatches(net, r, t) <==> Names(net, r, t)
  {
    HostIsUnique(t, HostOnly(t));
    forall host | OnHost(t, host) ensures host == HostOnly(t) { HostIsUnique(t, host); }
    FoldedEqual(r.value, HostOnly(t));
    hide HostOnly, Lower, OnHost, SameName;
  }

  lemma DnsNames(net: Net, r: Rule, t: Target)
    requires Sliceable(r) && (r.kind.DnsExact? || r.kind.DnsWildcard? || r.kind.DnsSuffix?)
    ensures ValueMatches(net, r, t) <==> Names(net, r, t)
  {
    hide Lower, SameName, NameEndsIn, HasSuffix;
    FoldedEqual(r.value, t.identity);
    FoldedEqual(t.identity, r.value);
    FoldedSuffix(t.identity, if r.kind.DnsWildcard? then r.value[2..] else r.value);
  }

  lemma UrlNames(net: Net, r: Rule, t: Target)
    requires r.kind.UrlPrefix? || r.kind.PathGlob? || r.kind.VHost? || r.kind.Account?
    ensures ValueMatches(net, r, t) <==> Names(net, r, t)
  {
    hide Lower, SameName, GlobMatch, PathFits;
    if net.parseUrl(t.url).Some? {
      var u := net.parseUrl(t.url).value;
      GlobFits(r.value, u.path);
      FoldedEqual(u.host, r.value);
      assert t.kind == "url" ==> UrlIs(net, t, u);
    }
  }

  lemma AppliesMeansCovers(net: Net, r: Rule, t: Target, now: int)
    requires Sliceable(r)
    ensures Applies(net, r, t, now) <==> Covers(net, r, t, now)
  {
    hide ValueMatches, Names;
    match r.kind
    case Cidr | Host => HostNames(net, r, t);
    case DnsExact | DnsWildcard | DnsSuffix => DnsNames(net, r, t);
    case _ => UrlNames(net, r, t);
  }

  /** The first rule that is about the target decides, with its effect and its caps; without
      one the target is out of scope. */
  lemma VerdictMeans(net: Net, t: Target, rules: seq<Rule>, now: int) returns (k: nat)
    requires AllSliceable(rules)
    ensures k <= |rules| && forall i :: 0 <= i < k ==> !Covers(net, rules[i], t, now)
    ensures k < |rules| ==> Covers(net, rules[k], t, now)
    ensures Evaluate(net, t, rules, now) == (
      if k < |rules| then Verdict(rules[k].effect, Some(rules[k]), rules[k].maxConcurrent, rules[k].maxRps)
      else Verdict(OutOfScope, None, 0, 0.0))
  {
    hide Applies, Covers, Evaluate;
    k := FirstMatch(net, t, rules, now);
    forall i | 0 <= i < |rules| ensures Applies(net, rules[i], t, now) <==> Covers(net, rules[i], t, now) {
      AppliesMeansCovers(net, rules[i], t, now);
    }
    assert forall i :: 0 <= i < k ==> rules[..k][i] == rules[i];
  }

  /** A host rule decides a target named host:port without a host of its own by what stands
      before the port, and by the target's port number if the rule has a range. */
  lemma HostRuleOnHostPort(net: Net, r: Rule, t: Target, host: string, port: string, now: int)
    requires r.kind.Host? && t.host == "" && HostPort(t.identity, host, port)
    ensures AllSliceable([r])
    ensures Evaluate(net, t, [r], now).rule == Some(r) <==>
      && SameName(r.value, host)
      && (r.portMin != 0 || r.portMax != 0 ==> t.port != 0 && r.portMin <= t.port <= r.portMax)
      && (r.window.start.Some? ==> r.window.start.value <= now)
      && (r.window.end.Some? ==> now < r.window.end.value)
  {
    assert OnHost(t, host);
    HostIsUnique(t, host);
    forall other | OnHost(t, other) ensures other == host { HostIsUnique(t, other); }
    var k := VerdictMeans(net, t, [r], now);
    hide OnHost, SameName, Evaluate;
  }

  /** A validated rule of a kind that no library call decides is about some target at some
      time, unless its window is a single instant, and then it is about nothing; it is never
      about a target without a name. */
  lemma ValidRuleApplies(net: Net, r: Rule) returns (t: Target, now: int)
    requires Validate(net, r) && !r.kind.Cidr? && !r.kind.PathGlob? && !r.kind.VHost?
    ensures Sliceable(r)
    ensures r.window.start.Some? && r.window.start == r.window.end ==> forall u, n :: !Covers(net, r, u, n)
    ensures !(r.window.start.Some? && r.window.start == r.window.end) ==> Covers(net, r, t, now)
    ensures forall u, n :: Covers(net, r, u, n) ==> u.host != "" || u.identity != "" || u.url != ""
  {
    now := if r.window.start.Some? then r.window.start.value
           else if r.window.end.Some? then r.window.end.value - 1 else 0;
    var kind, identity, url := "host", r.value, "";
    match r.kind {
      case DnsExact | DnsSuffix => kind := "dns_name";
      case DnsWildcard => kind, identity := "dns_name", r.value[1..];
      case UrlPrefix => kind, url := "url", r.value;
      case Account => kind := "account";
      case _ =>
    }
    t := Target(kind, identity, r.value, r.portMax, url);
    assert OnHost(t, r.value);
    assert r.kind.DnsWildcard? ==> r.value[1..] == "." + r.value[2..];
  }

  // ---- DNS names, label by label ------------------------------------------------------------------

  function Labels(name: string): seq<string> { Split(Lower(name), '.') }

  predicate ProperSuffix(a: seq<string>, b: seq<string>) { |a| < |b| && b[|b| - |a|..] == a }

  lemma {:induction false} JoinConcat(a: seq<string>, b: seq<string>, sep: char)
    requires |a| > 0 && |b| > 0
    ensures Join(a + b, sep) == Join(a, sep) + [sep] + Join(b, sep)
  {
    if |a| == 1 {
      assert (a + b)[1..] == b;
    } else {
      assert (a + b)[1..] == a[1..] + b;
      JoinConcat(a[1..], b, sep);
      calc {
        Join(a + b, sep);
        a[0] + [sep] + (Join(a[1..], sep) + [sep] + Join(b, sep));
        Join(a, sep) + [sep] + Join(b, sep);
      }
    }
  }

  lemma LabelsSuffix(a: string, base: string)
    ensures ProperSuffix(Split(base, '.'), Split(a + "." + base, '.'))
  {
    SplitConcat(a, '.', base);
    assert a + "." + base == a + ['.'] + base;
  }

  lemma SuffixLabels(name: string, base: string)
    requires ProperSuffix(Split(base, '.'), Split(name, '.'))
    ensures HasSuffix(name, "." + base)
  {
    hide Split, Join;
    var b, n := Split(base, '.'), Split(name, '.');
    var front := n[..|n| - |b|];
    assert n == front + b;
    JoinConcat(front, b, '.');
    JoinSplit(name, '.');
    JoinSplit(base, '.');
    assert name == Join(front, '.') + ("." + base);
  }

  /** Ending in ".base" is ending in base's labels after at least one more. */
  lemma {:induction false} SuffixIsLabels(name: string, base: string)
    ensures HasSuffix(name, "." + base) <==> ProperSuffix(Split(base, '.'), Split(name, '.'))
  {
    hide Split;
    if HasSuffix(name, "." + base) {
      var a := name[..|name| - |base| - 1];
      LabelsSuffix(a, base);
      assert name == a + "." + base;
    }
    if ProperSuffix(Split(base, '.'), Split(name, '.')) { SuffixLabels(name, base); }
  }

  /** For a validated wildcard rule *.base: it matches exactly the DNS names whose labels,
      case-folded, properly end in base's labels; base is never empty. */
  lemma WildcardIsLabelwise(net: Net, r: Rule, t: Target)
    requires Validate(net, r) && r.kind.DnsWildcard?
    ensures Sliceable(r) && |r.value[2..]| >= 2 && r.value == "*." + r.value[2..]
    ensures ValueMatches(net, r, t) <==> t.kind == "dns_name" && ProperSuffix(Labels(r.value[2..]), Labels(t.identity))
  {
    SuffixIsLabels(Lower(t.identity), Lower(r.value[2..]));
  }

  /** A suffix rule is the exact rule or the wildcard rule on the same base. */
  lemma SuffixIsExactOrWildcard(net: Net, r: Rule, t: Target)
    requires r.kind.DnsSuffix?
    ensures ValueMatches(net, r, t) <==>
      || ValueMatches(net, r.(kind := DnsExact), t)
      || ValueMatches(net, r.(kind := DnsWildcard, value := "*." + r.value), t)
    ensures ValueMatches(net, r, t) <==>
      && t.kind == "dns_name"
      && (Labels(t.identity) == Labels(r.value) || ProperSuffix(Labels(r.value), Labels(t.identity)))
  {
    assert ("*." + r.value)[2..] == r.value;
    SuffixIsLabels(Lower(t.identity), Lower(r.value));
    JoinSplit(Lower(t.identity), '.');
    JoinSplit(Lower(r.value), '.');
  }
}
