/** The port-list parser, which the repository has twice: parsePorts in Go and parse_ports
    in Rust. */
module Ports {
  import opened Wrappers
  import opened Sequences
  import opened Strings

  datatype Dialect = Go | Rust

  // ---- numbers --------------------------------------------------------------------------

  predicate AllDigits(s: string) { forall i :: 0 <= i < |s| ==> '0' <= s[i] <= '9' }

  function Value(s: string): nat
    requires AllDigits(s)
  {
    if s == "" then 0 else 10 * Value(s[..|s| - 1]) + (s[|s| - 1] - '0') as nat
  }

  /** strconv.Atoi: an optional sign, then digits, within 64 bits. */
  function Atoi(s: string): Option<int> {
    var digits := if s != "" && (s[0] == '+' || s[0] == '-') then s[1..] else s;
    if digits == "" || !AllDigits(digits) then None
    else
      var n: int := Value(digits);
      var v := if s[0] == '-' then -n else n;
      if -0x8000_0000_0000_0000 <= v < 0x8000_0000_0000_0000 then Some(v) else None
  }

  /** str::parse::<u32>: an optional plus, then digits, within 32 bits. */
  function ParseU32(s: string): Option<int> {
    var digits := if |s| > 1 && s[0] == '+' then s[1..] else s;
    if digits == "" || !AllDigits(digits) then None
    else if Value(digits) < 0x1_0000_0000 then Some(Value(digits)) else None
  }

  // ---- tokens ---------------------------------------------------------------------------

  datatype Range = Range(lo: int, hi: int)

  function Checked(lo: Option<int>, hi: Option<int>): Option<Range> {
    if lo.None? || hi.None? || lo.value < 1 || hi.value > 65535 || lo.value > hi.value then None
    else Some(Range(lo.value, hi.value))
  }

  /** A trimmed token. Go takes a dash in first position for a sign, Rust for a range. */
  function Token(d: Dialect, raw: string): Option<Range> {
    var i := IndexOf(raw, '-');
    match d
    case Go => if i > 0 then Checked(Atoi(raw[..i]), Atoi(raw[i + 1..])) else Checked(Atoi(raw), Atoi(raw))
    case Rust =>
      if i >= 0 then Checked(ParseU32(raw[..i]), ParseU32(raw[i + 1..])) else Checked(ParseU32(raw), ParseU32(raw))
  }

  /** On the numbers a port can be, the two conversions are one. */
  lemma CheckedAgree(a: string, b: string)
    ensures Checked(Atoi(a), Atoi(b)) == Checked(ParseU32(a), ParseU32(b))
  {
  }

  lemma TokensAgree(raw: string)
    ensures Token(Go, raw) == Token(Rust, raw)
  {
    var i := IndexOf(raw, '-');
    if i > 0 {
      CheckedAgree(raw[..i], raw[i + 1..]);
    } else if i < 0 {
      CheckedAgree(raw, raw);
    }
  }

  // ---- what a parser must answer -------------------------------------------------------------

  /** A comma-separated piece that says something; blank pieces are skipped. */
  predicate Says(raw: string) { Trim(raw) != "" }

  predicate PieceCovers(d: Dialect, raw: string, p: int) {
    Says(raw) && Token(d, Trim(raw)).Some?
    && Token(d, Trim(raw)).value.lo <= p <= Token(d, Trim(raw)).value.hi
  }

  ghost predicate Accepts(d: Dialect, pieces: seq<string>) {
    (exists k :: 0 <= k < |pieces| && Says(pieces[k]))
    && forall k :: 0 <= k < |pieces| && Says(pieces[k]) ==> Token(d, Trim(pieces[k])).Some?
  }

  ghost predicate Covers(d: Dialect, pieces: seq<string>, p: int) {
    exists k :: 0 <= k < |pieces| && PieceCovers(d, pieces[k], p)
  }

  predicate Rising(out: seq<int>) { RisingBy(out, (p: int) => p) }

  /** An error, or the ports of all the tokens, each once, in rising order. */
  ghost predicate Answer(d: Dialect, s: string, out: Option<seq<int>>) {
    var pieces := Split(s, ',');
    && (out.Some? <==> Accepts(d, pieces))
    && (out.Some? ==> Rising(out.value) && forall p :: p in out.value <==> Covers(d, pieces, p))
  }

  lemma SamePorts(a: seq<int>, b: seq<int>)
    requires Rising(a) && Rising(b) && forall p :: p in a <==> p in b
    ensures a == b
  {
    assert (forall i :: 0 <= i < |a| ==> a[i] in a) && (forall i :: 0 <= i < |b| ==> b[i] in b);
    RisingUnique(a, b, (p: int) => p);
  }

  /** For every string, the two parsers accept alike and return the same list. */
  lemma ParsersAgree(s: string, g: Option<seq<int>>, r: Option<seq<int>>)
    requires Answer(Go, s, g) && Answer(Rust, s, r)
    ensures g == r
  {
    forall t: string ensures Token(Go, t) == Token(Rust, t) { TokensAgree(t); }
    hide Token, Trim, Split;
    var pieces := Split(s, ',');
    assert Accepts(Go, pieces) <==> Accepts(Rust, pieces);
    if g.Some? {
      assert forall k, p :: 0 <= k < |pieces| ==> PieceCovers(Go, pieces[k], p) == PieceCovers(Rust, pieces[k], p);
      assert forall p :: Covers(Go, pieces, p) <==> Covers(Rust, pieces, p);
      SamePorts(g.value, r.value);
    }
  }

  lemma TokenInRange(d: Dialect, t: string)
    ensures Token(d, t).Some? ==> 1 <= Token(d, t).value.lo <= Token(d, t).value.hi <= 65535
  {
  }

  lemma CoveredInRange(d: Dialect, pieces: seq<string>, p: int)
    requires Covers(d, pieces, p)
    ensures 1 <= p <= 65535
  {
    hide Token, Trim;
    var k :| 0 <= k < |pieces| && PieceCovers(d, pieces[k], p);
    TokenInRange(d, Trim(pieces[k]));
  }

  lemma AcceptedCovers(d: Dialect, pieces: seq<string>)
    requires Accepts(d, pieces)
    ensures exists p :: Covers(d, pieces, p)
  {
    hide Token, Trim;
    var k :| 0 <= k < |pieces| && Says(pieces[k]);
    TokenInRange(d, Trim(pieces[k]));
    assert PieceCovers(d, pieces[k], Token(d, Trim(pieces[k])).value.lo);
    assert Covers(d, pieces, Token(d, Trim(pieces[k])).value.lo);
  }

  lemma AnswerInRange(d: Dialect, s: string, out: Option<seq<int>>)
    requires Answer(d, s, out) && out.Some?
    ensures out.value != [] && forall p :: p in out.value ==> 1 <= p <= 65535
  {
    hide Accepts, Covers;
    var pieces := Split(s, ',');
    AcceptedCovers(d, pieces);
    forall p | p in out.value ensures 1 <= p <= 65535 { CoveredInRange(d, pieces, p); }
  }

  // ---- the parsers ----------------------------------------------------------------------------

  /** The first n pieces are well formed and `seen` holds their ports. */
  ghost predicate Scanned(d: Dialect, pieces: seq<string>, n: nat, seen: set<int>)
    requires n <= |pieces|
  {
    && (forall k :: 0 <= k < n && Says(pieces[k]) ==> Token(d, Trim(pieces[k])).Some?)
    && (forall p :: p in seen <==> exists k :: 0 <= k < n && PieceCovers(d, pieces[k], p))
  }

  lemma ScanBlank(d: Dialect, pieces: seq<string>, n: nat, seen: set<int>)
    requires n < |pieces| && Scanned(d, pieces, n, seen) && !Says(pieces[n])
    ensures Scanned(d, pieces, n + 1, seen)
  {
    hide Token, Trim;
  }

  lemma ScanToken(d: Dialect, pieces: seq<string>, n: nat, seen: set<int>, lo: int, hi: int, more: set<int>)
    requires n < |pieces| && Scanned(d, pieces, n, seen) && Says(pieces[n])
    requires Token(d, Trim(pieces[n])) == Some(Range(lo, hi))
    requires forall p :: p in more <==> p in seen || lo <= p <= hi
    ensures Scanned(d, pieces, n + 1, more)
  {
    hide Token, Trim;
    forall p ensures p in more <==> exists k :: 0 <= k < n + 1 && PieceCovers(d, pieces[k], p) {
      if lo <= p <= hi { assert PieceCovers(d, pieces[n], p); }
    }
  }

  lemma ScannedAll(d: Dialect, pieces: seq<string>, seen: set<int>)
    requires Scanned(d, pieces, |pieces|, seen)
    ensures seen != {} <==> Accepts(d, pieces)
    ensures forall p :: p in seen <==> Covers(d, pieces, p)
    ensures forall p :: p in seen ==> 1 <= p <= 65535
  {
    hide Token, Trim, PieceCovers;
    forall p | p in seen ensures 1 <= p <= 65535 { CoveredInRange(d, pieces, p); }
    if Accepts(d, pieces) {
      AcceptedCovers(d, pieces);
      var p :| Covers(d, pieces, p);
      assert p in seen;
    }
    if seen != {} {
      var p :| p in seen;
      var k :| 0 <= k < |pieces| && PieceCovers(d, pieces[k], p);
      assert Says(pieces[k]) by { CoveringSays(d, pieces[k], p); }
    }
  }

  lemma CoveringSays(d: Dialect, raw: string, p: int)
    requires PieceCovers(d, raw, p)
    ensures Says(raw)
  {
  }

  predicate Different(list: seq<int>) { forall i, j :: 0 <= i < j < |list| ==> list[i] != list[j] }

  function Insert(list: seq<int>, p: int): (r: seq<int>)
    requires Rising(list) && p !in list
    ensures Rising(r) && forall q :: q in r <==> q in list || q == p
  {
    if list == [] then [p]
    else
      var n := |list| - 1;
      if list[n] < p then list + [p]
      else
        assert list == list[..n] + [list[n]];
        var r := Insert(list[..n], p);
        assert forall i :: 0 <= i < |r| ==> r[i] in r;
        r + [list[n]]
  }

  /** sort.Ints on a list without repetitions */
  function Sort(list: seq<int>): (r: seq<int>)
    requires Different(list)
    ensures Rising(r) && forall q :: q in r <==> q in list
  {
    if list == [] then []
    else
      var n := |list| - 1;
      assert list == list[..n] + [list[n]];
      Insert(Sort(list[..n]), list[n])
  }

  /** `for p := a; p <= b; p++ { seen[p] = struct{}{} }` */
  method AddRange(seen: set<int>, lo: int, hi: int) returns (r: set<int>)
    requires lo <= hi
    ensures forall p :: p in r <==> p in seen || lo <= p <= hi
  {
    r := seen;
    for p := lo to hi + 1
      invariant forall q :: q in r <==> q in seen || lo <= q < p
    {
      r := r + {p};
    }
  }

  method ParsePortsGo(s: string) returns (out: Option<seq<int>>)
    ensures Answer(Go, s, out)
  {
    hide Split, Trim, Atoi, Accepts, Covers, Scanned;
    var seen: set<int> := {};
    var pieces := Split(s, ',');
    ScanNothing(Go, pieces);
    for n := 0 to |pieces|
      invariant Scanned(Go, pieces, n, seen)
    {
      var raw := Trim(pieces[n]);
      if raw == "" {
        ScanBlank(Go, pieces, n, seen);
        continue;
      }
      ghost var before := seen;
      var i := IndexOf(raw, '-');
      if i > 0 {
        var a, b := Atoi(raw[..i]), Atoi(raw[i + 1..]);
        if a.None? || b.None? || a.value < 1 || b.value > 65535 || a.value > b.value {
          Refused(Go, pieces, n);
          return None;
        }
        seen := AddRange(seen, a.value, b.value);
        ScanToken(Go, pieces, n, before, a.value, b.value, seen);
        continue;
      }
      var p := Atoi(raw);
      if p.None? || p.value < 1 || p.value > 65535 {
        Refused(Go, pieces, n);
        return None;
      }
      seen := seen + {p.value};
      ScanToken(Go, pieces, n, before, p.value, p.value, seen);
    }
    ScannedAll(Go, pieces, seen);
    if |seen| == 0 { return None; }
    var list := Collect(seen);
    out := Some(Sort(list));
  }

  lemma ScanNothing(d: Dialect, pieces: seq<string>)
    ensures Scanned(d, pieces, 0, {})
  {
  }

  /** A malformed piece anywhere means the string is refused. */
  lemma Refused(d: Dialect, pieces: seq<string>, k: nat)
    requires k < |pieces| && Says(pieces[k]) && Token(d, Trim(pieces[k])).None?
    ensures !Accepts(d, pieces)
  {
  }

  lemma EmptyOrNot(s: set<int>)
    ensures s == {} || exists p :: p in s
  {
    if forall p :: p !in s { assert s == {}; }
  }

  /** `for p := range seen`: map iteration order is arbitrary. */
  method Collect(seen: set<int>) returns (list: seq<int>)
    ensures Different(list) && forall p :: p in list <==> p in seen
  {
    list := [];
    var rest := seen;
    while rest != {}
      invariant forall p :: p in seen <==> p in list || p in rest
      invariant forall p :: p in list ==> p !in rest
      invariant Different(list)
    {
      EmptyOrNot(rest);
      var p :| p in rest;
      list := list + [p];
      rest := rest - {p};
    }
  }

  method ParsePortsRust(s: string) returns (out: Option<seq<int>>)
    ensures Answer(Rust, s, out)
  {
    hide Split, Trim, ParseU32, Accepts, Covers, Scanned;
    var seen: set<int> := {};
    var pieces := Split(s, ',');
    ScanNothing(Rust, pieces);
    for n := 0 to |pieces|
      invariant Scanned(Rust, pieces, n, seen)
    {
      var raw := Trim(pieces[n]);
      if raw == "" {
        ScanBlank(Rust, pieces, n, seen);
        continue;
      }
      ghost var before := seen;
      var idx := IndexOf(raw, '-');
      if idx >= 0 {
        var lo, hi := ParseU32(raw[..idx]), ParseU32(raw[idx + 1..]);
        if lo.None? || hi.None? || lo.value < 1 || hi.value > 65535 || lo.value > hi.value {
          Refused(Rust, pieces, n);
          return None;
        }
        seen := AddRange(seen, lo.value, hi.value);
        ScanToken(Rust, pieces, n, before, lo.value, hi.value, seen);
      } else {
        var p := ParseU32(raw);
        if p.None? || p.value < 1 || p.value > 65535 {
          Refused(Rust, pieces, n);
          return None;
        }
        seen := seen + {p.value};
        ScanToken(Rust, pieces, n, before, p.value, p.value, seen);
      }
    }
    ScannedAll(Rust, pieces, seen);
    if seen == {} { return None; }
    var list: seq<int> := [];
    for p := 0 to 65536          // a BTreeSet<u16> iterates in key order
      invariant Rising(list) && forall q :: q in list <==> q in seen && q < p
    {
      assert forall i :: 0 <= i < |list| ==> list[i] in list;
      if p in seen { list := list + [p]; }
    }
    out := Some(list);
  }

  // ---- numerals ---------------------------------------------------------------------------------

  function Decimal(n: nat): string {
    if n < 10 then [('0' as int + n) as char] else Decimal(n / 10) + [('0' as int + n % 10) as char]
  }

  function Zeros(k: nat): string { if k == 0 then "" else Zeros(k - 1) + "0" }

  ghost predicate Digits(s: string, n: nat) { exists k: nat :: s == Zeros(k) + Decimal(n) }

  /** A number as both languages read it: an optional plus, leading zeros at will. */
  ghost predicate Numeral(s: string, n: nat) { Digits(s, n) || (s != "" && s[0] == '+' && Digits(s[1..], n)) }

  lemma {:induction false} DecimalReads(n: nat)
    ensures Decimal(n) != "" && AllDigits(Decimal(n)) && Value(Decimal(n)) == n
  {
    if n >= 10 {
      DecimalReads(n / 10);
      assert Decimal(n)[..|Decimal(n)| - 1] == Decimal(n / 10);
    } else {
      assert Decimal(n)[..0] == "";
    }
  }

  predicate IsDigit(c: char) { '0' <= c <= '9' }

  lemma ValueMore(t: string, c: char)
    requires AllDigits(t) && IsDigit(c)
    ensures AllDigits(t + [c]) && Value(t + [c]) == 10 * Value(t) + (c - '0') as nat
  {
    assert (t + [c])[..|t|] == t;
  }

  lemma DecimalMore(v: nat, c: char)
    requires IsDigit(c)
    ensures Decimal(10 * v + (c - '0') as nat) == (if v == 0 then "" else Decimal(v)) + [c]
  {
    var n := 10 * v + (c - '0') as nat;
    assert n / 10 == v && n % 10 == (c - '0') as nat;
  }

  lemma {:induction false} ZerosAlone(k: nat)
    ensures AllDigits(Zeros(k)) && Value(Zeros(k)) == 0
  {
    if k > 0 {
      ZerosAlone(k - 1);
      ValueMore(Zeros(k - 1), '0');
    }
  }

  lemma {:induction false} ZerosRead(k: nat, t: string)
    requires AllDigits(t)
    ensures AllDigits(Zeros(k) + t) && Value(Zeros(k) + t) == Value(t)
  {
    hide Value, Zeros;
    ZerosAlone(k);
    if t == "" {
      NoDigits();
      assert Zeros(k) + t == Zeros(k);
    } else {
      var n := |t| - 1;
      ZerosRead(k, t[..n]);
      ValueMore(Zeros(k) + t[..n], t[n]);
      ValueMore(t[..n], t[n]);
      assert t[..n] + [t[n]] == t && (Zeros(k) + t[..n]) + [t[n]] == Zeros(k) + t;
    }
  }

  /** Every string of digits is the decimal of its value after some zeros. */
  lemma {:induction false} DigitsAreNumeral(s: string) returns (k: nat)
    requires s != "" && AllDigits(s)
    ensures s == Zeros(k) + Decimal(Value(s))
  {
    hide Value, Decimal;
    var n := |s| - 1;
    assert s == s[..n] + [s[n]];
    ValueMore(s[..n], s[n]);
    DecimalMore(Value(s[..n]), s[n]);
    if n == 0 {
      k := 0;
      NoDigits();
      assert s[..n] == "";
    } else {
      k := DigitsAreNumeral(s[..n]);
      if Value(s[..n]) == 0 {
        NoDigits();
        k := k + 1;
      }
    }
  }

  lemma NoDigits()
    ensures Value("") == 0 && Decimal(0) == "0"
  {
  }

  lemma DigitsMeans(s: string, n: nat)
    ensures Digits(s, n) <==> s != "" && AllDigits(s) && Value(s) == n
  {
    if Digits(s, n) {
      var k: nat :| s == Zeros(k) + Decimal(n);
      DecimalReads(n);
      ZerosRead(k, Decimal(n));
    }
    if s != "" && AllDigits(s) && Value(s) == n { var k := DigitsAreNumeral(s); }
  }

  lemma U32Numeral(s: string, n: nat)
    ensures ParseU32(s) == Some(n) <==> n < 0x1_0000_0000 && Numeral(s, n)
    ensures Numeral(s, n) ==> '-' !in s
  {
    DigitsMeans(s, n);
    if s != "" && s[0] == '+' {
      DigitsMeans(s[1..], n);
      assert s == ['+'] + s[1..];
    }
    hide Digits, Value;
  }

  ghost predicate RangeText(raw: string, lo: nat, hi: nat) {
    exists a, b :: Numeral(a, lo) && Numeral(b, hi) && raw == a + "-" + b
  }

  lemma FirstDash(a: string, b: string)
    requires '-' !in a
    ensures var raw := a + "-" + b; IndexOf(raw, '-') == |a| && raw[..|a|] == a && raw[|a| + 1..] == b
  {
    var raw := a + "-" + b;
    var i := IndexOf(raw, '-');
    hide IndexOf;
    assert raw[|a|] == '-' && raw[..|a|] == a;
    forall m | 0 <= m < |a| ensures raw[m] != '-' { assert raw[m] == a[m]; }
    forall m | 0 <= m < i ensures raw[m] != '-' { assert raw[m] == raw[..i][m]; }
  }

  /** In either language a token is accepted exactly if it is a number, or two with a dash
      between them, in order and from 1 to 65535; it stands for those from the first to the
      second. */
  lemma TokenMeans(d: Dialect, raw: string, lo: nat, hi: nat)
    ensures Token(d, raw) == Some(Range(lo, hi)) <==>
      1 <= lo <= hi <= 65535 && ((lo == hi && Numeral(raw, lo)) || RangeText(raw, lo, hi))
  {
    TokensAgree(raw);
    hide Numeral, ParseU32, Atoi;
    U32Numeral(raw, lo);
    U32Numeral(raw, hi);
    var i := IndexOf(raw, '-');
    if i >= 0 {
      var a, b := raw[..i], raw[i + 1..];
      assert raw == a + "-" + b;
      U32Numeral(a, lo);
      U32Numeral(b, hi);
    }
    if RangeText(raw, lo, hi) {
      var a, b :| Numeral(a, lo) && Numeral(b, hi) && raw == a + "-" + b;
      U32Numeral(a, lo);
      FirstDash(a, b);
    }
  }

  // ---- blanks ---------------------------------------------------------------------------------------

  predicate Blank(s: string) { forall i :: 0 <= i < |s| ==> IsSpace(s[i]) }

  lemma {:induction false} TrimLeftBlank(left: string, t: string)
    requires Blank(left) && (t == "" || !IsSpace(t[0]))
    ensures TrimLeft(left + t) == t
  {
    if left == "" {
      assert left + t == t;
    } else {
      assert (left + t)[1..] == left[1..] + t;
      TrimLeftBlank(left[1..], t);
    }
  }

  lemma {:induction false} TrimRightBlank(t: string, right: string)
    requires Blank(right) && (t == "" || !IsSpace(t[|t| - 1]))
    ensures TrimRight(t + right) == t
  {
    if right == "" {
      assert t + right == t;
    } else {
      var n := |right| - 1;
      assert (t + right)[..|t + right| - 1] == t + right[..n];
      TrimRightBlank(t, right[..n]);
    }
  }

  /** Blanks around a text go, blanks inside it stay. */
  lemma TrimPadded(left: string, t: string, right: string)
    requires Blank(left) && Blank(right) && t != "" && !IsSpace(t[0]) && !IsSpace(t[|t| - 1])
    ensures Trim(left + t + right) == t
  {
    assert left + t + right == left + (t + right);
    TrimLeftBlank(left, t + right);
    TrimRightBlank(t, right);
  }

  // ---- what a written list is read as ------------------------------------------------------------------

  /** A port or a range as people write it, with blanks around it. */
  datatype Piece = Piece(left: string, lo: nat, hi: nat, right: string) {
    function Core(): string { if lo == hi then Decimal(lo) else Decimal(lo) + "-" + Decimal(hi) }

    function Text(): string { left + Core() + right }

    predicate Padded() {
      && (forall i :: 0 <= i < |left| ==> left[i] in {' ', '\t', '\r', '\n'})
      && (forall i :: 0 <= i < |right| ==> right[i] in {' ', '\t', '\r', '\n'})
    }

    predicate InRange() { 1 <= lo <= hi <= 65535 }
  }

  lemma DecimalParses(n: nat)
    ensures ParseU32(Decimal(n)) == if n < 0x1_0000_0000 then Some(n) else None
    ensures Decimal(n) != "" && forall c :: c in Decimal(n) ==> IsDigit(c)
  {
    DecimalReads(n);
  }

  lemma CoreShape(x: Piece)
    ensures x.Core() != "" && forall c :: c in x.Core() ==> IsDigit(c) || c == '-'
    ensures IsDigit(x.Core()[0]) && IsDigit(x.Core()[|x.Core()| - 1])
  {
    DecimalParses(x.lo);
    DecimalParses(x.hi);
    var a, b := Decimal(x.lo), Decimal(x.hi);
    hide Decimal, ParseU32;
    assert a[0] in a && a[|a| - 1] in a && b[|b| - 1] in b;
  }

  lemma CoreToken(d: Dialect, x: Piece)
    ensures Token(d, x.Core()) == if x.InRange() then Some(Range(x.lo, x.hi)) else None
  {
    TokensAgree(x.Core());
    DecimalParses(x.lo);
    DecimalParses(x.hi);
    var a, b := Decimal(x.lo), Decimal(x.hi);
    hide Decimal, ParseU32, Atoi, IndexOf;
    assert '-' !in a;
    if x.lo != x.hi { FirstDash(a, b); }
  }

  lemma PieceToken(d: Dialect, x: Piece)
    requires x.Padded()
    ensures Says(x.Text()) && ',' !in x.Text()
    ensures Token(d, Trim(x.Text())) == if x.InRange() then Some(Range(x.lo, x.hi)) else None
  {
    CoreToken(d, x);
    CoreShape(x);
    hide Token, Trim;
    var core := x.Core();
    assert core[0] in core && core[|core| - 1] in core;
    TrimPadded(x.left, core, x.right);
  }

  function Texts(list: seq<Piece>): (texts: seq<string>)
    ensures |texts| == |list|
  {
    seq(|list|, i requires 0 <= i < |list| => list[i].Text())
  }

  /** A list of ports and ranges, separated by commas and blank-padded at will, is read as
      the ports of all of them, and refused exactly if one is out of order or out of range. */
  lemma ListMeans(d: Dialect, pieces: seq<Piece>, out: Option<seq<int>>)
    requires pieces != [] && forall k :: 0 <= k < |pieces| ==> pieces[k].Padded()
    ensures Answer(d, Join(Texts(pieces), ','), out) <==>
      && (out.Some? <==> forall k :: 0 <= k < |pieces| ==> 1 <= pieces[k].lo <= pieces[k].hi <= 65535)
      && (out.Some? ==>
            && (forall i, j :: 0 <= i < j < |out.value| ==> out.value[i] < out.value[j])
            && forall p :: p in out.value <==> exists k :: 0 <= k < |pieces| && pieces[k].lo <= p <= pieces[k].hi)
  {
    var texts := Texts(pieces);
    hide Token, Trim, Says, Join, Split;
    forall k | 0 <= k < |pieces|
      ensures Says(texts[k]) && ',' !in texts[k]
      ensures Token(d, Trim(texts[k])) ==
        if pieces[k].InRange() then Some(Range(pieces[k].lo, pieces[k].hi)) else None
    {
      PieceToken(d, pieces[k]);
    }
    SplitJoin(texts, ',');
    assert Says(texts[0]);
    assert Accepts(d, texts) <==> forall k :: 0 <= k < |pieces| ==> pieces[k].InRange();
    if Accepts(d, texts) {
      forall p ensures Covers(d, texts, p) <==> exists k :: 0 <= k < |pieces| && pieces[k].lo <= p <= pieces[k].hi {
        if k :| 0 <= k < |pieces| && pieces[k].lo <= p <= pieces[k].hi { assert PieceCovers(d, texts[k], p); }
        if Covers(d, texts, p) {
          var k :| 0 <= k < |texts| && PieceCovers(d, texts[k], p);
          assert pieces[k].lo <= p <= pieces[k].hi;
        }
      }
    }
  }

  function Singles(list: seq<nat>): (pieces: seq<Piece>)
    ensures |pieces| == |list|
  {
    seq(|list|, i requires 0 <= i < |list| => Piece("", list[i], list[i], ""))
  }

  lemma SinglesCover(list: seq<nat>, p: int)
    ensures p in list <==> exists k :: 0 <= k < |Singles(list)| && Singles(list)[k].lo <= p <= Singles(list)[k].hi
    ensures forall k :: 0 <= k < |list| ==> Singles(list)[k].lo == Singles(list)[k].hi == list[k] && list[k] in list
    ensures forall k :: 0 <= k < |list| ==> Singles(list)[k].Padded()
  {
    if p in list {
      var k :| 0 <= k < |list| && list[k] == p;
      assert Singles(list)[k].lo <= p <= Singles(list)[k].hi;
    }
  }

  /** Writing a list of ports with commas and parsing it gives the list back. */
  lemma PortsRoundTrip(d: Dialect, list: seq<nat>)
    requires list != [] && Rising(list) && forall p :: p in list ==> 1 <= p <= 65535
    ensures Answer(d, Join(Texts(Singles(list)), ','), Some(list))
  {
    hide Answer, Texts, Join, Singles;
    SinglesCover(list, 0);
    var pieces := Singles(list);
    forall p ensures p in list <==> exists k :: 0 <= k < |pieces| && pieces[k].lo <= p <= pieces[k].hi {
      SinglesCover(list, p);
    }
    ListMeans(d, pieces, Some(list));
  }
}
