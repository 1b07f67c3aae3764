/** Line framing of the collector protocol: bufio.Reader, readLine with its length cap, and
    Next, over a stream that arrives in arbitrary pieces. */
module Ndjson {
  import opened Wrappers

  const NL: byte := 10
  const CR: byte := 13

  function IndexNl(s: bytes): (i: int)
    ensures -1 <= i < |s|
    ensures i < 0 <==> NL !in s
    ensures i >= 0 ==> s[i] == NL && NL !in s[..i]
  {
    if s == [] then -1
    else if s[0] == NL then 0
    else
      var i := IndexNl(s[1..]);
      if i < 0 then -1 else assert s[..i + 1] == [s[0]] + s[1..][..i]; i + 1
  }

  /** The index is the one place a newline stands at with none before it. */
  lemma IndexIs(s: bytes, n: nat)
    requires n < |s| && s[n] == NL && NL !in s[..n]
    ensures IndexNl(s) == n
  {
  }

  function Flatten(chunks: seq<bytes>): bytes {
    if chunks == [] then [] else chunks[0] + Flatten(chunks[1..])
  }

  lemma TakeFirst(buf: bytes, chunks: seq<bytes>, n: nat)
    requires chunks != [] && 0 < n <= |chunks[0]|
    ensures var first, later := chunks[0], if n == |chunks[0]| then chunks[1..] else [chunks[0][n..]] + chunks[1..];
      && buf + Flatten(chunks) == (buf + first[..n]) + Flatten(later)
      && |Flatten(later)| < |Flatten(chunks)|
    ensures chunks[0][..|chunks[0]|] == chunks[0]
  {
  }

  // ---- what one call reads, as a function of the bytes still to come -------------------------

  /** A buffered reader's buffer, and whether the reader below it delivers its last bytes
      together with the end of the stream, or the end in a read of its own. */
  datatype Buffering = Buffering(size: nat, eofWithData: bool)

  // bufio never uses a buffer of fewer than 16 bytes.
  type Io = b: Buffering | b.size >= 16 witness Buffering(16, false)

  /** So many bytes fill the buffer before the end of the stream is known. */
  predicate Overflows(n: nat, io: Io) { n > io.size || (n == io.size && !io.eofWithData) }

  /** ReadLine's segment: a line without its terminator, a full buffer's worth, or the end. */
  datatype Segment = Segment(text: bytes, isPrefix: bool) | AtEof

  /** How many bytes of the stream the segment uses up. A full buffer that ends in CR gives
      the CR back, so that a line end split across the buffer is still seen. */
  function SegmentLength(rest: bytes, io: Io): (n: nat)
    ensures n <= |rest| && (rest != [] ==> n > 0)
  {
    var i := IndexNl(rest);
    if 0 <= i < io.size then i + 1
    else if Overflows(|rest|, io) then (if rest[io.size - 1] == CR then io.size - 1 else io.size)
    else |rest|
  }

  function StripCr(s: bytes): bytes { if s != [] && s[|s| - 1] == CR then s[..|s| - 1] else s }

  function NextSegment(rest: bytes, io: Io): Segment
  {
    var i := IndexNl(rest);
    if 0 <= i < io.size then Segment(StripCr(rest[..i]), false)
    else if Overflows(|rest|, io) then Segment(rest[..SegmentLength(rest, io)], true)
    else if rest == [] then AtEof
    else Segment(rest, false)
  }

  datatype Line = Line(text: bytes) | TooLong | Eof

  /** readLine with `acc` gathered so far: its answer and the bytes left unread. */
  function ReadFrom(rest: bytes, io: Io, cap: nat, acc: bytes): (Line, bytes)
    decreases |rest|
  {
    match NextSegment(rest, io)
    case AtEof => (Eof, rest)
    case Segment(text, more) =>
      var after := rest[SegmentLength(rest, io)..];
      if |acc + text| > cap then (TooLong, after)
      else if more then ReadFrom(after, io, cap, acc + text)
      else (Line(acc + text), after)
  }

  // ---- terminated lines ----------------------------------------------------------------------

  lemma IndexOfTerminator(line: bytes, more: bytes)
    requires NL !in line
    ensures IndexNl(line + [NL] + more) == |line|
  {
    assert (line + [NL] + more)[..|line|] == line;
    IndexIs(line + [NL] + more, |line|);
  }

  lemma StripLater(line: bytes, m: nat)
    requires m <= |line| && (m < |line| || line == [] || line[|line| - 1] != CR)
    ensures StripCr(line) == line[..m] + StripCr(line[m..])
  {
  }

  lemma PrefixOfLine(line: bytes, more: bytes, m: nat)
    requires m <= |line|
    ensures (line + [NL] + more)[..m] == line[..m] && (line + [NL] + more)[m..] == line[m..] + [NL] + more
  {
  }

  /** A line that does not fit the buffer gives up a prefix of itself. */
  lemma LongLine(line: bytes, more: bytes, io: Io)
    requires NL !in line && |line| >= io.size
    ensures var rest := line + [NL] + more;
      var m := SegmentLength(rest, io);
      && 0 < m <= |line| && NextSegment(rest, io) == Segment(line[..m], true)
      && rest[m..] == line[m..] + [NL] + more
      && StripCr(line) == line[..m] + StripCr(line[m..])
  {
    hide StripCr;
    var rest := line + [NL] + more;
    IndexOfTerminator(line, more);
    var m := SegmentLength(rest, io);
    PrefixOfLine(line, more, m);
    assert rest[io.size - 1] == line[io.size - 1];
    StripLater(line, m);
  }

  lemma ShortLine(line: bytes, more: bytes, io: Io)
    requires NL !in line && |line| < io.size
    ensures var rest := line + [NL] + more;
      && NextSegment(rest, io) == Segment(StripCr(line), false)
      && rest[SegmentLength(rest, io)..] == more
  {
    IndexOfTerminator(line, more);
    assert (line + [NL] + more)[..|line|] == line;
  }

  lemma {:induction false} ReadTerminated(line: bytes, more: bytes, io: Io, cap: nat, acc: bytes)
    requires NL !in line && |acc| <= cap
    ensures var text := acc + StripCr(line);
      var r := ReadFrom(line + [NL] + more, io, cap, acc);
      if |text| <= cap then r == (Line(text), more) else r.0 == TooLong
    decreases |line|
  {
    hide NextSegment, SegmentLength, StripCr;
    var rest := line + [NL] + more;
    if |line| < io.size {
      ShortLine(line, more, io);
    } else {
      LongLine(line, more, io);
      var m := SegmentLength(rest, io);
      assert acc + StripCr(line) == (acc + line[..m]) + StripCr(line[m..]);
      if |acc + line[..m]| <= cap {
        ReadTerminated(line[m..], more, io, cap, acc + line[..m]);
      }
    }
  }

  /** A terminated line is delivered without its terminator, LF or CR LF, and rejected
      exactly when what is left of it is longer than the cap, whatever the buffer size. */
  lemma TerminatedLine(line: bytes, more: bytes, io: Io, cap: nat)
    requires NL !in line
    ensures |StripCr(line)| <= cap ==> ReadFrom(line + [NL] + more, io, cap, []) == (Line(StripCr(line)), more)
    ensures ReadFrom(line + [NL] + more, io, cap, []).0 == TooLong <==> |StripCr(line)| > cap
  {
    ReadTerminated(line, more, io, cap, []);
    assert [] + StripCr(line) == StripCr(line);
  }

  // ---- the unterminated tail -----------------------------------------------------------------

  /** Full buffers, each less a CR given back at its end, use up the tail exactly. */
  predicate FillsBuffers(tail: bytes, io: Io)
    decreases |tail|
  {
    tail == [] || (Overflows(|tail|, io) && FillsBuffers(tail[SegmentLength(tail, io)..], io))
  }

  lemma TailSegment(tail: bytes, io: Io)
    requires NL !in tail
    ensures NextSegment(tail, io) == (
      if tail == [] then AtEof else Segment(tail[..SegmentLength(tail, io)], Overflows(|tail|, io)))
    ensures SegmentLength(tail, io) == (
      if !Overflows(|tail|, io) then |tail| else if tail[io.size - 1] == CR then io.size - 1 else io.size)
  {
  }

  /** A last line without a terminator is lost, readLine answering end of file, exactly when
      it fills whole buffers; otherwise it is delivered, or rejected as too long. */
  lemma {:induction false} UnterminatedTail(tail: bytes, io: Io, cap: nat, acc: bytes)
    requires NL !in tail && |acc| <= cap
    ensures ReadFrom(tail, io, cap, acc).0 == (
      if |acc| + |tail| > cap then TooLong
      else if FillsBuffers(tail, io) then Eof
      else Line(acc + tail))
    decreases |tail|
  {
    hide NextSegment, SegmentLength;
    TailSegment(tail, io);
    var m := SegmentLength(tail, io);
    if Overflows(|tail|, io) {
      var seg, after := tail[..m], tail[m..];
      if |acc + seg| <= cap {
        UnterminatedTail(after, io, cap, acc + seg);
        assert (acc + seg) + after == acc + tail;
      }
    } else {
      assert tail[..m] == tail;
    }
  }

  /** No tail is lost when the end of the stream comes with its last bytes; when it comes in
      a read of its own, the tails lost are, without CRs, those whose length is a multiple of
      the buffer's. */
  lemma {:induction false} LostTails(tail: bytes, io: Io)
    requires NL !in tail
    ensures io.eofWithData ==> (FillsBuffers(tail, io) <==> tail == [])
    ensures !io.eofWithData && CR !in tail ==> (FillsBuffers(tail, io) <==> Remainder(|tail|, io.size) == 0)
    decreases |tail|
  {
    hide SegmentLength, Remainder;
    TailSegment(tail, io);
    OneLess(|tail|, io.size);
    if io.eofWithData {
      if Overflows(|tail|, io) { LostTails(tail[SegmentLength(tail, io)..], io); }
    } else if |tail| >= io.size && CR !in tail {
      assert tail[io.size - 1] != CR;
      LostTails(tail[io.size..], io);
    }
  }

  function Remainder(n: nat, size: nat): nat
    requires size > 0
  {
    n % size
  }

  lemma OneLess(n: nat, size: nat)
    requires size > 0
    ensures n < size ==> Remainder(n, size) == n
    ensures n >= size ==> Remainder(n - size, size) == Remainder(n, size)
  {
    if n >= size { SameRemainder(n, size); }
  }

  lemma SameRemainder(n: nat, size: nat)
    requires n >= size > 0
    ensures (n - size) % size == n % size
  {
    var d: int := (n - size) / size - n / size + 1;
    assert d * size == n % size - (n - size) % size;
    assert d >= 1 ==> d * size >= size;
    assert d <= -1 ==> d * size <= -1 * size;
  }

  // ---- Next: blank lines are skipped -----------------------------------------------------------

  lemma ReadShrinks(rest: bytes, io: Io, cap: nat, acc: bytes)
    ensures |ReadFrom(rest, io, cap, acc).1| <= |rest|
    ensures ReadFrom(rest, io, cap, acc).0.Line? ==> |ReadFrom(rest, io, cap, acc).1| < |rest|
    decreases |rest|
  {
  }

  lemma SegmentUses(rest: bytes, io: Io)
    ensures NextSegment(rest, io).AtEof? <==> rest == []
    ensures NextSegment(rest, io).Segment? ==> |NextSegment(rest, io).text| <= io.size
  {
  }

  function NextLine(rest: bytes, io: Io, cap: nat): (Line, bytes)
    decreases |rest|
  {
    var (l, after) := ReadFrom(rest, io, cap, []);
    if l.Line? && l.text == [] then
      ReadShrinks(rest, io, cap, []);
      NextLine(after, io, cap)
    else (l, after)
  }

  /** How many blank lines come next. */
  function BlankLines(rest: bytes, io: Io, cap: nat): nat
    decreases |rest|
  {
    var (l, after) := ReadFrom(rest, io, cap, []);
    if l.Line? && l.text == [] then
      ReadShrinks(rest, io, cap, []);
      1 + BlankLines(after, io, cap)
    else 0
  }

  /** What follows the next n lines, all of them blank. */
  function AfterBlanks(rest: bytes, io: Io, cap: nat, n: nat): bytes
    requires n <= BlankLines(rest, io, cap)
    decreases n
  {
    if n == 0 then rest else AfterBlanks(ReadFrom(rest, io, cap, []).1, io, cap, n - 1)
  }

  lemma NextUnfolds(rest: bytes, io: Io, cap: nat, n: nat)
    ensures var (l, after) := ReadFrom(rest, io, cap, []);
      if l == Line([]) then
        && |after| < |rest| && BlankLines(rest, io, cap) == 1 + BlankLines(after, io, cap)
        && NextLine(rest, io, cap) == NextLine(after, io, cap)
        && (0 < n <= BlankLines(rest, io, cap) ==>
              AfterBlanks(rest, io, cap, n) == AfterBlanks(after, io, cap, n - 1))
      else BlankLines(rest, io, cap) == 0 && NextLine(rest, io, cap) == (l, after)
    ensures AfterBlanks(rest, io, cap, 0) == rest
  {
    hide ReadFrom;
    ReadShrinks(rest, io, cap, []);
  }

  /** The lines of the whole stream, up to the end or the first rejected line. */
  function AllLines(rest: bytes, io: Io, cap: nat): (seq<bytes>, Line)
    decreases |rest|
  {
    var (l, after) := NextLine(rest, io, cap);
    if l.Line? then
      NextShrinks(rest, io, cap);
      var (lines, end) := AllLines(after, io, cap);
      ([l.text] + lines, end)
    else ([], l)
  }

  lemma NextShrinks(rest: bytes, io: Io, cap: nat)
    ensures NextLine(rest, io, cap).0.Line? ==> |NextLine(rest, io, cap).1| < |rest|
    ensures NextLine(rest, io, cap).0 != Line([])
    decreases |rest|
  {
    hide ReadFrom;
    ReadShrinks(rest, io, cap, []);
    var (l, after) := ReadFrom(rest, io, cap, []);
    if l.Line? && l.text == [] { NextShrinks(after, io, cap); }
  }

  /** What a collector writes: lines and blank lines, each ended by a newline. */
  function Written(items: seq<bytes>): bytes {
    if items == [] then [] else items[0] + [NL] + Written(items[1..])
  }

  function NonBlank(items: seq<bytes>): seq<bytes> {
    if items == [] then [] else (if items[0] == [] then [] else [items[0]]) + NonBlank(items[1..])
  }

  /** Lines without newlines, not ending in CR and within the cap come back exactly, blank
      lines left out, and then the end of the stream. */
  lemma {:induction false} FramingRoundTrip(items: seq<bytes>, io: Io, cap: nat)
    requires forall i :: 0 <= i < |items| ==> NL !in items[i] && StripCr(items[i]) == items[i] && |items[i]| <= cap
    ensures AllLines(Written(items), io, cap) == (NonBlank(items), Eof)
  {
    hide ReadFrom;
    if items == [] {
      assert ReadFrom([], io, cap, []) == (Eof, []) by { EmptyStream(io, cap); }
    } else {
      var rest, after := Written(items), Written(items[1..]);
      FramingRoundTrip(items[1..], io, cap);
      TerminatedLine(items[0], after, io, cap);
      assert ReadFrom(rest, io, cap, []) == (Line(items[0]), after);
      if items[0] == [] {
        assert NextLine(rest, io, cap) == NextLine(after, io, cap);
        SameNext(rest, after, io, cap);
        assert NonBlank(items) == NonBlank(items[1..]);
      } else {
        assert NextLine(rest, io, cap) == (Line(items[0]), after);
      }
    }
  }

  lemma SameNext(rest: bytes, after: bytes, io: Io, cap: nat)
    requires NextLine(rest, io, cap) == NextLine(after, io, cap)
    ensures AllLines(rest, io, cap) == AllLines(after, io, cap)
  {
  }

  lemma EmptyStream(io: Io, cap: nat)
    ensures ReadFrom([], io, cap, []) == (Eof, [])
  {
  }

  // ---- what comes next, byte for byte ------------------------------------------------------------

  /** n blank lines, LF or CR LF each, and then `after`. */
  predicate BlankThen(rest: bytes, n: nat, after: bytes) {
    if n == 0 then rest == after
    else
      || (|rest| >= 1 && rest[0] == 10 && BlankThen(rest[1..], n - 1, after))
      || (|rest| >= 2 && rest[0] == 13 && rest[1] == 10 && BlankThen(rest[2..], n - 1, after))
  }

  /** A line that is not blank, ended by LF or CR LF. */
  predicate LineFirst(rest: bytes, text: bytes, more: bytes) {
    && text != [] && 10 !in text
    && (rest == text + [13, 10] + more || (rest == text + [10] + more && text[|text| - 1] != 13))
  }

  /** Whatever comes is blank lines and then a line that is none or what no newline ends. */
  lemma {:induction false} SomethingComes(rest: bytes) returns (n: nat, after: bytes, text: bytes, more: bytes)
    ensures BlankThen(rest, n, after) && (10 !in after || LineFirst(after, text, more))
    decreases |rest|
  {
    var i := IndexNl(rest);
    if i < 0 {
      n, after, text, more := 0, rest, [], [];
    } else if i == 0 || (i == 1 && rest[0] == 13) {
      n, after, text, more := SomethingComes(rest[i + 1..]);
      n := n + 1;
    } else {
      n, after, more := 0, rest, rest[i + 1..];
      text := if rest[i - 1] == 13 then rest[..i - 1] else rest[..i];
    }
  }

  lemma BlankRead(rest: bytes, io: Io, cap: nat)
    ensures |rest| >= 1 && rest[0] == 10 ==> ReadFrom(rest, io, cap, []) == (Line([]), rest[1..])
    ensures |rest| >= 2 && rest[0] == 13 && rest[1] == 10 ==> ReadFrom(rest, io, cap, []) == (Line([]), rest[2..])
  {
    hide ReadFrom;
    if |rest| >= 1 && rest[0] == 10 {
      TerminatedLine([], rest[1..], io, cap);
      assert rest == [] + [NL] + rest[1..];
    }
    if |rest| >= 2 && rest[0] == 13 && rest[1] == 10 {
      TerminatedLine([CR], rest[2..], io, cap);
      assert rest == [CR] + [NL] + rest[2..];
    }
  }

  lemma FirstRead(rest: bytes, text: bytes, more: bytes, io: Io, cap: nat)
    requires LineFirst(rest, text, more)
    ensures var r := ReadFrom(rest, io, cap, []); if |text| > cap then r.0 == TooLong else r == (Line(text), more)
  {
    hide ReadFrom;
    if rest == text + [13, 10] + more {
      TerminatedLine(text + [CR], more, io, cap);
      assert rest == text + [CR] + [NL] + more;
    } else {
      TerminatedLine(text, more, io, cap);
    }
  }

  /** Blank lines are passed over, whatever they are followed by. */
  lemma {:induction false} PastBlanks(rest: bytes, n: nat, after: bytes, io: Io, cap: nat)
    requires BlankThen(rest, n, after)
    ensures BlankLines(rest, io, cap) == n + BlankLines(after, io, cap)
    ensures NextLine(rest, io, cap) == NextLine(after, io, cap)
    decreases n
  {
    if n > 0 {
      hide ReadFrom, NextLine, BlankLines;
      BlankRead(rest, io, cap);
      NextUnfolds(rest, io, cap, 0);
      if rest[0] == 10 {
        PastBlanks(rest[1..], n - 1, after, io, cap);
      } else {
        PastBlanks(rest[2..], n - 1, after, io, cap);
      }
    }
  }

  lemma LineComes(rest: bytes, n: nat, after: bytes, text: bytes, more: bytes, io: Io, cap: nat)
    requires BlankThen(rest, n, after) && LineFirst(after, text, more)
    ensures BlankLines(rest, io, cap) == n
    ensures var r := NextLine(rest, io, cap); if |text| > cap then r.0 == TooLong else r == (Line(text), more)
  {
    hide ReadFrom, NextLine, BlankLines, BlankThen, LineFirst;
    PastBlanks(rest, n, after, io, cap);
    FirstRead(after, text, more, io, cap);
    NextUnfolds(after, io, cap, 0);
    assert text != [] by { NotBlank(after, text, more); }
  }

  lemma NotBlank(rest: bytes, text: bytes, more: bytes)
    requires LineFirst(rest, text, more)
    ensures text != []
  {
  }

  lemma TailComes(rest: bytes, n: nat, tail: bytes, io: Io, cap: nat)
    requires BlankThen(rest, n, tail) && 10 !in tail
    ensures BlankLines(rest, io, cap) == n
    ensures NextLine(rest, io, cap).0 == (
      if |tail| > cap then TooLong else if FillsBuffers(tail, io) then Eof else Line(tail))
  {
    hide ReadFrom, NextLine, BlankLines, BlankThen;
    PastBlanks(rest, n, tail, io, cap);
    UnterminatedTail(tail, io, cap, []);
    assert [] + tail == tail;
    NextUnfolds(tail, io, cap, 0);
  }

  lemma {:induction false} FewBlanks(rest: bytes, io: Io, cap: nat)
    ensures BlankLines(rest, io, cap) <= |rest|
    decreases |rest|
  {
    hide ReadFrom, BlankLines;
    NextUnfolds(rest, io, cap, 0);
    var (l, after) := ReadFrom(rest, io, cap, []);
    if l == Line([]) { FewBlanks(after, io, cap); }
  }

  /** The most bytes readLine holds while it reads one line. */
  function Peak(rest: bytes, io: Io, cap: nat, acc: bytes): nat
    decreases |rest|
  {
    match NextSegment(rest, io)
    case AtEof => |acc|
    case Segment(text, more) =>
      if more && |acc + text| <= cap then Peak(rest[SegmentLength(rest, io)..], io, cap, acc + text)
      else |acc + text|
  }

  /** The buffer never exceeds the cap by more than one segment, however long the line. */
  lemma {:induction false} BufferBounded(rest: bytes, io: Io, cap: nat, acc: bytes)
    requires |acc| <= cap
    ensures Peak(rest, io, cap, acc) <= cap + io.size
    decreases |rest|
  {
    hide NextSegment, SegmentLength, IndexNl;
    SegmentUses(rest, io);
    var s := NextSegment(rest, io);
    if s.Segment? && s.isPrefix && |acc + s.text| <= cap {
      BufferBounded(rest[SegmentLength(rest, io)..], io, cap, acc + s.text);
    }
  }

  // ---- the readers -------------------------------------------------------------------------------

  /** bufio.Reader over an io.Reader whose coming reads deliver `chunks`, then end. */
  class BufReader {
    const io: Io
    var buf: bytes
    var chunks: seq<bytes>

    predicate Valid()
      reads this
    {
      |buf| <= io.size && forall i :: 0 <= i < |chunks| ==> chunks[i] != []
    }

    /** The bytes still to come, however they will arrive. */
    function Rest(): bytes
      reads this
    {
      buf + Flatten(chunks)
    }

    constructor (io: Io, chunks: seq<bytes>)
      requires forall i :: 0 <= i < |chunks| ==> chunks[i] != []
      ensures Valid() && Rest() == Flatten(chunks) && this.io == io
    {
      this.io, buf, this.chunks := io, [], chunks;
    }

    /** One Read into the free part of the buffer. */
    method Fill()
      requires Valid() && |buf| < io.size && chunks != []
      modifies this
      ensures Valid() && Rest() == old(Rest()) && |buf| > |old(buf)|
      ensures |Flatten(chunks)| < |old(Flatten(chunks))|
    {
      var first := chunks[0];
      var n := if |first| <= io.size - |buf| then |first| else io.size - |buf|;
      TakeFirst(buf, chunks, n);
      hide Flatten;
      if n == |first| {
        buf, chunks := buf + first, chunks[1..];
      } else {
        buf, chunks := buf + first[..n], [first[n..]] + chunks[1..];
      }
    }

    /** ReadSlice up to a newline, the end of the stream or a full buffer. */
    method ReadSlice() returns (line: bytes, full: bool)
      requires Valid()
      modifies this
      ensures Valid() && old(Rest()) == line + Rest()
      ensures var rest, i := old(Rest()), IndexNl(old(Rest()));
        if 0 <= i < io.size then line == rest[..i + 1] && !full
        else if Overflows(|rest|, io) then line == rest[..io.size] && full && buf == []
        else line == rest && !full && Rest() == []
    {
      while true
        invariant Valid() && Rest() == old(Rest())
        decreases |Flatten(chunks)|
      {
        var i := IndexNl(buf);
        if i >= 0 {
          FirstIndex(buf, Flatten(chunks));
          line, buf, full := buf[..i + 1], buf[i + 1..], false;
          return;
        }
        NoIndex(buf, Flatten(chunks));
        // A pending end of stream is looked at before the full buffer.
        if |buf| >= io.size || chunks == [] {
          line, full := buf, |buf| >= io.size && !(chunks == [] && io.eofWithData);
          assert chunks == [] ==> Flatten(chunks) == [];
          buf := [];
          return;
        }
        Fill();
      }
    }

    /** A full buffer's line; a CR at its end is put back, for which the emptied buffer has
        room. */
    method TakeFull(line: bytes) returns (s: Segment)
      requires Valid() && buf == [] && line != []
      modifies this`buf
      ensures Valid()
      ensures var n := if line[|line| - 1] == CR then |line| - 1 else |line|;
        s == Segment(line[..n], true) && Rest() == line[n..] + old(Rest())
    {
      var n := |line|;
      if line[n - 1] == CR {
        n := n - 1;
        buf := line[n..];
      }
      s := Segment(line[..n], true);
    }

    /** bufio.ReadLine */
    method ReadLine() returns (s: Segment)
      requires Valid()
      modifies this
      ensures Valid() && s == NextSegment(old(Rest()), io)
      ensures Rest() == old(Rest())[SegmentLength(old(Rest()), io)..]
    {
      hide IndexNl, NextSegment, SegmentLength, StripCr, Rest;
      ghost var rest := Rest();
      var line, full := ReadSlice();
      SliceLeaves(rest, line, Rest());
      if full {
        FullSlice(rest, io, line);
        SliceParts(rest, line, SegmentLength(rest, io));
        s := TakeFull(line);
        SliceLeaves(rest, s.text, Rest());
        return;
      }
      LineSlice(rest, io, line);
      if |line| == 0 { return AtEof; }
      if line[|line| - 1] == NL {
        var drop := 1;
        if |line| > 1 && line[|line| - 2] == CR { drop := 2; }
        return Segment(line[..|line| - drop], false);
      }
      return Segment(line, false);
    }
  }

  lemma SliceLeaves(rest: bytes, line: bytes, after: bytes)
    ensures rest == line + after ==> rest[|line|..] == after
  {
  }

  /** The length of the line end of a line that has one: LF or CR LF. */
  function Terminator(line: bytes): (n: nat)
    ensures line != [] ==> n <= |line|
  {
    if |line| > 1 && line[|line| - 2] == CR then 2 else 1
  }

  /** What ReadSlice stopped at a full buffer makes of the coming segment. */
  lemma FullSlice(rest: bytes, io: Io, line: bytes)
    requires Overflows(|rest|, io) && line == rest[..io.size] && !(0 <= IndexNl(rest) < io.size)
    ensures var n := if line[io.size - 1] == CR then io.size - 1 else io.size;
      && SegmentLength(rest, io) == n
      && NextSegment(rest, io) == Segment(line[..n], true)
      && (n < io.size ==> line[n..] == [CR])
  {
    hide IndexNl;
    var n := if line[io.size - 1] == CR then io.size - 1 else io.size;
    assert rest[..n] == line[..n];
  }

  lemma SliceParts(rest: bytes, line: bytes, n: nat)
    requires line <= rest && n <= |line|
    ensures rest == line[..n] + line[n..] + rest[|line|..]
  {
  }

  lemma StripTerminated(line: bytes)
    requires line != []
    ensures Terminator(line) <= |line|
    ensures StripCr(line[..|line| - 1]) == line[..|line| - Terminator(line)]
  {
  }

  /** ... and what it makes of it otherwise. */
  lemma LineSlice(rest: bytes, io: Io, line: bytes)
    requires var i := IndexNl(rest);
      if 0 <= i < io.size then line == rest[..i + 1] else !Overflows(|rest|, io) && line == rest
    ensures SegmentLength(rest, io) == |line|
    ensures NextSegment(rest, io) == (
      if line == [] then AtEof
      else if line[|line| - 1] == NL then Segment(line[..|line| - Terminator(line)], false)
      else Segment(line, false))
  {
    hide IndexNl, StripCr, Terminator;
    var i := IndexNl(rest);
    if 0 <= i < io.size {
      assert line[..i] == rest[..i];
      StripTerminated(line);
    } else if line != [] {
      assert rest[|line| - 1] in rest;
    }
  }

  lemma FirstIndex(buf: bytes, later: bytes)
    requires NL in buf
    ensures IndexNl(buf + later) == IndexNl(buf)
  {
    var k := IndexNl(buf);
    assert (buf + later)[..k] == buf[..k];
    IndexIs(buf + later, k);
  }

  lemma NoIndex(buf: bytes, later: bytes)
    requires NL !in buf
    ensures IndexNl(buf + later) < 0 || IndexNl(buf + later) >= |buf|
  {
  }

  // ---- readLine and Next -----------------------------------------------------------------------------

  /** What Next answers; `decode` stands for json.Unmarshal of the line's head. */
  datatype Reply = Event(kind: string, raw: bytes) | EndOfStream | LineTooLong | BadJson | MissingType | Cancelled

  class Reader {
    const br: BufReader
    const maxLine: nat
    const decode: bytes -> Option<string>

    constructor (chunks: seq<bytes>, eofWithData: bool, lineLimit: int, decode: bytes -> Option<string>)
      requires forall i :: 0 <= i < |chunks| ==> chunks[i] != []
      ensures br.Valid() && fresh(br) && br.io == Buffering(0x1_0000, eofWithData) && br.Rest() == Flatten(chunks)
      ensures maxLine == (if lineLimit <= 0 then 0x10_0000 else lineLimit) && this.decode == decode
    {
      this.decode := decode;
      maxLine := if lineLimit <= 0 then 0x10_0000 else lineLimit;
      br := new BufReader(Buffering(0x1_0000, eofWithData), chunks);
    }

    /** readLine: the cap is checked after every segment; `peak` is the most bytes it held. */
    method ReadLine() returns (l: Line, ghost peak: nat)
      requires br.Valid()
      modifies br
      ensures br.Valid() && (l, br.Rest()) == ReadFrom(old(br.Rest()), br.io, maxLine, [])
      ensures peak == Peak(old(br.Rest()), br.io, maxLine, []) <= maxLine + br.io.size
    {
      var text: bytes := [];
      BufferBounded(br.Rest(), br.io, maxLine, []);
      while true
        invariant br.Valid() && |text| <= maxLine
        invariant ReadFrom(br.Rest(), br.io, maxLine, text) == ReadFrom(old(br.Rest()), br.io, maxLine, [])
        invariant Peak(br.Rest(), br.io, maxLine, text) == Peak(old(br.Rest()), br.io, maxLine, [])
        decreases |br.Rest()|
      {
        ghost var rest := br.Rest();
        var s := br.ReadLine();
        if s.AtEof? { return Eof, |text|; }
        text := text + s.text;
        peak := |text|;
        if |text| > maxLine { return TooLong, peak; }
        if !s.isPrefix { return Line(text), peak; }
      }
    }

    /** What there is to answer to a line's text. */
    predicate Answers(r: Reply, text: bytes) {
      && (decode(text).None? ==> r == BadJson)
      && (decode(text).Some? && decode(text).value == "" ==> r == MissingType)
      && (decode(text).Some? && decode(text).value != "" ==> r == Event(decode(text).value, text))
    }

    /** Next, whatever pieces the stream arrives in. The context is looked at before each line
        and found done from the `live`-th look on. */
    method Next(live: nat) returns (r: Reply)
      requires br.Valid()
      modifies br
      ensures br.Valid()
      ensures r.Cancelled? <==> live <= BlankLines(old(br.Rest()), br.io, maxLine)
      ensures r.Cancelled? ==> br.Rest() == AfterBlanks(old(br.Rest()), br.io, maxLine, live)
      ensures !r.Cancelled? ==>
        var (l, after) := NextLine(old(br.Rest()), br.io, maxLine);
        && br.Rest() == after && (r.LineTooLong? <==> l.TooLong?) && (r.EndOfStream? <==> l.Eof?)
        && (l.Line? ==> Answers(r, l.text))
      ensures forall n: nat, after, text, more ::
        BlankThen(old(br.Rest()), n, after) && LineFirst(after, text, more) ==>
          if live <= n then r.Cancelled?
          else if |text| > maxLine then r.LineTooLong?
          else Answers(r, text) && br.Rest() == more
      ensures forall n: nat, tail :: BlankThen(old(br.Rest()), n, tail) && 10 !in tail ==>
        if live <= n then r.Cancelled?
        else if |tail| > maxLine then r.LineTooLong?
        else if FillsBuffers(tail, br.io) then r.EndOfStream?
        else Answers(r, tail)
      ensures r.EndOfStream? <==> exists n: nat, tail ::
        n < live && BlankThen(old(br.Rest()), n, tail) && 10 !in tail && |tail| <= maxLine && FillsBuffers(tail, br.io)
      decreases |br.Rest()|
    {
      hide ReadFrom, NextLine, BlankLines, AfterBlanks, Flatten, Peak, BlankThen, LineFirst, FillsBuffers;
      ghost var rest := br.Rest();
      NextUnfolds(rest, br.io, maxLine, live);
      Coming(rest);
      if live == 0 { return Cancelled; }
      var l, _ := ReadLine();
      match l
      case Eof => r := EndOfStream;
      case TooLong => r := LineTooLong;
      case Line(text) =>
        if |text| == 0 {
          r := Next(live - 1);
          return;
        }
        var head := decode(text);
        r := if head.None? then BadJson else if head.value == "" then MissingType else Event(head.value, text);
    }

    lemma Coming(rest: bytes)
      ensures forall n: nat, after, text, more :: BlankThen(rest, n, after) && LineFirst(after, text, more) ==>
        && BlankLines(rest, br.io, maxLine) == n
        && var r := NextLine(rest, br.io, maxLine); if |text| > maxLine then r.0 == TooLong else r == (Line(text), more)
      ensures forall n: nat, tail :: BlankThen(rest, n, tail) && 10 !in tail ==>
        && BlankLines(rest, br.io, maxLine) == n
        && NextLine(rest, br.io, maxLine).0 == (
             if |tail| > maxLine then TooLong else if FillsBuffers(tail, br.io) then Eof else Line(tail))
      ensures NextLine(rest, br.io, maxLine).0.Eof? ==> exists n: nat, tail ::
        && n == BlankLines(rest, br.io, maxLine) && BlankThen(rest, n, tail) && 10 !in tail
        && |tail| <= maxLine && FillsBuffers(tail, br.io)
    {
      var m, rest', text', more' := SomethingComes(rest);
      hide BlankThen, LineFirst, BlankLines, NextLine, FillsBuffers;
      forall n: nat, after, text, more | BlankThen(rest, n, after) && LineFirst(after, text, more)
        ensures BlankLines(rest, br.io, maxLine) == n
        ensures var r := NextLine(rest, br.io, maxLine);
          if |text| > maxLine then r.0 == TooLong else r == (Line(text), more)
      {
        LineComes(rest, n, after, text, more, br.io, maxLine);
      }
      forall n: nat, tail | BlankThen(rest, n, tail) && 10 !in tail
        ensures BlankLines(rest, br.io, maxLine) == n
        ensures NextLine(rest, br.io, maxLine).0 == (
          if |tail| > maxLine then TooLong else if FillsBuffers(tail, br.io) then Eof else Line(tail))
      {
        TailComes(rest, n, tail, br.io, maxLine);
      }
    }
  }

  // ---- the supervisor's loop ---------------------------------------------------------------------

  /** The event the loop makes of a line, if it makes one. */
  predicate Delivers(decode: bytes -> Option<string>, payloadOk: bytes -> bool, line: bytes, event: Reply) {
    decode(line).Some? && decode(line).value != "" && payloadOk(line) && event == Event(decode(line).value, line)
  }

  predicate Malformed(decode: bytes -> Option<string>, payloadOk: bytes -> bool, line: bytes) {
    decode(line).None? || decode(line).value == "" || !payloadOk(line)
  }

  predicate IsDone(event: Reply) { event.Event? && event.kind == "done" }

  lemma LinesUnfold(rest: bytes, io: Io, cap: nat)
    ensures var (l, after) := NextLine(rest, io, cap); var (lines, end) := AllLines(rest, io, cap);
      if l.Line? then
        && |after| < |rest| && lines == [l.text] + AllLines(after, io, cap).0 && end == AllLines(after, io, cap).1
      else lines == [] && end == l
  {
    NextShrinks(rest, io, cap);
    hide NextLine;
  }

  /** The lines of the stream are delivered in order up to "done", the end of the stream or the
      first that is malformed; all is well exactly after "done" or when the whole stream was
      events and none of it too long. */
  ghost predicate Received(decode: bytes -> Option<string>, payloadOk: bytes -> bool, lines: seq<bytes>, end: Line,
        events: seq<Reply>, ok: bool)
  {
    && |events| <= |lines|
    && (forall i :: 0 <= i < |events| ==> Delivers(decode, payloadOk, lines[i], events[i]))
    && (forall i :: 0 <= i < |events| - 1 ==> !IsDone(events[i]))
    && (ok <==> (events != [] && IsDone(events[|events| - 1])) || (|events| == |lines| && end.Eof?))
    && (!ok && |events| < |lines| ==> Malformed(decode, payloadOk, lines[|events|]))
  }

  /** What a collector writes, blank lines aside, is what the supervisor delivers: lines within
      the cap, without LF and not ending in CR, that are events and none of them "done". */
  lemma WrittenIsReceived(decode: bytes -> Option<string>, payloadOk: bytes -> bool, items: seq<bytes>, io: Io,
        cap: nat, events: seq<Reply>, ok: bool)
    requires forall k :: 0 <= k < |items| ==>
      10 !in items[k] && |items[k]| <= cap && (items[k] != [] ==> items[k][|items[k]| - 1] != 13)
    requires forall k :: 0 <= k < |NonBlank(items)| ==>
      var line := NonBlank(items)[k];
      decode(line).Some? && decode(line).value != "" && decode(line).value != "done" && payloadOk(line)
    requires var (lines, end) := AllLines(Written(items), io, cap);
      Received(decode, payloadOk, lines, end, events, ok)
    ensures ok && |events| == |NonBlank(items)|
    ensures forall k :: 0 <= k < |events| ==>
      events[k] == Event(decode(NonBlank(items)[k]).value, NonBlank(items)[k])
  {
    hide AllLines, Written;
    FramingRoundTrip(items, io, cap);
  }

  /** The supervisor's reading loop, the context staying live; payloadOk stands for
      json.Unmarshal of a payload. */
  method Receive(rdr: Reader, payloadOk: bytes -> bool) returns (events: seq<Reply>, ok: bool)
    requires rdr.br.Valid()
    modifies rdr.br
    ensures rdr.br.Valid()
    ensures var (lines, end) := AllLines(old(rdr.br.Rest()), rdr.br.io, rdr.maxLine);
      Received(rdr.decode, payloadOk, lines, end, events, ok)
  {
    hide NextLine, AllLines, BlankLines, Flatten;
    var io, cap := rdr.br.io, rdr.maxLine;
    ghost var (lines, end) := AllLines(rdr.br.Rest(), io, cap);
    events := [];
    while true
      invariant rdr.br.Valid() && |events| <= |lines|
      invariant (lines[|events|..], end) == AllLines(rdr.br.Rest(), io, cap)
      invariant forall i :: 0 <= i < |events| ==> Delivers(rdr.decode, payloadOk, lines[i], events[i])
      invariant forall i :: 0 <= i < |events| ==> !IsDone(events[i])
      decreases |rdr.br.Rest()|
    {
      ghost var rest, coming := rdr.br.Rest(), lines[|events|..];
      FewBlanks(rest, io, cap);
      LinesUnfold(rest, io, cap);
      var r := rdr.Next(|rdr.br.Rest()| + 1);
      if r.EndOfStream? { return events, true; }
      if !r.Event? || !payloadOk(r.raw) { return events, false; }
      events := events + [r];
      assert lines[|events|..] == coming[1..];
      if r.kind == "done" { return events, true; }
    }
  }
}
