/** Splitting a receive-pack stream at its first flush-pkt.

    Framing follows gitprotocol-common(5), section "pkt-line Format". A stream is a
    sequence of bytes, each written as the character with that code. */
module PktLine {
  import opened Options

  type byte = c: char | c as int < 0x100 witness '0'
  type bytes = seq<byte>

  // ---- Length headers ----------------------------------------------------------

  /** The value of a hex digit, in either case. */
  function HexValue(c: char): Option<nat> {
    if '0' <= c <= '9' then Some(c as nat - '0' as nat)
    else if 'a' <= c <= 'f' then Some(c as nat - 'a' as nat + 10)
    else if 'A' <= c <= 'F' then Some(c as nat - 'A' as nat + 10)
    else None
  }

  /** An unsigned hex number: digits only. */
  function ParseDigits(s: bytes): Option<nat> {
    if s == [] then Some(0)
    else
      match (ParseDigits(s[..|s| - 1]), HexValue(s[|s| - 1]))
      case (Some(high), Some(low)) => Some(16 * high + low)
      case _ => None
  }

  /** A 4-byte length header. As `usize::from_str_radix` reads it, one leading `+` is
      accepted, so `+000` is a zero length. */
  function ParseLength(header: bytes): Option<nat>
    requires |header| == 4
  {
    if header[0] == '+' then ParseDigits(header[1..]) else ParseDigits(header)
  }

  function HexDigit(d: nat): (c: byte)
    requires d < 16
    ensures HexValue(c) == Some(d)
  {
    if d < 10 then ('0' as int + d) as char else ('a' as int + (d - 10)) as char
  }

  /** `n` as four lower-case hex digits. */
  function FormatLength(n: nat): (header: bytes)
    requires n < 0x1_0000
    ensures |header| == 4
  {
    [HexDigit(n / 16 / 16 / 16)] + [HexDigit(n / 16 / 16 % 16)] + [HexDigit(n / 16 % 16)] + [HexDigit(n % 16)]
  }

  lemma ParseDigitsSnoc(s: bytes, c: byte)
    ensures ParseDigits(s + [c]) ==
            if ParseDigits(s).Some? && HexValue(c).Some?
            then Some(16 * ParseDigits(s).value + HexValue(c).value)
            else None
  {
    assert (s + [c])[..|s|] == s;
  }

  /** Formatting a length and parsing it back is the identity. */
  lemma FormatThenParse(n: nat)
    requires n < 0x1_0000
    ensures ParseLength(FormatLength(n)) == Some(n)
  {
    var a, b, c, d := HexDigit(n / 16 / 16 / 16), HexDigit(n / 16 / 16 % 16), HexDigit(n / 16 % 16), HexDigit(n % 16);
    ParseDigitsSnoc([], a);
    assert [] + [a] == [a];
    ParseDigitsSnoc([a], b);
    ParseDigitsSnoc([a] + [b], c);
    ParseDigitsSnoc([a] + [b] + [c], d);
    assert a != '+';
  }

  // ---- The machine, one byte at a time -----------------------------------------

  datatype WireCounts = WireCounts(total: nat, preFlush: nat, preFlushPkts: nat, postFlush: nat)

  datatype State = Header | Payload | AfterFlush | Unframed

  /** Everything the counter carries from one read to the next: its state, the counts on
      each side of the flush, the header bytes gathered so far, and the payload bytes
      still to skip. */
  datatype Machine = Machine(state: State, preFlush: nat, pkts: nat, postFlush: nat, header: bytes, remaining: nat)

  const START := Machine(Header, 0, 0, 0, [], 0)

  ghost predicate Consistent(m: Machine) {
    && (m.state.Header? ==> |m.header| < 4 && m.remaining == 0)
    && (m.state.Payload? ==> m.remaining > 0 && m.header == [])
    && (m.state.AfterFlush? || m.state.Unframed? ==> m.header == [] && m.remaining == 0)
  }

  /** Act on a complete header, with none of the next gathered yet. */
  function Framed(m: Machine, header: bytes): Machine
    requires |header| == 4
  {
    var packet := m.(pkts := m.pkts + 1);
    match ParseLength(header)
    case Some(len) =>
      if len == 0 then m.(state := AfterFlush)
      else if len <= 2 then packet
      else if len == 3 then m.(state := Unframed)
      else if len == 4 then packet
      else packet.(state := Payload, remaining := len - 4)
    case None => m.(state := Unframed)
  }

  /** Take one byte. */
  function Step(m: Machine, b: byte): Machine
    requires Consistent(m)
  {
    match m.state
    case Header =>
      var header, counted := m.header + [b], m.(preFlush := m.preFlush + 1);
      if |header| < 4 then counted.(header := header) else Framed(counted.(header := []), header)
    case Payload =>
      m.(preFlush := m.preFlush + 1, remaining := m.remaining - 1,
         state := if m.remaining == 1 then Header else Payload)
    case AfterFlush => m.(postFlush := m.postFlush + 1)
    case Unframed => m.(postFlush := m.postFlush + 1)
  }

  /** Take a run of bytes, first to last. Every byte is counted on exactly one side. */
  function Run(m: Machine, s: bytes): (r: Machine)
    requires Consistent(m)
    ensures Consistent(r)
    ensures r.preFlush + r.postFlush == m.preFlush + m.postFlush + |s|
    decreases |s|
  {
    if s == [] then m else Run(Step(m, s[0]), s[1..])
  }

  /** The counts a machine stands for. */
  function CountsOf(m: Machine): WireCounts {
    WireCounts(m.preFlush + m.postFlush, m.preFlush, m.pkts, m.postFlush)
  }

  /** The split of a whole stream. */
  function SplitOf(s: bytes): WireCounts {
    CountsOf(Run(START, s))
  }

  lemma RunNothing(m: Machine)
    requires Consistent(m)
    ensures Run(m, []) == m
  {
  }

  lemma {:induction false} RunConcat(m: Machine, a: bytes, b: bytes)
    requires Consistent(m)
    ensures Run(m, a + b) == Run(Run(m, a), b)
    decreases |a|
  {
    if a == [] {
      assert a + b == b;
    } else {
      assert (a + b)[0] == a[0] && (a + b)[1..] == a[1..] + b;
      RunConcat(Step(m, a[0]), a[1..], b);
    }
  }

  function Concat(chunks: seq<bytes>): bytes {
    if chunks == [] then [] else Concat(chunks[..|chunks| - 1]) + chunks[|chunks| - 1]
  }

  /** Feed chunk after chunk. */
  function RunChunks(m: Machine, chunks: seq<bytes>): (r: Machine)
    requires Consistent(m)
    ensures Consistent(r)
  {
    if chunks == [] then m else Run(RunChunks(m, chunks[..|chunks| - 1]), chunks[|chunks| - 1])
  }

  /** Chunk boundaries do not matter: any chunking of a stream leaves the same counters
      and the same resumable state as the whole stream at once. */
  lemma {:induction false} ChunkingIsIrrelevant(m: Machine, chunks: seq<bytes>)
    requires Consistent(m)
    ensures RunChunks(m, chunks) == Run(m, Concat(chunks))
  {
    if chunks != [] {
      ChunkingIsIrrelevant(m, chunks[..|chunks| - 1]);
      RunConcat(m, Concat(chunks[..|chunks| - 1]), chunks[|chunks| - 1]);
    }
  }

  // ---- Runs within one state ---------------------------------------------------

  lemma {:induction false} RunPastFraming(m: Machine, s: bytes)
    requires Consistent(m) && (m.state.AfterFlush? || m.state.Unframed?)
    ensures Run(m, s) == m.(postFlush := m.postFlush + |s|)
    decreases |s|
  {
    if s != [] { RunPastFraming(Step(m, s[0]), s[1..]); }
  }

  lemma {:induction false} RunPayload(m: Machine, s: bytes)
    requires Consistent(m) && m.state.Payload? && |s| <= m.remaining
    ensures Run(m, s) == m.(preFlush := m.preFlush + |s|, remaining := m.remaining - |s|,
                            state := if m.remaining == |s| then Header else Payload)
    decreases |s|
  {
    if |s| == 1 {
      assert s[1..] == [];
      assert Run(m, s) == Run(Step(m, s[0]), []);
    } else if s != [] {
      RunPayload(Step(m, s[0]), s[1..]);
    }
  }

  lemma {:induction false} RunHeader(m: Machine, s: bytes)
    requires Consistent(m) && m.state.Header? && |m.header| + |s| <= 4
    ensures Run(m, s) ==
            if |m.header| + |s| < 4 then m.(preFlush := m.preFlush + |s|, header := m.header + s)
            else Framed(m.(preFlush := m.preFlush + |s|, header := []), m.header + s)
    decreases |s|
  {
    hide ParseLength;
    if s == [] {
      assert m.header + s == m.header;
    } else if |m.header| + 1 == 4 {
      assert s[1..] == [] && s == [s[0]];
      assert Run(m, s) == Run(Step(m, s[0]), []);
    } else {
      assert m.header + [s[0]] + s[1..] == m.header + s;
      RunHeader(Step(m, s[0]), s[1..]);
    }
  }

  // ---- The counter as the code keeps it ----------------------------------------

  /** Counts one direction of a receive-pack stream, splitting it at the first flush. */
  class FlushSplit {
    var state: State
    var counts: WireCounts
    const header: array<byte>
    var headerLen: nat
    var remaining: nat

    /** At rest, every byte counted in total is on exactly one side of the flush. */
    ghost predicate Valid()
      reads this, header
    {
      Positioned() && counts.total == counts.preFlush + counts.postFlush
    }

    ghost predicate Positioned()
      reads this, header
    {
      header.Length == 4 && headerLen < 4 && Consistent(View())
    }

    ghost function View(): Machine
      requires header.Length == 4 && headerLen <= 4
      reads this, header
    {
      Machine(state, counts.preFlush, counts.preFlushPkts, counts.postFlush, header[..headerLen], remaining)
    }

    constructor ()
      ensures Valid() && fresh(header) && View() == START
    {
      state, counts := Header, WireCounts(0, 0, 0, 0);
      header := new byte[4](_ => '0');
      headerLen, remaining := 0, 0;
    }

    /** Account for the next `input` of the stream. */
    method Feed(input: bytes)
      requires Valid()
      modifies this, header
      ensures Valid() && View() == Run(old(View()), input)
    {
      hide Run, ParseLength;
      counts := counts.(total := counts.total + |input|);
      ghost var start := View();
      RunNothing(start);
      var rest := input;
      ghost var taken: bytes := [];
      while rest != []
        invariant Positioned() && input == taken + rest
        invariant View() == Run(start, taken)
        invariant counts.total == old(counts.total) + |input|
        decreases |rest|
      {
        var take := Advance(rest);
        RunConcat(start, taken, rest[..take]);
        assert taken + rest == taken + rest[..take] + rest[take..];
        taken, rest := taken + rest[..take], rest[take..];
      }
      assert taken == input;
    }

    /** Take the longest run of `rest` that stays within the current state. */
    method Advance(rest: bytes) returns (take: nat)
      requires Positioned() && rest != []
      modifies this, header
      ensures header.Length == 4 && headerLen < 4 && 0 < take <= |rest|
      ensures View() == Run(old(View()), rest[..take])
      ensures counts.total == old(counts.total)
    {
      hide Run, ParseLength, Framed;
      ghost var m := View();
      match state {
        case AfterFlush =>
          take := |rest|;
          counts := counts.(postFlush := counts.postFlush + take);
          RunPastFraming(m, rest[..take]);
        case Unframed =>
          take := |rest|;
          counts := counts.(postFlush := counts.postFlush + take);
          RunPastFraming(m, rest[..take]);
        case Header =>
          take := if 4 - headerLen < |rest| then 4 - headerLen else |rest|;
          TakeHeader(rest[..take]);
          RunHeader(m, rest[..take]);
        case Payload =>
          take := if remaining < |rest| then remaining else |rest|;
          counts := counts.(preFlush := counts.preFlush + take);
          remaining := remaining - take;
          if remaining == 0 { state := Header; }
          RunPayload(m, rest[..take]);
      }
    }

    /** Copy `part` into the header buffer, and act on the header once it is complete. */
    method TakeHeader(part: bytes)
      requires Positioned() && state.Header? && headerLen + |part| <= 4
      modifies this, header
      ensures headerLen < 4 && counts.total == old(counts.total)
      ensures var m := old(View()).(preFlush := old(View()).preFlush + |part|);
              View() ==
              if |m.header| + |part| < 4
              then m.(header := m.header + part)
              else Framed(m.(header := []), m.header + part)
    {
      hide ParseLength;
      ghost var gathered := header[..headerLen];
      for i := 0 to |part|
        invariant unchanged(this)
        invariant header[..headerLen + i] == gathered + part[..i]
      {
        header[headerLen + i] := part[i];
        assert header[..headerLen + i + 1] == header[..headerLen + i] + [part[i]];
      }
      headerLen := headerLen + |part|;
      counts := counts.(preFlush := counts.preFlush + |part|);
      assert header[..headerLen] == gathered + part;
      if headerLen < 4 { return; }
      headerLen := 0;
      assert header[..4] == header[..];
      Act(header[..]);
    }

    /** What a complete header does to the fields. */
    method Act(complete: bytes)
      requires header.Length == 4 && headerLen == 0 && |complete| == 4 && state.Header? && remaining == 0
      modifies this
      ensures headerLen == 0 && counts.total == old(counts.total)
      ensures View() == Framed(old(View()), complete)
    {
      hide ParseLength;
      match ParseLength(complete) {
        case Some(len) =>
          if len == 0 {
            state := AfterFlush;
          } else if len == 1 || len == 2 {
            counts := counts.(preFlushPkts := counts.preFlushPkts + 1);
            state := Header;
          } else if len >= 4 {
            counts := counts.(preFlushPkts := counts.preFlushPkts + 1);
            remaining := len - 4;
            state := if remaining == 0 then Header else Payload;
          } else {
            state := Unframed;
          }
        case None => state := Unframed;
      }
    }

    method Counts() returns (c: WireCounts)
      requires Valid()
      ensures c == CountsOf(View())
    {
      c := counts;
    }
  }

  // ---- The same split, read pkt-line by pkt-line --------------------------------

  /** The split of a stream as its framing defines it: no machine, no resumable state,
      just one pkt-line after another. */
  function LineSplit(s: bytes): (c: WireCounts)
    ensures c.total == |s|
    decreases |s|
  {
    if |s| < 4 then WireCounts(|s|, |s|, 0, 0)
    else
      match ParseLength(s[..4])
      case None => WireCounts(|s|, 4, 0, |s| - 4)
      case Some(len) =>
        if len == 0 || len == 3 then WireCounts(|s|, 4, 0, |s| - 4)
        else
          var line := if len < 4 then 4 else len;
          if |s| < line then WireCounts(|s|, |s|, 1, 0)
          else
            var rest := LineSplit(s[line..]);
            WireCounts(|s|, line + rest.preFlush, 1 + rest.preFlushPkts, rest.postFlush)
  }

  lemma RunWholeHeader(m: Machine, s: bytes)
    requires Consistent(m) && m.state.Header? && m.header == [] && |s| >= 4
    ensures Consistent(Framed(m.(preFlush := m.preFlush + 4), s[..4]))
    ensures Run(m, s) == Run(Framed(m.(preFlush := m.preFlush + 4), s[..4]), s[4..])
  {
    hide ParseLength;
    assert s == s[..4] + s[4..];
    assert m.header + s[..4] == s[..4];
    RunHeader(m, s[..4]);
    RunConcat(m, s[..4], s[4..]);
  }

  /** A payload, whole or cut short, from just after its header. */
  lemma RunWholePayload(m: Machine, s: bytes)
    requires Consistent(m) && m.state.Payload?
    ensures |s| < m.remaining ==> Run(m, s) == m.(preFlush := m.preFlush + |s|, remaining := m.remaining - |s|)
    ensures |s| >= m.remaining ==>
              Run(m, s) ==
                Run(m.(preFlush := m.preFlush + m.remaining, remaining := 0, state := Header), s[m.remaining..])
  {
    if |s| < m.remaining {
      RunPayload(m, s);
    } else {
      assert s == s[..m.remaining] + s[m.remaining..];
      RunPayload(m, s[..m.remaining]);
      RunConcat(m, s[..m.remaining], s[m.remaining..]);
    }
  }

  /** The counts of `r` are those of `m` plus `c`. */
  ghost predicate GrewBy(m: Machine, r: Machine, c: WireCounts) {
    && r.preFlush == m.preFlush + c.preFlush
    && r.pkts == m.pkts + c.preFlushPkts
    && r.postFlush == m.postFlush + c.postFlush
  }

  /** At a pkt-line boundary, the machine's counts grow by exactly the line-level split
      of what follows, for every stream: complete, cut short, or not framed at all. */
  lemma {:induction false} MachineSplitsByLines(m: Machine, s: bytes)
    requires Consistent(m) && m.state.Header? && m.header == []
    ensures GrewBy(m, Run(m, s), LineSplit(s))
    decreases |s|
  {
    hide ParseLength;
    if |s| < 4 {
      RunHeader(m, s);
    } else {
      RunWholeHeader(m, s);
      var m1 := Framed(m.(preFlush := m.preFlush + 4), s[..4]);
      if m1.state.AfterFlush? || m1.state.Unframed? {
        RunPastFraming(m1, s[4..]);
      } else if m1.state.Header? {
        MachineSplitsByLines(m1, s[4..]);
      } else {
        RunWholePayload(m1, s[4..]);
        if |s[4..]| >= m1.remaining {
          assert s[4..][m1.remaining..] == s[4 + m1.remaining..];
          MachineSplitsByLines(m1.(preFlush := m1.preFlush + m1.remaining, remaining := 0, state := Header),
                              s[4 + m1.remaining..]);
        }
      }
    }
  }

  /** The split of a whole stream is its line-level split. */
  lemma SplitIsLineSplit(s: bytes)
    ensures SplitOf(s) == LineSplit(s)
  {
    MachineSplitsByLines(START, s);
  }

  // ---- Ordinary exchanges ------------------------------------------------------

  /** A pkt-line as it stands on the wire: any header that parses to its length. */
  datatype Line = Line(header: bytes, payload: bytes)

  ghost predicate WellFramed(l: Line) {
    |l.header| == 4 && ParseLength(l.header) == Some(4 + |l.payload|)
  }

  ghost predicate AllFramed(lines: seq<Line>) {
    forall i | 0 <= i < |lines| :: WellFramed(lines[i])
  }

  ghost predicate IsFlush(header: bytes) {
    |header| == 4 && ParseLength(header) == Some(0)
  }

  function Wire(lines: seq<Line>): bytes {
    if lines == [] then [] else lines[0].header + lines[0].payload + Wire(lines[1..])
  }

  /** The first line of a framed stream, and what comes after it. */
  lemma WireStep(lines: seq<Line>, rest: bytes)
    requires lines != [] && WellFramed(lines[0])
    ensures var s, n := Wire(lines) + rest, 4 + |lines[0].payload|;
            && |Wire(lines)| == n + |Wire(lines[1..])|
            && s[..4] == lines[0].header && s[4..n] == lines[0].payload && s[n..] == Wire(lines[1..]) + rest
  {
    var l, more := lines[0], Wire(lines[1..]);
    assert l.header + l.payload + more + rest == l.header + l.payload + (more + rest);
    Slices(l.header, l.payload, more + rest);
  }

  lemma Slices(header: bytes, payload: bytes, rest: bytes)
    requires |header| == 4
    ensures var s, n := header + payload + rest, 4 + |payload|;
            s[..4] == header && s[4..n] == payload && s[n..] == rest
  {
  }

  /** For `k` framed lines, a flush and a tail, the split is `k` packets, everything up
      to and including the flush before it, and the tail after it. */
  lemma {:induction false} SplitOfExchange(lines: seq<Line>, flush: bytes, tail: bytes)
    requires AllFramed(lines) && IsFlush(flush)
    ensures LineSplit(Wire(lines) + flush + tail) ==
            WireCounts(|Wire(lines)| + 4 + |tail|, |Wire(lines)| + 4, |lines|, |tail|)
  {
    hide ParseLength;
    var s := Wire(lines) + flush + tail;
    if lines == [] {
      assert s[..4] == flush;
    } else {
      assert s == Wire(lines) + (flush + tail);
      WireStep(lines, flush + tail);
      assert Wire(lines[1..]) + flush + tail == Wire(lines[1..]) + (flush + tail);
      SplitOfExchange(lines[1..], flush, tail);
    }
  }

  // ---- Reading exactly ----------------------------------------------------------

  /** Bytes arriving on a connection. */
  class Reader {
    var pending: bytes

    constructor (stream: bytes)
      ensures pending == stream
    {
      pending := stream;
    }

    /** Take exactly `n` bytes, or fail having consumed what there was. */
    method ReadExact(n: nat) returns (r: Option<bytes>)
      modifies this
      ensures if n <= |old(pending)| then r == Some(old(pending)[..n]) && pending == old(pending)[n..]
              else r == None && pending == []
    {
      if n <= |pending| {
        r := Some(pending[..n]);
        pending := pending[n..];
      } else {
        r := None;
        pending := [];
      }
    }
  }

  // ---- The byte pump -----------------------------------------------------------

  /** What one turn of the pump meets: a chunk read and written in full, a chunk whose
      write broke after some bytes, an interrupted read, end of stream, or a read error. */
  datatype Turn =
    | Moved(chunk: bytes)
    | WriteBroke(chunk: bytes, written: nat)
    | Interrupted
    | EndOfStream
    | ReadFailed

  predicate Continues(t: Turn) {
    t.Moved? || t.Interrupted?
  }

  /** The chunks moved in full before the pump stops. */
  function MovedChunks(turns: seq<Turn>): seq<bytes> {
    if turns == [] || !Continues(turns[0]) then []
    else (if turns[0].Moved? then [turns[0].chunk] else []) + MovedChunks(turns[1..])
  }

  /** The part of a broken chunk that still reached the writer. */
  function BrokenPart(turns: seq<Turn>): bytes {
    if turns == [] then []
    else if Continues(turns[0]) then BrokenPart(turns[1..])
    else if turns[0].WriteBroke? && turns[0].written <= |turns[0].chunk| then turns[0].chunk[..turns[0].written]
    else []
  }

  lemma {:induction false} ConcatSnoc(first: bytes, rest: seq<bytes>)
    ensures Concat([first] + rest) == first + Concat(rest)
  {
    if rest == [] {
      assert [first] + rest == [first] && [first][..0] == [];
    } else {
      ConcatSnoc(first, rest[..|rest| - 1]);
      assert ([first] + rest)[..|[first] + rest| - 1] == [first] + rest[..|rest| - 1];
    }
  }

  /** What goes through in full, and the part of a broken chunk after it. */
  function Outcome(turns: seq<Turn>): (bytes, bytes) {
    (Concat(MovedChunks(turns)), BrokenPart(turns))
  }

  lemma OneTurn(turns: seq<Turn>, i: nat, written: bytes)
    requires i < |turns| && Continues(turns[i])
    ensures var now, next := Outcome(turns[i..]), Outcome(turns[i + 1..]);
            var part: bytes := if turns[i].Moved? then turns[i].chunk else [];
            written + now.0 == written + part + next.0 && now.1 == next.1
  {
    assert turns[i..][0] == turns[i] && turns[i..][1..] == turns[i + 1..];
    if turns[i].Moved? {
      ConcatSnoc(turns[i].chunk, MovedChunks(turns[i + 1..]));
    } else {
      assert [] + MovedChunks(turns[i + 1..]) == MovedChunks(turns[i + 1..]);
    }
  }

  lemma NoTurn(turns: seq<Turn>, i: nat)
    requires i <= |turns| && (i < |turns| ==> !Continues(turns[i]))
    ensures Outcome(turns[i..]) ==
            ([], if i < |turns| && turns[i].WriteBroke? && turns[i].written <= |turns[i].chunk|
                 then turns[i].chunk[..turns[i].written] else [])
  {
    if i < |turns| { assert turns[i..][0] == turns[i]; }
  }

  /** Copy reader to writer until end of stream or an error. The counts are the split of
      exactly the chunks that went through in full; a broken write may put a further
      part of its chunk on the wire, which is not counted. */
  method PumpSplitting(turns: seq<Turn>) returns (counts: WireCounts, written: bytes)
    ensures counts == SplitOf(Concat(MovedChunks(turns)))
    ensures written == Concat(MovedChunks(turns)) + BrokenPart(turns)
  {
    hide Run, Concat, MovedChunks, BrokenPart, ParseLength;
    var split := new FlushSplit();
    written := [];
    RunNothing(START);
    assert written + Outcome(turns).0 == Outcome(turns).0;
    assert turns[0..] == turns;
    var i := 0;
    while i < |turns| && Continues(turns[i])
      invariant i <= |turns| && split.Valid() && fresh(split) && fresh(split.header)
      invariant split.View() == Run(START, written)
      invariant Outcome(turns).0 == written + Outcome(turns[i..]).0
      invariant Outcome(turns).1 == Outcome(turns[i..]).1
    {
      OneTurn(turns, i, written);
      if turns[i].Moved? {
        RunConcat(START, written, turns[i].chunk);
        split.Feed(turns[i].chunk);
        written := written + turns[i].chunk;
      }
      i := i + 1;
    }
    NoTurn(turns, i);
    assert written + [] == written;
    counts := split.Counts();
    if i < |turns| && turns[i].WriteBroke? && turns[i].written <= |turns[i].chunk| {
      written := written + turns[i].chunk[..turns[i].written];
    } else {
      assert written + [] == written;
    }
  }
}
