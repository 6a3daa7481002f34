/** Reading a ref advertisement to measure it: a second, independent reader of the same
    framing (gitprotocol-pack(5), section "Reference Discovery"). */
module Probe {
  import opened Options
  import opened PktLine
  import opened Auth

  // ---- Lines -------------------------------------------------------------------

  /** The message of an `ERR <message>` line, trimmed, or `None` for any other line. */
  function ErrMessage(text: string): Option<string> {
    if "ERR " <= text then Some(TrimEnd(TrimStart(text[4..]))) else None
  }

  function UpToNul(text: string): string {
    if text == "" || text[0] == '\0' then "" else [text[0]] + UpToNul(text[1..])
  }

  function FirstWord(s: string): (w: string)
    ensures w <= s
  {
    if s == "" || IsWhitespace(s[0]) then "" else [s[0]] + FirstWord(s[1..])
  }

  /** The second whitespace-separated word, if there is one. */
  function SecondWord(s: string): Option<string> {
    var start := TrimStart(s);
    var rest := TrimStart(start[|FirstWord(start)|..]);
    if rest == "" then None else Some(FirstWord(rest))
  }

  /** The ref name of an advertisement line `<oid> <name>\0<capabilities>`, or `None` for
      the `capabilities^{}` placeholder of a repository without refs. */
  function RefName(text: string): Option<string> {
    match SecondWord(UpToNul(text))
    case None => None
    case Some(name) => if name == "capabilities^{}" then None else Some(name)
  }

  /** What a line means to the probe. */
  datatype Meaning = Refusal(message: string) | Named(name: string) | Unnamed

  function MeaningOf(text: string): Meaning {
    if ErrMessage(text).Some? then Refusal(ErrMessage(text).value)
    else if RefName(text).Some? then Named(RefName(text).value)
    else Unnamed
  }

  /** The reading of payloads that a text decoding gives rise to. */
  function Reading(decode: bytes -> string): bytes -> Meaning {
    payload => MeaningOf(decode(payload))
  }

  // ---- Reading the advertisement -----------------------------------------------

  /** Its size in bytes, the ref names in it, and the server's refusal if it sent one. */
  datatype Advertisement = Advertisement(size: nat, refs: seq<string>, error: Option<string>)

  /** What reading an advertisement from `stream` yields, and what it leaves unread, when
      `size` bytes and `refs` have been seen already. `None` is a connection that ended
      inside a line. */
  function ReadFrom(stream: bytes, means: bytes -> Meaning, size: nat, refs: seq<string>): (Option<Advertisement>,
                    bytes)
    decreases |stream|
  {
    if |stream| < 4 then (Some(Advertisement(size, refs, None)), [])
    else
      match ParseLength(stream[..4])
      case None => (Some(Advertisement(size + 4, [], None)), stream[4..])
      case Some(len) =>
        if len < 4 then (Some(Advertisement(size + 4, refs, None)), stream[4..])
        else if |stream| < len then (None, [])
        else
          match means(stream[4..len])
          case Refusal(message) => (Some(Advertisement(size + len, refs, Some(message))), stream[len..])
          case Named(name) => ReadFrom(stream[len..], means, size + len, refs + [name])
          case Unnamed => ReadFrom(stream[len..], means, size + len, refs)
  }

  /** Read pkt-lines until the flush-pkt that ends the advertisement. */
  method ReadAdvertisement(reader: Reader, decode: bytes -> string) returns (r: Option<Advertisement>)
    modifies reader
    ensures (r, reader.pending) == ReadFrom(old(reader.pending), Reading(decode), 0, [])
  {
    hide ParseLength, ErrMessage, RefName;
    ghost var result := ReadFrom(reader.pending, Reading(decode), 0, []);
    var size: nat := 0;
    var refs: seq<string> := [];
    while true
      invariant ReadFrom(reader.pending, Reading(decode), size, refs) == result
      decreases |reader.pending|
    {
      ghost var stream := reader.pending;
      var header := reader.ReadExact(4);
      if header.None? { break; }
      size := size + 4;
      var len := ParseLength(header.value);
      if len.None? { return Some(Advertisement(size, [], None)); }
      if len.value < 4 { break; }
      var payload := reader.ReadExact(len.value - 4);
      if payload.None? { return None; }
      assert payload.value == stream[4..len.value] && reader.pending == stream[len.value..];
      size := size + |payload.value|;
      var message := ErrMessage(decode(payload.value));
      if message.Some? { return Some(Advertisement(size, refs, message)); }
      var name := RefName(decode(payload.value));
      if name.Some? { refs := refs + [name.value]; }
    }
    r := Some(Advertisement(size, refs, None));
  }

  // ---- Agreement with the counter ----------------------------------------------

  /** An advertisement line proper: framed, and not a refusal. */
  ghost predicate OrdinaryLine(l: Line, means: bytes -> Meaning) {
    WellFramed(l) && !means(l.payload).Refusal?
  }

  ghost predicate AllOrdinary(lines: seq<Line>, means: bytes -> Meaning) {
    forall i | 0 <= i < |lines| :: OrdinaryLine(lines[i], means)
  }

  function NameOf(m: Meaning): seq<string> {
    if m.Named? then [m.name] else []
  }

  /** The names the lines carry, in order. */
  function Names(lines: seq<Line>, means: bytes -> Meaning): seq<string> {
    if lines == [] then [] else NameOf(means(lines[0].payload)) + Names(lines[1..], means)
  }

  /** The lines that carry no name, or only the placeholder. */
  function Nameless(lines: seq<Line>, means: bytes -> Meaning): nat {
    if lines == [] then 0
    else (if means(lines[0].payload).Named? then 0 else 1) + Nameless(lines[1..], means)
  }

  lemma {:induction false} NamesAndNameless(lines: seq<Line>, means: bytes -> Meaning)
    ensures |Names(lines, means)| + Nameless(lines, means) == |lines|
  {
    if lines != [] { NamesAndNameless(lines[1..], means); }
  }

  lemma ReadOneLine(stream: bytes, l: Line, means: bytes -> Meaning, size: nat, refs: seq<string>)
    requires OrdinaryLine(l, means) && 4 + |l.payload| <= |stream|
    requires stream[..4] == l.header && stream[4..4 + |l.payload|] == l.payload
    ensures ReadFrom(stream, means, size, refs) ==
            ReadFrom(stream[4 + |l.payload|..], means, size + 4 + |l.payload|, refs + NameOf(means(l.payload)))
  {
    assert refs + [] == refs;
  }

  /** Reading on past framed, ordinary lines only adds to the size and the names. */
  lemma {:induction false} ReadThroughLines(
      stream: bytes, lines: seq<Line>, rest: bytes, means: bytes -> Meaning, size: nat, refs: seq<string>,
      size': nat, refs': seq<string>)
    requires stream == Wire(lines) + rest && AllOrdinary(lines, means)
    requires size' == size + |Wire(lines)| && refs' == refs + Names(lines, means)
    ensures ReadFrom(stream, means, size, refs) == ReadFrom(rest, means, size', refs')
  {
    hide ReadFrom, ParseLength;
    if lines == [] {
      assert stream == rest && refs' == refs;
    } else {
      var l := lines[0];
      var tail, seen := stream[4 + |l.payload|..], refs + NameOf(means(l.payload));
      WireStep(lines, rest);
      assert refs' == seen + Names(lines[1..], means);
      ReadThroughLines(tail, lines[1..], rest, means, size + 4 + |l.payload|, seen, size', refs');
      ReadOneLine(stream, l, means, size, refs);
    }
  }

  lemma OrdinaryLinesAreFramed(lines: seq<Line>, means: bytes -> Meaning)
    requires AllOrdinary(lines, means)
    ensures AllFramed(lines)
  {
  }

  lemma ReadToFlush(lines: seq<Line>, flush: bytes, tail: bytes, means: bytes -> Meaning)
    requires AllOrdinary(lines, means) && IsFlush(flush)
    ensures ReadFrom(Wire(lines) + flush + tail, means, 0, []) ==
            (Some(Advertisement(|Wire(lines)| + 4, Names(lines, means), None)), tail)
  {
    ReadThroughLines(Wire(lines) + flush + tail, lines, flush + tail, means, 0, [], |Wire(lines)|, Names(lines, means));
    assert (flush + tail)[..4] == flush && (flush + tail)[4..] == tail;
  }

  /** On every advertisement of ordinary lines ended by a flush, the two readers agree:
      the probe stops exactly at the flush, its size is the counter's pre-flush bytes,
      and its refs are the counter's packets less those that carry no name. */
  lemma ProbeAgreesWithFlushSplit(lines: seq<Line>, flush: bytes, tail: bytes, means: bytes -> Meaning)
    requires AllOrdinary(lines, means) && IsFlush(flush)
    ensures var stream := Wire(lines) + flush + tail;
            var (ad, rest) := ReadFrom(stream, means, 0, []);
            && rest == tail
            && ad.Some? && ad.value.error.None?
            && ad.value.refs == Names(lines, means)
            && ad.value.size == SplitOf(stream).preFlush
            && |ad.value.refs| == SplitOf(stream).preFlushPkts - Nameless(lines, means)
  {
    ReadToFlush(lines, flush, tail, means);
    NamesAndNameless(lines, means);
    OrdinaryLinesAreFramed(lines, means);
    SplitOfExchange(lines, flush, tail);
    SplitIsLineSplit(Wire(lines) + flush + tail);
  }

  // ---- On every stream ----------------------------------------------------------

  /** The stream opens with a whole ordinary line. */
  predicate OpensOrdinary(stream: bytes, means: bytes -> Meaning) {
    && |stream| >= 4
    && match ParseLength(stream[..4])
       case None => false
       case Some(len) => 4 <= len <= |stream| && !means(stream[4..len]).Refusal?
  }

  /** What follows the ordinary lines that a stream opens with. */
  function AfterOrdinary(stream: bytes, means: bytes -> Meaning): (rest: bytes)
    ensures !OpensOrdinary(rest, means) && |rest| <= |stream|
    decreases |stream|
  {
    if OpensOrdinary(stream, means) then AfterOrdinary(stream[ParseLength(stream[..4]).value..], means) else stream
  }

  /** A line that announces more payload than there is. */
  predicate CutShort(rest: bytes) {
    && |rest| >= 4 && ParseLength(rest[..4]).Some?
    && 4 <= ParseLength(rest[..4]).value && |rest| < ParseLength(rest[..4]).value
  }

  /** Where both readers stop counting: at the end of the stream, at a flush, at what is no
      pkt-line header, or at a special packet or refusal with nothing after it. */
  predicate BothStop(rest: bytes) {
    || rest == []
    || (|rest| >= 4
        && match ParseLength(rest[..4])
           case None => true
           case Some(len) =>
             || len == 0 || len == 3
             || ((len == 1 || len == 2) && |rest| == 4)
             || (len >= 4 && |rest| == len))
  }

  lemma {:induction false} ReadersMatchThroughOrdinary(stream: bytes, means: bytes -> Meaning, size: nat,
                                                       refs: seq<string>)
    returns (names: seq<string>)
    ensures var rest := AfterOrdinary(stream, means);
            && ReadFrom(stream, means, size, refs) == ReadFrom(rest, means, size + (|stream| - |rest|), names)
            && LineSplit(stream).preFlush == |stream| - |rest| + LineSplit(rest).preFlush
    decreases |stream|
  {
    hide ParseLength;
    if OpensOrdinary(stream, means) {
      var len := ParseLength(stream[..4]).value;
      var m := means(stream[4..len]);
      names := ReadersMatchThroughOrdinary(stream[len..], means, size + len, refs + NameOf(m));
      assert refs + [] == refs;
    } else {
      names := refs;
    }
  }

  lemma SplitCountsNothing(s: bytes)
    ensures LineSplit(s).preFlush == 0 <==> s == []
  {
  }

  /** At a stream that opens with no ordinary line. */
  lemma ReadersAgreeAtStop(rest: bytes, means: bytes -> Meaning, size: nat, refs: seq<string>)
    requires !OpensOrdinary(rest, means)
    ensures ReadFrom(rest, means, size, refs).0.None? <==> CutShort(rest)
    ensures !CutShort(rest) ==>
              (ReadFrom(rest, means, size, refs).0.value.size == size + LineSplit(rest).preFlush <==> BothStop(rest))
  {
    hide ParseLength;
    if |rest| >= 4 && ParseLength(rest[..4]).Some? {
      var len := ParseLength(rest[..4]).value;
      if len == 1 || len == 2 {
        SplitCountsNothing(rest[4..]);
        assert rest[4..] == [] <==> |rest| == 4;
      } else if 4 <= len <= |rest| {
        SplitCountsNothing(rest[len..]);
        assert rest[len..] == [] <==> |rest| == len;
      }
    }
  }

  /** On every stream at all: the probe fails exactly when a line is cut short after the
      ordinary ones; and else its size is the counter's pre-flush bytes exactly when both stop
      there. They part at a cut header, and at a special packet or refusal that more bytes
      follow. */
  lemma ReadersAgreeExactly(stream: bytes, means: bytes -> Meaning)
    ensures var (ad, _) := ReadFrom(stream, means, 0, []);
            var rest := AfterOrdinary(stream, means);
            && (ad.None? <==> CutShort(rest))
            && (ad.Some? ==> (ad.value.size == SplitOf(stream).preFlush <==> BothStop(rest)))
  {
    hide ReadFrom, LineSplit, ParseLength, BothStop, CutShort;
    var names := ReadersMatchThroughOrdinary(stream, means, 0, []);
    var rest := AfterOrdinary(stream, means);
    ReadersAgreeAtStop(rest, means, |stream| - |rest|, names);
    SplitIsLineSplit(stream);
  }

  /** One way to part them: at a delim or response-end packet (length 1 or 2) before the flush
      the probe stops, while the counter goes on to the flush. */
  lemma ProbeStopsAtSpecialPackets(lines: seq<Line>, special: bytes, flush: bytes, tail: bytes,
                                   means: bytes -> Meaning)
    requires AllOrdinary(lines, means) && IsFlush(flush)
    requires |special| == 4 && ParseLength(special) in [Some(1), Some(2)]
    ensures var stream := Wire(lines) + special + flush + tail;
            var (ad, rest) := ReadFrom(stream, means, 0, []);
            && rest == flush + tail
            && ad.Some? && ad.value.size == |Wire(lines)| + 4
            && SplitOf(stream).preFlush == |Wire(lines)| + 8
  {
    var after := special + (flush + tail);
    assert Wire(lines) + special + flush + tail == Wire(lines) + after;
    ReadThroughLines(Wire(lines) + after, lines, after, means, 0, [], |Wire(lines)|, Names(lines, means));
    SpecialPacket(special, flush, tail, means, |Wire(lines)|, Names(lines, means));
    OrdinaryLinesAreFramed(lines, means);
    LinesThenRest(lines, after);
    SplitIsLineSplit(Wire(lines) + after);
  }

  lemma SpecialPacket(special: bytes, flush: bytes, tail: bytes, means: bytes -> Meaning, size: nat,
                      refs: seq<string>)
    requires IsFlush(flush) && |special| == 4 && ParseLength(special) in [Some(1), Some(2)]
    ensures ReadFrom(special + (flush + tail), means, size, refs) ==
            (Some(Advertisement(size + 4, refs, None)), flush + tail)
    ensures LineSplit(special + (flush + tail)).preFlush == 8
  {
    var after := special + (flush + tail);
    assert after[..4] == special && after[4..] == flush + tail;
    assert (flush + tail)[..4] == flush;
  }

  lemma {:induction false} LinesThenRest(lines: seq<Line>, rest: bytes)
    requires AllFramed(lines)
    ensures LineSplit(Wire(lines) + rest).preFlush == |Wire(lines)| + LineSplit(rest).preFlush
  {
    if lines == [] {
      assert Wire(lines) + rest == rest;
    } else {
      WireStep(lines, rest);
      LinesThenRest(lines[1..], rest);
    }
  }
}
