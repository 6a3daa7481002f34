/** One push from the client's side: `git` writes into a socketpair, two pumps copy between
    it and the connection, and the main thread waits, joins and shuts down in a fixed
    order. Every interleaving of `git`, the pumps, the peer and the main thread is a run. */
module Push {
  import opened Options
  import opened PktLine
  import opened Auth

  // ---- A pump between two channels ----------------------------------------------

  const BUFFER := 64 * 1024

  /** Where a pump is: in a read, part way through writing a chunk, or over. */
  datatype Pump = Reading | Writing(chunk: bytes, done: nat) | Ended(clean: bool)

  /** One direction of the exchange. `source` is all that was ever written into the channel
      the pump reads, `pending` what it has not read yet, and `open` whether anyone can
      still write there; `sink` is all that the pump wrote, `moved` all that it moved in
      whole chunks, and `counts` its split of those. Of what went out this way, `held` bytes
      have not been taken by whoever reads the other channel. */
  datatype Link = Link(
    source: bytes, pending: bytes, open: bool, pump: Pump,
    sink: bytes, moved: bytes, counts: Machine, held: nat)

  const IDLE := Link([], [], true, Reading, [], [], START, 0)

  /** How many unread bytes the channel a pump reads has room for, and how many untaken ones
      the channel it writes takes before a write blocks. */
  datatype Bounds = Bounds(room: nat, takes: nat)

  /** The bounds of the other direction, over the same two channels. */
  function Turned(bounds: Bounds): Bounds {
    Bounds(bounds.takes, bounds.room)
  }

  datatype LinkEvent =
    | Arrives(b: bytes)
    | Closes
    | Reads(n: nat)
    | Interrupted
    | ReadFails
    | Writes(n: nat)
    | WriteFails
    | SeesEnd
    | Taken(n: nat)

  /** Whether an event can happen. */
  predicate LinkCan(l: Link, bounds: Bounds, e: LinkEvent) {
    match e
    case Arrives(b) => l.open && |l.pending| + |b| <= bounds.room
    case Closes => l.open
    case Reads(n) => l.pump.Reading? && 0 < n <= |l.pending| && n <= BUFFER
    case Interrupted => l.pump.Reading?
    case ReadFails => l.pump.Reading?
    case Writes(n) => l.pump.Writing? && l.pump.done < l.pump.done + n <= |l.pump.chunk| && l.held + n <= bounds.takes
    case WriteFails => l.pump.Writing?
    case SeesEnd => l.pump.Reading? && l.pending == [] && !l.open
    case Taken(n) => 0 < n <= l.held
  }

  function LinkAfter(l: Link, bounds: Bounds, e: LinkEvent): Link
    requires LinkCan(l, bounds, e) && Consistent(l.counts)
  {
    match e
    case Arrives(b) => l.(source := l.source + b, pending := l.pending + b)
    case Closes => l.(open := false)
    case Reads(n) => l.(pending := l.pending[n..], pump := Writing(l.pending[..n], 0))
    case Interrupted => l
    case ReadFails => l.(pump := Ended(false))
    case Writes(n) =>
      var chunk, done := l.pump.chunk, l.pump.done + n;
      var wrote := l.(sink := l.sink + chunk[l.pump.done..done], held := l.held + n);
      if done < |chunk| then wrote.(pump := Writing(chunk, done))
      else wrote.(pump := Reading, moved := l.moved + chunk, counts := Run(l.counts, chunk))
    case WriteFails => l.(pump := Ended(false))
    case SeesEnd => l.(pump := Ended(true))
    case Taken(n) => l.(held := l.held - n)
  }

  /** What a pump keeps: nothing is lost, reordered or invented between the two channels,
      and what it counted is what it moved. */
  ghost predicate Sound(l: Link) {
    && l.counts == Run(START, l.moved)
    && match l.pump
       case Reading => l.source == l.moved + l.pending && l.sink == l.moved
       case Writing(chunk, done) =>
         && done < |chunk|
         && l.source == l.moved + chunk + l.pending
         && l.sink == l.moved + chunk[..done]
       case Ended(clean) =>
         && l.moved <= l.sink <= l.source
         && (clean ==> l.sink == l.moved == l.source && l.pending == [] && !l.open)
  }

  lemma SoundAtStart()
    ensures Sound(IDLE) && Consistent(IDLE.counts)
  {
    RunNothing(START);
  }

  lemma SoundIsKept(l: Link, bounds: Bounds, e: LinkEvent)
    requires Sound(l) && Consistent(l.counts) && LinkCan(l, bounds, e)
    ensures Sound(LinkAfter(l, bounds, e)) && Consistent(LinkAfter(l, bounds, e).counts)
  {
    hide Run, Consistent;
    match e {
      case Arrives(b) => ArrivalIsSound(l, bounds, b);
      case Reads(n) =>
        assert l.pending == l.pending[..n] + l.pending[n..];
        assert l.moved + l.pending[..n] + l.pending[n..] == l.moved + l.pending;
        assert l.moved + l.pending[..n][..0] == l.moved;
      case Writes(n) => WriteIsSound(l, bounds, n);
      case _ =>
    }
  }

  lemma ArrivalIsSound(l: Link, bounds: Bounds, b: bytes)
    requires Sound(l) && Consistent(l.counts) && LinkCan(l, bounds, Arrives(b))
    ensures Sound(LinkAfter(l, bounds, Arrives(b)))
  {
    hide Run, Consistent;
    match l.pump {
      case Reading => assert l.moved + l.pending + b == l.moved + (l.pending + b);
      case Writing(chunk, _) => assert l.moved + chunk + l.pending + b == l.moved + chunk + (l.pending + b);
      case Ended(_) =>
    }
  }

  lemma WriteIsSound(l: Link, bounds: Bounds, n: nat)
    requires Sound(l) && Consistent(l.counts) && LinkCan(l, bounds, Writes(n))
    ensures Sound(LinkAfter(l, bounds, Writes(n)))
  {
    hide Run;
    var chunk, done := l.pump.chunk, l.pump.done;
    assert chunk[..done + n] == chunk[..done] + chunk[done..done + n];
    assert l.moved + chunk[..done] + chunk[done..done + n] == l.moved + chunk[..done + n];
    if done + n == |chunk| {
      assert chunk[..done + n] == chunk;
      RunConcat(START, l.moved, chunk);
    }
  }

  /** What a pump wrote is always a prefix of what was written to it. */
  lemma SinkIsPrefix(l: Link)
    requires Sound(l)
    ensures l.sink <= l.source
  {
    if l.pump.Writing? {
      var chunk, done := l.pump.chunk, l.pump.done;
      assert chunk == chunk[..done] + chunk[done..];
      assert l.source == l.sink + (chunk[done..] + l.pending);
    }
  }

  // ---- The whole push -----------------------------------------------------------

  /** The main thread: writing the preamble, giving up on it, waiting for `git`, and then
      each step of the teardown. */
  datatype Main =
    | Starting
    | Refused
    | Waiting
    | Reaped
    | Joined(sent: WireCounts)
    | ShutDown(sent: WireCounts)
    | Returned(sent: WireCounts, received: WireCounts)

  /** `bounds` are those of the outbound direction: the socketpair's room, and what the
      connection takes ahead of the peer. `preamble` is what went out before `git` was started;
      `out` runs from `git` to the connection and `back` from the connection to `git`. */
  datatype Session = Session(
    token: Option<Token>, bounds: Bounds, preamble: bytes, main: Main, gitRunning: bool, out: Link, back: Link)

  /** When the preamble is written, `untaken` bytes of it have still to be read by the peer. */
  datatype Event =
    | PreambleWritten(untaken: nat)
    | PreambleFails(n: nat)
    | Out(e: LinkEvent)
    | Back(e: LinkEvent)
    | GitExits
    | Reaps
    | JoinsOut
    | ShutsDown
    | JoinsBack

  function PreambleOf(token: Option<Token>): bytes
    requires token.Some? ==> ValidToken(token.value)
  {
    if token.Some? then AuthPkt(token.value) else []
  }

  /** All that this end has put on the connection. */
  function OnWire(s: Session): bytes {
    s.preamble + s.out.sink
  }

  predicate Connected(s: Session) {
    !s.main.Starting? && !s.main.Refused?
  }

  ghost predicate WellFormed(s: Session) {
    (s.token.Some? ==> ValidToken(s.token.value)) && Consistent(s.out.counts) && Consistent(s.back.counts)
  }

  /** `git` may close its end of the socketpair before it exits, and anything it started may
      hold a copy for longer. */
  predicate Can(s: Session, e: Event)
    requires s.token.Some? ==> ValidToken(s.token.value)
  {
    match e
    case PreambleWritten(untaken) => s.main.Starting? && untaken <= |PreambleOf(s.token)| && untaken <= s.bounds.takes
    case PreambleFails(n) => s.main.Starting? && s.token.Some? && n <= |PreambleOf(s.token)|
    case Out(f) => Connected(s) && LinkCan(s.out, s.bounds, f)
    case Back(f) => Connected(s) && LinkCan(s.back, Turned(s.bounds), f)
    case GitExits => Connected(s) && s.gitRunning
    case Reaps => s.main.Waiting? && !s.gitRunning
    case JoinsOut => s.main.Reaped? && s.out.pump.Ended?
    case ShutsDown => s.main.Joined?
    case JoinsBack => s.main.ShutDown? && s.back.pump.Ended?
  }

  function Next(s: Session, e: Event): Session
    requires (s.token.Some? ==> ValidToken(s.token.value)) && Consistent(s.out.counts) && Consistent(s.back.counts)
    requires Can(s, e)
  {
    match e
    case PreambleWritten(untaken) =>
      s.(main := Waiting, preamble := PreambleOf(s.token), gitRunning := true, out := s.out.(held := untaken))
    case PreambleFails(n) => s.(main := Refused, preamble := PreambleOf(s.token)[..n])
    case Out(f) => s.(out := LinkAfter(s.out, s.bounds, f))
    case Back(f) => s.(back := LinkAfter(s.back, Turned(s.bounds), f))
    case GitExits => s.(gitRunning := false)
    case Reaps => s.(main := Reaped)
    case JoinsOut => s.(main := Joined(CountsOf(s.out.counts)))
    case ShutsDown => s.(main := ShutDown(s.main.sent), back := s.back.(open := false))
    case JoinsBack => s.(main := Returned(s.main.sent, CountsOf(s.back.counts)))
  }

  function Begin(token: Option<Token>, bounds: Bounds): Session {
    Session(token, bounds, [], Starting, false, IDLE, IDLE)
  }

  ghost predicate Torn(s: Session) {
    s.main.Joined? || s.main.ShutDown? || s.main.Returned?
  }

  ghost predicate Inv(s: Session) {
    && WellFormed(s)
    && Sound(s.out) && Sound(s.back)
    && |s.out.pending| <= s.bounds.room && s.out.held <= s.bounds.takes
    && (if Connected(s) then s.preamble == PreambleOf(s.token)
        else s.preamble <= PreambleOf(s.token) && s.out.sink == [])
    && (s.main.Reaped? || Torn(s) ==> !s.gitRunning)
    && (Torn(s) ==> s.out.pump.Ended? && s.main.sent == CountsOf(s.out.counts))
    && (s.main.ShutDown? || s.main.Returned? ==> !s.back.open)
    && (s.main.Returned? ==> s.back.pump.Ended? && s.main.received == CountsOf(s.back.counts))
  }

  /** An ended pump keeps its counts. */
  lemma EndedIsFinal(l: Link, bounds: Bounds, e: LinkEvent)
    requires Consistent(l.counts) && LinkCan(l, bounds, e) && l.pump.Ended?
    ensures LinkAfter(l, bounds, e).pump == l.pump && LinkAfter(l, bounds, e).counts == l.counts
    ensures LinkAfter(l, bounds, e).sink == l.sink
  {
  }

  lemma InvIsKept(s: Session, e: Event)
    requires Inv(s) && Can(s, e)
    ensures Inv(Next(s, e))
  {
    hide Sound, Run, Consistent, LinkAfter, ValidToken, AuthPkt;
    match e {
      case Out(f) =>
        SoundIsKept(s.out, s.bounds, f);
        PendingFits(s.out, s.bounds, f);
        if s.out.pump.Ended? { EndedIsFinal(s.out, s.bounds, f); }
      case Back(f) =>
        SoundIsKept(s.back, Turned(s.bounds), f);
        if s.back.pump.Ended? { EndedIsFinal(s.back, Turned(s.bounds), f); }
        BackStaysShut(s.back, Turned(s.bounds), f);
      case PreambleWritten(untaken) => HeldIsSound(s.out, untaken);
      case ShutsDown => ShutIsSound(s.back);
      case _ =>
    }
  }

  /** What has not been read, or taken, stays within the channel's bound; and once the pump has
      ended, only an arrival changes it. */
  lemma PendingFits(l: Link, bounds: Bounds, e: LinkEvent)
    requires LinkCan(l, bounds, e) && Consistent(l.counts) && |l.pending| <= bounds.room && l.held <= bounds.takes
    ensures |LinkAfter(l, bounds, e).pending| <= bounds.room && LinkAfter(l, bounds, e).held <= bounds.takes
    ensures l.pump.Ended? ==>
              |LinkAfter(l, bounds, e).source| - |LinkAfter(l, bounds, e).pending| == |l.source| - |l.pending|
  {
    hide Consistent, Run;
  }

  lemma BackStaysShut(l: Link, bounds: Bounds, e: LinkEvent)
    requires LinkCan(l, bounds, e) && Consistent(l.counts)
    ensures !l.open ==> !LinkAfter(l, bounds, e).open
  {
  }

  lemma HeldIsSound(l: Link, held: nat)
    requires Sound(l)
    ensures Sound(l.(held := held))
  {
  }

  lemma ShutIsSound(l: Link)
    requires Sound(l)
    ensures Sound(l.(open := false))
  {
  }

  // ---- Runs -----------------------------------------------------------------------

  ghost predicate Feasible(s: Session, es: seq<Event>)
    decreases |es|
  {
    && WellFormed(s)
    && (es == [] || (Can(s, es[0]) && Feasible(Next(s, es[0]), es[1..])))
  }

  ghost function After(s: Session, es: seq<Event>): Session
    requires Feasible(s, es)
    decreases |es|
  {
    if es == [] then s else After(Next(s, es[0]), es[1..])
  }

  ghost predicate OutFailed(es: seq<Event>) {
    Out(WriteFails) in es || Out(ReadFails) in es
  }

  lemma {:induction false} InvAlongRun(s: Session, es: seq<Event>)
    requires Inv(s) && Feasible(s, es)
    ensures Inv(After(s, es)) && After(s, es).token == s.token && After(s, es).bounds == s.bounds
    decreases |es|
  {
    hide Inv, Can, LinkAfter, Consistent, ValidToken;
    if es != [] {
      InvIsKept(s, es[0]);
      InvAlongRun(Next(s, es[0]), es[1..]);
    }
  }

  lemma FailureShows(s: Session, e: Event)
    requires WellFormed(s) && Can(s, e)
    ensures Next(s, e).out.pump == Ended(false) <==>
            s.out.pump == Ended(false) || e == Out(WriteFails) || e == Out(ReadFails)
  {
    hide Run, Consistent, ValidToken, AuthPkt;
  }

  /** The outbound pump ends unclean exactly when one of its writes or reads failed. */
  lemma {:induction false} FailuresShow(s: Session, es: seq<Event>)
    requires Feasible(s, es)
    ensures After(s, es).out.pump == Ended(false) <==> s.out.pump == Ended(false) || OutFailed(es)
    decreases |es|
  {
    hide Can, Next, Consistent, ValidToken;
    if es != [] {
      FailureShows(s, es[0]);
      FailuresShow(Next(s, es[0]), es[1..]);
      assert es == [es[0]] + es[1..];
    }
  }

  lemma BeginIsSound(token: Option<Token>, bounds: Bounds)
    requires token.Some? ==> ValidToken(token.value)
    ensures Inv(Begin(token, bounds))
  {
    SoundAtStart();
  }

  /** In every interleaving, what is on the connection is the preamble and then a prefix of
      what `git` wrote. Once the outbound pump is joined, which is before the connection
      is shut down, it is all of it unless a write or read of that pump failed, and `sent`
      is the split of exactly the bytes the pump moved. What reached `git` is a prefix of
      what the peer wrote, and `received` the split of what was moved. */
  lemma EveryRunIsSafe(token: Option<Token>, bounds: Bounds, es: seq<Event>)
    requires token.Some? ==> ValidToken(token.value)
    requires Feasible(Begin(token, bounds), es)
    ensures var s := After(Begin(token, bounds), es);
            && OnWire(s) <= PreambleOf(token) + s.out.source
            && s.back.sink <= s.back.source
            && (Torn(s) ==> !s.gitRunning && s.main.sent == SplitOf(s.out.moved) && s.out.moved <= s.out.sink)
            && (Torn(s) && !OutFailed(es) ==>
                  OnWire(s) == PreambleOf(token) + s.out.source && s.main.sent == SplitOf(s.out.source))
            && (s.main.Returned? ==> s.main.received == SplitOf(s.back.moved) && s.back.moved <= s.back.sink)
            && (s.main.Returned? && s.back.pump == Ended(true) ==> s.main.received == SplitOf(s.back.source))
  {
    hide Feasible, After, Run, Consistent, ValidToken, AuthPkt;
    var s := After(Begin(token, bounds), es);
    BeginIsSound(token, bounds);
    InvAlongRun(Begin(token, bounds), es);
    FailuresShow(Begin(token, bounds), es);
    SinkIsPrefix(s.out);
    SinkIsPrefix(s.back);
    if Connected(s) {
      assert s.preamble + s.out.sink <= s.preamble + s.out.source;
    } else {
      assert s.preamble + s.out.sink == s.preamble;
      assert s.preamble <= PreambleOf(token) + s.out.source;
    }
  }

  // ---- Progress -------------------------------------------------------------------

  /** The steps a pump may still need: two for each unread byte, one for each unwritten one,
      and one to see the end. */
  function LinkRank(l: Link): nat {
    match l.pump
    case Reading => 2 * |l.pending| + 1
    case Writing(chunk, done) => 2 * |l.pending| + 1 + (if done <= |chunk| then |chunk| - done else 0)
    case Ended(_) => 0
  }

  function MainRank(m: Main): nat {
    match m
    case Starting => 6
    case Refused => 0
    case Waiting => 4
    case Reaped => 3
    case Joined(_) => 2
    case ShutDown(_) => 1
    case Returned(_, _) => 0
  }

  /** What is left to do once nothing more can come from `git`. */
  function Rank(s: Session): nat {
    LinkRank(s.out) + LinkRank(s.back) + MainRank(s.main)
  }

  /** The step a pump can take by itself: reading what there is, writing what is taken. */
  function PumpStep(l: Link, bounds: Bounds): LinkEvent
    requires !l.pump.Ended?
  {
    if l.pump.Writing? then
      var left := |l.pump.chunk| - l.pump.done;
      var free := bounds.takes - l.held;
      Writes(if 0 <= left <= free then left else if 0 <= free then free else 0)
    else if l.pending == [] then SeesEnd
    else Reads(if |l.pending| < BUFFER then |l.pending| else BUFFER)
  }

  /** The step this end can take by itself. Once the socketpair is shut, writing to `git` only
      fails. */
  function OwnStep(s: Session): Event
    requires Connected(s) && !s.main.Returned?
  {
    if !s.out.pump.Ended? then Out(PumpStep(s.out, s.bounds))
    else if s.main.Waiting? then Reaps
    else if s.main.Reaped? then JoinsOut
    else if s.main.Joined? then ShutsDown
    else if s.back.pump.Writing? then Back(WriteFails)
    else if s.back.pump.Reading? then Back(PumpStep(s.back, Turned(s.bounds)))
    else JoinsBack
  }

  /** The outbound pump has something to write and the connection takes no more: it waits for
      the peer to read. */
  predicate Stalled(s: Session) {
    s.out.pump.Writing? && s.out.held >= s.bounds.takes
  }

  lemma PumpProgresses(l: Link, bounds: Bounds)
    requires Sound(l) && Consistent(l.counts) && !l.open && !l.pump.Ended?
    requires l.pump.Writing? ==> l.held < bounds.takes
    ensures LinkCan(l, bounds, PumpStep(l, bounds))
    ensures var m := LinkAfter(l, bounds, PumpStep(l, bounds)); LinkRank(m) < LinkRank(l) && !m.open
    ensures PumpStep(l, bounds) != WriteFails && PumpStep(l, bounds) != ReadFails
  {
    hide Run, Consistent;
  }

  lemma OwnStepProgresses(s: Session)
    requires Inv(s) && Connected(s) && !s.main.Returned? && !s.gitRunning && !s.out.open && !Stalled(s)
    ensures Can(s, OwnStep(s))
    ensures var t := Next(s, OwnStep(s)); Rank(t) < Rank(s) && Connected(t) && !t.gitRunning && !t.out.open
  {
    hide Sound, LinkAfter, LinkCan, Consistent, LinkRank, PumpStep, ValidToken, AuthPkt, Run;
    if !s.out.pump.Ended? {
      PumpProgresses(s.out, s.bounds);
    } else if s.main.ShutDown? && s.back.pump.Reading? {
      PumpProgresses(s.back, Turned(s.bounds));
    } else if s.main.ShutDown? && s.back.pump.Writing? {
      FailingEnds(s.back, Turned(s.bounds));
    } else if s.main.Joined? {
      ShuttingRanks(s.back);
    }
  }

  lemma FailingEnds(l: Link, bounds: Bounds)
    requires l.pump.Writing? && Consistent(l.counts)
    ensures LinkCan(l, bounds, WriteFails) && LinkRank(LinkAfter(l, bounds, WriteFails)) < LinkRank(l)
  {
  }

  lemma ShuttingRanks(l: Link)
    ensures LinkRank(l.(open := false)) == LinkRank(l)
  {
  }

  lemma InvIsWellFormed(s: Session)
    requires Inv(s)
    ensures WellFormed(s)
  {
  }

  /** A step of a pump that takes it on; an interrupted read does not. */
  predicate PumpWork(e: LinkEvent) {
    e.Reads? || e.ReadFails? || e.Writes? || e.WriteFails? || e.SeesEnd?
  }

  /** A step of this end: of a pump or of the main thread. */
  predicate Own(e: Event) {
    || (e.Out? && PumpWork(e.e)) || (e.Back? && PumpWork(e.e))
    || e.Reaps? || e.JoinsOut? || e.ShutsDown? || e.JoinsBack?
  }

  /** A step of this end that is not a failure on the way out. */
  predicate Flawless(e: Event) {
    Own(e) && e != Out(WriteFails) && e != Out(ReadFails)
  }

  lemma OwnStepIsSound(s: Session)
    requires Connected(s) && !s.main.Returned?
    ensures Flawless(OwnStep(s))
  {
  }

  // ---- Whether the teardown returns --------------------------------------------------

  /** What the pump has still to get out: bytes not read, and bytes read but not written. */
  function Left(l: Link): nat {
    |l.pending| + (if l.pump.Writing? && l.pump.done <= |l.pump.chunk| then |l.pump.chunk| - l.pump.done else 0)
  }

  /** The connection takes the rest, unread by the peer as it may be; or the pump is over. */
  predicate Fits(s: Session) {
    s.out.pump.Ended? || Left(s.out) + s.out.held <= s.bounds.takes
  }

  lemma LeftIsConserved(l: Link, bounds: Bounds, e: LinkEvent)
    requires Sound(l) && Consistent(l.counts) && LinkCan(l, bounds, e) && !l.pump.Ended? && !l.open
    requires PumpWork(e) && e != WriteFails && e != ReadFails
    ensures var m := LinkAfter(l, bounds, e); Left(m) + m.held == Left(l) + l.held && (m.pump.Ended? ==> Left(l) == 0)
  {
    hide Run, Consistent;
  }

  lemma SoundStep(s: Session, e: Event)
    requires Inv(s) && Connected(s) && !s.gitRunning && !s.out.open && !s.out.pump.Ended? && Can(s, e) && Flawless(e)
    ensures var t := Next(s, e);
            && Inv(t) && Connected(t) && !t.gitRunning && !t.out.open && !t.main.Returned? && t.bounds == s.bounds
            && Left(t.out) + t.out.held == Left(s.out) + s.out.held && (t.out.pump.Ended? ==> Left(s.out) == 0)
  {
    hide Sound, LinkAfter, Left, Consistent, ValidToken, AuthPkt, Run, PumpWork;
    InvIsKept(s, e);
    if e.Out? {
      LeftIsConserved(s.out, s.bounds, e.e);
      BackStaysShut(s.out, s.bounds, e.e);
    }
  }

  lemma {:induction false} ReturningFits(s: Session, es: seq<Event>)
    requires Inv(s) && Connected(s) && !s.gitRunning && !s.out.open && !s.out.pump.Ended?
    requires Feasible(s, es) && After(s, es).main.Returned? && forall e | e in es :: Flawless(e)
    ensures Fits(s)
    decreases |es|
  {
    hide Can, Next, Sound, Left, Flawless, Consistent, ValidToken, AuthPkt;
    if es != [] {
      assert es[0] in es && forall e | e in es[1..] :: e in es;
      SoundStep(s, es[0]);
      var t := Next(s, es[0]);
      if !t.out.pump.Ended? { ReturningFits(t, es[1..]); }
    }
  }

  lemma FitsIsNotStalled(s: Session)
    requires Inv(s) && Fits(s)
    ensures !Stalled(s)
  {
    hide Run, Consistent, ValidToken, AuthPkt;
  }

  lemma FitsIsKept(s: Session)
    requires Inv(s) && Connected(s) && !s.main.Returned? && !s.gitRunning && !s.out.open && !Stalled(s) && Fits(s)
    ensures Can(s, OwnStep(s)) && Fits(Next(s, OwnStep(s)))
  {
    hide Sound, LinkAfter, Left, Consistent, ValidToken, AuthPkt, Run, PumpStep, Rank;
    OwnStepProgresses(s);
    OwnStepIsSound(s);
    if s.out.pump.Ended? {
      assert Next(s, OwnStep(s)).out == s.out;
    } else {
      SoundStep(s, OwnStep(s));
    }
  }

  /** When the rest fits, this end reaches the return by steps of its own, with nothing more
      from the peer, and in no more of them than `Rank` says. */
  lemma {:induction false} TeardownCompletes(s: Session) returns (es: seq<Event>)
    requires Inv(s) && Connected(s) && !s.gitRunning && !s.out.open && Fits(s)
    ensures Feasible(s, es) && After(s, es).main.Returned? && |es| <= Rank(s)
    ensures forall e | e in es :: Flawless(e)
    decreases Rank(s)
  {
    hide Can, Next, Rank, OwnStep, Inv, Fits, Stalled, Flawless;
    InvIsWellFormed(s);
    if s.main.Returned? {
      es := [];
    } else {
      var e := OwnStep(s);
      FitsIsNotStalled(s);
      OwnStepProgresses(s);
      OwnStepIsSound(s);
      FitsIsKept(s);
      InvIsKept(s, e);
      var rest := TeardownCompletes(Next(s, e));
      es := [e] + rest;
      assert es[1..] == rest;
    }
  }

  /** Once `git` is gone and nobody holds its end of the socketpair, but the outbound pump is
      still at work: this end can return by steps of its own, none of its writes failing and
      the peer reading nothing, if and only if what is unread and unwritten fits what the
      connection still takes. */
  lemma TeardownReturnsExactly(s: Session)
    requires Inv(s) && Connected(s) && !s.gitRunning && !s.out.open && !s.out.pump.Ended?
    ensures (exists es :: Feasible(s, es) && After(s, es).main.Returned? && forall e | e in es :: Flawless(e)) <==>
            Left(s.out) <= s.bounds.takes - s.out.held
  {
    hide Inv, Left, Flawless, Connected;
    if es :| Feasible(s, es) && After(s, es).main.Returned? && forall e | e in es :: Flawless(e) {
      ReturningFits(s, es);
    }
    if Left(s.out) <= s.bounds.takes - s.out.held {
      var es := TeardownCompletes(s);
    }
  }

  function OwnSteps(es: seq<Event>): nat {
    if es == [] then 0 else (if Own(es[0]) then 1 else 0) + OwnSteps(es[1..])
  }

  /** The bytes that an event brings in from the peer. */
  function Incoming(e: Event): nat {
    if e.Back? && e.e.Arrives? then |e.e.b| else 0
  }

  function AllIncoming(es: seq<Event>): nat {
    if es == [] then 0 else Incoming(es[0]) + AllIncoming(es[1..])
  }

  ghost predicate HasOwnStep(s: Session) {
    WellFormed(s) && exists e :: Flawless(e) && Can(s, e)
  }

  lemma LinkRankFalls(l: Link, bounds: Bounds, e: LinkEvent)
    requires Sound(l) && Consistent(l.counts) && LinkCan(l, bounds, e)
    ensures LinkRank(LinkAfter(l, bounds, e)) + (if PumpWork(e) then 1 else 0) <=
            LinkRank(l) + (if e.Arrives? then 2 * |e.b| else 0)
  {
    hide Run, Consistent;
  }

  lemma RankFalls(s: Session, e: Event)
    requires Inv(s) && Can(s, e) && Connected(s) && !s.gitRunning && !s.out.open
    ensures var t := Next(s, e);
            && Rank(t) + (if Own(e) then 1 else 0) <= Rank(s) + 2 * Incoming(e)
            && Connected(t) && !t.gitRunning && !t.out.open
  {
    hide Sound, LinkAfter, LinkRank, Consistent, ValidToken, AuthPkt, Run, PumpWork;
    if e.Out? {
      LinkRankFalls(s.out, s.bounds, e.e);
      BackStaysShut(s.out, s.bounds, e.e);
    } else if e.Back? {
      LinkRankFalls(s.back, Turned(s.bounds), e.e);
    } else if e.ShutsDown? {
      ShuttingRanks(s.back);
    }
  }

  /** In every run from there, whatever else happens in between: this end takes no more steps
      than `Rank` and what the peer still sends allow; and until it has returned it has one to
      take, unless its outbound pump is stalled on a peer that does not read. */
  lemma {:induction false} EveryTeardownReturnsOrStalls(s: Session, es: seq<Event>)
    requires Inv(s) && Connected(s) && !s.gitRunning && !s.out.open && Feasible(s, es)
    ensures OwnSteps(es) + Rank(After(s, es)) <= Rank(s) + 2 * AllIncoming(es)
    ensures !After(s, es).main.Returned? ==> HasOwnStep(After(s, es)) || Stalled(After(s, es))
    decreases |es|
  {
    hide Can, Next, Rank, Inv, Own, Flawless, Incoming, Connected, Consistent, ValidToken, AuthPkt, Stalled;
    if es == [] {
      if !s.main.Returned? && !Stalled(s) {
        OwnStepProgresses(s);
        OwnStepIsSound(s);
        InvIsWellFormed(s);
        assert Flawless(OwnStep(s)) && Can(s, OwnStep(s));
      }
    } else {
      RankFalls(s, es[0]);
      InvIsKept(s, es[0]);
      EveryTeardownReturnsOrStalls(Next(s, es[0]), es[1..]);
    }
  }

  lemma {:induction false} RunThenRun(s: Session, a: seq<Event>, b: seq<Event>)
    requires Feasible(s, a) && Feasible(After(s, a), b)
    ensures Feasible(s, a + b) && After(s, a + b) == After(After(s, a), b)
    decreases |a|
  {
    hide Can, Next, Consistent, ValidToken;
    if a == [] {
      assert a + b == b;
    } else {
      assert (a + b)[0] == a[0] && (a + b)[1..] == a[1..] + b;
      RunThenRun(Next(s, a[0]), a[1..], b);
    }
  }

  lemma NothingMore(s: Session)
    requires WellFormed(s)
    ensures Feasible(s, []) && After(s, []) == s
  {
  }

  lemma RunThen(s: Session, e: Event, rest: seq<Event>)
    requires WellFormed(s) && Can(s, e) && Feasible(Next(s, e), rest)
    ensures Feasible(s, [e] + rest) && After(s, [e] + rest) == After(Next(s, e), rest)
  {
    assert ([e] + rest)[1..] == rest;
  }

  /** `git` is running, all it has written is on the connection, and the peer has read all but
      `held` bytes of it. */
  ghost predicate Flowing(s: Session, held: nat) {
    && Inv(s) && s.main.Waiting? && s.gitRunning && s.out.open
    && s.out.pump.Reading? && s.out.pending == [] && s.out.held == held
  }

  lemma OneByteMore(s: Session, b: byte) returns (es: seq<Event>)
    requires Flowing(s, s.out.held) && s.bounds.room >= 1 && s.out.held < s.bounds.takes
    ensures Feasible(s, es) && Flowing(After(s, es), s.out.held + 1) && After(s, es).bounds == s.bounds
  {
    hide Sound, Run, Consistent, ValidToken, AuthPkt, Feasible, After;
    var s1 := Next(s, Out(Arrives([b])));
    assert s.out.pending + [b] == [b];
    InvIsKept(s, Out(Arrives([b])));
    InvIsWellFormed(s1);
    var s2 := Next(s1, Out(Reads(1)));
    assert [b][1..] == [] && [b][..1] == [b];
    InvIsKept(s1, Out(Reads(1)));
    InvIsWellFormed(s2);
    var s3 := Next(s2, Out(Writes(1)));
    InvIsKept(s2, Out(Writes(1)));
    InvIsWellFormed(s3);
    NothingMore(s3);
    RunThen(s2, Out(Writes(1)), []);
    var r2 := [Out(Writes(1))] + [];
    RunThen(s1, Out(Reads(1)), r2);
    var r1 := [Out(Reads(1))] + r2;
    RunThen(s, Out(Arrives([b])), r1);
    es := [Out(Arrives([b]))] + r1;
  }

  lemma {:induction false} ConnectionFills(token: Option<Token>, bounds: Bounds, b: byte, held: nat)
    returns (es: seq<Event>)
    requires (token.Some? ==> ValidToken(token.value)) && bounds.room >= 1 && held <= bounds.takes
    ensures Feasible(Begin(token, bounds), es)
    ensures Flowing(After(Begin(token, bounds), es), held) && After(Begin(token, bounds), es).bounds == bounds
  {
    hide Run, Consistent, ValidToken, AuthPkt, Sound, Feasible, After;
    var s := Begin(token, bounds);
    BeginIsSound(token, bounds);
    InvIsWellFormed(s);
    if held == 0 {
      InvIsKept(s, PreambleWritten(0));
      InvIsWellFormed(Next(s, PreambleWritten(0)));
      NothingMore(Next(s, PreambleWritten(0)));
      RunThen(s, PreambleWritten(0), []);
      es := [PreambleWritten(0)] + [];
    } else {
      var first := ConnectionFills(token, bounds, b, held - 1);
      var more := OneByteMore(After(s, first), b);
      RunThenRun(s, first, more);
      es := first + more;
    }
  }

  /** The push can hang: a run in which the peer reads nothing leads to a state with `git` gone,
      a byte of its left, and no way to return unless the peer reads or the write fails. */
  lemma TeardownCanHang(token: Option<Token>, bounds: Bounds, b: byte) returns (es: seq<Event>)
    requires (token.Some? ==> ValidToken(token.value)) && bounds.room >= 1
    ensures Feasible(Begin(token, bounds), es)
    ensures var s := After(Begin(token, bounds), es);
            && Connected(s) && !s.gitRunning && !s.out.open && !s.out.pump.Ended? && Left(s.out) == 1
            && !exists es' :: Feasible(s, es') && After(s, es').main.Returned? && forall e | e in es' :: Flawless(e)
  {
    hide Run, Consistent, ValidToken, AuthPkt, Sound, Feasible, After, Flawless;
    var begin := Begin(token, bounds);
    var first := ConnectionFills(token, bounds, b, bounds.takes);
    var s := After(begin, first);
    assert s.out.pending + [b] == [b];
    var s1 := Next(s, Out(Arrives([b])));
    InvIsKept(s, Out(Arrives([b])));
    InvIsWellFormed(s1);
    var s2 := Next(s1, GitExits);
    InvIsKept(s1, GitExits);
    InvIsWellFormed(s2);
    var s3 := Next(s2, Out(Closes));
    InvIsKept(s2, Out(Closes));
    InvIsWellFormed(s3);
    NothingMore(s3);
    RunThen(s2, Out(Closes), []);
    var r2 := [Out(Closes)] + [];
    RunThen(s1, GitExits, r2);
    var r1 := [GitExits] + r2;
    RunThen(s, Out(Arrives([b])), r1);
    RunThenRun(begin, first, [Out(Arrives([b]))] + r1);
    es := first + ([Out(Arrives([b]))] + r1);
    TeardownReturnsExactly(s3);
  }

  // ---- When the outbound pump has failed --------------------------------------------

  /** A pump that has ended reads no more, whatever `git` still has to say: from then on
      `git` can write no more than what the socketpair has room for. */
  lemma {:induction false} EndedPumpBoundsGit(s: Session, es: seq<Event>)
    requires Inv(s) && s.out.pump.Ended? && Feasible(s, es)
    ensures After(s, es).out.pump.Ended?
    ensures |After(s, es).out.source| <= |s.out.source| + (s.bounds.room - |s.out.pending|)
    decreases |es|
  {
    hide Sound, LinkAfter, LinkCan, Consistent, ValidToken, AuthPkt, Connected;
    if es != [] {
      var e := es[0];
      if e.Out? {
        EndedIsFinal(s.out, s.bounds, e.e);
        PendingFits(s.out, s.bounds, e.e);
      }
      InvIsKept(s, e);
      EndedPumpBoundsGit(Next(s, e), es[1..]);
    }
  }

  /** A run of a `git` that exits only once it has written all of `goal`. */
  ghost predicate Persists(s: Session, es: seq<Event>, goal: bytes)
    requires Feasible(s, es)
    decreases |es|
  {
    es == [] || ((es[0].GitExits? ==> s.out.source == goal) && Persists(Next(s, es[0]), es[1..], goal))
  }

  /** Such a `git` finishes, and the push returns. */
  ghost predicate Finishes(s: Session, es: seq<Event>, goal: bytes) {
    Feasible(s, es) && Persists(s, es, goal) && After(s, es).main.Returned?
  }

  /** The free room and whether `git` can write, one step on from an ended pump. */
  lemma EndedStep(s: Session, e: Event)
    requires Inv(s) && Can(s, e) && s.out.pump.Ended? && s.gitRunning
    ensures var t := Next(s, e);
            && t.out.pump.Ended? && t.bounds == s.bounds
            && |t.out.source| - |t.out.pending| == |s.out.source| - |s.out.pending|
            && (t.gitRunning <==> !e.GitExits?)
            && (t.out.source != s.out.source || t.out.open ==> s.out.open)
  {
    hide Sound, LinkAfter, Consistent, ValidToken, AuthPkt;
    if e.Out? {
      EndedIsFinal(s.out, s.bounds, e.e);
      PendingFits(s.out, s.bounds, e.e);
      BackStaysShut(s.out, s.bounds, e.e);
      if !s.out.open { ShutAddsNothing(s.out, s.bounds, e.e); }
    }
  }

  lemma ShutAddsNothing(l: Link, bounds: Bounds, e: LinkEvent)
    requires LinkCan(l, bounds, e) && Consistent(l.counts) && !l.open
    ensures LinkAfter(l, bounds, e).source == l.source
  {
  }

  lemma {:induction false} FinishingFits(s: Session, es: seq<Event>, goal: bytes)
    requires Inv(s) && s.out.pump.Ended? && s.gitRunning && Finishes(s, es, goal)
    ensures |goal| <= |s.out.source| + (s.bounds.room - |s.out.pending|)
    ensures goal == s.out.source || s.out.open
    decreases |es|
  {
    hide Can, Next, Sound, Consistent, ValidToken, AuthPkt;
    if es != [] {
      EndedStep(s, es[0]);
      InvIsKept(s, es[0]);
      if !es[0].GitExits? { FinishingFits(Next(s, es[0]), es[1..], goal); }
    }
  }

  /** Neither writing nor exiting after `goal` is written breaks the persistence. */
  lemma {:induction false} OwnRunsPersist(s: Session, es: seq<Event>, goal: bytes)
    requires Feasible(s, es) && GitExits !in es
    ensures Persists(s, es, goal)
    decreases |es|
  {
    hide Can, Next;
    if es != [] { OwnRunsPersist(Next(s, es[0]), es[1..], goal); }
  }

  lemma FirstThen(s: Session, e: Event, rest: seq<Event>, goal: bytes)
    requires WellFormed(s) && Can(s, e) && Finishes(Next(s, e), rest, goal) && (e.GitExits? ==> s.out.source == goal)
    ensures Finishes(s, [e] + rest, goal)
  {
    assert ([e] + rest)[1..] == rest;
  }

  /** Once `git` is gone, what is left of the push. */
  lemma FinishesAfterExit(s: Session, goal: bytes) returns (es: seq<Event>)
    requires Inv(s) && Connected(s) && !s.gitRunning && s.out.pump.Ended?
    ensures Finishes(s, es, goal)
  {
    hide Next, Consistent, ValidToken, AuthPkt, Sound, Persists, Feasible, After;
    InvIsWellFormed(s);
    if s.out.open {
      var e := Out(Closes);
      InvIsKept(s, e);
      CloseShuts(s);
      var rest := TeardownCompletes(Next(s, e));
      OwnRunsPersist(Next(s, e), rest, goal);
      FirstThen(s, e, rest, goal);
      es := [e] + rest;
    } else {
      es := TeardownCompletes(s);
      OwnRunsPersist(s, es, goal);
    }
  }

  lemma CloseShuts(s: Session)
    requires WellFormed(s) && Can(s, Out(Closes))
    ensures var t := Next(s, Out(Closes));
            Connected(t) && t.gitRunning == s.gitRunning && !t.out.open && t.out.pump == s.out.pump
  {
  }

  lemma FinishesWhatFits(s: Session, more: bytes) returns (es: seq<Event>)
    requires Inv(s) && s.out.pump.Ended? && s.gitRunning && Connected(s)
    requires |more| <= s.bounds.room - |s.out.pending| && (more == [] || s.out.open)
    ensures Finishes(s, es, s.out.source + more)
  {
    hide Consistent, ValidToken, AuthPkt, Sound, Finishes;
    InvIsWellFormed(s);
    var goal := s.out.source + more;
    if more == [] {
      assert goal == s.out.source;
      InvIsKept(s, GitExits);
      var rest := FinishesAfterExit(Next(s, GitExits), goal);
      FirstThen(s, GitExits, rest, goal);
      es := [GitExits] + rest;
    } else {
      var t := Next(s, Out(Arrives(more)));
      InvIsKept(s, Out(Arrives(more)));
      InvIsWellFormed(t);
      InvIsKept(t, GitExits);
      var rest := FinishesAfterExit(Next(t, GitExits), goal);
      FirstThen(t, GitExits, rest, goal);
      FirstThen(s, Out(Arrives(more)), [GitExits] + rest, goal);
      es := [Out(Arrives(more))] + ([GitExits] + rest);
    }
  }

  /** Once the outbound pump has ended, a `git` that still has `more` to write can get it
      written, and the push return, if and only if `more` fits the room that is left in the
      socketpair. */
  lemma PushReturnsExactly(s: Session, more: bytes)
    requires Inv(s) && Connected(s) && s.out.pump.Ended? && s.gitRunning
    ensures (exists es :: Finishes(s, es, s.out.source + more)) <==>
            |more| <= s.bounds.room - |s.out.pending| && (more == [] || s.out.open)
  {
    hide Inv, Finishes, Connected;
    if es :| Finishes(s, es, s.out.source + more) {
      FinishingFits(s, es, s.out.source + more);
    }
    if |more| <= s.bounds.room - |s.out.pending| && (more == [] || s.out.open) {
      var es := FinishesWhatFits(s, more);
    }
  }

  /** The state after the pump's first write has failed, with `git` still running. */
  function Broken(token: Option<Token>, bounds: Bounds, b: byte): Session
    requires token.Some? ==> ValidToken(token.value)
  {
    Session(token, bounds, PreambleOf(token), Waiting, true, Link([b], [], true, Ended(false), [], [], START, 0), IDLE)
  }

  /** A push can come to wait for ever: a run leads to a state from which a `git` with more
      to write than the socketpair holds never finishes. */
  lemma PushCanHang(token: Option<Token>, bounds: Bounds, b: byte) returns (es: seq<Event>)
    requires (token.Some? ==> ValidToken(token.value)) && bounds.room >= 1
    ensures Feasible(Begin(token, bounds), es) && After(Begin(token, bounds), es) == Broken(token, bounds, b)
    ensures forall more: bytes | |more| > bounds.room ::
              !exists es' :: Finishes(Broken(token, bounds, b), es', Broken(token, bounds, b).out.source + more)
  {
    hide ValidToken, AuthPkt, Finishes, Run;
    es := [PreambleWritten(0), Out(Arrives([b])), Out(Reads(1)), Out(WriteFails)];
    BreaksAsSaid(token, bounds, b);
    BeginIsSound(token, bounds);
    InvAlongRun(Begin(token, bounds), es);
    forall more: bytes | |more| > bounds.room
      ensures !exists es' :: Finishes(Broken(token, bounds, b), es', Broken(token, bounds, b).out.source + more)
    {
      PushReturnsExactly(Broken(token, bounds, b), more);
    }
  }

  lemma BreaksAsSaid(token: Option<Token>, bounds: Bounds, b: byte)
    requires (token.Some? ==> ValidToken(token.value)) && bounds.room >= 1
    ensures var es := [PreambleWritten(0), Out(Arrives([b])), Out(Reads(1)), Out(WriteFails)];
            Feasible(Begin(token, bounds), es) && After(Begin(token, bounds), es) == Broken(token, bounds, b)
  {
    hide ValidToken, AuthPkt, Run, After, Feasible;
    var s0 := Begin(token, bounds);
    var s1 := Next(s0, PreambleWritten(0));
    var s2 := Next(s1, Out(Arrives([b])));
    assert [] + [b] == [b];
    var s3 := Next(s2, Out(Reads(1)));
    assert [b][1..] == [] && [b][..1] == [b];
    var s4 := Next(s3, Out(WriteFails));
    assert s4 == Broken(token, bounds, b);
    NothingMore(s4);
    RunThen(s3, Out(WriteFails), []);
    var r3 := [Out(WriteFails)] + [];
    RunThen(s2, Out(Reads(1)), r3);
    var r2 := [Out(Reads(1))] + r3;
    RunThen(s1, Out(Arrives([b])), r2);
    var r1 := [Out(Arrives([b]))] + r2;
    RunThen(s0, PreambleWritten(0), r1);
    assert [PreambleWritten(0)] + r1 == [PreambleWritten(0), Out(Arrives([b])), Out(Reads(1)), Out(WriteFails)];
  }

  // ---- Both ends of the connection ------------------------------------------------

  /** What the server's inbound pump gets to see of a client's stream: all of it without a
      token; what follows the preamble with one; nothing at all after a refusal. */
  function Inbound(server: Option<Token>, stream: bytes): Option<bytes> {
    match server
    case None => Some(stream)
    case Some(expected) =>
      var (outcome, rest) := ReadAuth(stream, expected);
      if outcome == Accepted then Some(rest) else None
  }

  /** The server's child gets exactly what `git` wrote if and only if the two ends are
      configured alike: the same token, or none at either end. */
  lemma ServerSeesGitExactly(client: Option<Token>, server: Option<Token>, written: bytes)
    requires client.Some? ==> ValidToken(client.value)
    requires server.Some? ==> ValidToken(server.value)
    ensures Inbound(server, PreambleOf(client) + written) == Some(written) <==> client == server
    ensures Inbound(server, PreambleOf(client) + written).Some? && client != server ==>
              |Inbound(server, PreambleOf(client) + written).value| != |written|
  {
    hide ValidToken, Judge, ParseLength, AuthPkt;
    var stream := PreambleOf(client) + written;
    if client.Some? && server.Some? {
      PreambleRoundTrip(client.value, server.value, written);
    } else if client.Some? {
      PreambleIsLong(client.value);
    } else {
      assert stream == written;
    }
  }

  lemma PreambleIsLong(t: Token)
    requires ValidToken(t)
    ensures |AuthPkt(t)| > 4
  {
  }

  /** The counters of the two ends agree. The server's handler has the client's shape, with
      its `git receive-pack` in place of `git push` and no preamble to write: its `back`
      link runs from the connection to the child. When a run of the client has been torn
      down without a failed write or read, and one of the server has taken in that whole
      stream to its end, each in chunks of its own, then the server received what the client
      sent, if and only if the two are configured alike. */
  lemma CountersAgree(client: Option<Token>, server: Option<Token>, bounds: Bounds, es: seq<Event>,
                      serverBounds: Bounds, serverEs: seq<Event>)
    requires client.Some? ==> ValidToken(client.value)
    requires server.Some? ==> ValidToken(server.value)
    requires Feasible(Begin(client, bounds), es) && !OutFailed(es) && Torn(After(Begin(client, bounds), es))
    requires Feasible(Begin(None, serverBounds), serverEs)
    requires var t := After(Begin(None, serverBounds), serverEs);
             && t.main.Returned? && t.back.pump == Ended(true)
             && Inbound(server, OnWire(After(Begin(client, bounds), es))) == Some(t.back.source)
    ensures After(Begin(None, serverBounds), serverEs).main.received == After(Begin(client, bounds), es).main.sent <==>
            client == server
  {
    hide Feasible, After, Inbound, OnWire, Run;
    var s := After(Begin(client, bounds), es);
    EveryRunIsSafe(client, bounds, es);
    EveryRunIsSafe(None, serverBounds, serverEs);
    ServerSeesGitExactly(client, server, s.out.source);
  }
}
