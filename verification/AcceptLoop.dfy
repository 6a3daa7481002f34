/** The bounded, draining accept loop. */
module AcceptLoop {
  /** Where the loop is: waiting for a permit, waiting for a connection with a permit in
      hand, draining, or returned. */
  datatype Loop = ForPermit | ForConnection | Draining | Returned

  /** `free` permits are up for the taking; `live` handlers run, and `finished` ones have
      ended but are not joined yet. `signalled` says that shutdown has resolved, and
      `hooks` that the hook files are still there. */
  datatype State = State(
    max: nat, free: nat, loop: Loop, live: set<nat>, finished: set<nat>, started: nat, signalled: bool, hooks: bool)

  datatype Event =
    | Signal
    | TakesPermit
    | Accepts
    | AcceptFails
    | TakesShutdown
    | HandlerEnds(id: nat)
    | HandlerPanics(id: nat)
    | Joins(id: nat)
    | Returns
    | DropsHooks

  /** Both waits look at the shutdown first, so neither goes on once it has resolved. */
  predicate Can(s: State, e: Event) {
    match e
    case Signal => !s.signalled
    case TakesPermit => s.loop.ForPermit? && !s.signalled && s.free > 0
    case Accepts => s.loop.ForConnection? && !s.signalled
    case AcceptFails => s.loop.ForConnection? && !s.signalled
    case TakesShutdown => (s.loop.ForPermit? || s.loop.ForConnection?) && s.signalled
    case HandlerEnds(id) => id in s.live
    case HandlerPanics(id) => id in s.live
    case Joins(id) => s.loop.Draining? && id in s.finished
    case Returns => s.loop.Draining? && s.live == {} && s.finished == {}
    case DropsHooks => s.loop.Returned? && s.hooks
  }

  /** Handlers are numbered as they start. A permit goes back when its owner is dropped: by
      the loop on a failed accept or at shutdown, and by a handler however it ends. */
  function Next(s: State, e: Event): State
    requires Can(s, e)
  {
    match e
    case Signal => s.(signalled := true)
    case TakesPermit => s.(free := s.free - 1, loop := ForConnection)
    case Accepts => s.(live := s.live + {s.started}, started := s.started + 1, loop := ForPermit)
    case AcceptFails => s.(free := s.free + 1, loop := ForPermit)
    case TakesShutdown => s.(free := if s.loop.ForConnection? then s.free + 1 else s.free, loop := Draining)
    case HandlerEnds(id) => s.(live := s.live - {id}, finished := s.finished + {id}, free := s.free + 1)
    case HandlerPanics(id) => s.(live := s.live - {id}, finished := s.finished + {id}, free := s.free + 1)
    case Joins(id) => s.(finished := s.finished - {id})
    case Returns => s.(loop := Returned)
    case DropsHooks => s.(hooks := false)
  }

  function Begin(max: nat): State {
    State(max, max, ForPermit, {}, {}, 0, false, true)
  }

  function Held(s: State): nat {
    if s.loop.ForConnection? then 1 else 0
  }

  ghost predicate Inv(s: State) {
    && s.free + Held(s) + |s.live| == s.max
    && (forall id | id in s.live :: id < s.started)
    && (s.loop.Draining? || s.loop.Returned? ==> s.signalled)
    && (s.loop.Returned? ==> s.live == {} && s.finished == {})
    && (!s.hooks ==> s.loop.Returned?)
  }

  lemma InvKept(s: State, e: Event)
    requires Inv(s) && Can(s, e)
    ensures Inv(Next(s, e)) && Next(s, e).max == s.max
    ensures s.loop.Draining? || s.loop.Returned? ==>
              Next(s, e).started == s.started && (Next(s, e).loop.Draining? || Next(s, e).loop.Returned?)
  {
    if e.Accepts? {
      assert s.started !in s.live;
    }
  }

  ghost predicate Feasible(s: State, es: seq<Event>)
    decreases |es|
  {
    es == [] || (Can(s, es[0]) && Feasible(Next(s, es[0]), es[1..]))
  }

  ghost function After(s: State, es: seq<Event>): State
    requires Feasible(s, es)
    decreases |es|
  {
    if es == [] then s else After(Next(s, es[0]), es[1..])
  }

  lemma {:induction false} InvAlongRun(s: State, es: seq<Event>)
    requires Inv(s) && Feasible(s, es)
    ensures Inv(After(s, es)) && After(s, es).max == s.max
    ensures s.loop.Draining? || s.loop.Returned? ==>
              After(s, es).started == s.started && (After(s, es).loop.Draining? || After(s, es).loop.Returned?)
    decreases |es|
  {
    hide Can, Next, Inv;
    if es != [] {
      InvKept(s, es[0]);
      InvAlongRun(Next(s, es[0]), es[1..]);
    }
  }

  /** In every state the loop can reach, across failed accepts and panicking handlers: no
      permit is lost or made up, so never more than `max` handlers run; and the hook files
      go only after the loop has returned, with no handler left. */
  lemma PermitsAreConserved(max: nat, es: seq<Event>)
    requires Feasible(Begin(max), es)
    ensures var s := After(Begin(max), es);
            && s.free + Held(s) + |s.live| == max && |s.live| <= max
            && (s.loop.Returned? || !s.hooks ==> s.live == {} && s.free == max)
  {
    hide Feasible, After;
    InvAlongRun(Begin(max), es);
  }

  lemma {:induction false} AfterConcat(s: State, a: seq<Event>, b: seq<Event>)
    requires Feasible(s, a + b)
    ensures Feasible(s, a) && Feasible(After(s, a), b) && After(s, a + b) == After(After(s, a), b)
    decreases |a|
  {
    hide Can, Next;
    if a == [] {
      assert a + b == b;
    } else {
      assert (a + b)[0] == a[0] && (a + b)[1..] == a[1..] + b;
      AfterConcat(Next(s, a[0]), a[1..], b);
    }
  }

  /** Once the loop has taken the shutdown, no handler starts any more. */
  lemma NoHandlerAfterShutdown(max: nat, before: seq<Event>, after: seq<Event>)
    requires Feasible(Begin(max), before + ([TakesShutdown] + after))
    ensures Feasible(Begin(max), before)
    ensures After(Begin(max), before + ([TakesShutdown] + after)).started == After(Begin(max), before).started
    ensures Accepts !in after
  {
    hide Inv;
    var tail := [TakesShutdown] + after;
    AfterConcat(Begin(max), before, tail);
    var s := After(Begin(max), before);
    assert tail[0] == TakesShutdown && tail[1..] == after;
    assert Inv(Begin(max)) by { BeginIsSound(max); }
    InvAlongRun(Begin(max), before);
    InvKept(s, TakesShutdown);
    InvAlongRun(Next(s, TakesShutdown), after);
    DrainingNeverAccepts(Next(s, TakesShutdown), after);
  }

  lemma BeginIsSound(max: nat)
    ensures Inv(Begin(max))
  {
  }

  lemma {:induction false} DrainingNeverAccepts(s: State, es: seq<Event>)
    requires Feasible(s, es) && (s.loop.Draining? || s.loop.Returned?)
    ensures Accepts !in es
    decreases |es|
  {
    if es != [] {
      DrainingNeverAccepts(Next(s, es[0]), es[1..]);
      assert es == [es[0]] + es[1..];
    }
  }

  /** The drain completes: from any state with the shutdown taken, ending the handlers that
      are still live is enough for the loop to return. */
  lemma {:induction false} DrainCompletes(s: State) returns (es: seq<Event>)
    requires Inv(s) && s.loop.Draining?
    ensures Feasible(s, es) && After(s, es).loop.Returned?
    ensures forall e | e in es :: e.HandlerEnds? || e.Joins? || e.Returns?
    decreases 2 * |s.live| + |s.finished|
  {
    hide Inv;
    var e := Returns;
    if id :| id in s.live {
      e := HandlerEnds(id);
    } else if id :| id in s.finished {
      e := Joins(id);
    }
    InvKept(s, e);
    var rest: seq<Event> := [];
    if !e.Returns? {
      DrainShrinks(s, e);
      rest := DrainCompletes(Next(s, e));
    }
    es := [e] + rest;
    assert es[1..] == rest;
  }

  lemma DrainShrinks(s: State, e: Event)
    requires Can(s, e) && (e.HandlerEnds? || e.Joins?)
    ensures 2 * |Next(s, e).live| + |Next(s, e).finished| < 2 * |s.live| + |s.finished|
  {
    if e.HandlerEnds? && e.id !in s.finished {
      assert |s.finished + {e.id}| == |s.finished| + 1;
    }
  }
}
