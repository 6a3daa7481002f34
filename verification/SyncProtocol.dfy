/** The sync protocol between a client repository and its server: encode `code` and
    `extra`, push each chain, and pin each tip once its push was acknowledged. Any step may
    fail, and any acknowledgement may be lost. */
module SyncProtocol {
  import opened Options
  import opened Refs

  type Oid = nat

  /** Every commit there is, and its parents. */
  type Graph = map<Oid, set<Oid>>

  /** A store that lacks no parent of what it has. */
  ghost predicate Closed(store: set<Oid>, g: Graph) {
    forall o | o in store :: o in g && g[o] <= store
  }

  /** A walk along parents. */
  ghost predicate Descends(path: seq<Oid>, g: Graph) {
    |path| > 0 && forall i | 0 <= i < |path| - 1 :: path[i] in g && path[i + 1] in g[path[i]]
  }

  lemma {:induction false} ClosedHasAncestors(store: set<Oid>, g: Graph, path: seq<Oid>)
    requires Closed(store, g) && Descends(path, g) && path[0] in store
    ensures path[|path| - 1] in store
  {
    if |path| > 1 {
      assert path[0] in g && path[1] in g[path[0]];
      ClosedHasAncestors(store, g, path[1..]);
    }
  }

  // ---- State ---------------------------------------------------------------------

  /** How far a sync has come; `code` and `extra` are the commits it encoded. */
  datatype Phase =
    | Begun
    | HasCode(code: Oid)
    | HasBoth(code: Oid, extra: Oid)
    | SentCode(code: Oid, extra: Oid)
    | KeptCode(code: Oid, extra: Oid)
    | SentExtra(code: Oid, extra: Oid)
    | Over

  datatype Sync = Sync(stream: string, phase: Phase)

  /** `refs` are the client's refs by name: of each stream the two that are pushed, and the
      two `sent` ones that pin what is known to have arrived. `extras` are all the `extra`
      commits ever made, and `retained` the successive tips pinned for each stream. */
  datatype State = State(
    graph: Graph, client: set<Oid>, server: set<Oid>,
    refs: map<string, Oid>, serverRefs: map<string, Oid>,
    syncs: map<nat, Sync>,
    extras: set<Oid>, retained: map<string, seq<Oid>>)

  /** `got` is what a push adds to the server's store; `acked` says whether the client
      learns of its success. */
  datatype Event =
    | Commits(id: Oid, parents: set<Oid>)
    | Begins(sync: nat, stream: string)
    | EncodesCode(sync: nat, commit: Oid, head: Option<Oid>)
    | EncodesExtra(sync: nat, commit: Oid)
    | PushesCode(sync: nat, got: set<Oid>, acked: bool)
    | RetainsCode(sync: nat)
    | PushesExtra(sync: nat, got: set<Oid>, acked: bool)
    | RetainsExtra(sync: nat)
    | Fails(sync: nat)
    | ForgetsOnClient(stream: string)
    | ForgetsOnServer(stream: string)

  function SetOf(o: Option<Oid>): set<Oid> {
    if o.Some? then {o.value} else {}
  }

  function Lookup(refs: map<string, Oid>, name: string): Option<Oid> {
    if name in refs then Some(refs[name]) else None
  }

  /** A commit is new, or the very same commit made before: its id stands for its content. */
  predicate Makes(g: Graph, commit: Oid, parents: set<Oid>) {
    commit !in g || g[commit] == parents
  }

  /** A push delivers the ref's present value with all that the server lacks of its
      history, out of what the client has. */
  ghost predicate Delivers(s: State, tip: Oid, got: set<Oid>) {
    got <= s.client && tip in s.server + got && Closed(s.server + got, s.graph)
  }

  predicate At(s: State, sync: nat) {
    sync in s.syncs && !s.syncs[sync].phase.Over?
  }

  ghost predicate Can(s: State, e: Event) {
    match e
    case Commits(id, parents) => Makes(s.graph, id, parents) && parents <= s.client
    case Begins(sync, stream) => sync !in s.syncs
    case EncodesCode(sync, commit, head) =>
      At(s, sync) && s.syncs[sync].phase.Begun? && SetOf(head) <= s.client && Makes(s.graph, commit, SetOf(head))
    case EncodesExtra(sync, commit) =>
      && At(s, sync) && s.syncs[sync].phase.HasCode?
      && Makes(s.graph, commit, SetOf(Lookup(s.refs, SentExtraRef(s.syncs[sync].stream))))
    case PushesCode(sync, got, _) =>
      && At(s, sync) && s.syncs[sync].phase.HasBoth? && CodeRef(s.syncs[sync].stream) in s.refs
      && Delivers(s, s.refs[CodeRef(s.syncs[sync].stream)], got)
    case RetainsCode(sync) => At(s, sync) && s.syncs[sync].phase.SentCode?
    case PushesExtra(sync, got, _) =>
      && At(s, sync) && s.syncs[sync].phase.KeptCode? && ExtraRef(s.syncs[sync].stream) in s.refs
      && Delivers(s, s.refs[ExtraRef(s.syncs[sync].stream)], got)
    case RetainsExtra(sync) => At(s, sync) && s.syncs[sync].phase.SentExtra?
    case Fails(sync) => At(s, sync)
    case ForgetsOnClient(_) => true
    case ForgetsOnServer(_) => true
  }

  function To(s: State, sync: nat, phase: Phase): map<nat, Sync>
    requires sync in s.syncs
  {
    s.syncs[sync := s.syncs[sync].(phase := phase)]
  }

  function Tips(s: State, stream: string): seq<Oid> {
    if stream in s.retained then s.retained[stream] else []
  }

  /** The refs left when a stream is forgotten: all that lie under its prefix go. */
  function Forgotten(refs: map<string, Oid>, stream: string): map<string, Oid> {
    map n | n in refs && !Covers(stream, n) :: refs[n]
  }

  /** What is pushed is the ref, as it stands at that moment; what is pinned is the commit
      that this sync encoded. */
  ghost function Next(s: State, e: Event): State
    requires Can(s, e)
  {
    match e
    case Commits(id, parents) => s.(graph := s.graph[id := parents], client := s.client + {id})
    case Begins(sync, stream) => s.(syncs := s.syncs[sync := Sync(stream, Begun)])
    case EncodesCode(sync, commit, head) =>
      s.(graph := s.graph[commit := SetOf(head)], client := s.client + {commit},
         refs := s.refs[CodeRef(s.syncs[sync].stream) := commit], syncs := To(s, sync, HasCode(commit)))
    case EncodesExtra(sync, commit) =>
      var Sync(stream, phase) := s.syncs[sync];
      s.(graph := s.graph[commit := SetOf(Lookup(s.refs, SentExtraRef(stream)))], client := s.client + {commit},
         refs := s.refs[ExtraRef(stream) := commit], extras := s.extras + {commit},
         syncs := To(s, sync, HasBoth(phase.code, commit)))
    case PushesCode(sync, got, acked) =>
      var Sync(stream, phase) := s.syncs[sync];
      s.(server := s.server + got, serverRefs := s.serverRefs[CodeRef(stream) := s.refs[CodeRef(stream)]],
         syncs := To(s, sync, if acked then SentCode(phase.code, phase.extra) else Over))
    case RetainsCode(sync) =>
      var Sync(stream, phase) := s.syncs[sync];
      s.(refs := s.refs[SentRef(stream) := phase.code], syncs := To(s, sync, KeptCode(phase.code, phase.extra)))
    case PushesExtra(sync, got, acked) =>
      var Sync(stream, phase) := s.syncs[sync];
      s.(server := s.server + got, serverRefs := s.serverRefs[ExtraRef(stream) := s.refs[ExtraRef(stream)]],
         syncs := To(s, sync, if acked then SentExtra(phase.code, phase.extra) else Over))
    case RetainsExtra(sync) =>
      var Sync(stream, phase) := s.syncs[sync];
      s.(refs := s.refs[SentExtraRef(stream) := phase.extra], syncs := To(s, sync, Over),
         retained := s.retained[stream := Tips(s, stream) + [phase.extra]])
    case Fails(sync) => s.(syncs := To(s, sync, Over))
    case ForgetsOnClient(stream) => s.(refs := Forgotten(s.refs, stream))
    case ForgetsOnServer(stream) => s.(serverRefs := Forgotten(s.serverRefs, stream))
  }

  /** A client repository with some history that has never been synced, and a server with any
      part of it. */
  ghost predicate Initial(s: State) {
    && Closed(s.client, s.graph) && Closed(s.server, s.graph)
    && s.refs == map[] && s.syncs == map[] && s.extras == {} && s.retained == map[]
  }

  // ---- Orderly runs -----------------------------------------------------------------

  /** No stream is another one's `sent` sub-stream, whose refs would be the other's pins. */
  ghost predicate NoSentStream(streams: iset<string>) {
    forall a, b | a in streams && b in streams :: b != a + "/sent"
  }

  /** Streams are taken from `streams`, and a sync begins only when no other of its stream is
      under way. */
  ghost predicate Orderly(s: State, e: Event, streams: iset<string>) {
    e.Begins? ==> e.stream in streams && forall i | At(s, i) :: s.syncs[i].stream != e.stream
  }

  /** Which ref names coincide: between streams none of which is another's `sent` one, only a
      name with itself. */
  lemma NamesApart(streams: iset<string>, s: string, t: string)
    requires NoSentStream(streams) && s in streams && t in streams
    ensures CodeRef(s) != ExtraRef(t) && CodeRef(s) != SentRef(t) && CodeRef(s) != SentExtraRef(t)
    ensures ExtraRef(s) != SentRef(t) && ExtraRef(s) != SentExtraRef(t) && SentRef(s) != SentExtraRef(t)
    ensures s != t ==>
              && CodeRef(s) != CodeRef(t) && ExtraRef(s) != ExtraRef(t)
              && SentRef(s) != SentRef(t) && SentExtraRef(s) != SentExtraRef(t)
  {
    NamesAreRefs(s);
    NamesAreRefs(t);
    LeavesApart(s, t, s + "/sent", t + "/sent");
    SentInjective(s, t);
    assert s + "/sent" != t && t + "/sent" != s;
  }

  lemma SentInjective(s: string, t: string)
    ensures s + "/sent" == t + "/sent" ==> s == t
  {
    if s + "/sent" == t + "/sent" {
      assert |s| == |t|;
      assert s == (s + "/sent")[..|s|] == (t + "/sent")[..|t|] == t;
    }
  }

  lemma NamesAreRefs(s: string)
    ensures SentRef(s) == CodeRef(s + "/sent") && SentExtraRef(s) == ExtraRef(s + "/sent")
  {
    PinsLookLikeStreams(s, (_) => true);
  }

  lemma LeavesApart(a: string, b: string, c: string, d: string)
    ensures forall x, y | x in {a, b, c, d} && y in {a, b, c, d} ::
              CodeRef(x) != ExtraRef(y) && (x != y ==> CodeRef(x) != CodeRef(y) && ExtraRef(x) != ExtraRef(y))
  {
    forall x, y
      ensures CodeRef(x) != ExtraRef(y) && (x != y ==> CodeRef(x) != CodeRef(y) && ExtraRef(x) != ExtraRef(y))
    {
      assert CodeRef(x)[|CodeRef(x)| - 1] == 'e' && ExtraRef(y)[|ExtraRef(y)| - 1] == 'a';
      if CodeRef(x) == CodeRef(y) { CodeRefInjective(x, y); }
      if ExtraRef(x) == ExtraRef(y) { ExtraRefInjective(x, y); }
    }
  }

  // ---- What holds on them -----------------------------------------------------------

  ghost predicate FromStreams(s: State, streams: iset<string>) {
    forall i | i in s.syncs :: s.syncs[i].stream in streams
  }

  ghost predicate OneAtATime(s: State) {
    forall i, j | At(s, i) && At(s, j) && i != j :: s.syncs[i].stream != s.syncs[j].stream
  }

  /** The commits a sync has encoded. */
  function CommitsOf(phase: Phase): set<Oid> {
    match phase
    case Begun => {}
    case Over => {}
    case HasCode(code) => {code}
    case HasBoth(code, extra) => {code, extra}
    case SentCode(code, extra) => {code, extra}
    case KeptCode(code, extra) => {code, extra}
    case SentExtra(code, extra) => {code, extra}
  }

  /** Both stores are closed, and the client has all that its refs and syncs name. */
  ghost predicate Stores(s: State) {
    && Closed(s.client, s.graph) && Closed(s.server, s.graph)
    && (forall n | n in s.refs :: s.refs[n] in s.client)
    && (forall i | i in s.syncs :: CommitsOf(s.syncs[i].phase) <= s.client)
  }

  /** The refs that a sync has still to push are at its own commits. */
  ghost predicate OwnAt(refs: map<string, Oid>, stream: string, phase: Phase) {
    && (phase.HasCode? || phase.HasBoth? ==> CodeRef(stream) in refs ==> refs[CodeRef(stream)] == phase.code)
    && (phase.HasBoth? || phase.SentCode? || phase.KeptCode? ==>
          ExtraRef(stream) in refs ==> refs[ExtraRef(stream)] == phase.extra)
  }

  ghost predicate RefsAreOwn(s: State) {
    forall i | At(s, i) :: OwnAt(s.refs, s.syncs[i].stream, s.syncs[i].phase)
  }

  /** What is about to be pinned has arrived. */
  ghost predicate PushesArrived(s: State) {
    && (forall i | At(s, i) &&
            (s.syncs[i].phase.SentCode? || s.syncs[i].phase.KeptCode? || s.syncs[i].phase.SentExtra?) ::
          s.syncs[i].phase.code in s.server)
    && (forall i | At(s, i) && s.syncs[i].phase.SentExtra? :: s.syncs[i].phase.extra in s.server)
  }

  /** What was pinned has arrived. */
  ghost predicate PinsArrived(s: State, streams: iset<string>) {
    && (forall stream | stream in streams && SentRef(stream) in s.refs :: s.refs[SentRef(stream)] in s.server)
    && (forall stream | stream in streams && SentExtraRef(stream) in s.refs :: s.refs[SentExtraRef(stream)] in s.server)
  }

  /** No `extra` commit has a parent that the server lacks. */
  ghost predicate ExtrasArePlaceable(s: State) {
    forall x | x in s.extras :: x in s.graph && s.graph[x] <= s.server
  }

  ghost predicate Inv(s: State, streams: iset<string>) {
    && FromStreams(s, streams) && OneAtATime(s) && Stores(s) && RefsAreOwn(s)
    && PushesArrived(s) && PinsArrived(s, streams) && ExtrasArePlaceable(s)
  }

  lemma FromStreamsKept(s: State, e: Event, streams: iset<string>)
    requires FromStreams(s, streams) && Can(s, e) && Orderly(s, e, streams)
    ensures FromStreams(Next(s, e), streams)
  {
    hide Makes, Delivers, Closed, Tips, Lookup, SetOf, CodeRef, ExtraRef, SentRef, SentExtraRef, Forgotten;
  }

  lemma OneAtATimeKept(s: State, e: Event, streams: iset<string>)
    requires OneAtATime(s) && Can(s, e) && Orderly(s, e, streams)
    ensures OneAtATime(Next(s, e))
  {
    hide Makes, Delivers, Closed, Tips, Lookup, SetOf, CodeRef, ExtraRef, SentRef, SentExtraRef, Forgotten;
  }

  lemma ClosedGrows(store: set<Oid>, g: Graph, commit: Oid, parents: set<Oid>)
    requires Closed(store, g) && Makes(g, commit, parents)
    ensures Closed(store, g[commit := parents])
    ensures parents <= store ==> Closed(store + {commit}, g[commit := parents])
  {
  }

  lemma NamedStaysInClient(s: State, e: Event)
    requires Stores(s) && Can(s, e)
    ensures forall n | n in Next(s, e).refs :: Next(s, e).refs[n] in Next(s, e).client
    ensures forall i | i in Next(s, e).syncs :: CommitsOf(Next(s, e).syncs[i].phase) <= Next(s, e).client
  {
    hide Closed, Makes, Tips, CodeRef, ExtraRef, SentRef, SentExtraRef, Covers, Lookup, SetOf, Delivers;
  }

  lemma StoresKept(s: State, e: Event)
    requires Stores(s) && Can(s, e)
    ensures Stores(Next(s, e))
  {
    hide Closed, Makes, Tips, CodeRef, ExtraRef, SentRef, SentExtraRef, Forgotten, CommitsOf;
    NamedStaysInClient(s, e);
    match e {
      case Commits(id, parents) =>
        ClosedGrows(s.client, s.graph, id, parents);
        ClosedGrows(s.server, s.graph, id, parents);
      case EncodesCode(_, commit, head) =>
        ClosedGrows(s.client, s.graph, commit, SetOf(head));
        ClosedGrows(s.server, s.graph, commit, SetOf(head));
      case EncodesExtra(sync, commit) =>
        var parents := SetOf(Lookup(s.refs, SentExtraRef(s.syncs[sync].stream)));
        ClosedGrows(s.client, s.graph, commit, parents);
        ClosedGrows(s.server, s.graph, commit, parents);
      case _ =>
    }
  }

  /** What an event does to the refs of a stream, as seen by name. */
  lemma RefsAfter(s: State, e: Event, streams: iset<string>, stream: string)
    requires NoSentStream(streams) && FromStreams(s, streams) && stream in streams && Can(s, e)
    ensures var t := Next(s, e);
            && (CodeRef(stream) in t.refs ==>
                  if e.EncodesCode? && s.syncs[e.sync].stream == stream then t.refs[CodeRef(stream)] == e.commit
                  else CodeRef(stream) in s.refs && t.refs[CodeRef(stream)] == s.refs[CodeRef(stream)])
            && (ExtraRef(stream) in t.refs ==>
                  if e.EncodesExtra? && s.syncs[e.sync].stream == stream then t.refs[ExtraRef(stream)] == e.commit
                  else ExtraRef(stream) in s.refs && t.refs[ExtraRef(stream)] == s.refs[ExtraRef(stream)])
            && (SentRef(stream) in t.refs ==>
                  if e.RetainsCode? && s.syncs[e.sync].stream == stream
                  then t.refs[SentRef(stream)] == s.syncs[e.sync].phase.code
                  else SentRef(stream) in s.refs && t.refs[SentRef(stream)] == s.refs[SentRef(stream)])
            && (SentExtraRef(stream) in t.refs ==>
                  if e.RetainsExtra? && s.syncs[e.sync].stream == stream
                  then t.refs[SentExtraRef(stream)] == s.syncs[e.sync].phase.extra
                  else SentExtraRef(stream) in s.refs && t.refs[SentExtraRef(stream)] == s.refs[SentExtraRef(stream)])
            && (!e.ForgetsOnClient? && !(e.RetainsExtra? && s.syncs[e.sync].stream == stream) ==>
                  Lookup(t.refs, SentExtraRef(stream)) == Lookup(s.refs, SentExtraRef(stream)))
  {
    hide Makes, Delivers, Closed, Tips, SetOf, CodeRef, ExtraRef, SentRef, SentExtraRef, Covers;
    if e.EncodesCode? || e.EncodesExtra? || e.RetainsCode? || e.RetainsExtra? {
      NamesApart(streams, s.syncs[e.sync].stream, stream);
      NamesApart(streams, stream, s.syncs[e.sync].stream);
    }
  }

  lemma OwnAtKept(s: State, e: Event, streams: iset<string>, i: nat)
    requires NoSentStream(streams) && FromStreams(s, streams) && OneAtATime(s) && RefsAreOwn(s) && Can(s, e)
    requires At(Next(s, e), i)
    ensures OwnAt(Next(s, e).refs, Next(s, e).syncs[i].stream, Next(s, e).syncs[i].phase)
  {
    hide Makes, Delivers, Closed, Tips, Lookup, SetOf, CodeRef, ExtraRef, SentRef, SentExtraRef, Forgotten;
    if At(s, i) {
      RefsAfter(s, e, streams, s.syncs[i].stream);
      assert OwnAt(s.refs, s.syncs[i].stream, s.syncs[i].phase);
    }
  }

  lemma RefsAreOwnKept(s: State, e: Event, streams: iset<string>)
    requires NoSentStream(streams) && FromStreams(s, streams) && OneAtATime(s) && RefsAreOwn(s) && Can(s, e)
    ensures RefsAreOwn(Next(s, e))
  {
    hide Can, Next, OwnAt;
    forall i | At(Next(s, e), i)
      ensures OwnAt(Next(s, e).refs, Next(s, e).syncs[i].stream, Next(s, e).syncs[i].phase)
    {
      OwnAtKept(s, e, streams, i);
    }
  }

  lemma PushesArrivedKept(s: State, e: Event)
    requires RefsAreOwn(s) && PushesArrived(s) && Can(s, e)
    ensures PushesArrived(Next(s, e))
  {
    hide Makes, Closed, Tips, Lookup, SetOf, CodeRef, ExtraRef, SentRef, SentExtraRef, Forgotten;
  }

  lemma PinsArrivedKept(s: State, e: Event, streams: iset<string>)
    requires NoSentStream(streams) && FromStreams(s, streams)
    requires PushesArrived(s) && PinsArrived(s, streams) && Can(s, e)
    ensures PinsArrived(Next(s, e), streams)
  {
    hide Makes, Closed, Tips, Lookup, SetOf, Delivers, CodeRef, ExtraRef, SentRef, SentExtraRef, Forgotten;
    forall stream | stream in streams { RefsAfter(s, e, streams, stream); }
    ServerGrows(s, e);
  }

  lemma ServerGrows(s: State, e: Event)
    requires Can(s, e)
    ensures s.server <= Next(s, e).server
  {
    hide Makes, Closed, Tips, Lookup, SetOf, Delivers, CodeRef, ExtraRef, SentRef, SentExtraRef, Forgotten;
  }

  lemma ExtrasArePlaceableKept(s: State, e: Event, streams: iset<string>)
    requires FromStreams(s, streams) && PinsArrived(s, streams) && ExtrasArePlaceable(s) && Can(s, e)
    ensures ExtrasArePlaceable(Next(s, e))
  {
    hide Closed, Tips, CodeRef, ExtraRef, SentRef, SentExtraRef, Forgotten;
  }

  lemma InvKept(s: State, e: Event, streams: iset<string>)
    requires NoSentStream(streams) && Inv(s, streams) && Can(s, e) && Orderly(s, e, streams)
    ensures Inv(Next(s, e), streams)
  {
    hide Next, Can, Orderly, NoSentStream, FromStreams, OneAtATime, Stores,
         RefsAreOwn, PushesArrived, PinsArrived, ExtrasArePlaceable;
    FromStreamsKept(s, e, streams);
    OneAtATimeKept(s, e, streams);
    StoresKept(s, e);
    RefsAreOwnKept(s, e, streams);
    PushesArrivedKept(s, e);
    PinsArrivedKept(s, e, streams);
    ExtrasArePlaceableKept(s, e, streams);
  }

  // ---- Runs ------------------------------------------------------------------------

  ghost predicate Feasible(s: State, es: seq<Event>)
    decreases |es|
  {
    es == [] || (Can(s, es[0]) && Feasible(Next(s, es[0]), es[1..]))
  }

  ghost predicate OrderlyRun(s: State, es: seq<Event>, streams: iset<string>)
    requires Feasible(s, es)
    decreases |es|
  {
    es == [] || (Orderly(s, es[0], streams) && OrderlyRun(Next(s, es[0]), es[1..], streams))
  }

  ghost function After(s: State, es: seq<Event>): State
    requires Feasible(s, es)
    decreases |es|
  {
    if es == [] then s else After(Next(s, es[0]), es[1..])
  }

  lemma {:induction false} InvAlongRun(s: State, es: seq<Event>, streams: iset<string>)
    requires NoSentStream(streams) && Inv(s, streams) && Feasible(s, es) && OrderlyRun(s, es, streams)
    ensures Inv(After(s, es), streams)
    decreases |es|
  {
    hide Inv, Can, Next, Orderly, NoSentStream;
    if es != [] {
      InvKept(s, es[0], streams);
      InvAlongRun(Next(s, es[0]), es[1..], streams);
    }
  }

  lemma InitialIsSound(s: State, streams: iset<string>)
    requires Initial(s)
    ensures Inv(s, streams) && Chains(s, streams)
  {
    hide CodeRef, ExtraRef, SentRef, SentExtraRef;
  }

  /** In every state that orderly runs can reach, whatever failed and whichever
      acknowledgements were lost on the way: every pinned tip is in the server's store with all
      its ancestors, and so is every parent of every `extra` commit ever made. */
  lemma PinnedTipsArrived(s: State, es: seq<Event>, streams: iset<string>, stream: string, path: seq<Oid>)
    requires NoSentStream(streams) && Initial(s) && Feasible(s, es) && OrderlyRun(s, es, streams) && stream in streams
    requires var t := After(s, es);
             && Descends(path, t.graph)
             && (|| Some(path[0]) == Lookup(t.refs, SentRef(stream))
                 || Some(path[0]) == Lookup(t.refs, SentExtraRef(stream))
                 || exists x | x in t.extras && x in t.graph :: path[0] in t.graph[x])
    ensures path[|path| - 1] in After(s, es).server
  {
    hide Feasible, OrderlyRun, After, NoSentStream, FromStreams, OneAtATime, RefsAreOwn,
         PushesArrived, CodeRef, ExtraRef, SentRef, SentExtraRef;
    var t := After(s, es);
    InitialIsSound(s, streams);
    InvAlongRun(s, es, streams);
    assert path[0] in t.server;
    assert Closed(t.server, t.graph);
    ClosedHasAncestors(t.server, t.graph, path);
  }

  // ---- The chain of retained tips ---------------------------------------------------

  /** The tips form one chain: the first has no parent, each next one its predecessor. */
  ghost predicate IsChain(tips: seq<Oid>, g: Graph) {
    forall i | 0 <= i < |tips| :: tips[i] in g && g[tips[i]] == SetOf(LastOf(tips[..i]))
  }

  function LastOf(tips: seq<Oid>): Option<Oid> {
    if tips == [] then None else Some(tips[|tips| - 1])
  }

  ghost predicate ChainOf(s: State, stream: string) {
    IsChain(Tips(s, stream), s.graph) && Lookup(s.refs, SentExtraRef(stream)) == LastOf(Tips(s, stream))
  }

  predicate HasExtra(phase: Phase) {
    phase.HasBoth? || phase.SentCode? || phase.KeptCode? || phase.SentExtra?
  }

  /** A sync's `extra` commit is parented on its stream's present pin. */
  ghost predicate Continues(s: State, sync: Sync) {
    HasExtra(sync.phase) ==>
      sync.phase.extra in s.graph && s.graph[sync.phase.extra] == SetOf(Lookup(s.refs, SentExtraRef(sync.stream)))
  }

  /** Each stream's retained tips form a chain that ends in its pin, and a commit that is on
      its way to be retained continues it. */
  ghost predicate Chains(s: State, streams: iset<string>) {
    && (forall stream | stream in streams :: ChainOf(s, stream))
    && (forall i | At(s, i) :: Continues(s, s.syncs[i]))
  }

  lemma ChainGrows(tips: seq<Oid>, g: Graph, next: Oid)
    requires IsChain(tips, g) && next in g && g[next] == SetOf(LastOf(tips))
    ensures IsChain(tips + [next], g) && LastOf(tips + [next]) == Some(next)
  {
    var all := tips + [next];
    forall i | 0 <= i < |all| ensures all[i] in g && g[all[i]] == SetOf(LastOf(all[..i])) {
      assert all[..i] == tips[..i];
      assert i < |tips| ==> all[i] == tips[i];
      assert tips[..|tips|] == tips;
    }
    assert all[|all| - 1] == next;
  }

  lemma ChainStays(tips: seq<Oid>, g: Graph, commit: Oid, parents: set<Oid>)
    requires IsChain(tips, g) && Makes(g, commit, parents)
    ensures IsChain(tips, g[commit := parents])
  {
  }

  lemma ChainOfKept(s: State, e: Event, streams: iset<string>, stream: string)
    requires NoSentStream(streams) && FromStreams(s, streams) && stream in streams
    requires ChainOf(s, stream) && (forall i | At(s, i) :: Continues(s, s.syncs[i]))
    requires Can(s, e) && !e.ForgetsOnClient?
    ensures ChainOf(Next(s, e), stream)
  {
    hide Closed, Delivers, IsChain, Makes, CodeRef, ExtraRef, SentRef, SentExtraRef, NoSentStream;
    RefsAfter(s, e, streams, stream);
    match e {
      case Commits(id, parents) => ChainStays(Tips(s, stream), s.graph, id, parents);
      case EncodesCode(_, commit, head) => ChainStays(Tips(s, stream), s.graph, commit, SetOf(head));
      case EncodesExtra(sync, commit) =>
        ChainStays(Tips(s, stream), s.graph, commit, SetOf(Lookup(s.refs, SentExtraRef(s.syncs[sync].stream))));
      case RetainsExtra(sync) =>
        if stream == s.syncs[sync].stream { ChainGrows(Tips(s, stream), s.graph, s.syncs[sync].phase.extra); }
      case _ =>
    }
  }

  lemma InFlightContinue(s: State, e: Event, streams: iset<string>, i: nat)
    requires NoSentStream(streams) && FromStreams(s, streams) && OneAtATime(s)
    requires forall j | At(s, j) :: Continues(s, s.syncs[j])
    requires Can(s, e) && !e.ForgetsOnClient? && At(Next(s, e), i)
    ensures Continues(Next(s, e), Next(s, e).syncs[i])
  {
    hide Closed, Delivers, Tips, CodeRef, ExtraRef, SentRef, SentExtraRef, Lookup, SetOf, NoSentStream;
    if At(s, i) {
      RefsAfter(s, e, streams, s.syncs[i].stream);
      assert Continues(s, s.syncs[i]);
    }
  }

  lemma ChainsKept(s: State, e: Event, streams: iset<string>)
    requires NoSentStream(streams) && FromStreams(s, streams) && OneAtATime(s)
    requires Chains(s, streams) && Can(s, e) && !e.ForgetsOnClient?
    ensures Chains(Next(s, e), streams)
  {
    hide Can, Next, NoSentStream, FromStreams, OneAtATime, ChainOf, Continues;
    forall stream | stream in streams ensures ChainOf(Next(s, e), stream) {
      ChainOfKept(s, e, streams, stream);
    }
    forall i | At(Next(s, e), i) ensures Continues(Next(s, e), Next(s, e).syncs[i]) {
      InFlightContinue(s, e, streams, i);
    }
  }

  lemma {:induction false} ChainsAlongRun(s: State, es: seq<Event>, streams: iset<string>)
    requires NoSentStream(streams) && Inv(s, streams) && Chains(s, streams) && Feasible(s, es)
    requires OrderlyRun(s, es, streams)
    requires forall e | e in es :: !e.ForgetsOnClient?
    ensures Chains(After(s, es), streams)
    decreases |es|
  {
    hide Can, Next, Orderly, Stores, RefsAreOwn, PushesArrived,
         PinsArrived, ExtrasArePlaceable, Chains, OneAtATime, FromStreams, NoSentStream;
    if es != [] {
      assert es[0] in es && forall e | e in es[1..] :: e in es;
      InvKept(s, es[0], streams);
      ChainsKept(s, es[0], streams);
      ChainsAlongRun(Next(s, es[0]), es[1..], streams);
    }
  }

  /** Without forgets on the client, the successive retained `extra` tips of a stream are
      one parent chain, from a first rootless commit to the present pin, whatever failed
      between them. */
  lemma RetainedTipsAreOneChain(s: State, es: seq<Event>, streams: iset<string>, stream: string)
    requires NoSentStream(streams) && Initial(s) && Feasible(s, es) && OrderlyRun(s, es, streams) && stream in streams
    requires forall e | e in es :: !e.ForgetsOnClient?
    ensures var t := After(s, es);
            && IsChain(Tips(t, stream), t.graph)
            && Lookup(t.refs, SentExtraRef(stream)) == LastOf(Tips(t, stream))
  {
    hide Feasible, OrderlyRun, After, Initial, Inv, IsChain, Tips, NoSentStream, SentExtraRef;
    InitialIsSound(s, streams);
    ChainsAlongRun(s, es, streams);
    assert ChainOf(After(s, es), stream);
  }

  // ---- When pins are sound ------------------------------------------------------------

  ghost predicate Reaches(g: Graph, from: Oid, to: Oid) {
    exists path :: Descends(path, g) && path[0] == from && path[|path| - 1] == to
  }

  /** `got` is no more than a push of `tip` needs. */
  ghost predicate NoMore(s: State, tip: Oid, got: set<Oid>) {
    forall o | o in got :: o in s.server || Reaches(s.graph, tip, o)
  }

  lemma DeliveredExactly(s: State, tip: Oid, got: set<Oid>, commit: Oid)
    requires Delivers(s, tip, got) && NoMore(s, tip, got)
    ensures commit in s.server + got <==> commit in s.server || Reaches(s.graph, tip, commit)
  {
    hide Closed;
    if Reaches(s.graph, tip, commit) {
      var path :| Descends(path, s.graph) && path[0] == tip && path[|path| - 1] == commit;
      ClosedHasAncestors(s.server + got, s.graph, path);
    }
  }

  /** Exactly when an acknowledged push makes the coming `code` pin sound: of all states, those
      in which the server has this sync's commit already, or the ref that is pushed still
      leads to it. */
  lemma CodePinIsSoundExactly(s: State, sync: nat, got: set<Oid>)
    requires Can(s, PushesCode(sync, got, true)) && NoMore(s, s.refs[CodeRef(s.syncs[sync].stream)], got)
    ensures var Sync(stream, phase) := s.syncs[sync];
            var t := Next(s, PushesCode(sync, got, true));
            && Can(t, RetainsCode(sync)) && Next(t, RetainsCode(sync)).refs[SentRef(stream)] == phase.code
            && (phase.code in Next(t, RetainsCode(sync)).server <==>
                  phase.code in s.server || Reaches(s.graph, s.refs[CodeRef(stream)], phase.code))
  {
    hide Delivers, NoMore, Reaches, CodeRef, ExtraRef, SentRef, SentExtraRef, Tips, Forgotten;
    var Sync(stream, phase) := s.syncs[sync];
    DeliveredExactly(s, s.refs[CodeRef(stream)], got, phase.code);
  }

  /** The same for the `extra` pin, which the next `extra` commit of the stream is parented on:
      whenever that is encoded while the pin stands, its parent is one that the server lacks
      unless the pin is sound. */
  lemma ExtraPinIsSoundExactly(s: State, sync: nat, got: set<Oid>)
    requires Can(s, PushesExtra(sync, got, true)) && NoMore(s, s.refs[ExtraRef(s.syncs[sync].stream)], got)
    ensures var Sync(stream, phase) := s.syncs[sync];
            var t := Next(s, PushesExtra(sync, got, true));
            && Can(t, RetainsExtra(sync)) && Next(t, RetainsExtra(sync)).refs[SentExtraRef(stream)] == phase.extra
            && (phase.extra in Next(t, RetainsExtra(sync)).server <==>
                  phase.extra in s.server || Reaches(s.graph, s.refs[ExtraRef(stream)], phase.extra))
  {
    hide Delivers, NoMore, Reaches, CodeRef, ExtraRef, SentRef, SentExtraRef, Forgotten;
    var Sync(stream, phase) := s.syncs[sync];
    DeliveredExactly(s, s.refs[ExtraRef(stream)], got, phase.extra);
  }

  /** The next `extra` commit has a parent that the server lacks exactly when its stream has a
      pin that the server lacks. */
  lemma NextExtraIsPlaceableExactly(s: State, sync: nat, commit: Oid)
    requires Can(s, EncodesExtra(sync, commit))
    ensures var t := Next(s, EncodesExtra(sync, commit));
            var pin := Lookup(s.refs, SentExtraRef(s.syncs[sync].stream));
            && commit in t.graph
            && (t.graph[commit] <= t.server <==> (pin.Some? ==> pin.value in s.server))
  {
    hide CodeRef, ExtraRef, SentRef, SentExtraRef, Forgotten, Tips, Closed;
    var pin := Lookup(s.refs, SentExtraRef(s.syncs[sync].stream));
    assert pin.Some? ==> pin.value in SetOf(pin);
  }

  // ---- What breaks them ----------------------------------------------------------------

  /** Every pin of these streams has arrived, and every `extra` commit can be placed. */
  ghost predicate Sound(s: State, streams: iset<string>) {
    PinsArrived(s, streams) && ExtrasArePlaceable(s)
  }

  ghost predicate Run(s: State, es: seq<Event>, streams: iset<string>) {
    Feasible(s, es) && OrderlyRun(s, es, streams)
  }

  const EMPTY := State(map[], {}, {}, map[], map[], map[], {}, map[])

  lemma EmptyIsInitial()
    ensures Initial(EMPTY)
  {
  }

  lemma NothingMore(s: State, streams: iset<string>)
    ensures Run(s, [], streams) && After(s, []) == s
  {
  }

  lemma NowThen(s: State, e: Event, rest: seq<Event>)
    requires Can(s, e) && Feasible(Next(s, e), rest)
    ensures Feasible(s, [e] + rest) && After(s, [e] + rest) == After(Next(s, e), rest)
  {
    assert ([e] + rest)[1..] == rest;
  }

  lemma NowThenOrderly(s: State, e: Event, rest: seq<Event>, streams: iset<string>)
    requires Can(s, e) && Orderly(s, e, streams) && Run(Next(s, e), rest, streams)
    ensures Run(s, [e] + rest, streams) && After(s, [e] + rest) == After(Next(s, e), rest)
  {
    assert ([e] + rest)[1..] == rest;
  }

  /** Encoding a stream named `<id>/sent` moves the pins of `<id>`. */
  lemma SentStreamMovesPins(s: State, sync: nat, commit: Oid, head: Option<Oid>, id: string)
    requires sync in s.syncs && s.syncs[sync].stream == id + "/sent"
    ensures Can(s, EncodesCode(sync, commit, head)) ==>
              Lookup(Next(s, EncodesCode(sync, commit, head)).refs, SentRef(id)) == Some(commit)
    ensures Can(s, EncodesExtra(sync, commit)) ==>
              Lookup(Next(s, EncodesExtra(sync, commit)).refs, SentExtraRef(id)) == Some(commit)
  {
    hide CodeRef, ExtraRef, SentRef, SentExtraRef, Forgotten, Tips, Closed;
    NamesAreRefs(id);
  }

  /** After both have been encoded, with nothing pushed. */
  function SentEncoded(id: string): State {
    var sub := id + "/sent";
    State(map[10 := {}, 20 := {}], {10, 20}, {}, map[CodeRef(sub) := 10, ExtraRef(sub) := 20], map[],
          map[0 := Sync(sub, HasBoth(10, 20))], {20}, map[])
  }

  lemma SentCanBeEncoded(id: string, rest: seq<Event>, streams: iset<string>) returns (es: seq<Event>)
    requires id + "/sent" in streams && Run(SentEncoded(id), rest, streams)
    ensures Run(EMPTY, es, streams) && After(EMPTY, es) == After(SentEncoded(id), rest)
  {
    hide Feasible, OrderlyRun, After, Tips, Closed, Delivers, CodeRef, ExtraRef, SentRef, SentExtraRef, Run;
    var sub := id + "/sent";
    NamesAreRefs(sub);
    LeavesApart(sub, sub, sub + "/sent", sub);
    var s1 := EMPTY.(syncs := map[0 := Sync(sub, Begun)]);
    var s2 := State(map[10 := {}], {10}, {}, map[CodeRef(sub) := 10], map[],
              map[0 := Sync(sub, HasCode(10))], {}, map[]);
    assert Next(EMPTY, Begins(0, sub)) == s1;
    assert Next(s1, EncodesCode(0, 10, None)) == s2;
    assert SentExtraRef(sub) !in s2.refs;
    assert Next(s2, EncodesExtra(0, 20)) == SentEncoded(id);
    NowThenOrderly(s2, EncodesExtra(0, 20), rest, streams);
    var r2 := [EncodesExtra(0, 20)] + rest;
    NowThenOrderly(s1, EncodesCode(0, 10, None), r2, streams);
    var r1 := [EncodesCode(0, 10, None)] + r2;
    NowThenOrderly(EMPTY, Begins(0, sub), r1, streams);
    es := [Begins(0, sub)] + r1;
  }

  /** With `<id>` and `<id>/sent` both in use, an orderly run leads to a state in which what pins
      `<id>` never arrived, and its next `extra` commit has a parent that the server lacks. */
  lemma SentStreamBreaksPins(id: string, streams: iset<string>) returns (es: seq<Event>)
    requires id in streams && id + "/sent" in streams
    ensures Initial(EMPTY) && Run(EMPTY, es, streams)
    ensures var t := After(EMPTY, es);
            && SentRef(id) in t.refs && t.refs[SentRef(id)] !in t.server
            && SentExtraRef(id) in t.refs && t.refs[SentExtraRef(id)] !in t.server
            && 21 in t.extras && 21 in t.graph && !(t.graph[21] <= t.server)
            && !Sound(t, streams)
  {
    hide Feasible, OrderlyRun, After, Tips, Closed, Delivers, CodeRef, ExtraRef, SentRef, SentExtraRef, Run;
    var sub, s := id + "/sent", SentEncoded(id);
    assert sub != id;
    EmptyIsInitial();
    NamesAreRefs(id);
    LeavesApart(id, sub, id, sub);
    var s1 := s.(syncs := s.syncs[1 := Sync(id, Begun)]);
    assert Next(s, Begins(1, id)) == s1;
    var s2 := Next(s1, EncodesCode(1, 11, None));
    assert s2.refs[SentExtraRef(id)] == 20 && s2.refs[SentRef(id)] == 10;
    var s3 := Next(s2, EncodesExtra(1, 21));
    assert s3.graph[21] == {20} && s3.server == {} && 20 in s3.graph[21];
    NothingMore(s3, streams);
    NowThenOrderly(s2, EncodesExtra(1, 21), [], streams);
    var r2 := [EncodesExtra(1, 21)] + [];
    NowThenOrderly(s1, EncodesCode(1, 11, None), r2, streams);
    var r1 := [EncodesCode(1, 11, None)] + r2;
    NowThenOrderly(s, Begins(1, id), r1, streams);
    es := SentCanBeEncoded(id, [Begins(1, id)] + r1, streams);
  }

  /** Which streams can be used together: every orderly run over them keeps all pins sound and
      all `extra` commits placeable if and only if none of them is another's `sent` one. */
  lemma PinsHoldExactly(streams: iset<string>)
    ensures NoSentStream(streams) <==>
            forall s: State, es: seq<Event> | Initial(s) && Run(s, es, streams) :: Sound(After(s, es), streams)
  {
    hide Initial, Feasible, OrderlyRun, After, Sound, Inv;
    if NoSentStream(streams) {
      forall s: State, es: seq<Event> | Initial(s) && Run(s, es, streams) ensures Sound(After(s, es), streams) {
        InitialIsSound(s, streams);
        InvAlongRun(s, es, streams);
        InvIsSound(After(s, es), streams);
      }
    } else {
      var id, sub :| id in streams && sub in streams && sub == id + "/sent";
      var es := SentStreamBreaksPins(id, streams);
    }
  }

  lemma InvIsSound(s: State, streams: iset<string>)
    requires Inv(s, streams)
    ensures Sound(s, streams)
  {
  }

  /** Two syncs of `stream` that have begun, of which the first has encoded both its commits
      and then the second both its own. */
  function Overlapped(stream: string): State {
    State(map[10 := {}, 20 := {}, 11 := {}, 21 := {}], {10, 20, 11, 21}, {},
          map[CodeRef(stream) := 11, ExtraRef(stream) := 21], map[],
          map[0 := Sync(stream, HasBoth(10, 20)), 1 := Sync(stream, HasBoth(11, 21))], {20, 21}, map[])
  }

  function FirstEncoded(stream: string): State {
    State(map[10 := {}, 20 := {}], {10, 20}, {}, map[CodeRef(stream) := 10, ExtraRef(stream) := 20], map[],
          map[0 := Sync(stream, HasBoth(10, 20)), 1 := Sync(stream, Begun)], {20}, map[])
  }

  lemma FirstCanEncode(stream: string, rest: seq<Event>) returns (es: seq<Event>)
    requires Feasible(FirstEncoded(stream), rest)
    ensures Feasible(EMPTY, es) && After(EMPTY, es) == After(FirstEncoded(stream), rest)
  {
    hide Feasible, After, Tips, Closed, Delivers, CodeRef, ExtraRef, SentRef, SentExtraRef;
    NamesOfOne(stream);
    var s1 := EMPTY.(syncs := map[0 := Sync(stream, Begun)]);
    var s2 := EMPTY.(syncs := map[0 := Sync(stream, Begun), 1 := Sync(stream, Begun)]);
    var s3 := State(map[10 := {}], {10}, {}, map[CodeRef(stream) := 10], map[],
                    map[0 := Sync(stream, HasCode(10)), 1 := Sync(stream, Begun)], {}, map[]);
    assert Next(EMPTY, Begins(0, stream)) == s1;
    assert Next(s1, Begins(1, stream)) == s2;
    assert Next(s2, EncodesCode(0, 10, None)) == s3;
    assert Next(s3, EncodesExtra(0, 20)) == FirstEncoded(stream);
    NowThen(s3, EncodesExtra(0, 20), rest);
    var r3 := [EncodesExtra(0, 20)] + rest;
    NowThen(s2, EncodesCode(0, 10, None), r3);
    var r2 := [EncodesCode(0, 10, None)] + r3;
    NowThen(s1, Begins(1, stream), r2);
    var r1 := [Begins(1, stream)] + r2;
    NowThen(EMPTY, Begins(0, stream), r1);
    es := [Begins(0, stream)] + r1;
  }

  function SecondHasCode(stream: string): State {
    State(map[10 := {}, 20 := {}, 11 := {}], {10, 20, 11}, {},
          map[CodeRef(stream) := 11, ExtraRef(stream) := 20], map[],
          map[0 := Sync(stream, HasBoth(10, 20)), 1 := Sync(stream, HasCode(11))], {20}, map[])
  }

  lemma SecondEncodesCode(stream: string)
    ensures Can(FirstEncoded(stream), EncodesCode(1, 11, None))
    ensures Next(FirstEncoded(stream), EncodesCode(1, 11, None)) == SecondHasCode(stream)
  {
    hide CodeRef, ExtraRef, SentRef, SentExtraRef, Tips, Closed, Delivers, Forgotten;
    NamesOfOne(stream);
  }

  lemma SecondEncodesExtra(stream: string)
    ensures Can(SecondHasCode(stream), EncodesExtra(1, 21))
    ensures Next(SecondHasCode(stream), EncodesExtra(1, 21)) == Overlapped(stream)
  {
    hide CodeRef, ExtraRef, SentRef, SentExtraRef, Tips, Closed, Delivers, Forgotten;
    NamesOfOne(stream);
  }

  lemma SecondCanEncode(stream: string, rest: seq<Event>) returns (es: seq<Event>)
    requires Feasible(Overlapped(stream), rest)
    ensures Feasible(EMPTY, es) && After(EMPTY, es) == After(Overlapped(stream), rest)
  {
    hide Feasible, After, Can, Next;
    SecondEncodesCode(stream);
    SecondEncodesExtra(stream);
    NowThen(SecondHasCode(stream), EncodesExtra(1, 21), rest);
    var more := [EncodesExtra(1, 21)] + rest;
    NowThen(FirstEncoded(stream), EncodesCode(1, 11, None), more);
    es := FirstCanEncode(stream, [EncodesCode(1, 11, None)] + more);
  }

  /** The first sync then pushes what the second encoded, and pins what it encoded itself. */
  function MisPinned(stream: string): State {
    var t := ExtraPushed(stream);
    t.(refs := t.refs[SentExtraRef(stream) := 20], syncs := t.syncs[0 := Sync(stream, Over)],
       retained := t.retained[stream := [20]])
  }

  lemma FirstPinsWrongly(stream: string, rest: seq<Event>) returns (es: seq<Event>)
    requires Feasible(MisPinned(stream), rest)
    ensures Feasible(EMPTY, es) && After(EMPTY, es) == After(MisPinned(stream), rest)
  {
    hide Feasible, After, CodeRef, ExtraRef, SentRef, SentExtraRef, Can, Next;
    PushesOtherCode(stream);
    PushesOtherExtra(stream);
    RetainsOwnCode(stream);
    RetainsOwnExtra(stream);
    NowThen(ExtraPushed(stream), RetainsExtra(0), rest);
    var r9 := [RetainsExtra(0)] + rest;
    NowThen(CodeKept(stream), PushesExtra(0, {21}, true), r9);
    var r8 := [PushesExtra(0, {21}, true)] + r9;
    NowThen(CodePushed(stream), RetainsCode(0), r8);
    var r7 := [RetainsCode(0)] + r8;
    NowThen(Overlapped(stream), PushesCode(0, {11}, true), r7);
    es := SecondCanEncode(stream, [PushesCode(0, {11}, true)] + r7);
  }

  function CodePushed(stream: string): State {
    var t := Overlapped(stream);
    t.(server := {11}, serverRefs := t.serverRefs[CodeRef(stream) := 11],
       syncs := t.syncs[0 := Sync(stream, SentCode(10, 20))])
  }

  function CodeKept(stream: string): State {
    var t := CodePushed(stream);
    t.(refs := t.refs[SentRef(stream) := 10], syncs := t.syncs[0 := Sync(stream, KeptCode(10, 20))])
  }

  function ExtraPushed(stream: string): State {
    var t := CodeKept(stream);
    t.(server := {11, 21}, serverRefs := t.serverRefs[ExtraRef(stream) := 21],
       syncs := t.syncs[0 := Sync(stream, SentExtra(10, 20))])
  }

  lemma PushesOtherCode(stream: string)
    ensures Can(Overlapped(stream), PushesCode(0, {11}, true))
    ensures Next(Overlapped(stream), PushesCode(0, {11}, true)) == CodePushed(stream)
  {
    hide CodeRef, ExtraRef, SentRef, SentExtraRef, Tips, Forgotten;
    NamesOfOne(stream);
    assert Delivers(Overlapped(stream), 11, {11});
  }

  lemma PushesOtherExtra(stream: string)
    ensures Can(CodeKept(stream), PushesExtra(0, {21}, true))
    ensures Next(CodeKept(stream), PushesExtra(0, {21}, true)) == ExtraPushed(stream)
  {
    hide CodeRef, ExtraRef, SentRef, SentExtraRef, Tips, Forgotten;
    NamesOfOne(stream);
    assert Delivers(CodeKept(stream), 21, {21});
  }

  lemma RetainsOwnCode(stream: string)
    ensures Can(CodePushed(stream), RetainsCode(0)) && Next(CodePushed(stream), RetainsCode(0)) == CodeKept(stream)
  {
    hide CodeRef, ExtraRef, SentRef, SentExtraRef, Forgotten, Delivers, Tips, Closed, Makes;
    NamesOfOne(stream);
  }

  lemma RetainsOwnExtra(stream: string)
    ensures Can(ExtraPushed(stream), RetainsExtra(0)) && Next(ExtraPushed(stream), RetainsExtra(0)) == MisPinned(stream)
  {
    hide CodeRef, ExtraRef, SentRef, SentExtraRef, Forgotten, Delivers, Closed, Makes;
    NamesOfOne(stream);
    assert [] + [20] == [20];
  }

  lemma NamesOfOne(stream: string)
    ensures CodeRef(stream) != ExtraRef(stream) && CodeRef(stream) != SentRef(stream)
    ensures CodeRef(stream) != SentExtraRef(stream)
    ensures ExtraRef(stream) != SentRef(stream) && ExtraRef(stream) != SentExtraRef(stream)
    ensures SentRef(stream) != SentExtraRef(stream)
  {
    NamesApart(iset{stream}, stream, stream);
  }

  /** From any state in which a stream has a pin that the server lacks, that stream's next sync
      encodes an `extra` commit whose parent the server lacks, and leaves both pins. */
  lemma UnsentPinSpreads(s: State, stream: string, sync: nat, code: Oid, extra: Oid) returns (es: seq<Event>)
    requires sync !in s.syncs && code !in s.graph && extra !in s.graph && code != extra
    requires SentExtraRef(stream) in s.refs && s.refs[SentExtraRef(stream)] !in s.server
    ensures Feasible(s, es)
    ensures var t := After(s, es);
            && extra in t.extras && extra in t.graph && t.graph[extra] == {s.refs[SentExtraRef(stream)]}
            && t.server == s.server && !(t.graph[extra] <= t.server)
            && Lookup(t.refs, SentRef(stream)) == Lookup(s.refs, SentRef(stream))
            && Lookup(t.refs, SentExtraRef(stream)) == Lookup(s.refs, SentExtraRef(stream))
  {
    hide Feasible, After, Tips, Closed, Delivers, CodeRef, ExtraRef, SentRef, SentExtraRef, Forgotten;
    NamesOfOne(stream);
    var pin := s.refs[SentExtraRef(stream)];
    var s1 := Next(s, Begins(sync, stream));
    var s2 := Next(s1, EncodesCode(sync, code, None));
    var s3 := Next(s2, EncodesExtra(sync, extra));
    assert s3.graph[extra] == {pin} && pin in s3.graph[extra];
    NothingMore(s3, iset{});
    NowThen(s2, EncodesExtra(sync, extra), []);
    var r2 := [EncodesExtra(sync, extra)] + [];
    NowThen(s1, EncodesCode(sync, code, None), r2);
    var r1 := [EncodesCode(sync, code, None)] + r2;
    NowThen(s, Begins(sync, stream), r1);
    es := [Begins(sync, stream)] + r1;
  }

  /** Two syncs of one stream that do overlap can pin, of both chains, a tip that the server
      never got: each push sends the ref as the other sync has left it, and each pin names the
      sync's own commit. The stream's next `extra` commit then has a parent that the server
      lacks. */
  lemma OverlappingSyncsPinUnsent(stream: string) returns (es: seq<Event>)
    ensures Initial(EMPTY) && Feasible(EMPTY, es)
    ensures var t := After(EMPTY, es);
            && SentRef(stream) in t.refs && t.refs[SentRef(stream)] !in t.server
            && SentExtraRef(stream) in t.refs && t.refs[SentExtraRef(stream)] !in t.server
            && 22 in t.extras && 22 in t.graph && !(t.graph[22] <= t.server)
  {
    hide Feasible, After, CodeRef, ExtraRef, SentRef, SentExtraRef, Initial;
    EmptyIsInitial();
    NamesOfOne(stream);
    var s := MisPinned(stream);
    assert s.refs[SentExtraRef(stream)] == 20 && s.refs[SentRef(stream)] == 10 && s.server == {11, 21};
    var rest := UnsentPinSpreads(s, stream, 2, 12, 22);
    es := FirstPinsWrongly(stream, rest);
  }
}
