/** The per-stream ref layout, and forgetting and reaping streams. */
module Refs {
  import opened Options

  const STREAMS_PREFIX := "refs/git-full-send/streams/"

  // ---- Names ---------------------------------------------------------------------

  function CodeRef(stream: string): string { STREAMS_PREFIX + stream + "/code" }

  function ExtraRef(stream: string): string { STREAMS_PREFIX + stream + "/extra" }

  function SentRef(stream: string): string { STREAMS_PREFIX + stream + "/sent/code" }

  function SentExtraRef(stream: string): string { STREAMS_PREFIX + stream + "/sent/extra" }

  function StreamPrefix(stream: string): string { STREAMS_PREFIX + stream + "/" }

  /** Whether git accepts a stream id as part of a ref name; never an empty one. */
  type Validity = string -> bool

  predicate Accepts(valid: Validity, id: string) {
    id != "" && valid(id)
  }

  predicate EndsWith(s: string, suffix: string) {
    |suffix| <= |s| && s[|s| - |suffix|..] == suffix
  }

  /** The stream whose `code` ref this is. */
  function StreamIdFromCodeRef(name: string, valid: Validity): Option<string> {
    if !(STREAMS_PREFIX <= name) then None
    else
      var rest := name[|STREAMS_PREFIX|..];
      if !EndsWith(rest, "/code") then None
      else
        var id := rest[..|rest| - 5];
        if Accepts(valid, id) then Some(id) else None
  }

  /** Building a `code` ref and recovering its stream are inverse, both ways: a name yields a
      stream exactly when it is the `code` ref of that stream. */
  lemma CodeRefRoundTrip(name: string, stream: string, valid: Validity)
    ensures StreamIdFromCodeRef(name, valid) == Some(stream) <==> name == CodeRef(stream) && Accepts(valid, stream)
  {
    if name == CodeRef(stream) {
      assert name == STREAMS_PREFIX + (stream + "/code");
      assert name[|STREAMS_PREFIX|..] == stream + "/code";
      assert (stream + "/code")[..|stream|] == stream;
    }
    if STREAMS_PREFIX <= name {
      var rest := name[|STREAMS_PREFIX|..];
      assert name == STREAMS_PREFIX + rest;
      if EndsWith(rest, "/code") {
        assert rest == rest[..|rest| - 5] + "/code";
        assert STREAMS_PREFIX + rest[..|rest| - 5] + "/code" == STREAMS_PREFIX + rest;
      }
    }
  }

  lemma CodeRefInjective(s: string, t: string)
    requires CodeRef(s) == CodeRef(t)
    ensures s == t
  {
    assert |s| == |t|;
    assert s == CodeRef(s)[|STREAMS_PREFIX|..|STREAMS_PREFIX| + |s|];
    assert t == CodeRef(t)[|STREAMS_PREFIX|..|STREAMS_PREFIX| + |t|];
  }

  lemma ExtraRefInjective(s: string, t: string)
    requires ExtraRef(s) == ExtraRef(t)
    ensures s == t
  {
    assert |s| == |t|;
    assert s == ExtraRef(s)[|STREAMS_PREFIX|..|STREAMS_PREFIX| + |s|];
    assert t == ExtraRef(t)[|STREAMS_PREFIX|..|STREAMS_PREFIX| + |t|];
  }

  /** A stream's local pins look like `code` and `extra` refs of a stream named below it. */
  lemma PinsLookLikeStreams(stream: string, valid: Validity)
    requires valid(stream + "/sent")
    ensures SentRef(stream) == CodeRef(stream + "/sent") && SentExtraRef(stream) == ExtraRef(stream + "/sent")
    ensures StreamIdFromCodeRef(SentRef(stream), valid) == Some(stream + "/sent")
  {
    assert STREAMS_PREFIX + stream + "/sent/code" == STREAMS_PREFIX + (stream + "/sent") + "/code";
    assert STREAMS_PREFIX + stream + "/sent/extra" == STREAMS_PREFIX + (stream + "/sent") + "/extra";
    CodeRefRoundTrip(SentRef(stream), stream + "/sent", valid);
  }

  /** A ref lies under a stream's prefix. */
  predicate Covers(stream: string, name: string) {
    StreamPrefix(stream) <= name
  }

  /** One id is the other, or a path above it. */
  predicate Nests(outer: string, inner: string) {
    inner == outer || outer + "/" <= inner
  }

  /** A stream's prefix covers all of its own refs, and of other streams' `code` and `extra`
      refs exactly those of streams named below it: `foo` covers none of `foobar`, but all
      of `foo/bar`. */
  lemma CoversExactly(s: string, t: string, leaf: string)
    requires leaf == "/code" || leaf == "/extra"
    ensures Covers(s, STREAMS_PREFIX + t + leaf) <==> Nests(s, t)
  {
    var name := STREAMS_PREFIX + t + leaf;
    assert name == STREAMS_PREFIX + (t + leaf);
    assert StreamPrefix(s) == STREAMS_PREFIX + (s + "/");
    SamePrefix(STREAMS_PREFIX, s + "/", t + leaf);
    SlashBounds(s, t, leaf);
  }

  lemma SlashBounds(s: string, t: string, leaf: string)
    requires leaf == "/code" || leaf == "/extra"
    ensures s + "/" <= t + leaf <==> Nests(s, t)
  {
    if s + "/" <= t + leaf {
      assert (t + leaf)[|s|] == (s + "/")[|s|] == '/';
      assert s == (s + "/")[..|s|] == (t + leaf)[..|s|];
      if |s| == |t| {
        assert s == t;
      } else {
        assert s + "/" == (t + leaf)[..|s| + 1] == t[..|s| + 1];
      }
    }
    if Nests(s, t) {
      var rest := if s == t then leaf[1..] else t[|s| + 1..] + leaf;
      assert t + leaf == s + "/" + rest;
    }
  }

  lemma SamePrefix(p: string, a: string, b: string)
    ensures p + a <= p + b <==> a <= b
  {
    if p + a <= p + b {
      assert a == (p + a)[|p|..] == (p + b)[|p|..|p + a|] == b[..|a|];
    }
    if a <= b {
      assert p + b == p + a + b[|a|..];
    }
  }

  // ---- Forgetting and reaping ------------------------------------------------------

  /** What a ref leads to: the committer time, in Unix seconds, of its commit, if any. */
  datatype Target = Target(committed: Option<int>)

  type Store = map<string, Target>

  function Covered(refs: Store, stream: string): set<string> {
    set n | n in refs && Covers(stream, n)
  }

  function Without(refs: Store, stream: string): Store {
    map n | n in refs && !Covers(stream, n) :: refs[n]
  }

  predicate CoveredByAny(streams: seq<string>, name: string) {
    exists i | 0 <= i < |streams| :: Covers(streams[i], name)
  }

  /** The refs left when each of `streams` is forgotten. */
  function Survivors(refs: Store, streams: seq<string>): Store {
    map n | n in refs && !CoveredByAny(streams, n) :: refs[n]
  }

  predicate HasCode(refs: Store, valid: Validity, stream: string) {
    Accepts(valid, stream) && CodeRef(stream) in refs
  }

  /** A stream whose `code` commit is strictly older than the cutoff. */
  predicate Stale(refs: Store, valid: Validity, cutoff: int, stream: string) {
    && HasCode(refs, valid, stream)
    && refs[CodeRef(stream)].committed.Some?
    && refs[CodeRef(stream)].committed.value < cutoff
  }

  ghost predicate Distinct(streams: seq<string>) {
    forall i, j | 0 <= i < j < |streams| :: streams[i] != streams[j]
  }

  /** The stale streams, each once, in any order. */
  ghost predicate ListsStale(streams: seq<string>, refs: Store, valid: Validity, cutoff: int) {
    Distinct(streams) && forall s :: s in streams <==> Stale(refs, valid, cutoff, s)
  }

  ghost predicate PairwiseApart(streams: seq<string>) {
    forall i, j | 0 <= i < |streams| && 0 <= j < |streams| && i != j :: !Nests(streams[i], streams[j])
  }

  // What reaping means ---------------------------------------------------------------

  /** Reaping leaves no stale stream, so reaping again changes nothing. */
  lemma ReapingIsFinal(refs: Store, valid: Validity, cutoff: int, stale: seq<string>, again: seq<string>)
    requires ListsStale(stale, refs, valid, cutoff)
    requires ListsStale(again, Survivors(refs, stale), valid, cutoff)
    ensures again == [] && Survivors(Survivors(refs, stale), again) == Survivors(refs, stale)
  {
    hide CodeRef, ExtraRef, StreamPrefix;
    if again != [] {
      var s := again[0];
      assert s in again && CodeRef(s) in Survivors(refs, stale);
      assert Stale(refs, valid, cutoff, s) && s in stale;
      var i :| 0 <= i < |stale| && stale[i] == s;
      CoversExactly(s, s, "/code");
      CodeRefShape(s);
      assert false;
    }
  }

  lemma CodeRefShape(s: string)
    ensures CodeRef(s) == STREAMS_PREFIX + s + "/code" && ExtraRef(s) == STREAMS_PREFIX + s + "/extra"
  {
  }

  /** A stream keeps its `code` and `extra` refs exactly when no stale stream is it or is
      named above it: reaping takes a live stream along with a stale one above it. */
  lemma KeptExactly(refs: Store, stale: seq<string>, t: string)
    ensures CodeRef(t) in Survivors(refs, stale) <==> CodeRef(t) in refs && forall s | s in stale :: !Nests(s, t)
    ensures ExtraRef(t) in Survivors(refs, stale) <==> ExtraRef(t) in refs && forall s | s in stale :: !Nests(s, t)
  {
    hide CodeRef, ExtraRef, StreamPrefix, Nests;
    CodeRefShape(t);
    forall s ensures (Covers(s, CodeRef(t)) <==> Nests(s, t)) && (Covers(s, ExtraRef(t)) <==> Nests(s, t)) {
      CoversExactly(s, t, "/code");
      CoversExactly(s, t, "/extra");
    }
    if s :| s in stale && Nests(s, t) {
      var i :| 0 <= i < |stale| && stale[i] == s;
      assert CoveredByAny(stale, CodeRef(t)) && CoveredByAny(stale, ExtraRef(t));
    }
  }

  /** Only streams one of which is named below the other share a ref. */
  lemma SharedRefsNest(s: string, t: string, name: string)
    requires Covers(s, name) && Covers(t, name)
    ensures Nests(s, t) || Nests(t, s)
  {
    var shorter, longer := if |s| <= |t| then s else t, if |s| <= |t| then t else s;
    assert StreamPrefix(shorter) == STREAMS_PREFIX + (shorter + "/") &&
           StreamPrefix(longer) == STREAMS_PREFIX + (longer + "/");
    assert StreamPrefix(shorter) == name[..|StreamPrefix(shorter)|] <= StreamPrefix(longer) by {
      assert StreamPrefix(longer) == name[..|StreamPrefix(longer)|];
    }
    SamePrefix(STREAMS_PREFIX, shorter + "/", longer + "/");
    if |shorter| == |longer| {
      assert shorter == (shorter + "/")[..|shorter|] == (longer + "/")[..|longer|] == longer;
    } else {
      assert shorter + "/" == (longer + "/")[..|shorter| + 1] == longer[..|shorter| + 1];
    }
  }

  lemma SurvivorsStep(refs: Store, streams: seq<string>, s: string)
    ensures Without(Survivors(refs, streams), s) == Survivors(refs, streams + [s])
  {
    hide StreamPrefix;
    forall n ensures CoveredByAny(streams + [s], n) <==> CoveredByAny(streams, n) || Covers(s, n) {
      var all := streams + [s];
      if i: nat :| i < |all| && Covers(all[i], n) {
        assert i < |streams| ==> all[i] == streams[i];
      }
      if i: nat :| i < |streams| && Covers(streams[i], n) {
        assert all[i] == streams[i];
      }
      assert all[|streams|] == s;
    }
  }

  /** What a dry run counts for stale stream `i` is what forgetting it in turn removes. */
  ghost predicate CountsAgree(refs: Store, streams: seq<string>, i: nat)
    requires i < |streams|
  {
    |Covered(Survivors(refs, streams[..i]), streams[i])| == |Covered(refs, streams[i])|
  }

  /** A dry run reports the counts that a real one would, if and only if no stale stream is
      named below another. */
  lemma DryRunIsAccurateExactly(refs: Store, streams: seq<string>)
    requires Distinct(streams) && forall s | s in streams :: CodeRef(s) in refs
    ensures (forall i | 0 <= i < |streams| :: CountsAgree(refs, streams, i)) <==> PairwiseApart(streams)
  {
    hide CodeRef, ExtraRef, StreamPrefix, Nests;
    if PairwiseApart(streams) {
      forall i | 0 <= i < |streams| ensures CountsAgree(refs, streams, i) {
        ApartCountsAgree(refs, streams, i);
      }
    } else {
      var i, j :| 0 <= i < |streams| && 0 <= j < |streams| && i != j && Nests(streams[i], streams[j]);
      NestedCountsDiffer(refs, streams, if i < j then i else j, if i < j then j else i);
    }
  }

  lemma ApartCountsAgree(refs: Store, streams: seq<string>, i: nat)
    requires i < |streams| && PairwiseApart(streams)
    ensures CountsAgree(refs, streams, i)
  {
    hide CodeRef, ExtraRef, StreamPrefix, Nests;
    forall n | n in Covered(refs, streams[i]) ensures n in Covered(Survivors(refs, streams[..i]), streams[i]) {
      if k: nat :| k < i && Covers(streams[..i][k], n) {
        SharedRefsNest(streams[k], streams[i], n);
        assert false;
      }
    }
    assert Covered(Survivors(refs, streams[..i]), streams[i]) == Covered(refs, streams[i]);
  }

  lemma NestedCountsDiffer(refs: Store, streams: seq<string>, i: nat, j: nat)
    requires i < j < |streams| && (Nests(streams[i], streams[j]) || Nests(streams[j], streams[i]))
    requires forall s | s in streams :: CodeRef(s) in refs
    ensures !CountsAgree(refs, streams, j)
  {
    hide CodeRef, ExtraRef, StreamPrefix, Nests;
    var inner := if Nests(streams[i], streams[j]) then streams[j] else streams[i];
    var n := CodeRef(inner);
    CodeRefShape(inner);
    assert inner in streams;
    CoversExactly(streams[i], inner, "/code");
    CoversExactly(streams[j], inner, "/code");
    assert Nests(inner, inner) by { NestsItself(inner); }
    assert Covers(streams[..j][i], n);
    var less, more := Covered(Survivors(refs, streams[..j]), streams[j]), Covered(refs, streams[j]);
    assert n in more && n !in less;
    SmallerSet(less, more, n);
  }

  lemma NestsItself(s: string)
    ensures Nests(s, s)
  {
  }

  lemma SmallerSet(less: set<string>, more: set<string>, n: string)
    requires less <= more && n in more && n !in less
    ensures |less| < |more|
  {
    assert less <= more - {n};
    SubsetSize(less, more - {n});
  }

  lemma {:induction false} SubsetSize(a: set<string>, b: set<string>)
    requires a <= b
    ensures |a| <= |b|
    decreases a
  {
    if n :| n in a { SubsetSize(a - {n}, b - {n}); }
  }

  // As the code does it --------------------------------------------------------------

  datatype Reaped = Reaped(stream: string, committed: int, removed: nat)

  datatype Outcome = Outcome(scanned: nat, reaped: seq<Reaped>, dryRun: bool)

  datatype ReapError = NoCommit(name: string)

  function StreamsOf(reaped: seq<Reaped>): seq<string> {
    seq(|reaped|, i requires 0 <= i < |reaped| => reaped[i].stream)
  }

  function CodeRefs(refs: Store, valid: Validity): set<string> {
    set n | n in refs && StreamIdFromCodeRef(n, valid).Some?
  }

  class Repository {
    var refs: Store

    /** Drop every ref of a stream; none is fine too. */
    method Forget(stream: string) returns (removed: nat)
      modifies this
      ensures refs == Without(old(refs), stream) && removed == |Covered(old(refs), stream)|
      ensures |refs| + removed == |old(refs)|
    {
      hide StreamPrefix;
      var rest, edits: set<string> := refs.Keys, {};
      removed := 0;
      while rest != {}
        invariant rest <= refs.Keys && refs == old(refs)
        invariant edits == set n | n in refs && n !in rest && Covers(stream, n)
        invariant removed == |edits|
        decreases rest
      {
        var name :| name in rest;
        rest := rest - {name};
        if Covers(stream, name) {
          assert name !in edits;
          edits, removed := edits + {name}, removed + 1;
        }
      }
      assert edits == Covered(refs, stream);
      PartSizes(refs.Keys, edits);
      refs := refs - edits;
      assert refs.Keys == old(refs.Keys) - edits;
    }

    /** How many refs a stream has. */
    method CountRefs(stream: string) returns (count: nat)
      ensures count == |Covered(refs, stream)|
    {
      hide StreamPrefix;
      var rest := refs.Keys;
      ghost var seen: set<string> := {};
      count := 0;
      while rest != {}
        invariant rest <= refs.Keys
        invariant seen == set n | n in refs && n !in rest && Covers(stream, n)
        invariant count == |seen|
        decreases rest
      {
        var name :| name in rest;
        rest := rest - {name};
        if Covers(stream, name) {
          assert name !in seen;
          seen, count := seen + {name}, count + 1;
        }
      }
      assert seen == Covered(refs, stream);
    }

    /** List the stale streams; it fails on a `code` ref that leads to no commit. */
    method FindStale(valid: Validity, cutoff: int) returns (r: Result<(nat, seq<Reaped>), ReapError>)
      ensures r.Err? <==> exists s :: HasCode(refs, valid, s) && refs[CodeRef(s)].committed.None?
      ensures r.Ok? ==>
                && r.value.0 == |CodeRefs(refs, valid)|
                && ListsStale(StreamsOf(r.value.1), refs, valid, cutoff)
                && forall i | 0 <= i < |r.value.1| ::
                     && CodeRef(r.value.1[i].stream) in refs
                     && refs[CodeRef(r.value.1[i].stream)].committed == Some(r.value.1[i].committed)
    {
      hide CodeRef, StreamPrefix, StreamIdFromCodeRef, Accepts;
      var rest := refs.Keys;
      var scanned, stale: seq<Reaped> := 0, [];
      ghost var seen: set<string> := {};
      while rest != {}
        invariant rest <= refs.Keys
        invariant seen == set n | n in refs && n !in rest && StreamIdFromCodeRef(n, valid).Some?
        invariant scanned == |seen|
        invariant Distinct(StreamsOf(stale))
        invariant forall s :: s in StreamsOf(stale) <==> Stale(refs, valid, cutoff, s) && CodeRef(s) !in rest
        invariant forall i | 0 <= i < |stale| ::
                    && CodeRef(stale[i].stream) in refs
                    && refs[CodeRef(stale[i].stream)].committed == Some(stale[i].committed)
        invariant forall s :: HasCode(refs, valid, s) && CodeRef(s) !in rest ==> refs[CodeRef(s)].committed.Some?
        decreases rest
      {
        var name :| name in rest;
        rest := rest - {name};
        OnlyOneStream(name, valid);
        var stream := StreamIdFromCodeRef(name, valid);
        if stream.Some? {
          assert name !in seen;
          scanned := scanned + 1;
          seen := seen + {name};
          var committed := refs[name].committed;
          if committed.None? { return Err(NoCommit(name)); }
          if committed.value < cutoff {
            ListsOneMore(stale, Reaped(stream.value, committed.value, 0));
            stale := stale + [Reaped(stream.value, committed.value, 0)];
          }
        }
      }
      assert seen == CodeRefs(refs, valid);
      r := Ok((scanned, stale));
    }

    /** Forget every stale stream, or in a dry run report what that would remove. */
    method Reap(valid: Validity, cutoff: int, dryRun: bool) returns (r: Result<Outcome, ReapError>)
      modifies this
      ensures r.Err? <==> exists s :: HasCode(old(refs), valid, s) && old(refs)[CodeRef(s)].committed.None?
      ensures r.Err? || dryRun ==> refs == old(refs)
      ensures r.Ok? ==>
                && r.value.scanned == |CodeRefs(old(refs), valid)| && r.value.dryRun == dryRun
                && ListsStale(StreamsOf(r.value.reaped), old(refs), valid, cutoff)
      ensures r.Ok? && dryRun ==>
                forall i | 0 <= i < |r.value.reaped| ::
                  r.value.reaped[i].removed == |Covered(old(refs), r.value.reaped[i].stream)|
      ensures r.Ok? && !dryRun ==>
                && refs == Survivors(old(refs), StreamsOf(r.value.reaped))
                && TotalRemoved(r.value.reaped) + |refs| == |old(refs)|
                && (PairwiseApart(StreamsOf(r.value.reaped)) ==>
                      forall i | 0 <= i < |r.value.reaped| ::
                        r.value.reaped[i].removed == |Covered(old(refs), r.value.reaped[i].stream)|)
    {
      hide CodeRef, Covers, Survivors, Covered, Without, ListsStale, HasCode, PairwiseApart, CodeRefs;
      ghost var start := refs;
      var found := FindStale(valid, cutoff);
      if found.Err? { return Err(found.error); }
      var (scanned, stale) := found.value;
      ghost var names := StreamsOf(stale);
      var reaped: seq<Reaped> := [];
      NoneForgotten(start);
      for i := 0 to |stale|
        invariant |reaped| == i && StreamsOf(reaped) == names[..i]
        invariant refs == if dryRun then start else Survivors(start, names[..i])
        invariant !dryRun ==> TotalRemoved(reaped) + |refs| == |start|
        invariant forall j | 0 <= j < i ::
                    reaped[j].removed == |Covered(if dryRun then start else Survivors(start, names[..j]), names[j])|
      {
        var count;
        if dryRun {
          count := CountRefs(stale[i].stream);
        } else {
          count := Forget(stale[i].stream);
        }
        var done := Reaped(stale[i].stream, stale[i].committed, count);
        ListsOneMore(reaped, done);
        SurvivorsStep(start, names[..i], names[i]);
        assert names[..i] + [names[i]] == names[..i + 1];
        assert (reaped + [done])[..i] == reaped;
        reaped := reaped + [done];
      }
      assert names[..|stale|] == names;
      if !dryRun && PairwiseApart(names) {
        forall i | 0 <= i < |reaped| ensures reaped[i].removed == |Covered(start, reaped[i].stream)| {
          ApartCountsAgree(start, names, i);
          assert CountsAgree(start, names, i);
        }
      }
      r := Ok(Outcome(scanned, reaped, dryRun));
    }
  }

  function TotalRemoved(reaped: seq<Reaped>): nat {
    if reaped == [] then 0 else TotalRemoved(reaped[..|reaped| - 1]) + reaped[|reaped| - 1].removed
  }

  lemma NoneForgotten(refs: Store)
    ensures Survivors(refs, []) == refs
  {
  }

  /** A name is the `code` ref of at most one stream: the one recovered from it. */
  lemma OnlyOneStream(name: string, valid: Validity)
    ensures forall s :: StreamIdFromCodeRef(name, valid) == Some(s) <==> CodeRef(s) == name && Accepts(valid, s)
  {
    forall s ensures StreamIdFromCodeRef(name, valid) == Some(s) <==> CodeRef(s) == name && Accepts(valid, s) {
      CodeRefRoundTrip(name, s, valid);
    }
  }

  lemma ListsOneMore(reaped: seq<Reaped>, r: Reaped)
    ensures StreamsOf(reaped + [r]) == StreamsOf(reaped) + [r.stream]
  {
  }

  lemma PartSizes(all: set<string>, part: set<string>)
    requires part <= all
    ensures |all - part| + |part| == |all|
  {
    assert all == (all - part) + part;
  }
}
