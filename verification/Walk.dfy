/** The selection walk: its reference meaning, the traversal the code performs, and the
    proof that they agree under every sound prune. */
module Walk {
  import opened Options
  import opened Paths
  import opened Glob
  import opened Rules

  /** What a directory entry is. Anything that is neither directory, regular file nor
      symlink is `Other`; a directory whose listing fails is `UnreadableDir`. */
  datatype Kind = File | Symlink | Other | Dir(entries: seq<Entry>) | UnreadableDir

  datatype Entry = Entry(name: string, kind: Kind)

  predicate IsDirectory(k: Kind) {
    k.Dir? || k.UnreadableDir?
  }

  predicate IsLeaf(k: Kind) {
    k.File? || k.Symlink?
  }

  /** A listing has valid, distinct names, all the way down. */
  ghost predicate ValidListing(entries: seq<Entry>)
    decreases entries
  {
    && (forall i | 0 <= i < |entries| :: ValidName(entries[i].name))
    && (forall i, j | 0 <= i < j < |entries| :: entries[i].name != entries[j].name)
    && (forall i | 0 <= i < |entries| && entries[i].kind.Dir? :: ValidListing(entries[i].kind.entries))
  }

  // ---- Reference meaning -------------------------------------------------------

  /** There is a file or symlink at `segs` below this listing. */
  ghost predicate LeafAt(entries: seq<Entry>, segs: Segments)
    decreases |segs|, 1
  {
    segs != [] && exists e | e in entries :: LeafIn(e, segs)
  }

  ghost predicate LeafIn(e: Entry, segs: Segments)
    requires segs != []
    decreases |segs|, 0
  {
    e.name == segs[0] && if |segs| == 1 then IsLeaf(e.kind) else e.kind.Dir? && LeafAt(e.kind.entries, segs[1..])
  }

  /** Whether the directory at `segs` is included: its own verdict if a pattern matches
      it, else its parent's state; the root starts excluded. */
  function DirState(rules: Layers, segs: Segments): bool {
    if segs == [] then false
    else Classify(rules, RelOf(segs), true).GetOr(DirState(rules, segs[..|segs| - 1]))
  }

  /** Whether a leaf at `segs` is included: its own verdict, else its directory's state. */
  function Chosen(rules: Layers, segs: Segments): bool
    requires segs != []
  {
    Classify(rules, RelOf(segs), false).GetOr(DirState(rules, segs[..|segs| - 1]))
  }

  /** What the selection means, with no walk and no prune: the leaves outside `.git`
      whose nearest decided ancestor-or-self is included. */
  ghost predicate Selected(rules: Layers, root: Kind, segs: Segments) {
    root.Dir? && LeafAt(root.entries, segs) && ".git" !in segs && Chosen(rules, segs)
  }

  // ---- The traversal -----------------------------------------------------------

  /** What a stretch of the walk did: whether it met no unreadable directory, the leaves
      it selected, the directories it entered, and its counters. */
  datatype Trace = Trace(ok: bool, out: seq<Segments>, entered: seq<Segments>,
                         considered: nat, pruned: nat, others: nat)
  {
    /** Continue with `next`, unless the walk already stopped on an error. */
    function Then(next: Trace): Trace {
      if !ok then this
      else Trace(next.ok, out + next.out, entered + next.entered,
                 considered + next.considered, pruned + next.pruned, others + next.others)
    }
  }

  const NOTHING := Trace(true, [], [], 0, 0, 0)

  /** The state a directory passes down. */
  function StateAt(rules: Layers, here: Segments, inherited: bool): bool {
    Classify(rules, RelOf(here), true).GetOr(inherited)
  }

  /** Entering a directory, given what walking its listing does. */
  function Enter(dir: Kind, here: Segments, below: Trace): Trace {
    if !dir.Dir? then Trace(false, [], [here], 0, 0, 0)
    else below.(entered := [here] + below.entered)
  }

  /** Visiting one entry, given what walking the listing below it would do. */
  function Visit(rules: Layers, prune: PruneInfo, e: Entry, here: Segments, inherited: bool, below: Trace): Trace {
    if e.name == ".git" then NOTHING
    else if IsDirectory(e.kind) then
      if StateAt(rules, here, inherited) || CanContainMatch(prune, RelOf(here)) then
        var t := Enter(e.kind, here, below);
        t.(considered := 1 + t.considered)
      else Trace(true, [], [], 1, 1, 0)
    else if IsLeaf(e.kind) && Classify(rules, RelOf(here), false).GetOr(inherited) then
      Trace(true, [here], [], 1, 0, 1)
    else Trace(true, [], [], 1, 0, 1)
  }

  function WalkEntries(rules: Layers, prune: PruneInfo, entries: seq<Entry>, base: Segments, inherited: bool): Trace
    decreases entries
  {
    if entries == [] then NOTHING
    else
      var e := entries[0];
      var here := base + [e.name];
      var below :=
        if e.kind.Dir? then WalkEntries(rules, prune, e.kind.entries, here, StateAt(rules, here, inherited))
        else NOTHING;
      Visit(rules, prune, e, here, inherited, below).Then(WalkEntries(rules, prune, entries[1..], base, inherited))
  }

  function WalkEntry(rules: Layers, prune: PruneInfo, e: Entry, base: Segments, inherited: bool): Trace {
    var here := base + [e.name];
    Visit(rules, prune, e, here, inherited,
          if e.kind.Dir? then WalkEntries(rules, prune, e.kind.entries, here, StateAt(rules, here, inherited))
          else NOTHING)
  }

  function WalkDir(rules: Layers, prune: PruneInfo, dir: Kind, base: Segments, inherited: bool): Trace
    requires IsDirectory(dir)
  {
    Enter(dir, base, if dir.Dir? then WalkEntries(rules, prune, dir.entries, base, inherited) else NOTHING)
  }

  // ---- Nothing is lost below a pruned directory --------------------------------

  /** Below a directory no prefix is compatible with, no path is ever included. */
  lemma NoInclusionBelow(rules: Layers, prune: PruneInfo, dir: Segments, segs: Segments, isDir: bool)
    requires Covers(prune, rules) && !CanContainMatch(prune, RelOf(dir))
    requires dir != [] && dir <= segs && ValidSegments(segs)
    ensures Classify(rules, RelOf(segs), isDir) != Some(true)
  {
    hide Wild, RelOf, PrunablePrefix, WellFormed, Matches;
    if Classify(rules, RelOf(segs), isDir) == Some(true) {
      LayersActAsOneList(rules, RelOf(segs), isDir);
      var p := VerdictHasPattern(Flatten(rules), RelOf(segs), isDir);
      MatchLiesUnderPrefix(p, segs, isDir);
      var prefix := PrunablePrefix(p).value;
      var i :| 0 <= i < |prune.prefixes| && prune.prefixes[i] == prefix;
      SplitRelOf(dir);
    }
  }

  lemma {:induction false} ExclusionPersists(rules: Layers, prune: PruneInfo, dir: Segments, segs: Segments)
    requires Covers(prune, rules) && !CanContainMatch(prune, RelOf(dir)) && !DirState(rules, dir)
    requires dir != [] && dir <= segs && ValidSegments(segs)
    ensures !DirState(rules, segs)
  {
    if dir != segs {
      ExclusionPersists(rules, prune, dir, segs[..|segs| - 1]);
      NoInclusionBelow(rules, prune, dir, segs, true);
    }
  }

  lemma NothingChosenBelow(rules: Layers, prune: PruneInfo, dir: Segments, segs: Segments)
    requires Covers(prune, rules) && !CanContainMatch(prune, RelOf(dir)) && !DirState(rules, dir)
    requires dir != [] && dir < segs && ValidSegments(segs)
    ensures !Chosen(rules, segs)
  {
    ExclusionPersists(rules, prune, dir, segs[..|segs| - 1]);
    NoInclusionBelow(rules, prune, dir, segs, false);
  }

  // ---- The traversal selects exactly the reference set --------------------------

  ghost predicate ValidEntry(e: Entry) {
    ValidName(e.name) && (e.kind.Dir? ==> ValidListing(e.kind.entries))
  }

  lemma {:induction false} LeafNamesAreValid(entries: seq<Entry>, segs: Segments)
    requires ValidListing(entries) && LeafAt(entries, segs)
    ensures ValidSegments(segs)
    decreases segs
  {
    var e :| e in entries && LeafIn(e, segs);
    var i :| 0 <= i < |entries| && entries[i] == e;
    if |segs| > 1 {
      LeafNamesAreValid(e.kind.entries, segs[1..]);
      assert forall k | 1 <= k < |segs| :: segs[k] == segs[1..][k - 1];
    }
  }

  /** The reference set, seen from the directory at `base` with the given listing. */
  ghost predicate Picks(rules: Layers, entries: seq<Entry>, base: Segments, segs: Segments) {
    base < segs && LeafAt(entries, segs[|base|..]) && ".git" !in segs[|base|..] && Chosen(rules, segs)
  }

  /** The part of it that lies at or below one entry. */
  ghost predicate PicksIn(rules: Layers, e: Entry, base: Segments, segs: Segments) {
    base < segs && LeafIn(e, segs[|base|..]) && ".git" !in segs[|base|..] && Chosen(rules, segs)
  }

  lemma PicksThroughDirectory(rules: Layers, e: Entry, base: Segments, segs: Segments)
    requires e.kind.Dir? && e.name != ".git"
    ensures PicksIn(rules, e, base, segs) <==> Picks(rules, e.kind.entries, base + [e.name], segs)
  {
    hide Chosen;
    if base < segs {
      var tail := segs[|base|..];
      assert tail[1..] == segs[|base| + 1..];
      assert tail == [tail[0]] + tail[1..];
      assert base + [e.name] < segs <==> tail[0] == e.name && |tail| > 1;
    }
  }

  lemma PicksAtLeaf(rules: Layers, e: Entry, base: Segments, segs: Segments)
    requires !IsDirectory(e.kind) && e.name != ".git"
    ensures PicksIn(rules, e, base, segs) <==>
            segs == base + [e.name] && IsLeaf(e.kind) &&
            Classify(rules, RelOf(segs), false).GetOr(DirState(rules, base))
  {
    hide Classify, RelOf;
    if base < segs {
      assert segs == base + segs[|base|..];
      if |segs| == |base| + 1 {
        assert segs[|base|..] == [segs[|base|]] && segs[..|segs| - 1] == base;
      }
    }
    if segs == base + [e.name] { assert segs[|base|..] == [e.name] && segs[..|segs| - 1] == base; }
  }

  lemma GitIsNotPicked(rules: Layers, e: Entry, base: Segments, segs: Segments)
    requires e.name == ".git"
    ensures !PicksIn(rules, e, base, segs)
  {
    if base < segs {
      var tail := segs[|base|..];
      assert tail[0] in tail;
    }
  }

  lemma UnreadableIsNotPicked(rules: Layers, e: Entry, base: Segments, segs: Segments)
    requires e.kind.UnreadableDir?
    ensures !PicksIn(rules, e, base, segs)
  {
  }

  lemma StatePassesDown(rules: Layers, base: Segments, name: string)
    ensures StateAt(rules, base + [name], DirState(rules, base)) == DirState(rules, base + [name])
  {
    hide Classify, RelOf;
    assert (base + [name])[..|base|] == base;
  }

  lemma WalkEntrySelects(rules: Layers, prune: PruneInfo, e: Entry, base: Segments, segs: Segments)
    requires Covers(prune, rules) && ValidEntry(e) && ValidSegments(base)
    requires WalkEntry(rules, prune, e, base, DirState(rules, base)).ok
    ensures segs in WalkEntry(rules, prune, e, base, DirState(rules, base)).out <==> PicksIn(rules, e, base, segs)
    decreases e, 0
  {
    hide Classify, RelOf, CanContainMatch, Covers, DirState, ValidListing, WalkEntries, PicksIn, Picks;
    if e.name == ".git" {
      GitIsNotPicked(rules, e, base, segs);
    } else if e.kind.Dir? {
      WalkDirectorySelects(rules, prune, e, base, segs);
    } else if e.kind.UnreadableDir? {
      UnreadableIsNotPicked(rules, e, base, segs);
    } else {
      PicksAtLeaf(rules, e, base, segs);
    }
  }

  lemma WalkDirectorySelects(rules: Layers, prune: PruneInfo, e: Entry, base: Segments, segs: Segments)
    requires Covers(prune, rules) && ValidEntry(e) && ValidSegments(base) && e.kind.Dir? && e.name != ".git"
    requires WalkEntry(rules, prune, e, base, DirState(rules, base)).ok
    ensures segs in WalkEntry(rules, prune, e, base, DirState(rules, base)).out <==> PicksIn(rules, e, base, segs)
    decreases e.kind, 0
  {
    hide Classify, RelOf, CanContainMatch, Covers, DirState, ValidListing, WalkEntries, PicksIn, Picks;
    var here := base + [e.name];
    StatePassesDown(rules, base, e.name);
    PicksThroughDirectory(rules, e, base, segs);
    if DirState(rules, here) || CanContainMatch(prune, RelOf(here)) {
      WalkEntriesSelect(rules, prune, e.kind.entries, here, segs);
    } else {
      PrunedPathNotPicked(rules, prune, e.kind.entries, here, segs);
    }
  }

  lemma PrunedPathNotPicked(rules: Layers, prune: PruneInfo, entries: seq<Entry>, dir: Segments, segs: Segments)
    requires Covers(prune, rules) && ValidListing(entries) && ValidSegments(dir) && dir != []
    requires !DirState(rules, dir) && !CanContainMatch(prune, RelOf(dir))
    ensures !Picks(rules, entries, dir, segs)
  {
    hide Classify, RelOf, CanContainMatch, Covers, DirState, Chosen;
    if Picks(rules, entries, dir, segs) {
      LeafNamesAreValid(entries, segs[|dir|..]);
      assert segs == dir + segs[|dir|..];
      NothingChosenBelow(rules, prune, dir, segs);
    }
  }

  /** Under any sound prune, a walk that meets no unreadable directory selects exactly
      the reference set. */
  lemma {:induction false} WalkEntriesSelect(rules: Layers, prune: PruneInfo, entries: seq<Entry>, base: Segments,
                                             segs: Segments)
    requires Covers(prune, rules) && ValidListing(entries) && ValidSegments(base)
    requires WalkEntries(rules, prune, entries, base, DirState(rules, base)).ok
    ensures segs in WalkEntries(rules, prune, entries, base, DirState(rules, base)).out <==>
            Picks(rules, entries, base, segs)
    decreases entries, 1
  {
    hide Classify, RelOf, CanContainMatch, Covers, DirState, Visit, Chosen;
    if entries != [] {
      assert ValidEntry(entries[0]);
      WalkEntrySelects(rules, prune, entries[0], base, segs);
      WalkEntriesSelect(rules, prune, entries[1..], base, segs);
      if base < segs {
        assert LeafAt(entries, segs[|base|..]) <==>
               LeafIn(entries[0], segs[|base|..]) || LeafAt(entries[1..], segs[|base|..]) by {
          assert forall e :: e in entries <==> e == entries[0] || e in entries[1..];
        }
      }
    }
  }

  // ---- The pruned walk against the exhaustive one ------------------------------

  /** Same selection in the same order; every directory entered is one the other walk
      enters too; and no error the other walk does not also meet. */
  ghost predicate Refines(fast: Trace, slow: Trace) {
    && fast.ok
    && fast.out == slow.out
    && forall d | d in fast.entered :: d in slow.entered
  }

  lemma EnterKeepsRefinement(dir: Kind, here: Segments, fast: Trace, slow: Trace)
    requires dir.Dir? && Refines(fast, slow)
    ensures Refines(Enter(dir, here, fast), Enter(dir, here, slow))
  {
  }

  lemma PrunedEntryRefines(rules: Layers, prune: PruneInfo, e: Entry, base: Segments)
    requires Covers(prune, rules) && ValidEntry(e) && ValidSegments(base)
    requires WalkEntry(rules, EXHAUSTIVE, e, base, DirState(rules, base)).ok
    ensures Refines(WalkEntry(rules, prune, e, base, DirState(rules, base)),
                    WalkEntry(rules, EXHAUSTIVE, e, base, DirState(rules, base)))
    decreases e, 0
  {
    hide Classify, RelOf, Covers, DirState, ValidListing, WalkEntries;
    var here := base + [e.name];
    assert here[..|here| - 1] == base;
    StatePassesDown(rules, base, e.name);
    if e.name != ".git" && e.kind.Dir? {
      if DirState(rules, here) || CanContainMatch(prune, RelOf(here)) {
        PrunedEntriesRefine(rules, prune, e.kind.entries, here);
        EnterKeepsRefinement(e.kind, here, WalkEntries(rules, prune, e.kind.entries, here, DirState(rules, here)),
                             WalkEntries(rules, EXHAUSTIVE, e.kind.entries, here, DirState(rules, here)));
      } else {
        PrunedDirectoryIsBarren(rules, prune, e.kind.entries, here);
      }
    }
  }

  lemma PrunedDirectoryIsBarren(rules: Layers, prune: PruneInfo, entries: seq<Entry>, dir: Segments)
    requires Covers(prune, rules) && ValidListing(entries) && ValidSegments(dir) && dir != []
    requires !DirState(rules, dir) && !CanContainMatch(prune, RelOf(dir))
    requires WalkEntries(rules, EXHAUSTIVE, entries, dir, false).ok
    ensures WalkEntries(rules, EXHAUSTIVE, entries, dir, false).out == []
  {
    hide Classify, RelOf, CanContainMatch, DirState, ValidListing, WalkEntries, Picks;
    var skipped := WalkEntries(rules, EXHAUSTIVE, entries, dir, false).out;
    if skipped != [] {
      WalkEntriesSelect(rules, EXHAUSTIVE, entries, dir, skipped[0]);
      PrunedPathNotPicked(rules, prune, entries, dir, skipped[0]);
    }
  }

  /** The prune never changes what is selected: wherever the exhaustive walk succeeds,
      the pruned walk succeeds with the same selection, entering no other directory. */
  lemma {:induction false} PrunedEntriesRefine(rules: Layers, prune: PruneInfo, entries: seq<Entry>, base: Segments)
    requires Covers(prune, rules) && ValidListing(entries) && ValidSegments(base)
    requires WalkEntries(rules, EXHAUSTIVE, entries, base, DirState(rules, base)).ok
    ensures Refines(WalkEntries(rules, prune, entries, base, DirState(rules, base)),
                    WalkEntries(rules, EXHAUSTIVE, entries, base, DirState(rules, base)))
    decreases entries, 1
  {
    hide Classify, RelOf, CanContainMatch, Covers, DirState, Visit;
    if entries != [] {
      assert ValidEntry(entries[0]);
      PrunedEntryRefines(rules, prune, entries[0], base);
      PrunedEntriesRefine(rules, prune, entries[1..], base);
    }
  }

  lemma PrunedWalkRefinesExhaustiveWalk(rules: Layers, prune: PruneInfo, root: Kind)
    requires Covers(prune, rules) && root.Dir? && ValidListing(root.entries)
    requires WalkDir(rules, EXHAUSTIVE, root, [], false).ok
    ensures Refines(WalkDir(rules, prune, root, [], false), WalkDir(rules, EXHAUSTIVE, root, [], false))
  {
    hide Classify, RelOf, CanContainMatch, Covers, ValidListing, WalkEntries;
    PrunedEntriesRefine(rules, prune, root.entries, []);
  }

  // ---- Shape of the selection --------------------------------------------------

  ghost predicate Distinct<T>(s: seq<T>) {
    forall i, j | 0 <= i < j < |s| :: s[i] != s[j]
  }

  lemma DistinctConcat<T>(a: seq<T>, b: seq<T>)
    requires Distinct(a) && Distinct(b) && forall p | p in a :: p !in b
    ensures Distinct(a + b)
  {
    forall i, j | 0 <= i < j < |a + b| ensures (a + b)[i] != (a + b)[j] {
      if i < |a| <= j { assert a[i] in a && b[j - |a|] in b; }
    }
  }

  lemma EntryOutputLiesBelow(rules: Layers, prune: PruneInfo, e: Entry, base: Segments, inherited: bool,
                             segs: Segments)
    requires segs in WalkEntry(rules, prune, e, base, inherited).out
    ensures base + [e.name] <= segs
    decreases e, 0
  {
    hide Classify, RelOf, CanContainMatch, WalkEntries;
    var here := base + [e.name];
    if e.kind.Dir? {
      var e' := OutputLiesBelow(rules, prune, e.kind.entries, here, StateAt(rules, here, inherited), segs);
    }
  }

  lemma {:induction false} OutputLiesBelow(rules: Layers, prune: PruneInfo, entries: seq<Entry>, base: Segments,
                                           inherited: bool, segs: Segments)
    returns (e: Entry)
    requires segs in WalkEntries(rules, prune, entries, base, inherited).out
    ensures e in entries && base + [e.name] <= segs
    decreases entries, 1
  {
    hide Classify, RelOf, CanContainMatch, Visit;
    if segs in WalkEntry(rules, prune, entries[0], base, inherited).out {
      e := entries[0];
      EntryOutputLiesBelow(rules, prune, e, base, inherited, segs);
    } else {
      e := OutputLiesBelow(rules, prune, entries[1..], base, inherited, segs);
    }
  }

  /** No path is selected twice. */
  lemma {:induction false} OutputIsDistinct(rules: Layers, prune: PruneInfo, entries: seq<Entry>, base: Segments,
                                            inherited: bool)
    requires ValidListing(entries)
    ensures Distinct(WalkEntries(rules, prune, entries, base, inherited).out)
    decreases entries, 1
  {
    hide Classify, RelOf, CanContainMatch;
    if entries != [] {
      var e := entries[0];
      var here := base + [e.name];
      if e.kind.Dir? {
        OutputIsDistinct(rules, prune, e.kind.entries, here, StateAt(rules, here, inherited));
      }
      var first := WalkEntry(rules, prune, e, base, inherited).out;
      var rest := WalkEntries(rules, prune, entries[1..], base, inherited).out;
      OutputIsDistinct(rules, prune, entries[1..], base, inherited);
      forall p | p in first ensures p !in rest {
        EntryOutputLiesBelow(rules, prune, e, base, inherited, p);
        assert p[|base|] == here[|base|] == e.name;
        if p in rest {
          var e' := OutputLiesBelow(rules, prune, entries[1..], base, inherited, p);
          assert false;
        }
      }
      DistinctConcat(first, rest);
    }
  }

  /** What the counters add up to: every considered entry was entered as a directory,
      pruned, or not a directory. */
  lemma {:induction false} CountersAddUp(rules: Layers, prune: PruneInfo, entries: seq<Entry>, base: Segments,
                                         inherited: bool)
    ensures Balanced(prune, WalkEntries(rules, prune, entries, base, inherited))
    decreases entries, 1
  {
    hide Classify, RelOf, CanContainMatch, Visit;
    if entries != [] {
      var e := entries[0];
      var here := base + [e.name];
      var below := NOTHING;
      if e.kind.Dir? {
        below := WalkEntries(rules, prune, e.kind.entries, here, StateAt(rules, here, inherited));
        CountersAddUp(rules, prune, e.kind.entries, here, StateAt(rules, here, inherited));
      }
      VisitBalances(rules, prune, e, here, inherited, below);
      CountersAddUp(rules, prune, entries[1..], base, inherited);
    }
  }

  ghost predicate Balanced(prune: PruneInfo, t: Trace) {
    t.considered == |t.entered| + t.pruned + t.others && |t.out| <= t.others && (prune.anyUnanchored ==> t.pruned == 0)
  }

  lemma VisitBalances(rules: Layers, prune: PruneInfo, e: Entry, here: Segments, inherited: bool, below: Trace)
    requires Balanced(prune, below)
    ensures Balanced(prune, Visit(rules, prune, e, here, inherited, below))
  {
    hide Classify, RelOf;
  }

  // ---- What the counters count --------------------------------------------------

  /** There is something other than a directory at `segs` below this listing. */
  ghost predicate NonDirAt(entries: seq<Entry>, segs: Segments)
    decreases |segs|, 1
  {
    segs != [] && exists e | e in entries :: NonDirIn(e, segs)
  }

  ghost predicate NonDirIn(e: Entry, segs: Segments)
    requires segs != []
    decreases |segs|, 0
  {
    && e.name == segs[0]
    && if |segs| == 1 then !IsDirectory(e.kind) else e.kind.Dir? && NonDirAt(e.kind.entries, segs[1..])
  }

  /** Every directory on the way to `segs`, from depth `from` on, is included or lies where some
      pattern could match. */
  ghost predicate OpenTo(rules: Layers, from: nat, segs: Segments) {
    forall k | from < k < |segs| :: DirState(rules, segs[..k]) || MayMatch(rules, RelOf(segs[..k]))
  }

  /** The non-directory entries the walk should get to see: those outside `.git` with an open
      way to them. */
  ghost predicate Seen(rules: Layers, root: Kind, segs: Segments) {
    root.Dir? && NonDirAt(root.entries, segs) && ".git" !in segs && OpenTo(rules, 0, segs)
  }

  /** The same, below a listing. */
  ghost predicate SeenBelow(rules: Layers, entries: seq<Entry>, base: Segments, segs: Segments) {
    base < segs && NonDirAt(entries, segs[|base|..]) && ".git" !in segs[|base|..] && OpenTo(rules, |base|, segs)
  }

  ghost predicate SeenIn(rules: Layers, e: Entry, base: Segments, segs: Segments) {
    base < segs && NonDirIn(e, segs[|base|..]) && ".git" !in segs[|base|..] && OpenTo(rules, |base|, segs)
  }

  /** The prune descends exactly where some pattern could match. */
  ghost predicate Decides(prune: PruneInfo, rules: Layers) {
    forall rel :: CanContainMatch(prune, rel) <==> MayMatch(rules, rel)
  }

  lemma SeenThroughDirectory(rules: Layers, e: Entry, base: Segments, segs: Segments)
    requires e.kind.Dir? && e.name != ".git"
    ensures var here := base + [e.name];
            SeenIn(rules, e, base, segs) <==>
            && (DirState(rules, here) || MayMatch(rules, RelOf(here)))
            && SeenBelow(rules, e.kind.entries, here, segs)
  {
    hide DirState, MayMatch, RelOf;
    var here := base + [e.name];
    if base < segs {
      var tail := segs[|base|..];
      assert tail[1..] == segs[|base| + 1..];
      assert tail == [tail[0]] + tail[1..];
      assert here < segs <==> tail[0] == e.name && |tail| > 1;
      if here < segs {
        assert segs[..|base| + 1] == here;
        assert OpenTo(rules, |base|, segs) <==>
               (DirState(rules, here) || MayMatch(rules, RelOf(here))) && OpenTo(rules, |base| + 1, segs);
      }
    }
  }

  lemma SeenAtLeaf(rules: Layers, e: Entry, base: Segments, segs: Segments)
    requires !IsDirectory(e.kind) && e.name != ".git"
    ensures SeenIn(rules, e, base, segs) <==> segs == base + [e.name]
  {
    hide DirState, MayMatch, RelOf;
    if base < segs {
      assert segs == base + segs[|base|..];
      if |segs| == |base| + 1 { assert segs[|base|..] == [segs[|base|]]; }
    }
    if segs == base + [e.name] { assert segs[|base|..] == [e.name]; }
  }

  lemma NothingSeenIn(rules: Layers, e: Entry, base: Segments, segs: Segments)
    requires e.name == ".git" || e.kind.UnreadableDir?
    ensures !SeenIn(rules, e, base, segs)
  {
    if base < segs {
      var tail := segs[|base|..];
      assert tail[0] in tail;
    }
  }

  lemma SeenEntry(rules: Layers, prune: PruneInfo, e: Entry, base: Segments) returns (seen: set<Segments>)
    requires Decides(prune, rules) && ValidEntry(e)
    requires WalkEntry(rules, prune, e, base, DirState(rules, base)).ok
    ensures |seen| == WalkEntry(rules, prune, e, base, DirState(rules, base)).others
    ensures forall segs :: segs in seen <==> SeenIn(rules, e, base, segs)
    decreases e, 0
  {
    hide Classify, RelOf, CanContainMatch, MayMatch, DirState, ValidListing, WalkEntries, SeenIn, SeenBelow;
    var here := base + [e.name];
    StatePassesDown(rules, base, e.name);
    seen := {};
    if e.name == ".git" || e.kind.UnreadableDir? {
      forall segs ensures !SeenIn(rules, e, base, segs) { NothingSeenIn(rules, e, base, segs); }
    } else if e.kind.Dir? {
      forall segs { SeenThroughDirectory(rules, e, base, segs); }
      if DirState(rules, here) || CanContainMatch(prune, RelOf(here)) {
        seen := SeenEntries(rules, prune, e.kind.entries, here);
      }
    } else {
      forall segs { SeenAtLeaf(rules, e, base, segs); }
      seen := {here};
    }
  }

  /** On a walk that meets no unreadable directory, `others` counts exactly the non-directory
      entries with an open way to them. */
  lemma {:induction false} SeenEntries(rules: Layers, prune: PruneInfo, entries: seq<Entry>, base: Segments)
    returns (seen: set<Segments>)
    requires Decides(prune, rules) && ValidListing(entries)
    requires WalkEntries(rules, prune, entries, base, DirState(rules, base)).ok
    ensures |seen| == WalkEntries(rules, prune, entries, base, DirState(rules, base)).others
    ensures forall segs :: segs in seen <==> SeenBelow(rules, entries, base, segs)
    decreases entries, 1
  {
    hide Classify, RelOf, CanContainMatch, MayMatch, DirState, Visit, NonDirIn, Decides;
    seen := {};
    if entries != [] {
      assert ValidEntry(entries[0]);
      var first := SeenEntry(rules, prune, entries[0], base);
      var rest := SeenEntries(rules, prune, entries[1..], base);
      forall segs | segs in first ensures segs !in rest { SeenOnce(rules, entries, base, segs); }
      assert first !! rest;
      seen := first + rest;
      forall segs ensures segs in seen <==> SeenBelow(rules, entries, base, segs) {
        SeenSplits(rules, entries, base, segs);
      }
    }
  }

  lemma SeenSplits(rules: Layers, entries: seq<Entry>, base: Segments, segs: Segments)
    requires entries != []
    ensures SeenBelow(rules, entries, base, segs) <==>
            SeenIn(rules, entries[0], base, segs) || SeenBelow(rules, entries[1..], base, segs)
  {
    hide DirState, RelOf, MayMatch, NonDirIn;
    assert forall e :: e in entries <==> e == entries[0] || e in entries[1..];
  }

  lemma SeenOnce(rules: Layers, entries: seq<Entry>, base: Segments, segs: Segments)
    requires entries != [] && ValidListing(entries) && SeenIn(rules, entries[0], base, segs)
    ensures !SeenBelow(rules, entries[1..], base, segs)
  {
    hide DirState, RelOf, MayMatch;
    var tail := segs[|base|..];
    forall e | e in entries[1..] ensures !NonDirIn(e, tail) {
      var i :| 0 <= i < |entries[1..]| && entries[1..][i] == e;
      assert entries[i + 1] == e;
    }
  }

  // ---- Adding a pattern --------------------------------------------------------

  lemma {:induction false} InsertedPatternMovesState(pre: Layers, a: seq<Pattern>, q: Pattern, b: seq<Pattern>,
                                                     post: Layers, segs: Segments)
    ensures var was, now := DirState(pre + [a + b] + post, segs), DirState(pre + [a + [q] + b] + post, segs);
            now == was || now == !q.negative
  {
    hide Classify, RelOf;
    if segs != [] {
      InsertedPatternMovesState(pre, a, q, b, post, segs[..|segs| - 1]);
      InsertedPatternDecidesOrNot(pre, a, q, b, post, RelOf(segs), true);
    }
  }

  /** Inserting a pattern anywhere in any layer moves the selection one way only, through
      inherited directory state at any depth: a `!` pattern can only shrink it, a
      positive pattern can only grow it. */
  lemma InsertedPatternMovesSelectionOneWay(pre: Layers, a: seq<Pattern>, q: Pattern, b: seq<Pattern>, post: Layers,
                                            root: Kind, segs: Segments)
    ensures q.negative ==>
              (Selected(pre + [a + [q] + b] + post, root, segs) ==> Selected(pre + [a + b] + post, root, segs))
    ensures !q.negative ==>
              (Selected(pre + [a + b] + post, root, segs) ==> Selected(pre + [a + [q] + b] + post, root, segs))
  {
    hide Classify, RelOf;
    if segs != [] {
      InsertedPatternMovesState(pre, a, q, b, post, segs[..|segs| - 1]);
      InsertedPatternDecidesOrNot(pre, a, q, b, post, RelOf(segs), false);
    }
  }
}
