/** Selecting the force-included files: loading the layers, walking, sorting. */
module Select {
  import opened Options
  import opened Paths
  import opened Glob
  import opened Rules
  import opened Walk

  // ---- Pattern files -----------------------------------------------------------

  /** What reading a pattern file yields. */
  datatype FileRead = Content(text: string) | NotFound | Unreadable

  datatype SelectError = ReadPatternFile | MissingExtraInclude(index: nat) | ReadDir

  /** Length of the first line, without its newline. */
  function LineLength(text: string): (n: nat)
    ensures n <= |text|
  {
    if text == "" || text[0] == '\n' then 0 else 1 + LineLength(text[1..])
  }

  function StripCr(line: string): string {
    if line != "" && line[|line| - 1] == '\r' then line[..|line| - 1] else line
  }

  /** The patterns of one file, line by line. */
  function ParseBuffer(text: string): (patterns: seq<Pattern>)
    ensures forall p | p in patterns :: WellFormed(p)
    decreases |text|
  {
    if text == "" then []
    else
      var n := LineLength(text);
      var rest := ParseBuffer(if n < |text| then text[n + 1..] else "");
      match ParseLine(StripCr(text[..n]))
      case Some(p) => [p] + rest
      case None => rest
  }

  /** The layer of a file that may be absent. */
  function OptionalLayer(file: FileRead): Result<Layers, SelectError> {
    match file
    case Content(text) => Ok([ParseBuffer(text)])
    case NotFound => Ok([])
    case Unreadable => Err(ReadPatternFile)
  }

  /** The layers of the caller-supplied files from `index` on; a missing one is an error. */
  function ExtraLayers(extras: seq<FileRead>, index: nat): Result<Layers, SelectError>
    requires index <= |extras|
    decreases |extras| - index
  {
    if index == |extras| then Ok([])
    else
      match extras[index]
      case Unreadable => Err(ReadPatternFile)
      case NotFound => Err(MissingExtraInclude(index))
      case Content(text) =>
        match ExtraLayers(extras, index + 1)
        case Err(e) => Err(e)
        case Ok(rest) => Ok([ParseBuffer(text)] + rest)
  }

  /** The whole allow-list: project, then user if configured, then the extra files. */
  function Loaded(project: FileRead, user: Option<FileRead>, extras: seq<FileRead>): Result<Layers, SelectError> {
    match OptionalLayer(project)
    case Err(e) => Err(e)
    case Ok(first) =>
      match (if user.Some? then OptionalLayer(user.value) else Ok([]))
      case Err(e) => Err(e)
      case Ok(second) =>
        match ExtraLayers(extras, 0)
        case Err(e) => Err(e)
        case Ok(third) => Ok(first + second + third)
  }

  method LoadSearch(project: FileRead, user: Option<FileRead>, extras: seq<FileRead>)
    returns (r: Result<Layers, SelectError>)
    ensures r == Loaded(project, user, extras)
    ensures r.Ok? ==> AllWellFormed(r.value)
  {
    var search: Layers := [];
    ghost var first, second := OptionalLayer(project), if user.Some? then OptionalLayer(user.value) else Ok([]);
    match project {
      case Content(text) => search := search + [ParseBuffer(text)];
      case NotFound =>
      case Unreadable => return Err(ReadPatternFile);
    }
    assert search == first.value;
    if user.Some? {
      match user.value {
        case Content(text) => search := search + [ParseBuffer(text)];
        case NotFound =>
        case Unreadable => return Err(ReadPatternFile);
      }
    }
    assert search == first.value + second.value;
    var rest := LoadExtras(extras);
    match rest {
      case Err(e) => return Err(e);
      case Ok(layers) =>
        LayersWellFormed(search + layers);
        r := Ok(search + layers);
    }
  }

  /** Read the caller-supplied files in order, stopping at the first that fails. */
  method LoadExtras(extras: seq<FileRead>) returns (r: Result<Layers, SelectError>)
    ensures r == ExtraLayers(extras, 0)
    ensures r.Ok? ==> forall k | 0 <= k < |r.value| :: forall p | p in r.value[k] :: WellFormed(p)
  {
    var layers: Layers := [];
    ghost var whole := ExtraLayers(extras, 0);
    assert whole.Ok? ==> [] + whole.value == whole.value;
    for i := 0 to |extras|
      invariant forall k | 0 <= k < |layers| :: forall p | p in layers[k] :: WellFormed(p)
      invariant match ExtraLayers(extras, i) {
        case Err(e) => whole == Err(e)
        case Ok(rest) => whole == Ok(layers + rest)
      }
    {
      match extras[i] {
        case Unreadable => return Err(ReadPatternFile);
        case NotFound => return Err(MissingExtraInclude(i));
        case Content(text) =>
          ghost var tail := ExtraLayers(extras, i + 1);
          assert tail.Ok? ==> layers + ([ParseBuffer(text)] + tail.value) == layers + [ParseBuffer(text)] + tail.value;
          layers := layers + [ParseBuffer(text)];
      }
    }
    assert layers + [] == layers;
    r := Ok(layers);
  }

  lemma {:induction false} LayersWellFormed(layers: Layers)
    requires forall k | 0 <= k < |layers| :: forall p | p in layers[k] :: WellFormed(p)
    ensures AllWellFormed(layers)
  {
    if layers != [] {
      LayersWellFormed(layers[1..]);
    }
  }

  // ---- The walk ----------------------------------------------------------------

  function Render(paths: seq<Segments>): (r: seq<string>)
    ensures |r| == |paths|
    ensures forall i | 0 <= i < |paths| :: r[i] == RelOf(paths[i])
  {
    seq(|paths|, i requires 0 <= i < |paths| => RelOf(paths[i]))
  }

  lemma RenderConcat(a: seq<Segments>, b: seq<Segments>)
    ensures Render(a + b) == Render(a) + Render(b)
  {
  }

  lemma ThenAssociates(a: Trace, b: Trace, c: Trace)
    ensures a.Then(b).Then(c) == a.Then(b.Then(c))
  {
    assert a.out + b.out + c.out == a.out + (b.out + c.out);
    assert a.entered + b.entered + c.entered == a.entered + (b.entered + c.entered);
  }

  /** One more entry: what is done so far, then the rest of the listing, is the whole. */
  lemma OneMoreEntry(rules: Layers, prune: PruneInfo, entries: seq<Entry>, i: nat, base: Segments, inherited: bool,
                     done: Trace)
    requires i < |entries| && done.ok
    ensures var step := WalkEntry(rules, prune, entries[i], base, inherited);
            && done.Then(WalkEntries(rules, prune, entries[i..], base, inherited)) ==
               done.Then(step).Then(WalkEntries(rules, prune, entries[i + 1..], base, inherited))
  {
    var step := WalkEntry(rules, prune, entries[i], base, inherited);
    assert entries[i..][0] == entries[i] && entries[i..][1..] == entries[i + 1..];
    ThenAssociates(done, step, WalkEntries(rules, prune, entries[i + 1..], base, inherited));
  }

  /** What a walker holds: the paths selected so far, the directories entered, and the
      two counters kept beside them. */
  datatype Progress = Progress(out: seq<string>, entered: seq<Segments>, pruned: nat, considered: nat)
  {
    /** This progress, extended by what a stretch of the walk did. */
    function Plus(t: Trace): Progress {
      Progress(out + Render(t.out), entered + t.entered, pruned + t.pruned, considered + t.considered)
    }
  }

  lemma PlusThen(p: Progress, a: Trace, b: Trace)
    requires a.ok
    ensures p.Plus(a).Plus(b) == p.Plus(a.Then(b))
  {
    RenderConcat(a.out, b.out);
    assert p.out + Render(a.out) + Render(b.out) == p.out + (Render(a.out) + Render(b.out));
    assert p.entered + a.entered + b.entered == p.entered + (a.entered + b.entered);
  }

  /** State threaded through the recursive walk: the allow-list, the prune, the selected
      paths so far, and what the walk has cost. */
  class Walker {
    const rules: Layers
    const prune: PruneInfo
    var out: seq<string>
    var dirsEntered: nat
    var dirsPruned: nat
    var pathsConsidered: nat
    ghost var entered: seq<Segments>

    constructor (rules: Layers, prune: PruneInfo)
      ensures this.rules == rules && this.prune == prune
      ensures Valid() && View() == Progress([], [], 0, 0)
    {
      this.rules, this.prune := rules, prune;
      out, entered := [], [];
      dirsEntered, dirsPruned, pathsConsidered := 0, 0, 0;
    }

    ghost predicate Valid()
      reads this
    {
      dirsEntered == |entered|
    }

    ghost function View(): Progress
      reads this
    {
      Progress(out, entered, dirsPruned, pathsConsidered)
    }

    /** Walk `dir`, at repo-relative `rel`, appending what it selects. Stops at the first
        directory that cannot be listed. */
    method Run(dir: Kind, rel: string, inherited: bool, ghost base: Segments) returns (ok: bool)
      requires Valid() && IsDirectory(dir) && rel == RelOf(base)
      modifies this
      ensures Valid()
      ensures ok == WalkDir(rules, prune, dir, base, inherited).ok
      ensures View() == old(View()).Plus(WalkDir(rules, prune, dir, base, inherited))
      decreases dir, 1
    {
      dirsEntered := dirsEntered + 1;
      entered := entered + [base];
      if dir.UnreadableDir? { return false; }
      ok := RunListing(dir.entries, rel, inherited, base);
    }

    /** Visit the entries of a listing in turn, stopping at the first error. */
    method RunListing(entries: seq<Entry>, rel: string, inherited: bool, ghost base: Segments) returns (ok: bool)
      requires Valid() && rel == RelOf(base)
      modifies this
      ensures Valid()
      ensures ok == WalkEntries(rules, prune, entries, base, inherited).ok
      ensures View() == old(View()).Plus(WalkEntries(rules, prune, entries, base, inherited))
      decreases entries, 0
    {
      hide Classify, CanContainMatch, WalkEntry;
      ghost var done := NOTHING;
      ok := true;
      for i := 0 to |entries|
        invariant ok && done.ok
        invariant done.Then(WalkEntries(rules, prune, entries[i..], base, inherited)) ==
                  WalkEntries(rules, prune, entries, base, inherited)
        invariant Valid() && View() == old(View()).Plus(done)
      {
        OneMoreEntry(rules, prune, entries, i, base, inherited, done);
        ok := Visit(entries[i], JoinRel(rel, entries[i].name), inherited, base);
        PlusThen(old(View()), done, WalkEntry(rules, prune, entries[i], base, inherited));
        done := done.Then(WalkEntry(rules, prune, entries[i], base, inherited));
        if !ok { return; }
      }
    }

    /** Look at one entry of the directory being walked. */
    method Visit(entry: Entry, rel: string, inherited: bool, ghost base: Segments) returns (ok: bool)
      requires Valid() && rel == RelOf(base + [entry.name])
      modifies this
      ensures Valid()
      ensures ok == WalkEntry(rules, prune, entry, base, inherited).ok
      ensures View() == old(View()).Plus(WalkEntry(rules, prune, entry, base, inherited))
      decreases entry
    {
      hide CanContainMatch, RelOf, Classify;
      if entry.name == ".git" { return true; }
      pathsConsidered := pathsConsidered + 1;
      if IsDirectory(entry.kind) {
        var state := Classify(rules, rel, true).GetOr(inherited);
        if state || CanContainMatch(prune, rel) {
          ok := Run(entry.kind, rel, state, base + [entry.name]);
          return;
        }
        dirsPruned := dirsPruned + 1;
      } else if IsLeaf(entry.kind) && Classify(rules, rel, false).GetOr(inherited) {
        out := out + [rel];
      }
      return true;
    }
  }

  // ---- Sorting and deduplication -----------------------------------------------

  ghost predicate Ascending(s: seq<string>) {
    forall i, j | 0 <= i < j < |s| :: !Less(s[j], s[i])
  }

  ghost predicate StrictlyAscending(s: seq<string>) {
    forall i, j | 0 <= i < j < |s| :: Less(s[i], s[j])
  }

  function Insert(x: string, s: seq<string>): seq<string> {
    if s == [] || !Less(s[0], x) then [x] + s else [s[0]] + Insert(x, s[1..])
  }

  function Sort(s: seq<string>): seq<string> {
    if s == [] then [] else Insert(s[0], Sort(s[1..]))
  }

  /** Drop every element equal to the one before it. */
  function Dedup(s: seq<string>): seq<string> {
    if |s| <= 1 then s
    else if s[0] == s[1] then Dedup(s[1..])
    else [s[0]] + Dedup(s[1..])
  }

  lemma {:induction false} InsertPermutes(x: string, s: seq<string>)
    ensures multiset(Insert(x, s)) == multiset(s) + multiset{x}
  {
    hide Less;
    if s != [] && Less(s[0], x) {
      InsertPermutes(x, s[1..]);
      assert s == [s[0]] + s[1..];
    }
  }

  lemma {:induction false} InsertKeepsOrder(x: string, s: seq<string>)
    requires Ascending(s)
    ensures Ascending(Insert(x, s))
  {
    hide Less;
    if s == [] {
    } else if !Less(s[0], x) {
      forall j | 0 <= j < |s| ensures !Less(s[j], x) {
        if Less(s[j], x) {
          LessTotal(s[0], s[j]);
          LessTotal(s[0], x);
          if s[0] != s[j] { LessTransitive(s[0], s[j], x); }
        }
      }
    } else {
      InsertKeepsOrder(x, s[1..]);
      InsertPermutes(x, s[1..]);
      var rest := Insert(x, s[1..]);
      LessTotal(s[0], x);
      forall j | 0 <= j < |rest| ensures !Less(rest[j], s[0]) {
        assert rest[j] in multiset(rest);
        assert rest[j] in multiset(s[1..]) + multiset{x};
      }
    }
  }

  lemma {:induction false} SortSorts(s: seq<string>)
    ensures Ascending(Sort(s)) && multiset(Sort(s)) == multiset(s)
  {
    hide Less, Insert;
    if s != [] {
      SortSorts(s[1..]);
      InsertKeepsOrder(s[0], Sort(s[1..]));
      InsertPermutes(s[0], Sort(s[1..]));
      assert s == [s[0]] + s[1..];
    }
  }

  lemma {:induction false} DedupKeepsStrict(s: seq<string>)
    requires StrictlyAscending(s)
    ensures Dedup(s) == s
  {
    if |s| > 1 {
      LessTotal(s[0], s[1]);
      DedupKeepsStrict(s[1..]);
    }
  }

  lemma DistinctHasUnitMultiplicity(s: seq<string>, x: string)
    requires Distinct(s)
    ensures multiset(s)[x] <= 1
  {
    if x in s {
      var i :| 0 <= i < |s| && s[i] == x;
      assert s == s[..i] + [s[i]] + s[i + 1..];
    }
  }

  lemma RepeatedElementCounts(s: seq<string>, i: nat, j: nat)
    requires i < j < |s| && s[i] == s[j]
    ensures multiset(s)[s[i]] >= 2
  {
    assert s == s[..i] + [s[i]] + s[i + 1..j] + [s[j]] + s[j + 1..];
  }

  lemma AscendingUnitIsStrict(s: seq<string>)
    requires Ascending(s) && forall x | x in s :: multiset(s)[x] == 1
    ensures StrictlyAscending(s)
  {
    forall i, j | 0 <= i < j < |s| ensures Less(s[i], s[j]) {
      LessTotal(s[i], s[j]);
      if s[i] == s[j] { RepeatedElementCounts(s, i, j); }
    }
  }

  /** On distinct paths, sorting then deduplicating yields exactly those paths in strict
      order: the deduplication removes nothing. */
  lemma SortDedupOfDistinct(s: seq<string>)
    requires Distinct(s)
    ensures StrictlyAscending(Dedup(Sort(s)))
    ensures Dedup(Sort(s)) == Sort(s) && |Sort(s)| == |s|
    ensures forall x :: x in Dedup(Sort(s)) <==> x in s
  {
    SortSorts(s);
    var sorted := Sort(s);
    forall x ensures x in sorted <==> x in s {
      assert x in sorted <==> x in multiset(sorted);
      assert x in s <==> x in multiset(s);
    }
    forall x | x in sorted ensures multiset(sorted)[x] == 1 {
      DistinctHasUnitMultiplicity(s, x);
    }
    AscendingUnitIsStrict(sorted);
    DedupKeepsStrict(sorted);
    assert |multiset(sorted)| == |sorted| && |multiset(s)| == |s|;
  }

  // ---- Putting it together -----------------------------------------------------

  datatype Selection = Selection(
    paths: seq<string>, dirsEntered: nat, dirsPruned: nat, pathsConsidered: nat, unanchoredPatterns: nat)

  /** `path` names a leaf that the layers select in this tree. */
  ghost predicate SelectsPath(rules: Layers, root: Kind, path: string) {
    exists segs :: Selected(rules, root, segs) && RelOf(segs) == path
  }

  lemma RenderedSelection(rules: Layers, prune: PruneInfo, root: Kind)
    requires Covers(prune, rules) && root.Dir? && ValidListing(root.entries)
    requires WalkDir(rules, prune, root, [], false).ok
    ensures var out := Render(WalkDir(rules, prune, root, [], false).out);
            Distinct(out) && forall path :: path in out <==> SelectsPath(rules, root, path)
  {
    hide Classify, RelOf, CanContainMatch, Chosen, WalkEntries;
    var found := WalkDir(rules, prune, root, [], false).out;
    var out := Render(found);
    assert DirState(rules, []) == false;
    OutputIsDistinct(rules, prune, root.entries, [], false);
    forall segs ensures segs in found <==> Selected(rules, root, segs) {
      WalkEntriesSelect(rules, prune, root.entries, [], segs);
      assert segs[0..] == segs;
    }
    forall i | 0 <= i < |found| ensures ValidSegments(found[i]) && found[i] != [] {
      assert Selected(rules, root, found[i]);
      LeafNamesAreValid(root.entries, found[i]);
    }
    forall i, j | 0 <= i < j < |out| ensures out[i] != out[j] {
      if out[i] == out[j] { RelOfInjective(found[i], found[j]); }
    }
    forall path ensures path in out <==> SelectsPath(rules, root, path) {
      if path in out {
        var i :| 0 <= i < |out| && out[i] == path;
        assert Selected(rules, root, found[i]) && RelOf(found[i]) == path;
      }
      if SelectsPath(rules, root, path) {
        var segs :| Selected(rules, root, segs) && RelOf(segs) == path;
        var i :| 0 <= i < |found| && found[i] == segs;
        assert out[i] == path;
      }
    }
  }

  /** The counters of a walk: what was considered, but for the root, was entered, pruned, or one
      of the non-directory entries with an open way to them; and the unanchored patterns are
      counted as they print. */
  ghost predicate Counted(s: Selection, rules: Layers, root: Kind) {
    && (exists seen: set<Segments> ::
          && (forall segs :: segs in seen <==> Seen(rules, root, segs))
          && s.pathsConsidered + 1 == s.dirsEntered + s.dirsPruned + |seen|)
    && (exists displays: seq<string> :: ListsUnanchored(displays, Flatten(rules)) && |displays| == s.unanchoredPatterns)
    && (s.unanchoredPatterns > 0 ==> s.dirsPruned == 0)
  }

  lemma WalkIsCounted(rules: Layers, prune: PruneInfo, displays: seq<string>, root: Kind, s: Selection)
    requires root.Dir? && ValidListing(root.entries) && WalkDir(rules, prune, root, [], false).ok
    requires Describes(prune.anyUnanchored, displays, prune.prefixes, Flatten(rules))
    requires |displays| == prune.unanchoredCount
    requires var t := WalkDir(rules, prune, root, [], false);
             && s.dirsEntered == |t.entered| && s.dirsPruned == t.pruned
             && s.pathsConsidered == t.considered && s.unanchoredPatterns == prune.unanchoredCount
    ensures Counted(s, rules, root)
  {
    hide Classify, RelOf, CanContainMatch, MayMatch, WalkEntries, Flatten, ListsPrefixes;
    forall rel { PruneDecidesExactly(rules, prune, displays, rel); }
    CountersAddUp(rules, prune, root.entries, [], false);
    assert DirState(rules, []) == false;
    var seen := SeenEntries(rules, prune, root.entries, []);
    forall segs ensures segs in seen <==> Seen(rules, root, segs) {
      assert segs[0..] == segs;
    }
  }

  /** Load the layers, derive the prune, walk, sort and deduplicate. On success the
      paths are exactly the selected ones, in strict order; the walk succeeds whenever
      the exhaustive walk would. */
  method SelectIn(root: Kind, project: FileRead, user: Option<FileRead>, extras: seq<FileRead>)
    returns (r: Result<Selection, SelectError>)
    requires IsDirectory(root) && (root.Dir? ==> ValidListing(root.entries))
    ensures match Loaded(project, user, extras) {
      case Err(e) => r == Err(e)
      case Ok(rules) =>
        && (root.Dir? && WalkDir(rules, EXHAUSTIVE, root, [], false).ok ==> r.Ok?)
        && (r.Err? ==> r.error == ReadDir)
        && (r.Ok? ==>
              && StrictlyAscending(r.value.paths)
              && (forall path :: path in r.value.paths <==> SelectsPath(rules, root, path))
              && Counted(r.value, rules, root))
    }
  {
    hide Classify, CanContainMatch, WalkEntries, LeafAt, Sort, Dedup, Counted, Describes;
    var loaded := LoadSearch(project, user, extras);
    if loaded.Err? { return Err(loaded.error); }
    var rules := loaded.value;
    var prune := BuildPruneInfo(rules);
    var walk := new Walker(rules, prune);
    var ok := walk.Run(root, "", false, []);
    ghost var trace := WalkDir(rules, prune, root, [], false);
    if root.Dir? && WalkDir(rules, EXHAUSTIVE, root, [], false).ok {
      PrunedWalkRefinesExhaustiveWalk(rules, prune, root);
    }
    if !ok { return Err(ReadDir); }
    RenderedSelection(rules, prune, root);
    assert walk.out == Render(trace.out);
    SortDedupOfDistinct(walk.out);
    var paths := Dedup(Sort(walk.out));
    var selection := Selection(paths, walk.dirsEntered, walk.dirsPruned, walk.pathsConsidered, prune.unanchoredCount);
    ghost var displays: seq<string> :|
      |displays| == prune.unanchoredCount && Describes(prune.anyUnanchored, displays, prune.prefixes, Flatten(rules));
    WalkIsCounted(rules, prune, displays, root, selection);
    r := Ok(selection);
  }
}
