/** The layered allow-list: how it classifies a path, and the prune derived from it. */
module Rules {
  import opened Options
  import opened Paths
  import opened Glob

  /** One pattern list per layer, `[project, user, extra...]`. */
  type Layers = seq<seq<Pattern>>

  /** All patterns, earliest first. */
  function Flatten(layers: Layers): seq<Pattern> {
    if layers == [] then [] else layers[0] + Flatten(layers[1..])
  }

  ghost predicate AllWellFormed(layers: Layers) {
    forall p | p in Flatten(layers) :: WellFormed(p)
  }

  /** The verdict of the last matching pattern of one list. */
  function ClassifyList(patterns: seq<Pattern>, path: string, isDir: bool): Option<bool> {
    if patterns == [] then None
    else
      var last := patterns[|patterns| - 1];
      if Matches(last, path, isDir) then Some(!last.negative)
      else ClassifyList(patterns[..|patterns| - 1], path, isDir)
  }

  /** The verdict of the last layer that has one: included, carved out, or no match. */
  function Classify(layers: Layers, path: string, isDir: bool): Option<bool> {
    if layers == [] then None
    else
      match ClassifyList(layers[|layers| - 1], path, isDir)
      case Some(verdict) => Some(verdict)
      case None => Classify(layers[..|layers| - 1], path, isDir)
  }

  lemma {:induction false} ClassifyConcat(a: seq<Pattern>, b: seq<Pattern>, path: string, isDir: bool)
    ensures ClassifyList(a + b, path, isDir) ==
            match ClassifyList(b, path, isDir) {
              case Some(v) => Some(v)
              case None => ClassifyList(a, path, isDir)
            }
  {
    if b == [] {
      assert a + b == a;
    } else {
      ClassifyConcat(a, b[..|b| - 1], path, isDir);
      assert (a + b)[..|a + b| - 1] == a + b[..|b| - 1];
    }
  }

  lemma {:induction false} FlattenConcat(a: Layers, b: Layers)
    ensures Flatten(a + b) == Flatten(a) + Flatten(b)
  {
    if a == [] {
      assert a + b == b;
    } else {
      FlattenConcat(a[1..], b);
      assert (a + b)[0] == a[0] && (a + b)[1..] == a[1..] + b;
      assert a[0] + (Flatten(a[1..]) + Flatten(b)) == (a[0] + Flatten(a[1..])) + Flatten(b);
    }
  }

  /** Layering changes nothing but precedence: the layers act as one list in which the
      last match wins. */
  lemma {:induction false} LayersActAsOneList(layers: Layers, path: string, isDir: bool)
    ensures Classify(layers, path, isDir) == ClassifyList(Flatten(layers), path, isDir)
  {
    if layers != [] {
      var init, last := layers[..|layers| - 1], layers[|layers| - 1];
      LayersActAsOneList(init, path, isDir);
      FlattenConcat(init, [last]);
      assert Flatten([last]) == last;
      assert layers == init + [last];
      ClassifyConcat(Flatten(init), last, path, isDir);
    }
  }

  /** An inclusion verdict always comes from a positive pattern that matches. */
  lemma {:induction false} VerdictHasPattern(patterns: seq<Pattern>, path: string, isDir: bool)
    returns (p: Pattern)
    requires ClassifyList(patterns, path, isDir) == Some(true)
    ensures p in patterns && !p.negative && Matches(p, path, isDir)
  {
    var last := patterns[|patterns| - 1];
    if Matches(last, path, isDir) {
      p := last;
    } else {
      p := VerdictHasPattern(patterns[..|patterns| - 1], path, isDir);
    }
  }

  // ---- The prune ---------------------------------------------------------------

  /** The text before the last slash, if there is a slash. */
  function BeforeLastSlash(s: string): (r: Option<string>)
    ensures r.Some? ==> r.value + "/" <= s
    ensures r.None? <==> '/' !in s
  {
    if s == "" then None
    else if s[|s| - 1] == '/' then
      assert s == s[..|s| - 1] + "/";
      Some(s[..|s| - 1])
    else
      assert s == s[..|s| - 1] + [s[|s| - 1]];
      BeforeLastSlash(s[..|s| - 1])
  }

  function NonEmpty(segs: Segments): Segments {
    if segs == [] then []
    else (if segs[0] == "" then [] else [segs[0]]) + NonEmpty(segs[1..])
  }

  /** The literal leading directory segments a pattern's matches must start with, or
      `None` when the pattern can match at any depth. */
  function PrunablePrefix(p: Pattern): Option<Segments>
    requires WellFormed(p)
  {
    if p.noSubDir && !p.absolute then None
    else
      var literal :=
        match p.firstWildcard {
          case Some(pos) => BeforeLastSlash(p.text[..pos]).GetOr("")
          case None => p.text
        };
      var segments := NonEmpty(Split(literal));
      if segments == [] then None else Some(segments)
  }

  datatype PruneInfo = PruneInfo(anyUnanchored: bool, unanchoredCount: nat, prefixes: seq<Segments>)

  /** The prune that skips nothing. */
  const EXHAUSTIVE := PruneInfo(true, 1, [])

  /** The shorter of the two lists is a prefix of the longer. */
  predicate Compatible(prefix: Segments, dir: Segments) {
    var common := if |prefix| < |dir| then |prefix| else |dir|;
    forall i | 0 <= i < common :: prefix[i] == dir[i]
  }

  predicate CanContainMatch(prune: PruneInfo, rel: string) {
    prune.anyUnanchored || exists i | 0 <= i < |prune.prefixes| :: Compatible(prune.prefixes[i], Split(rel))
  }

  /** Every positive pattern is accounted for: by its prefix, or by giving up pruning. */
  ghost predicate Covers(prune: PruneInfo, layers: Layers) {
    && AllWellFormed(layers)
    && (prune.anyUnanchored
        || forall p | p in Flatten(layers) && !p.negative ::
             WellFormed(p) && PrunablePrefix(p).Some? && PrunablePrefix(p).value in prune.prefixes)
  }

  lemma {:induction false} NonEmptyKeepsAll(segs: Segments)
    requires forall i | 0 <= i < |segs| :: segs[i] != ""
    ensures NonEmpty(segs) == segs
  {
    if segs != [] { NonEmptyKeepsAll(segs[1..]); }
  }

  /** The heart of the prune: whatever an anchored pattern matches lies under the
      pattern's literal prefix, segment by segment. */
  lemma MatchLiesUnderPrefix(p: Pattern, segs: Segments, isDir: bool)
    requires WellFormed(p) && PrunablePrefix(p).Some?
    requires segs != [] && ValidSegments(segs) && Matches(p, RelOf(segs), isDir)
    ensures PrunablePrefix(p).value <= segs
  {
    hide Wild, RelOf;
    var path := RelOf(segs);
    SplitRelOf(segs);
    var literal :=
      match p.firstWildcard {
        case Some(pos) => BeforeLastSlash(p.text[..pos]).GetOr("")
        case None => p.text
      };
    if p.firstWildcard.Some? {
      var pos := p.firstWildcard.value;
      LiteralHead(p.text, path, true);
    }
    assert NonEmpty([""]) == [];
    SplitPrefix(literal, path);
    assert forall i | 0 <= i < |Split(literal)| :: Split(literal)[i] == segs[i];
    NonEmptyKeepsAll(Split(literal));
  }

  // ---- Deriving the prune ------------------------------------------------------

  ghost predicate Unanchored(p: Pattern) {
    WellFormed(p) && !p.negative && PrunablePrefix(p).None?
  }

  /** `displays` lists each unanchored positive pattern once. */
  ghost predicate ListsUnanchored(displays: seq<string>, patterns: seq<Pattern>) {
    && (forall d :: d in displays <==> exists p | p in patterns :: Unanchored(p) && Display(p) == d)
    && (forall i, j | 0 <= i < j < |displays| :: displays[i] != displays[j])
  }

  ghost predicate HasPrefix(p: Pattern, prefix: Segments) {
    WellFormed(p) && !p.negative && PrunablePrefix(p) == Some(prefix)
  }

  /** `prefixes` holds the prefix of each anchored positive pattern and nothing else. */
  ghost predicate ListsPrefixes(prefixes: seq<Segments>, patterns: seq<Pattern>) {
    forall s :: s in prefixes <==> exists p | p in patterns :: HasPrefix(p, s)
  }

  /** What a list of patterns contributes to the prune. */
  ghost predicate Describes(any: bool, displays: seq<string>, prefixes: seq<Segments>, patterns: seq<Pattern>) {
    && (any <==> displays != [])
    && ListsUnanchored(displays, patterns)
    && ListsPrefixes(prefixes, patterns)
  }

  lemma ListsUnanchoredSnoc(displays: seq<string>, patterns: seq<Pattern>, p: Pattern)
    requires ListsUnanchored(displays, patterns)
    ensures ListsUnanchored(
              if Unanchored(p) && Display(p) !in displays then displays + [Display(p)] else displays, patterns + [p])
  {
    assert forall q :: q in patterns + [p] <==> q in patterns || q == p;
  }

  lemma ListsPrefixesSnoc(prefixes: seq<Segments>, patterns: seq<Pattern>, p: Pattern)
    requires ListsPrefixes(prefixes, patterns) && WellFormed(p)
    ensures ListsPrefixes(
              if !p.negative && PrunablePrefix(p).Some? then prefixes + [PrunablePrefix(p).value] else prefixes,
              patterns + [p])
  {
    var prefixes' := if !p.negative && PrunablePrefix(p).Some? then prefixes + [PrunablePrefix(p).value] else prefixes;
    assert forall q :: q in patterns + [p] <==> q in patterns || q == p;
    assert forall s :: s in prefixes' <==> s in prefixes || HasPrefix(p, s);
  }

  /** Record one more pattern. Negative ones never force descent: they only shrink the
      selection. */
  method NotePattern(any: bool, displays: seq<string>, prefixes: seq<Segments>, p: Pattern, ghost seen: seq<Pattern>)
    returns (any': bool, displays': seq<string>, prefixes': seq<Segments>)
    requires WellFormed(p) && Describes(any, displays, prefixes, seen)
    ensures Describes(any', displays', prefixes', seen + [p])
  {
    any', displays', prefixes' := any, displays, prefixes;
    if !p.negative {
      match PrunablePrefix(p) {
        case Some(segments) => prefixes' := prefixes + [segments];
        case None =>
          any' := true;
          if Display(p) !in displays { displays' := displays + [Display(p)]; }
      }
    }
    ListsUnanchoredSnoc(displays, seen, p);
    ListsPrefixesSnoc(prefixes, seen, p);
  }

  /** Record one layer, pattern by pattern. */
  method NoteLayer(any: bool, displays: seq<string>, prefixes: seq<Segments>, list: seq<Pattern>,
                   ghost seen: seq<Pattern>)
    returns (any': bool, displays': seq<string>, prefixes': seq<Segments>)
    requires forall k | 0 <= k < |list| :: WellFormed(list[k])
    requires Describes(any, displays, prefixes, seen)
    ensures Describes(any', displays', prefixes', seen + list)
  {
    hide PrunablePrefix;
    any', displays', prefixes' := any, displays, prefixes;
    assert seen + list[..0] == seen;
    for k := 0 to |list|
      invariant Describes(any', displays', prefixes', seen + list[..k])
    {
      any', displays', prefixes' := NotePattern(any', displays', prefixes', list[k], seen + list[..k]);
      assert seen + list[..k] + [list[k]] == seen + list[..k + 1];
    }
    assert list[..|list|] == list;
  }

  /** Inspect the allow-list pattern by pattern and derive its prune. */
  method BuildPruneInfo(layers: Layers) returns (prune: PruneInfo)
    requires AllWellFormed(layers)
    ensures Covers(prune, layers)
    ensures exists displays: seq<string> ::
              |displays| == prune.unanchoredCount &&
              Describes(prune.anyUnanchored, displays, prune.prefixes, Flatten(layers))
    ensures prune.anyUnanchored <==> prune.unanchoredCount > 0
  {
    hide PrunablePrefix;
    var any := false;
    var displays: seq<string> := [];
    var prefixes: seq<Segments> := [];
    ghost var seen: seq<Pattern> := [];
    for i := 0 to |layers|
      invariant seen + Flatten(layers[i..]) == Flatten(layers)
      invariant Describes(any, displays, prefixes, seen)
    {
      assert Flatten(layers[i..]) == layers[i] + Flatten(layers[i + 1..]) by {
        assert layers[i..][1..] == layers[i + 1..];
      }
      forall k | 0 <= k < |layers[i]| ensures WellFormed(layers[i][k]) {
        assert Flatten(layers)[|seen| + k] == layers[i][k];
      }
      any, displays, prefixes := NoteLayer(any, displays, prefixes, layers[i], seen);
      seen := seen + layers[i];
    }
    assert seen == Flatten(layers);
    prune := PruneInfo(any, |displays|, prefixes);
    PruneIsSound(layers, prune, displays);
  }

  lemma PruneIsSound(layers: Layers, prune: PruneInfo, displays: seq<string>)
    requires AllWellFormed(layers)
    requires Describes(prune.anyUnanchored, displays, prune.prefixes, Flatten(layers))
    ensures Covers(prune, layers)
    ensures prune.anyUnanchored <==> |displays| > 0
  {
    if !prune.anyUnanchored {
      forall p | p in Flatten(layers) && !p.negative
        ensures WellFormed(p) && PrunablePrefix(p).Some? && PrunablePrefix(p).value in prune.prefixes
      {
        assert Display(p) !in displays;
        assert !Unanchored(p);
        assert HasPrefix(p, PrunablePrefix(p).value);
      }
    }
  }

  /** Some pattern could include something at or below `rel`: a positive one that can match
      at any depth, or whose literal prefix is compatible with it. */
  ghost predicate MayMatch(layers: Layers, rel: string) {
    exists p | p in Flatten(layers) :: CouldMatch(p, rel)
  }

  ghost predicate CouldMatch(p: Pattern, rel: string) {
    && WellFormed(p) && !p.negative
    && (PrunablePrefix(p).None? || Compatible(PrunablePrefix(p).value, Split(rel)))
  }

  /** The prune descends exactly where some pattern could match, whatever it has recorded
      and in whatever order. */
  lemma PruneDecidesExactly(layers: Layers, prune: PruneInfo, displays: seq<string>, rel: string)
    requires Describes(prune.anyUnanchored, displays, prune.prefixes, Flatten(layers))
    ensures CanContainMatch(prune, rel) <==> MayMatch(layers, rel)
  {
    hide PrunablePrefix, Compatible, WellFormed, Display, Flatten;
    var patterns := Flatten(layers);
    if prune.anyUnanchored {
      var d := displays[0];
      assert d in displays;
      var p :| p in patterns && Unanchored(p) && Display(p) == d;
      assert CouldMatch(p, rel);
    } else if CanContainMatch(prune, rel) {
      var i :| 0 <= i < |prune.prefixes| && Compatible(prune.prefixes[i], Split(rel));
      assert prune.prefixes[i] in prune.prefixes;
      var p :| p in patterns && HasPrefix(p, prune.prefixes[i]);
      assert CouldMatch(p, rel);
    }
    if p :| p in patterns && CouldMatch(p, rel) {
      if PrunablePrefix(p).None? {
        assert Unanchored(p);
        assert Display(p) in displays;
      } else {
        var prefix := PrunablePrefix(p).value;
        assert HasPrefix(p, prefix);
        assert prefix in prune.prefixes;
        var i :| 0 <= i < |prune.prefixes| && prune.prefixes[i] == prefix;
      }
    }
  }

  // ---- Adding a pattern --------------------------------------------------------

  lemma AroundLayer(pre: Layers, mid: seq<Pattern>, post: Layers, path: string, isDir: bool)
    ensures Classify(pre + [mid] + post, path, isDir) ==
            ClassifyList(Flatten(pre) + mid + Flatten(post), path, isDir)
  {
    hide Classify, ClassifyList;
    LayersActAsOneList(pre + [mid] + post, path, isDir);
    FlattenConcat(pre + [mid], post);
    FlattenConcat(pre, [mid]);
    assert Flatten([mid]) == mid;
  }

  lemma InsertedInList(a: seq<Pattern>, q: Pattern, b: seq<Pattern>, path: string, isDir: bool)
    ensures var was, now := ClassifyList(a + b, path, isDir), ClassifyList(a + [q] + b, path, isDir);
            now == was || now == Some(!q.negative)
  {
    ClassifyConcat(a, b, path, isDir);
    ClassifyConcat(a + [q], b, path, isDir);
    ClassifyConcat(a, [q], path, isDir);
  }

  /** Inserting a pattern anywhere in any layer either leaves a path's verdict alone or
      replaces it with that pattern's own. */
  lemma InsertedPatternDecidesOrNot(pre: Layers, a: seq<Pattern>, q: Pattern, b: seq<Pattern>, post: Layers,
                                    path: string, isDir: bool)
    ensures var was := Classify(pre + [a + b] + post, path, isDir);
            var now := Classify(pre + [a + [q] + b] + post, path, isDir);
            now == was || now == Some(!q.negative)
  {
    hide Classify, ClassifyList, Flatten;
    var before, after := Flatten(pre) + a, b + Flatten(post);
    AroundLayer(pre, a + b, post, path, isDir);
    AroundLayer(pre, a + [q] + b, post, path, isDir);
    assert Flatten(pre) + (a + b) + Flatten(post) == before + after;
    assert Flatten(pre) + (a + [q] + b) + Flatten(post) == before + [q] + after;
    InsertedInList(before, q, after, path, isDir);
  }
}
