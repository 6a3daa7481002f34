/** Slash-separated paths as byte strings and as lists of segments.

    A path is a `string` in which one character stands for one byte. The walk builds
    paths left to right with `JoinRel`; the prune takes them apart with `Split`. The
    two are inverse on names that are non-empty and slash-free. */
module Paths {

  type Segments = seq<string>

  /** What a directory entry may be called: not empty, no slash. */
  predicate ValidName(name: string) {
    name != "" && '/' !in name
  }

  ghost predicate ValidSegments(segs: Segments) {
    forall i | 0 <= i < |segs| :: ValidName(segs[i])
  }

  /** Join a repo-relative directory prefix with a child name. */
  function JoinRel(prefix: string, name: string): string {
    if prefix == "" then name else prefix + "/" + name
  }

  /** The repo-relative path of a list of segments, as repeated `JoinRel`. */
  function RelOf(segs: Segments): string {
    if segs == [] then "" else JoinRel(RelOf(segs[..|segs| - 1]), segs[|segs| - 1])
  }

  /** Split at every slash; the empty string is one empty segment. */
  function Split(s: string): (segs: Segments)
    ensures |segs| >= 1
    ensures forall i | 0 <= i < |segs| :: '/' !in segs[i]
  {
    if s == "" then [""]
    else
      var rest := Split(s[1..]);
      if s[0] == '/' then [""] + rest else [[s[0]] + rest[0]] + rest[1..]
  }

  /** The part of a path after its last slash. */
  function Basename(s: string): string {
    var segs := Split(s);
    segs[|segs| - 1]
  }

  lemma {:induction false} SplitSlashFree(s: string)
    requires '/' !in s
    ensures Split(s) == [s]
  {
    if s != "" {
      SplitSlashFree(s[1..]);
      assert s == [s[0]] + s[1..];
    }
  }

  lemma {:induction false} SplitJoined(a: string, b: string)
    ensures Split(a + "/" + b) == Split(a) + Split(b)
  {
    if a == "" {
      assert (a + "/" + b)[1..] == b;
    } else {
      assert (a + "/" + b)[1..] == a[1..] + "/" + b;
      SplitJoined(a[1..], b);
    }
  }

  lemma {:induction false} RelOfNonEmpty(segs: Segments)
    requires ValidSegments(segs) && segs != []
    ensures RelOf(segs) != ""
  {
  }

  /** Splitting a joined path gives back exactly the segments it was joined from. */
  lemma {:induction false} SplitRelOf(segs: Segments)
    requires ValidSegments(segs) && segs != []
    ensures Split(RelOf(segs)) == segs
  {
    var init, last := segs[..|segs| - 1], segs[|segs| - 1];
    SplitSlashFree(last);
    if init != [] {
      SplitRelOf(init);
      RelOfNonEmpty(init);
      SplitJoined(RelOf(init), last);
    }
  }

  /** Distinct segment lists never join to the same path. */
  lemma RelOfInjective(a: Segments, b: Segments)
    requires ValidSegments(a) && ValidSegments(b) && a != [] && b != []
    requires RelOf(a) == RelOf(b)
    ensures a == b
  {
    SplitRelOf(a);
    SplitRelOf(b);
  }

  /** A byte prefix that ends at a slash is a segment prefix. */
  lemma SplitPrefix(literal: string, path: string)
    requires literal == path || literal + "/" <= path
    ensures Split(literal) <= Split(path)
  {
    if literal != path {
      var tail := path[|literal| + 1..];
      assert path == literal + "/" + tail;
      SplitJoined(literal, tail);
    }
  }

  /** Strict lexicographic order on byte strings, the order `sort` uses. */
  predicate Less(a: string, b: string) {
    b != "" && (a == "" || a[0] < b[0] || (a[0] == b[0] && Less(a[1..], b[1..])))
  }

  lemma {:induction false} LessTotal(a: string, b: string)
    ensures a == b || Less(a, b) || Less(b, a)
    ensures !(Less(a, b) && Less(b, a))
    ensures !Less(a, a)
  {
    if a != "" && b != "" {
      LessTotal(a[1..], b[1..]);
      assert a == [a[0]] + a[1..] && b == [b[0]] + b[1..];
    }
    if a != "" { LessTotal(a[1..], a[1..]); }
  }

  lemma {:induction false} LessTransitive(a: string, b: string, c: string)
    requires Less(a, b) && Less(b, c)
    ensures Less(a, c)
  {
    if a != "" && a[0] == b[0] == c[0] {
      LessTransitive(a[1..], b[1..], c[1..]);
    }
  }
}
