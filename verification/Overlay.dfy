/** Overlaying the force-included `extra` tree onto the `code` tree, at identity paths. */
module Overlay {
  import opened Options
  import opened Trees

  /** One entry of a tree traversal: its path, and its leaf unless it is a directory. */
  datatype Record = Record(path: Path, item: Option<Item>)

  /** The records of a traversal, in any order: every leaf of the tree, and nothing that
      is not in the tree. */
  ghost predicate Traverses(records: seq<Record>, t: Tree) {
    && (forall i | 0 <= i < |records| && records[i].item.Some? :: Get(t, records[i].path) == records[i].item)
    && (forall p | Get(t, p).Some? :: Record(p, Get(t, p)) in records)
  }

  /** What the combined tree holds at a path: the `extra` leaf if there is one; else
      nothing if the path lies above or below an `extra` leaf; else what `code` holds. */
  ghost function Combined(code: Tree, extra: Tree, q: Path): Option<Item> {
    if Get(extra, q).Some? then Get(extra, q)
    else if exists p :: Get(extra, p).Some? && Related(p, q) then None
    else Get(code, q)
  }

  /** The same, when only the leaves in `done` have been overlaid. */
  ghost function CombinedSoFar(code: Tree, extra: Tree, done: set<Path>, q: Path): Option<Item> {
    if q in done then Get(extra, q)
    else if exists p | p in done :: Related(p, q) then None
    else Get(code, q)
  }

  lemma OneMoreLeaf(code: Tree, extra: Tree, done: set<Path>, root: Tree, p: Path, q: Path)
    requires root.Dir? && p != [] && Get(extra, p).Some?
    requires forall d | d in done :: Get(extra, d).Some?
    requires Get(root, q) == CombinedSoFar(code, extra, done, q)
    ensures Get(Upserted(root, p, Get(extra, p).value), q) == CombinedSoFar(code, extra, done + {p}, q)
  {
    GetUpserted(root, p, Get(extra, p).value, q);
    if q != p && Related(p, q) && q in done {
      if p <= q { LeavesUnrelated(extra, p, q); } else { LeavesUnrelated(extra, q, p); }
    }
    if q != p && q !in done {
      assert (exists d | d in done + {p} :: Related(d, q)) <==> Related(p, q) || exists d | d in done :: Related(d, q);
    }
  }

  /** Build the combined tree. With no `extra` tree there is nothing to overlay; else every
      leaf of `extra` wins on any collision, and the result is the same whatever order
      the leaves come in. */
  method OverlayExtraOntoCode(code: Tree, extra: Option<Tree>, records: seq<Record>) returns (combined: Tree)
    requires code.Dir?
    requires extra.Some? ==> extra.value.Dir? && Traverses(records, extra.value)
    ensures combined.Dir? && (Canonical(code) || extra.Some? ==> Canonical(combined))
    ensures extra.None? ==> combined == code
    ensures extra.Some? ==> forall q :: Get(combined, q) == Combined(code, extra.value, q)
  {
    if extra.None? { return code; }
    var editor := new Editor(code);
    ghost var done: set<Path> := {};
    for i := 0 to |records|
      invariant editor.root.Dir?
      invariant forall p :: p in done <==> exists j | 0 <= j < i :: records[j].path == p && records[j].item.Some?
      invariant forall q :: Get(editor.root, q) == CombinedSoFar(code, extra.value, done, q)
    {
      var r := records[i];
      if r.item.Some? {
        forall q
          ensures Get(Upserted(editor.root, r.path, r.item.value), q) ==
                  CombinedSoFar(code, extra.value, done + {r.path}, q)
        {
          OneMoreLeaf(code, extra.value, done, editor.root, r.path, q);
        }
        editor.Upsert(r.path, r.item.value);
        done := done + {r.path};
      }
    }
    combined := editor.Write();
    AllLeavesDone(records, extra.value, done);
    forall q ensures Get(combined, q) == Combined(code, extra.value, q) {
      assert Get(editor.root, q) == CombinedSoFar(code, extra.value, done, q);
    }
  }

  lemma AllLeavesDone(records: seq<Record>, extra: Tree, done: set<Path>)
    requires Traverses(records, extra)
    requires forall p :: p in done <==> exists j | 0 <= j < |records| :: records[j].path == p && records[j].item.Some?
    ensures forall p :: p in done <==> Get(extra, p).Some?
  {
    forall p ensures p in done <==> Get(extra, p).Some? {
      if Get(extra, p).Some? {
        var j :| 0 <= j < |records| && records[j] == Record(p, Get(extra, p));
        assert records[j].path == p;
      }
    }
  }

  /** Any two builds of the combined tree, from any two traversal orders, are one tree. */
  lemma OverlayIsOrderFree(code: Tree, extra: Tree, a: Tree, b: Tree)
    requires a.Dir? && Canonical(a) && b.Dir? && Canonical(b)
    requires forall q :: Get(a, q) == Combined(code, extra, q)
    requires forall q :: Get(b, q) == Combined(code, extra, q)
    ensures a == b
  {
    forall p ensures Get(a, p) == Get(b, p) {
      assert Get(a, p) == Combined(code, extra, p);
    }
    LeavesDetermineTree(a, b);
  }

  /** The overlay in terms of leaves alone: all of `extra`'s leaves, and exactly those of
      `code`'s that are not equal to, above or below any of them. */
  lemma CombinedLeaves(code: Tree, extra: Tree, q: Path, item: Item)
    ensures Combined(code, extra, q) == Some(item) <==>
            || Get(extra, q) == Some(item)
            || (Get(code, q) == Some(item) && forall p | Get(extra, p).Some? :: !Related(p, q))
  {
    assert Get(extra, q).Some? ==> Related(q, q);
  }
}
