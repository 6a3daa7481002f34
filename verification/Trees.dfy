/** Git trees as nested directories, and the path editor that both sides of a sync build
    trees with: `upsert`, `remove` and `write`. */
module Trees {
  import opened Options

  type Path = seq<string>

  datatype EntryKind = Blob | BlobExecutable | Link | Commit

  /** A leaf of a tree. Objects are named by their content, so `object` stands for both. */
  datatype Item = Item(kind: EntryKind, object: string)

  datatype Tree = Leaf(item: Item) | Dir(children: map<string, Tree>)

  const EMPTY := Dir(map[])

  /** The flat reading of a tree: the leaf at a path, if there is one. */
  function Get(t: Tree, p: Path): Option<Item>
    decreases |p|
  {
    if p == [] then (if t.Leaf? then Some(t.item) else None)
    else if t.Dir? && p[0] in t.children then Get(t.children[p[0]], p[1..])
    else None
  }

  /** One path equals, or lies above or below, the other. */
  predicate Related(p: Path, q: Path) {
    p <= q || q <= p
  }

  // ---- Editing -----------------------------------------------------------------

  /** Put a leaf at a path, replacing whatever is there and turning any leaf in the way
      into a directory. */
  function Upserted(t: Tree, p: Path, item: Item): (r: Tree)
    requires p != [] && t.Dir?
    ensures r.Dir?
    decreases |p|
  {
    var below :=
      if |p| == 1 then Leaf(item)
      else Upserted(if p[0] in t.children && t.children[p[0]].Dir? then t.children[p[0]] else EMPTY, p[1..], item);
    Dir(t.children[p[0] := below])
  }

  /** Drop whatever is at a path; nothing happens when the path leads nowhere. */
  function Removed(t: Tree, p: Path): (r: Tree)
    requires p != [] && t.Dir?
    ensures r.Dir?
    decreases |p|
  {
    if p[0] !in t.children then t
    else if |p| == 1 then Dir(t.children - {p[0]})
    else if t.children[p[0]].Leaf? then t
    else Dir(t.children[p[0] := Removed(t.children[p[0]], p[1..])])
  }

  predicate HasLeaf(t: Tree) {
    t.Leaf? || exists k | k in t.children :: HasLeaf(t.children[k])
  }

  /** The tree as written: directories that hold no leaf do not exist. */
  function Written(t: Tree): Tree {
    if t.Leaf? then t
    else Dir(map k | k in t.children && HasLeaf(t.children[k]) :: Written(t.children[k]))
  }

  /** No directory below the root is without leaves. */
  ghost predicate Canonical(t: Tree) {
    t.Dir? ==> forall k | k in t.children :: HasLeaf(t.children[k]) && Canonical(t.children[k])
  }

  // ---- The editor against the flat reading --------------------------------------

  /** An upsert decides its path and everything above and below it, and nothing else. */
  lemma {:induction false} GetUpserted(t: Tree, p: Path, item: Item, q: Path)
    requires p != [] && t.Dir?
    ensures Get(Upserted(t, p, item), q) ==
            if q == p then Some(item) else if Related(p, q) then None else Get(t, q)
    decreases |p|
  {
    if q != [] && q[0] == p[0] {
      assert p == [p[0]] + p[1..] && q == [q[0]] + q[1..];
      assert Related(p, q) <==> Related(p[1..], q[1..]);
      if |p| > 1 {
        GetUpserted(if p[0] in t.children && t.children[p[0]].Dir? then t.children[p[0]] else EMPTY,
                    p[1..], item, q[1..]);
      }
    }
  }

  /** A removal takes its path and everything below it, and nothing else. */
  lemma {:induction false} GetRemoved(t: Tree, p: Path, q: Path)
    requires p != [] && t.Dir?
    ensures Get(Removed(t, p), q) == if p <= q then None else Get(t, q)
    decreases |p|
  {
    if q != [] && q[0] == p[0] {
      assert p == [p[0]] + p[1..] && q == [q[0]] + q[1..];
      assert p <= q <==> p[1..] <= q[1..];
      if |p| > 1 && p[0] in t.children && t.children[p[0]].Dir? {
        GetRemoved(t.children[p[0]], p[1..], q[1..]);
      }
    }
  }

  /** Leaves of one tree never lie above one another. */
  lemma {:induction false} LeavesUnrelated(t: Tree, p: Path, q: Path)
    requires Get(t, p).Some? && Get(t, q).Some? && p <= q
    ensures p == q
    decreases |p|
  {
    if p != [] {
      assert p[1..] <= q[1..];
      LeavesUnrelated(t.children[p[0]], p[1..], q[1..]);
      assert p == [p[0]] + p[1..] && q == [q[0]] + q[1..];
    }
  }

  lemma {:induction false} LeaflessGet(t: Tree, p: Path)
    requires !HasLeaf(t)
    ensures Get(t, p) == None
    decreases |p|
  {
    if p != [] && p[0] in t.children { LeaflessGet(t.children[p[0]], p[1..]); }
  }

  lemma {:induction false} LeafWitness(t: Tree) returns (p: Path)
    requires HasLeaf(t)
    ensures Get(t, p).Some?
  {
    if t.Leaf? {
      p := [];
    } else {
      var k :| k in t.children && HasLeaf(t.children[k]);
      var rest := LeafWitness(t.children[k]);
      p := [k] + rest;
    }
  }

  /** Writing changes no leaf. */
  lemma {:induction false} GetWritten(t: Tree, p: Path)
    ensures Get(Written(t), p) == Get(t, p)
    decreases |p|
  {
    if p != [] && t.Dir? && p[0] in t.children {
      if HasLeaf(t.children[p[0]]) {
        GetWritten(t.children[p[0]], p[1..]);
      } else {
        LeaflessGet(t.children[p[0]], p[1..]);
      }
    }
  }

  lemma {:induction false} WrittenIsCanonical(t: Tree)
    ensures Canonical(Written(t)) && (HasLeaf(t) <==> HasLeaf(Written(t)))
  {
    if t.Dir? {
      forall k | k in t.children
        ensures Canonical(Written(t.children[k])) && (HasLeaf(t.children[k]) <==> HasLeaf(Written(t.children[k])))
      {
        WrittenIsCanonical(t.children[k]);
      }
      if HasLeaf(t) {
        var k :| k in t.children && HasLeaf(t.children[k]);
        assert k in Written(t).children;
      }
    }
  }

  /** A written tree is determined by its leaves: two trees with the same flat reading
      are the same tree, hence the same object id. */
  lemma {:induction false} LeavesDetermineTree(a: Tree, b: Tree)
    requires a.Dir? && b.Dir? && Canonical(a) && Canonical(b)
    requires forall p :: Get(a, p) == Get(b, p)
    ensures a == b
  {
    SameNames(a, b);
    SameNames(b, a);
    forall k | k in a.children ensures a.children[k] == b.children[k] {
      var x, y := a.children[k], b.children[k];
      forall p ensures Get(x, p) == Get(y, p) {
        assert ([k] + p)[1..] == p;
        assert Get(a, [k] + p) == Get(b, [k] + p);
      }
      assert Get(x, []) == Get(y, []);
      if x.Dir? { LeavesDetermineTree(x, y); }
    }
  }

  lemma SameNames(a: Tree, b: Tree)
    requires a.Dir? && b.Dir? && Canonical(a)
    requires forall p :: Get(a, p) == Get(b, p)
    ensures a.children.Keys <= b.children.Keys
  {
    forall k | k in a.children ensures k in b.children {
      var p := LeafWitness(a.children[k]);
      assert ([k] + p)[1..] == p;
      assert Get(b, [k] + p) == Get(a, [k] + p);
    }
  }

  /** `now` holds `item` at `p`, nothing above or below it, and else what `was` held. */
  ghost predicate HoldsPut(now: Tree, was: Tree, p: Path, item: Item) {
    forall q :: Get(now, q) == if q == p then Some(item) else if Related(p, q) then None else Get(was, q)
  }

  /** `now` holds nothing at or below `p`, and else what `was` held. */
  ghost predicate HoldsDrop(now: Tree, was: Tree, p: Path) {
    forall q :: Get(now, q) == if p <= q then None else Get(was, q)
  }

  // ---- The editor as the code drives it -----------------------------------------

  /** A mutable tree under edit. */
  class Editor {
    var root: Tree

    constructor (seed: Tree)
      requires seed.Dir?
      ensures root == seed
    {
      root := seed;
    }

    method Upsert(path: Path, item: Item)
      requires root.Dir? && path != []
      modifies this
      ensures root == Upserted(old(root), path, item)
      ensures HoldsPut(root, old(root), path, item)
    {
      forall q { GetUpserted(root, path, item, q); }
      root := Upserted(root, path, item);
    }

    method Remove(path: Path)
      requires root.Dir? && path != []
      modifies this
      ensures root == Removed(old(root), path)
      ensures HoldsDrop(root, old(root), path)
    {
      forall q { GetRemoved(root, path, q); }
      root := Removed(root, path);
    }

    method Write() returns (t: Tree)
      requires root.Dir?
      ensures t == Written(root) && t.Dir? && Canonical(t)
      ensures forall p :: Get(t, p) == Get(root, p)
    {
      t := Written(root);
      WrittenIsCanonical(root);
      forall p ensures Get(t, p) == Get(root, p) { GetWritten(root, p); }
    }
  }
}
