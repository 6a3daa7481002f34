/** Encoding the working tree as the `code` tree: the index as a base, overlaid with what
    a single status pass reports, in whatever order it reports it. */
module Encode {
  import opened Options
  import opened Trees

  // ---- Inputs ------------------------------------------------------------------

  /** An index entry. `item` is `None` for a mode that has no tree entry. */
  datatype IndexEntry = IndexEntry(path: Path, unconflicted: bool, item: Option<Item>)

  /** What lies on disk at a path; a directory, FIFO or socket is `Special`. */
  datatype DiskEntry = Regular(content: string, executable: bool) | Symlink(target: string) | Special

  /** The leaves on disk; directories are implied by what lies below them. */
  type Disk = map<Path, DiskEntry>

  /** No leaf lies above another. */
  ghost predicate DiskIsApart(disk: Disk) {
    forall p, q | p in disk && q in disk && p <= q :: p == q
  }

  function DiskAt(disk: Disk, p: Path): Option<DiskEntry> {
    if p in disk then Some(disk[p])
    else if exists q | q in disk :: p < q then Some(Special)
    else None
  }

  /** One item of the status pass. `Changed` stands for a changed content, type or mode,
      an intent-to-add entry, and a conflicted one. */
  datatype StatusItem =
    | Gone(path: Path)
    | SubmoduleChanged(path: Path)
    | Changed(path: Path)
    | NeedsUpdate(path: Path)
    | Untracked(path: Path, leaf: bool)
    | OtherContents(path: Path)

  // ---- Edits -------------------------------------------------------------------

  /** What one status item asks of the tree. */
  datatype Edit = Put(path: Path, item: Item) | Drop(path: Path)

  /** The tree entry for a disk entry, unless it has none. */
  function ItemOf(e: DiskEntry): Option<Item> {
    match e
    case Regular(content, executable) => Some(Item(if executable then BlobExecutable else Blob, content))
    case Symlink(target) => Some(Item(Link, target))
    case Special => None
  }

  function SizeOf(e: DiskEntry): nat {
    match e
    case Regular(content, _) => |content|
    case Symlink(target) => |target|
    case Special => 0
  }

  predicate Overlays(s: StatusItem) {
    s.Changed? || (s.Untracked? && s.leaf)
  }

  /** Overlaying fails only when there is nothing on disk to read. */
  predicate Readable(s: StatusItem, disk: Disk) {
    Overlays(s) ==> DiskAt(disk, s.path).Some?
  }

  /** The tree entry for what is on disk at a path, if there is one. */
  function ItemAt(disk: Disk, p: Path): Option<Item> {
    match DiskAt(disk, p)
    case None => None
    case Some(e) => ItemOf(e)
  }

  function EditsOf(s: StatusItem, disk: Disk): seq<Edit> {
    if s.Gone? then [Drop(s.path)]
    else if Overlays(s) && ItemAt(disk, s.path).Some? then [Put(s.path, ItemAt(disk, s.path).value)]
    else []
  }

  function Applied(t: Tree, e: Edit): (r: Tree)
    requires t.Dir? && e.path != []
    ensures r.Dir?
  {
    match e
    case Put(path, item) => Upserted(t, path, item)
    case Drop(path) => Removed(t, path)
  }

  ghost predicate Rooted(edits: seq<Edit>) {
    forall i | 0 <= i < |edits| :: edits[i].path != []
  }

  function ApplyAll(t: Tree, edits: seq<Edit>): (r: Tree)
    requires t.Dir? && Rooted(edits)
    ensures r.Dir?
  {
    if edits == [] then t else Applied(ApplyAll(t, edits[..|edits| - 1]), edits[|edits| - 1])
  }

  // ---- Order ------------------------------------------------------------------

  ghost predicate PutsAt(edits: seq<Edit>, q: Path, item: Item) {
    Put(q, item) in edits
  }

  ghost predicate PutNear(edits: seq<Edit>, q: Path) {
    exists e | e in edits && e.Put? :: Related(e.path, q)
  }

  ghost predicate DropsOver(edits: seq<Edit>, q: Path) {
    exists e | e in edits && e.Drop? :: e.path <= q
  }

  /** What a set of edits should make of a tree, without regard to order: a put decides
      its path and clears everything above and below it, a drop clears what is at and
      below it, and the rest stays. */
  ghost predicate MergesAt(t: Tree, edits: seq<Edit>, r: Tree, q: Path) {
    && (forall item | PutsAt(edits, q, item) :: Get(r, q) == Some(item))
    && ((forall item :: !PutsAt(edits, q, item)) ==>
          Get(r, q) == if PutNear(edits, q) || DropsOver(edits, q) then None else Get(t, q))
  }

  ghost predicate Merges(t: Tree, edits: seq<Edit>, r: Tree) {
    forall q :: MergesAt(t, edits, r, q)
  }

  /** Puts that can all be there at once: no two at or above one another. */
  ghost predicate PutsApart(edits: seq<Edit>) {
    forall e, f | e in edits && f in edits && e.Put? && f.Put? && e != f :: !Related(e.path, f.path)
  }

  /** No path is dropped that lies at or above a path that is put. */
  ghost predicate NoDropOverPut(edits: seq<Edit>) {
    forall e, f | e in edits && f in edits && e.Drop? && f.Put? :: !(e.path <= f.path)
  }

  lemma PutMore(t: Tree, edits: seq<Edit>, e: Edit, r: Tree, q: Path)
    requires t.Dir? && r.Dir? && e.path != [] && e.Put? && MergesAt(t, edits, r, q)
    requires PutsApart(edits + [e]) && NoDropOverPut(edits + [e])
    ensures MergesAt(t, edits + [e], Applied(r, e), q)
  {
    var all := edits + [e];
    GetUpserted(r, e.path, e.item, q);
    assert forall x :: x in all <==> x in edits || x == e;
    assert forall item :: PutsAt(all, q, item) <==> PutsAt(edits, q, item) || e == Put(q, item);
    assert PutNear(all, q) <==> PutNear(edits, q) || Related(e.path, q);
    assert DropsOver(all, q) <==> DropsOver(edits, q);
    forall item | PutsAt(all, q, item) ensures Get(Applied(r, e), q) == Some(item) {
      if e != Put(q, item) {
        assert Put(q, item) in all && e in all;
      }
    }
    if forall item :: !PutsAt(all, q, item) {
      assert forall item :: !PutsAt(edits, q, item) by {
        assert forall item | PutsAt(edits, q, item) :: PutsAt(all, q, item);
      }
      assert !PutsAt(all, q, e.item);
      assert e.path != q;
    }
  }

  lemma DropMore(t: Tree, edits: seq<Edit>, e: Edit, r: Tree, q: Path)
    requires t.Dir? && r.Dir? && e.path != [] && e.Drop? && MergesAt(t, edits, r, q)
    requires NoDropOverPut(edits + [e])
    ensures MergesAt(t, edits + [e], Applied(r, e), q)
  {
    var all := edits + [e];
    GetRemoved(r, e.path, q);
    assert forall x :: x in all <==> x in edits || x == e;
    assert forall item :: PutsAt(all, q, item) <==> PutsAt(edits, q, item);
    assert PutNear(all, q) <==> PutNear(edits, q);
    assert DropsOver(all, q) <==> DropsOver(edits, q) || e.path <= q;
    forall item | PutsAt(all, q, item) ensures Get(Applied(r, e), q) == Some(item) {
      assert Put(q, item) in all && e in all;
    }
  }

  lemma MergeOneMore(t: Tree, edits: seq<Edit>, e: Edit, r: Tree)
    requires t.Dir? && r.Dir? && e.path != [] && Merges(t, edits, r)
    requires PutsApart(edits + [e]) && NoDropOverPut(edits + [e])
    ensures Merges(t, edits + [e], Applied(r, e))
  {
    hide PutsApart, NoDropOverPut, MergesAt;
    forall q ensures MergesAt(t, edits + [e], Applied(r, e), q) {
      assert MergesAt(t, edits, r, q);
      if e.Put? { PutMore(t, edits, e, r, q); } else { DropMore(t, edits, e, r, q); }
    }
  }

  /** With the puts apart and no drop over a put, applying the edits merges them. */
  lemma {:induction false} ApplyingMerges(t: Tree, edits: seq<Edit>)
    requires t.Dir? && Rooted(edits) && PutsApart(edits) && NoDropOverPut(edits)
    ensures Merges(t, edits, ApplyAll(t, edits))
  {
    if edits != [] {
      var init, last := edits[..|edits| - 1], edits[|edits| - 1];
      assert edits == init + [last];
      assert forall x | x in init :: x in edits;
      ApplyingMerges(t, init);
      MergeOneMore(t, init, last, ApplyAll(t, init));
    }
  }

  lemma MergeIgnoresOrder(t: Tree, edits: seq<Edit>, other: seq<Edit>, r: Tree)
    requires multiset(edits) == multiset(other)
    ensures Merges(t, edits, r) <==> Merges(t, other, r)
    ensures Rooted(edits) ==> Rooted(other)
    ensures PutsApart(edits) <==> PutsApart(other)
    ensures NoDropOverPut(edits) <==> NoDropOverPut(other)
  {
    forall e ensures e in edits <==> e in other {
      assert e in edits <==> e in multiset(edits);
      assert e in other <==> e in multiset(other);
    }
    if Rooted(edits) {
      forall i | 0 <= i < |other| ensures other[i].path != [] {
        assert other[i] in edits;
      }
    }
    assert forall q, item :: PutsAt(edits, q, item) <==> PutsAt(other, q, item);
    assert forall q :: PutNear(edits, q) <==> PutNear(other, q);
    assert forall q :: DropsOver(edits, q) <==> DropsOver(other, q);
    assert forall q :: MergesAt(t, edits, r, q) <==> MergesAt(t, other, r, q);
  }

  /** A drop that comes last takes a put below it with it. */
  lemma LateDropLosesPut(t: Tree, edits: seq<Edit>, drop: Edit, put: Edit)
    requires t.Dir? && Rooted(edits + [drop]) && put in edits
    requires drop.Drop? && put.Put? && drop.path <= put.path
    ensures !Merges(t, edits + [drop], ApplyAll(t, edits + [drop]))
  {
    var all := edits + [drop];
    assert all[..|all| - 1] == edits;
    assert forall i | 0 <= i < |edits| :: edits[i] == all[i];
    GetRemoved(ApplyAll(t, edits), drop.path, put.path);
    assert PutsAt(all, put.path, put.item);
    assert !MergesAt(t, all, ApplyAll(t, all), put.path);
  }

  ghost predicate Reorders(other: seq<Edit>, edits: seq<Edit>) {
    multiset(other) == multiset(edits)
  }

  lemma AnyOrderMerges(t: Tree, edits: seq<Edit>, other: seq<Edit>)
    requires t.Dir? && Rooted(other) && Rooted(edits) && PutsApart(edits) && NoDropOverPut(edits)
    requires Reorders(other, edits)
    ensures Merges(t, edits, ApplyAll(t, other))
  {
    hide ApplyAll, Merges, PutsApart, NoDropOverPut;
    MergeIgnoresOrder(t, edits, other, ApplyAll(t, other));
    ApplyingMerges(t, other);
  }

  /** The same edits with one of them moved to the end. */
  lemma MovedToEnd(edits: seq<Edit>, drop: Edit) returns (rest: seq<Edit>)
    requires Rooted(edits) && drop in edits
    ensures Rooted(rest + [drop]) && Reorders(rest + [drop], edits)
    ensures forall e | e in edits && e != drop :: e in rest
  {
    var i :| 0 <= i < |edits| && edits[i] == drop;
    var before, after := edits[..i], edits[i + 1..];
    rest := before + after;
    assert edits == before + [drop] + after;
    forall e | e in rest + [drop] ensures e in edits && e.path != [] { }
    assert multiset(rest + [drop]) == multiset(before) + multiset(after) + multiset{drop};
    assert multiset(edits) == multiset(before) + multiset{drop} + multiset(after);
  }

  lemma SomeOrderLoses(t: Tree, edits: seq<Edit>) returns (other: seq<Edit>)
    requires t.Dir? && Rooted(edits) && !NoDropOverPut(edits)
    ensures Rooted(other) && Reorders(other, edits) && !Merges(t, edits, ApplyAll(t, other))
  {
    hide ApplyAll, Merges, PutsApart;
    var drop, put :| drop in edits && put in edits && drop.Drop? && put.Put? && drop.path <= put.path;
    var rest := MovedToEnd(edits, drop);
    other := rest + [drop];
    LateDropLosesPut(t, rest, drop, put);
    MergeIgnoresOrder(t, edits, other, ApplyAll(t, other));
  }

  /** The order of the status pass is irrelevant exactly when no removed path lies at or
      above an overlaid one. When one does (a tracked file replaced by a directory),
      some order of the same items loses the overlaid path. */
  lemma OrderIsIrrelevantExactly(t: Tree, edits: seq<Edit>)
    requires t.Dir? && Rooted(edits) && PutsApart(edits)
    ensures NoDropOverPut(edits) <==>
            forall other: seq<Edit> | Rooted(other) && Reorders(other, edits) :: Merges(t, edits, ApplyAll(t, other))
  {
    hide ApplyAll, Merges, PutsApart, NoDropOverPut, Reorders, Rooted;
    if NoDropOverPut(edits) {
      forall other: seq<Edit> | Rooted(other) && Reorders(other, edits)
        ensures Merges(t, edits, ApplyAll(t, other))
      {
        AnyOrderMerges(t, edits, other);
      }
    } else {
      var other := SomeOrderLoses(t, edits);
    }
  }

  // ---- The method ---------------------------------------------------------------

  datatype CodeStats = CodeStats(
    indexEntries: nat,
    statusItems: nat,
    filesOverlaid: nat,
    bytesOverlaid: nat,
    filesRemoved: nat)

  datatype EncodeError = ReadWorktree(path: Path)

  datatype Encoded = Encoded(tree: Tree, stats: CodeStats)

  function AllEdits(items: seq<StatusItem>, disk: Disk): seq<Edit> {
    if items == [] then []
    else AllEdits(items[..|items| - 1], disk) + EditsOf(items[|items| - 1], disk)
  }

  function BaseEdits(index: seq<IndexEntry>): seq<Edit> {
    if index == [] then []
    else
      var last := index[|index| - 1];
      BaseEdits(index[..|index| - 1]) +
      (if last.unconflicted && last.item.Some? then [Put(last.path, last.item.value)] else [])
  }

  function Count(items: seq<StatusItem>, p: StatusItem -> bool): nat {
    if items == [] then 0 else Count(items[..|items| - 1], p) + (if p(items[|items| - 1]) then 1 else 0)
  }

  function OverlaidSize(s: StatusItem, disk: Disk): nat {
    if Overlays(s) && DiskAt(disk, s.path).Some? then SizeOf(DiskAt(disk, s.path).value) else 0
  }

  function OverlaidBytes(items: seq<StatusItem>, disk: Disk): nat {
    if items == [] then 0
    else
      OverlaidBytes(items[..|items| - 1], disk) + OverlaidSize(items[|items| - 1], disk)
  }

  lemma ApplyAllConcat(t: Tree, a: seq<Edit>, b: seq<Edit>)
    requires t.Dir? && Rooted(a) && Rooted(b)
    ensures Rooted(a + b) && ApplyAll(t, a + b) == ApplyAll(ApplyAll(t, a), b)
    decreases |b|
  {
    if b == [] {
      assert a + b == a;
    } else {
      assert (a + b)[..|a + b| - 1] == a + b[..|b| - 1];
      ApplyAllConcat(t, a, b[..|b| - 1]);
    }
  }

  /** Add the unconflicted index entries that have a tree entry to an empty tree. */
  method LoadIndex(index: seq<IndexEntry>) returns (editor: Editor)
    requires forall i | 0 <= i < |index| :: index[i].path != []
    ensures fresh(editor) && editor.root.Dir?
    ensures Rooted(BaseEdits(index)) && editor.root == ApplyAll(EMPTY, BaseEdits(index))
  {
    editor := new Editor(EMPTY);
    for i := 0 to |index|
      invariant editor.root.Dir? && Rooted(BaseEdits(index[..i]))
      invariant editor.root == ApplyAll(EMPTY, BaseEdits(index[..i]))
    {
      var entry := index[i];
      assert index[..i + 1][..i] == index[..i];
      if entry.unconflicted && entry.item.Some? {
        ghost var put := [Put(entry.path, entry.item.value)];
        ApplyAllConcat(EMPTY, BaseEdits(index[..i]), put);
        assert put[..0] == [];
        editor.Upsert(entry.path, entry.item.value);
      } else {
        assert BaseEdits(index[..i]) + [] == BaseEdits(index[..i]);
      }
    }
    assert index[..|index|] == index;
  }

  /** Overlay one path from disk: an error when there is nothing there, nothing when what
      is there has no tree entry. */
  method OverlayFromDisk(editor: Editor, disk: Disk, path: Path) returns (r: Result<nat, EncodeError>)
    requires editor.root.Dir? && path != []
    modifies editor
    ensures editor.root.Dir?
    ensures match DiskAt(disk, path) {
      case None => r == Err(ReadWorktree(path)) && editor.root == old(editor.root)
      case Some(e) =>
        && r == Ok(SizeOf(e))
        && editor.root ==
             if ItemOf(e).Some? then Upserted(old(editor.root), path, ItemOf(e).value) else old(editor.root)
    }
  {
    var entry := DiskAt(disk, path);
    if entry.None? { return Err(ReadWorktree(path)); }
    if ItemOf(entry.value).Some? { editor.Upsert(path, ItemOf(entry.value).value); }
    r := Ok(SizeOf(entry.value));
  }

  predicate IsGone(s: StatusItem) { s.Gone? }

  /** The counters after a status pass that reported `items`. */
  function StatsOf(entries: nat, items: seq<StatusItem>, disk: Disk): CodeStats {
    CodeStats(entries, |items|, Count(items, Overlays), OverlaidBytes(items, disk), Count(items, IsGone))
  }

  /** Apply one item of the status pass, and count it. */
  method ApplyItem(editor: Editor, disk: Disk, item: StatusItem, stats: CodeStats)
    returns (r: Result<CodeStats, EncodeError>)
    requires editor.root.Dir? && item.path != []
    modifies editor
    ensures editor.root.Dir?
    ensures r.Ok? <==> Readable(item, disk)
    ensures r.Err? ==> r.error == ReadWorktree(item.path) && editor.root == old(editor.root)
    ensures r.Ok? ==>
              && Rooted(EditsOf(item, disk)) && editor.root == ApplyAll(old(editor.root), EditsOf(item, disk))
              && r.value == CodeStats(
                stats.indexEntries, stats.statusItems + 1,
                stats.filesOverlaid + (if Overlays(item) then 1 else 0),
                stats.bytesOverlaid + OverlaidSize(item, disk),
                stats.filesRemoved + (if item.Gone? then 1 else 0))
  {
    var counted := stats.(statusItems := stats.statusItems + 1);
    if item.Gone? {
      editor.Remove(item.path);
      counted := counted.(filesRemoved := counted.filesRemoved + 1);
    } else if Overlays(item) {
      var size := OverlayFromDisk(editor, disk, item.path);
      if size.Err? { return Err(size.error); }
      counted := counted.(filesOverlaid := counted.filesOverlaid + 1,
                          bytesOverlaid := counted.bytesOverlaid + size.value);
    }
    ghost var edits := EditsOf(item, disk);
    assert edits == [] || edits[..0] == [];
    r := Ok(counted);
  }

  lemma OneMoreEdited(base: Tree, items: seq<StatusItem>, item: StatusItem, disk: Disk)
    requires base.Dir?
    requires Rooted(AllEdits(items, disk)) && Rooted(EditsOf(item, disk))
    ensures Rooted(AllEdits(items + [item], disk))
    ensures ApplyAll(base, AllEdits(items + [item], disk)) ==
            ApplyAll(ApplyAll(base, AllEdits(items, disk)), EditsOf(item, disk))
  {
    hide ApplyAll, Rooted, EditsOf;
    assert (items + [item])[..|items|] == items;
    ApplyAllConcat(base, AllEdits(items, disk), EditsOf(item, disk));
  }

  lemma OneMoreCounted(entries: nat, items: seq<StatusItem>, item: StatusItem, disk: Disk)
    ensures StatsOf(entries, items + [item], disk) ==
            var before := StatsOf(entries, items, disk);
            CodeStats(
              entries, before.statusItems + 1,
              before.filesOverlaid + (if Overlays(item) then 1 else 0),
              before.bytesOverlaid + OverlaidSize(item, disk),
              before.filesRemoved + (if item.Gone? then 1 else 0))
  {
    hide SizeOf, DiskAt;
    assert (items + [item])[..|items|] == items;
  }

  /** The tree holds what the index and then each reported item make of it, in order. */
  ghost predicate EncodesReport(tree: Tree, index: seq<IndexEntry>, edits: seq<Edit>) {
    && Rooted(BaseEdits(index)) && Rooted(edits)
    && tree.Dir? && Canonical(tree)
    && forall q :: Get(tree, q) == Get(ApplyAll(ApplyAll(EMPTY, BaseEdits(index)), edits), q)
  }

  /** Encode the working tree. It fails exactly when some overlaid path cannot be read. */
  method Encode(index: seq<IndexEntry>, items: seq<StatusItem>, disk: Disk) returns (r: Result<Encoded, EncodeError>)
    requires forall i | 0 <= i < |index| :: index[i].path != []
    requires forall i | 0 <= i < |items| :: items[i].path != []
    ensures r.Ok? <==> forall i | 0 <= i < |items| :: Readable(items[i], disk)
    ensures r.Ok? ==> EncodesReport(r.value.tree, index, AllEdits(items, disk))
    ensures r.Ok? ==> r.value.stats == StatsOf(|index|, items, disk)
  {
    hide Rooted, ApplyAll, StatsOf, AllEdits, BaseEdits, EditsOf, Get, Canonical, SizeOf, Readable, DiskAt, ItemOf;
    var editor := LoadIndex(index);
    ghost var base := editor.root;
    var stats := CodeStats(|index|, 0, 0, 0, 0);
    EmptyPass(base, |index|, disk);
    for i := 0 to |items|
      invariant editor.root.Dir? && fresh(editor)
      invariant forall j | 0 <= j < i :: Readable(items[j], disk)
      invariant Rooted(AllEdits(items[..i], disk))
      invariant editor.root == ApplyAll(base, AllEdits(items[..i], disk))
      invariant stats.indexEntries == |index| && stats == StatsOf(|index|, items[..i], disk)
    {
      assert items[..i + 1] == items[..i] + [items[i]];
      var counted := ApplyItem(editor, disk, items[i], stats);
      if counted.Err? { return Err(counted.error); }
      OneMoreEdited(base, items[..i], items[i], disk);
      OneMoreCounted(|index|, items[..i], items[i], disk);
      stats := counted.value;
    }
    assert items[..|items|] == items;
    var tree := editor.Write();
    r := Ok(Encoded(tree, stats));
  }

  lemma EmptyPass(base: Tree, entries: nat, disk: Disk)
    requires base.Dir?
    ensures Rooted(AllEdits([], disk)) && ApplyAll(base, AllEdits([], disk)) == base
    ensures StatsOf(entries, [], disk) == CodeStats(entries, 0, 0, 0, 0)
  {
  }

  // ---- What the tree should hold ---------------------------------------------------

  /** What is known of a working tree: the tree the index stands for, the paths the index
      has any entry for (conflicted ones included), what is on disk, and which untracked
      paths the status pass leaves out (ignored, or inside another repository). */
  datatype Scene = Scene(staged: Tree, tracked: iset<Path>, disk: Disk, hidden: iset<Path>)

  /** A file or symlink on disk that is tracked, or untracked and not left out. */
  ghost predicate Wanted(s: Scene, q: Path) {
    q in s.disk && ItemOf(s.disk[q]).Some? && (q in s.tracked || q !in s.hidden)
  }

  /** A staged path with nothing on disk; a directory there counts as nothing, unless the
      path is a submodule's. */
  ghost predicate Lost(s: Scene, q: Path) {
    && Get(s.staged, q).Some?
    && (DiskAt(s.disk, q).None? || (q !in s.disk && Get(s.staged, q).value.kind != Commit))
  }

  /** What the encoded tree should hold at a path: what is on disk, for every wanted path;
      else what is staged, unless that is lost (what stays is a submodule's commit, or a
      tracked path that is now neither a file nor a symlink). */
  ghost function Expected(s: Scene, q: Path): Option<Item> {
    if Wanted(s, q) then ItemOf(s.disk[q])
    else if Lost(s, q) then None
    else Get(s.staged, q)
  }

  /** A scene a working tree can be in. */
  ghost predicate Coherent(s: Scene) {
    && DiskIsApart(s.disk)
    && (forall p | Get(s.staged, p).Some? :: p in s.tracked)
    && (forall p, q | Get(s.staged, p).Some? && Get(s.staged, p).value.kind == Commit && p < q ::
          q in s.hidden && q !in s.tracked)
  }

  /** A status report that is accurate for a scene: it overlays every wanted path whose
      content is not the staged one, and nothing else that has a tree entry; and it
      reports exactly the lost paths as gone. */
  ghost predicate Accurate(s: Scene, items: seq<StatusItem>) {
    && (forall q | Wanted(s, q) && ItemOf(s.disk[q]) != Get(s.staged, q) :: Reports(items, q))
    && (forall i | i in items && Overlays(i) :: Wanted(s, i.path) || DiskAt(s.disk, i.path) == Some(Special))
    && (forall q :: Gone(q) in items <==> Lost(s, q))
  }

  ghost predicate Reports(items: seq<StatusItem>, q: Path) {
    exists i | i in items && Overlays(i) :: i.path == q
  }

  /** There is something on disk wherever an accurate report asks for an overlay. */
  lemma AccurateIsReadable(s: Scene, items: seq<StatusItem>)
    requires Accurate(s, items)
    ensures forall i | 0 <= i < |items| :: Readable(items[i], s.disk)
  {
    forall i | 0 <= i < |items| ensures Readable(items[i], s.disk) {
      assert items[i] in items;
    }
  }

  lemma {:induction false} EditsComeFromItems(items: seq<StatusItem>, disk: Disk, e: Edit)
    ensures e in AllEdits(items, disk) <==> exists i | 0 <= i < |items| :: e in EditsOf(items[i], disk)
  {
    if items != [] {
      var init, last := items[..|items| - 1], items[|items| - 1];
      EditsComeFromItems(init, disk, e);
      if e in AllEdits(init, disk) {
        var i :| 0 <= i < |init| && e in EditsOf(init[i], disk);
        assert e in EditsOf(items[i], disk);
      }
      if i: nat :| i < |items| && e in EditsOf(items[i], disk) {
        assert i < |init| ==> items[i] == init[i];
      }
    }
  }

  lemma EditsOfItem(i: StatusItem, disk: Disk, e: Edit)
    ensures e in EditsOf(i, disk) <==>
            || (e.Drop? && i == Gone(e.path))
            || (e.Put? && Overlays(i) && i.path == e.path && ItemAt(disk, e.path) == Some(e.item))
  {
  }

  /** An accurate report drops exactly the lost paths. */
  lemma AccurateDrops(s: Scene, items: seq<StatusItem>, q: Path)
    requires Accurate(s, items)
    ensures Drop(q) in AllEdits(items, s.disk) <==> Lost(s, q)
  {
    hide Wanted, Lost, AllEdits, EditsOf, DiskAt, ItemOf;
    EditsComeFromItems(items, s.disk, Drop(q));
    forall i: nat | i < |items| ensures Drop(q) in EditsOf(items[i], s.disk) <==> items[i] == Gone(q) {
      EditsOfItem(items[i], s.disk, Drop(q));
    }
  }

  /** An accurate report puts what is on disk at the wanted paths it reports. */
  lemma AccuratePuts(s: Scene, items: seq<StatusItem>, q: Path, item: Item)
    requires Accurate(s, items)
    ensures Put(q, item) in AllEdits(items, s.disk) <==>
            Reports(items, q) && Wanted(s, q) && ItemOf(s.disk[q]) == Some(item)
  {
    hide Lost, AllEdits, EditsOf;
    var e := Put(q, item);
    EditsComeFromItems(items, s.disk, e);
    forall i: nat | i < |items|
      ensures e in EditsOf(items[i], s.disk) <==>
              Overlays(items[i]) && items[i].path == q && Wanted(s, q) && ItemOf(s.disk[q]) == Some(item)
    {
      EditsOfItem(items[i], s.disk, e);
      assert items[i] in items;
    }
    if Reports(items, q) && Wanted(s, q) && ItemOf(s.disk[q]) == Some(item) {
      var i :| i in items && Overlays(i) && i.path == q;
      var k :| 0 <= k < |items| && items[k] == i;
      assert e in EditsOf(items[k], s.disk);
    }
  }

  lemma NothingBelowDiskLeaf(s: Scene, p: Path, q: Path)
    requires Coherent(s) && p in s.disk && Related(p, q) && p != q
    ensures q !in s.disk && (p < q ==> DiskAt(s.disk, q) == None)
  {
  }

  /** Where an accurate report puts nothing, the merge holds what is expected. */
  lemma ExpectedWithoutPut(s: Scene, items: seq<StatusItem>, q: Path)
    requires Coherent(s) && Accurate(s, items)
    requires forall item :: !PutsAt(AllEdits(items, s.disk), q, item)
    ensures Expected(s, q) ==
            if PutNear(AllEdits(items, s.disk), q) || DropsOver(AllEdits(items, s.disk), q)
            then None
            else Get(s.staged, q)
  {
    hide AllEdits, Get, EditsOf;
    var edits := AllEdits(items, s.disk);
    if Wanted(s, q) {
      AccuratePuts(s, items, q, ItemOf(s.disk[q]).value);
      assert !PutsAt(edits, q, ItemOf(s.disk[q]).value);
      assert ItemOf(s.disk[q]) == Get(s.staged, q);
    }
    if PutNear(edits, q) {
      var e :| e in edits && e.Put? && Related(e.path, q);
      AccuratePuts(s, items, e.path, e.item);
      assert e == Put(e.path, e.item);
      assert PutsAt(edits, e.path, e.item);
      assert e.path != q;
      NothingBelowDiskLeaf(s, e.path, q);
    } else if DropsOver(edits, q) {
      var e :| e in edits && e.Drop? && e.path <= q;
      assert e == Drop(e.path);
      AccurateDrops(s, items, e.path);
      if Get(s.staged, q).Some? { LeavesUnrelated(s.staged, e.path, q); }
    } else {
      AccurateDrops(s, items, q);
      assert Lost(s, q) ==> Drop(q) in edits && q <= q;
    }
  }

  /** Merging an accurate report into the staged tree gives the expected tree, and nothing
      else does. */
  lemma AccurateMerge(s: Scene, items: seq<StatusItem>, r: Tree)
    requires Coherent(s) && Accurate(s, items)
    ensures Merges(s.staged, AllEdits(items, s.disk), r) <==> forall q :: Get(r, q) == Expected(s, q)
  {
    hide AllEdits, Get, Accurate, Coherent;
    var edits := AllEdits(items, s.disk);
    forall q ensures MergesAt(s.staged, edits, r, q) <==> Get(r, q) == Expected(s, q) {
      if item :| PutsAt(edits, q, item) {
        forall other | PutsAt(edits, q, other) ensures Expected(s, q) == Some(other) {
          AccuratePuts(s, items, q, other);
        }
      } else {
        ExpectedWithoutPut(s, items, q);
      }
    }
  }

  /** An accurate report overlays no two paths at or above one another. */
  lemma AccuratePutsApart(s: Scene, items: seq<StatusItem>)
    requires Coherent(s) && Accurate(s, items)
    ensures PutsApart(AllEdits(items, s.disk))
  {
    hide AllEdits, Get, Accurate;
    var edits := AllEdits(items, s.disk);
    forall e, f | e in edits && f in edits && e.Put? && f.Put? && e != f ensures !Related(e.path, f.path) {
      assert e == Put(e.path, e.item) && f == Put(f.path, f.item);
      AccuratePuts(s, items, e.path, e.item);
      AccuratePuts(s, items, f.path, f.item);
    }
  }

  ghost predicate HoldsExpected(r: Tree, s: Scene) {
    forall q :: Get(r, q) == Expected(s, q)
  }

  // ---- In whatever order the items come ------------------------------------------------

  ghost predicate Permutes(other: seq<StatusItem>, items: seq<StatusItem>) {
    multiset(other) == multiset(items)
  }

  lemma {:induction false} AllEditsConcat(a: seq<StatusItem>, b: seq<StatusItem>, disk: Disk)
    ensures AllEdits(a + b, disk) == AllEdits(a, disk) + AllEdits(b, disk)
  {
    hide EditsOf;
    if b == [] {
      assert a + b == a;
    } else {
      assert (a + b)[..|a + b| - 1] == a + b[..|b| - 1];
      AllEditsConcat(a, b[..|b| - 1], disk);
    }
  }

  lemma OneItemEdits(item: StatusItem, disk: Disk)
    ensures AllEdits([item], disk) == EditsOf(item, disk)
  {
    hide EditsOf;
    assert [item][..0] == [];
    assert [] + EditsOf(item, disk) == EditsOf(item, disk);
  }

  /** Taking one item out, and putting it last. */
  lemma ItemToEnd(items: seq<StatusItem>, item: StatusItem, disk: Disk) returns (rest: seq<StatusItem>)
    requires item in items
    ensures Permutes(rest + [item], items) && |rest| == |items| - 1
    ensures multiset(AllEdits(items, disk)) == multiset(AllEdits(rest, disk)) + multiset(EditsOf(item, disk))
    ensures forall i | i in items && i != item :: i in rest
  {
    hide AllEdits, EditsOf;
    var k :| 0 <= k < |items| && items[k] == item;
    var a, b := items[..k], items[k + 1..];
    rest := a + b;
    assert items == a + [item] + b;
    AllEditsConcat(a + [item], b, disk);
    AllEditsConcat(a, [item], disk);
    AllEditsConcat(a, b, disk);
    OneItemEdits(item, disk);
  }

  /** A permutation of the items permutes their edits. */
  lemma {:induction false} PermutedEdits(other: seq<StatusItem>, items: seq<StatusItem>, disk: Disk)
    requires Permutes(other, items)
    ensures multiset(AllEdits(other, disk)) == multiset(AllEdits(items, disk))
    decreases |items|
  {
    hide AllEdits, EditsOf;
    if items == [] {
      assert |multiset(other)| == |multiset(items)| == 0;
      assert other == [];
    } else {
      var item := items[0];
      assert item in multiset(items) && item in multiset(other);
      var rest := ItemToEnd(items, item, disk);
      var otherRest := ItemToEnd(other, item, disk);
      assert multiset(rest) == multiset(rest + [item]) - multiset{item};
      assert multiset(otherRest) == multiset(otherRest + [item]) - multiset{item};
      PermutedEdits(otherRest, rest, disk);
    }
  }

  lemma PermutedItems(other: seq<StatusItem>, items: seq<StatusItem>)
    requires Permutes(other, items)
    ensures forall i :: i in other <==> i in items
  {
    forall i ensures i in other <==> i in items {
      assert i in other <==> i in multiset(other);
      assert i in items <==> i in multiset(items);
    }
  }

  lemma {:induction false} EditsAreRooted(items: seq<StatusItem>, disk: Disk)
    requires forall i | i in items :: i.path != []
    ensures Rooted(AllEdits(items, disk))
  {
    if items != [] {
      var init, last := items[..|items| - 1], items[|items| - 1];
      assert last in items && forall i | i in init :: i in items;
      EditsAreRooted(init, disk);
    }
  }

  /** Some order of the items loses an overlaid path at or below a removed one. */
  lemma SomeItemOrderLoses(s: Scene, items: seq<StatusItem>) returns (other: seq<StatusItem>)
    requires s.staged.Dir? && Coherent(s) && Accurate(s, items) && forall i | i in items :: i.path != []
    requires !NoDropOverPut(AllEdits(items, s.disk))
    ensures Permutes(other, items) && Rooted(AllEdits(other, s.disk))
    ensures !HoldsExpected(ApplyAll(s.staged, AllEdits(other, s.disk)), s)
  {
    hide AllEdits, Rooted, ApplyAll, Merges, Accurate, Coherent, HoldsExpected, Reorders;
    var edits := AllEdits(items, s.disk);
    var drop, put :| drop in edits && put in edits && drop.Drop? && put.Put? && drop.path <= put.path;
    EditsComeFromItems(items, s.disk, drop);
    var k :| 0 <= k < |items| && drop in EditsOf(items[k], s.disk);
    var gone := items[k];
    EditsOfItem(gone, s.disk, drop);
    var rest := ItemToEnd(items, gone, s.disk);
    other := rest + [gone];
    AllEditsConcat(rest, [gone], s.disk);
    OneItemEdits(gone, s.disk);
    assert EditsOf(gone, s.disk) == [drop];
    PermutedItems(other, items);
    EditsAreRooted(other, s.disk);
    assert put in multiset(edits) && put in multiset(AllEdits(rest, s.disk));
    LateDropLosesPut(s.staged, AllEdits(rest, s.disk), drop, put);
    AccurateOrder(s, other, items);
    AccurateMerge(s, other, ApplyAll(s.staged, AllEdits(other, s.disk)));
    MergeIsHolding(s, other);
  }

  lemma AccurateOrder(s: Scene, other: seq<StatusItem>, items: seq<StatusItem>)
    requires Accurate(s, items) && Permutes(other, items)
    ensures Accurate(s, other)
  {
    hide Wanted, Lost;
    PermutedItems(other, items);
    forall q | Reports(items, q) ensures Reports(other, q) {
      var i :| i in items && Overlays(i) && i.path == q;
      assert i in other;
    }
  }

  lemma MergeIsHolding(s: Scene, items: seq<StatusItem>)
    requires s.staged.Dir? && Coherent(s) && Accurate(s, items) && Rooted(AllEdits(items, s.disk))
    ensures var r := ApplyAll(s.staged, AllEdits(items, s.disk));
            HoldsExpected(r, s) <==> Merges(s.staged, AllEdits(items, s.disk), r)
  {
    hide AllEdits, ApplyAll, Merges, Accurate, Coherent, Expected, Get;
    AccurateMerge(s, items, ApplyAll(s.staged, AllEdits(items, s.disk)));
  }

  lemma EveryItemOrderHolds(s: Scene, items: seq<StatusItem>, other: seq<StatusItem>)
    requires s.staged.Dir? && Coherent(s) && Accurate(s, items) && forall i | i in items :: i.path != []
    requires NoDropOverPut(AllEdits(items, s.disk)) && Permutes(other, items)
    ensures Rooted(AllEdits(other, s.disk)) && HoldsExpected(ApplyAll(s.staged, AllEdits(other, s.disk)), s)
  {
    hide AllEdits, Rooted, ApplyAll, Merges, Accurate, Coherent, HoldsExpected, NoDropOverPut, PutsApart;
    PermutedItems(other, items);
    EditsAreRooted(items, s.disk);
    EditsAreRooted(other, s.disk);
    AccurateOrder(s, other, items);
    AccuratePutsApart(s, items);
    PermutedEdits(other, items, s.disk);
    AnyOrderMerges(s.staged, AllEdits(items, s.disk), AllEdits(other, s.disk));
    MergeIgnoresOrder(s.staged, AllEdits(items, s.disk), AllEdits(other, s.disk),
                      ApplyAll(s.staged, AllEdits(other, s.disk)));
    MergeIsHolding(s, other);
  }

  /** A tree that encodes a report holds what applying its edits to the staged tree does. */
  lemma EncodedHolds(tree: Tree, index: seq<IndexEntry>, s: Scene, items: seq<StatusItem>)
    requires Rooted(BaseEdits(index)) && s.staged == ApplyAll(EMPTY, BaseEdits(index))
    requires EncodesReport(tree, index, AllEdits(items, s.disk))
    ensures HoldsExpected(tree, s) <==> HoldsExpected(ApplyAll(s.staged, AllEdits(items, s.disk)), s)
  {
    hide AllEdits, ApplyAll, Rooted, Expected, Get, Canonical;
  }

  lemma SomeTreeEncodes(index: seq<IndexEntry>, s: Scene, items: seq<StatusItem>) returns (tree: Tree)
    requires Rooted(BaseEdits(index)) && s.staged == ApplyAll(EMPTY, BaseEdits(index))
    requires Rooted(AllEdits(items, s.disk))
    ensures EncodesReport(tree, index, AllEdits(items, s.disk))
  {
    hide AllEdits, Rooted, ApplyAll, Get, Canonical;
    var r := ApplyAll(s.staged, AllEdits(items, s.disk));
    tree := Written(r);
    WrittenIsCanonical(r);
    forall q ensures Get(tree, q) == Get(r, q) { GetWritten(r, q); }
  }

  /** From an accurate report encoding never fails; and whatever order its items come in, the
      tree that comes out holds exactly what it should, if and only if no path reported gone
      lies at or above one that is overlaid. */
  lemma EncodedTreeIsExpected(index: seq<IndexEntry>, s: Scene, items: seq<StatusItem>)
    requires Rooted(BaseEdits(index)) && s.staged == ApplyAll(EMPTY, BaseEdits(index))
    requires Coherent(s) && Accurate(s, items) && forall i | i in items :: i.path != []
    ensures forall i | 0 <= i < |items| :: Readable(items[i], s.disk)
    ensures NoDropOverPut(AllEdits(items, s.disk)) <==>
            forall other: seq<StatusItem>, tree: Tree
              | Permutes(other, items) && EncodesReport(tree, index, AllEdits(other, s.disk)) :: HoldsExpected(tree, s)
  {
    hide AllEdits, Rooted, ApplyAll, Accurate, Coherent, HoldsExpected,
         NoDropOverPut, EncodesReport, Permutes, Readable;
    AccurateIsReadable(s, items);
    if NoDropOverPut(AllEdits(items, s.disk)) {
      forall other: seq<StatusItem>, tree: Tree
        | Permutes(other, items) && EncodesReport(tree, index, AllEdits(other, s.disk))
        ensures HoldsExpected(tree, s)
      {
        EveryItemOrderHolds(s, items, other);
        EncodedHolds(tree, index, s, other);
      }
    } else {
      var other := SomeItemOrderLoses(s, items);
      var tree := SomeTreeEncodes(index, s, other);
      EncodedHolds(tree, index, s, other);
    }
  }

  // ---- A report that it fails on -------------------------------------------------------

  const F: Path := ["f"]
  const F_G: Path := ["f", "g"]

  /** A tracked file `f` that has been replaced by a directory with an untracked file `g`. */
  function Replaced(was: Item): Scene {
    Scene(Dir(map["f" := Leaf(was)]), iset{F}, map[F_G := Regular("new", false)], iset{})
  }

  /** Its accurate report breaks the condition; and in the other order of its two items, the
      encoded tree has lost the file. */
  lemma ReplacedByDirectory(was: Item)
    requires was.kind != Commit
    ensures var s, items := Replaced(was), [Gone(F), Untracked(F_G, true)];
            && Coherent(s) && Accurate(s, items) && !NoDropOverPut(AllEdits(items, s.disk))
            && var other := [Untracked(F_G, true), Gone(F)];
               && Permutes(other, items) && Rooted(AllEdits(other, s.disk))
               && Expected(s, F_G) == Some(Item(Blob, "new"))
               && Get(ApplyAll(s.staged, AllEdits(other, s.disk)), F_G) == None
  {
    hide ApplyAll, AllEdits, EditsOf, Accurate, Coherent, Get, DiskAt;
    var s, gone, untracked := Replaced(was), Gone(F), Untracked(F_G, true);
    var put, drop := Put(F_G, Item(Blob, "new")), Drop(F);
    ReplacedIsAccurate(was);
    ReplacedEdits(was);
    assert drop in [drop, put] && put in [drop, put] && F <= F_G;
    assert [put, drop] == [put] + [drop];
    LastApplied(s.staged, [put], drop);
    GetRemoved(ApplyAll(s.staged, [put]), F, F_G);
    assert Permutes([untracked, gone], [gone, untracked]);
  }

  lemma ReplacedEdits(was: Item)
    ensures var disk, gone, untracked := Replaced(was).disk, Gone(F), Untracked(F_G, true);
            && AllEdits([gone, untracked], disk) == [Drop(F), Put(F_G, Item(Blob, "new"))]
            && AllEdits([untracked, gone], disk) == [Put(F_G, Item(Blob, "new")), Drop(F)]
  {
    hide AllEdits;
    var disk, gone, untracked := Replaced(was).disk, Gone(F), Untracked(F_G, true);
    TwoItemEdits(gone, untracked, disk);
    TwoItemEdits(untracked, gone, disk);
  }

  lemma LastApplied(t: Tree, edits: seq<Edit>, e: Edit)
    requires t.Dir? && Rooted(edits) && e.path != []
    ensures Rooted(edits + [e]) && ApplyAll(t, edits + [e]) == Applied(ApplyAll(t, edits), e)
  {
    assert (edits + [e])[..|edits|] == edits;
  }

  lemma TwoItemEdits(a: StatusItem, b: StatusItem, disk: Disk)
    ensures AllEdits([a, b], disk) == EditsOf(a, disk) + EditsOf(b, disk)
  {
    assert [a, b] == [a] + [b];
    AllEditsConcat([a], [b], disk);
    OneItemEdits(a, disk);
    OneItemEdits(b, disk);
  }

  lemma ReplacedIsAccurate(was: Item)
    requires was.kind != Commit
    ensures Coherent(Replaced(was)) && Accurate(Replaced(was), [Gone(F), Untracked(F_G, true)])
  {
    var s, items := Replaced(was), [Gone(F), Untracked(F_G, true)];
    forall q ensures Get(s.staged, q) == if q == F then Some(was) else None { StagedIsOneFile(was, q); }
    assert F < F_G && F != F_G;
    assert F_G in s.disk && F !in s.disk;
    assert DiskAt(s.disk, F) == Some(Special);
    assert Lost(s, F);
    assert Overlays(items[1]) && Reports(items, F_G);
    forall q ensures Gone(q) in items <==> Lost(s, q) {
      assert Gone(q) in items <==> q == F;
    }
  }

  lemma StagedIsOneFile(was: Item, q: Path)
    ensures Get(Dir(map["f" := Leaf(was)]), q) == if q == F then Some(was) else None
  {
    if q != [] && q[0] == "f" {
      assert q == ["f"] + q[1..];
    }
  }

  // ---- What the counters count ---------------------------------------------------------

  /** A report that names no path twice. */
  ghost predicate NamesOnce(items: seq<StatusItem>) {
    forall i, j | 0 <= i < j < |items| :: items[i].path != items[j].path
  }

  /** The paths of the items of one kind. */
  function PathsOf(items: seq<StatusItem>, p: StatusItem -> bool): set<Path> {
    set i | i in items && p(i) :: i.path
  }

  lemma {:induction false} CountIsPaths(items: seq<StatusItem>, p: StatusItem -> bool)
    requires NamesOnce(items)
    ensures Count(items, p) == |PathsOf(items, p)|
  {
    if items == [] {
      assert PathsOf(items, p) == {};
    } else {
      var init, last := items[..|items| - 1], items[|items| - 1];
      CountIsPaths(init, p);
      assert forall i :: i in items <==> i in init || i == last;
      assert last.path !in PathsOf(init, p);
      assert PathsOf(items, p) == PathsOf(init, p) + (if p(last) then {last.path} else {});
    }
  }

  /** On an accurate report that names each path once, `files_removed` is the number of lost
      paths, and `files_overlaid` that of the paths overlaid, among them every wanted one
      whose content is not the staged one. */
  lemma CountersAreExact(s: Scene, items: seq<StatusItem>, entries: nat) returns (lost: set<Path>, overlaid: set<Path>)
    requires Accurate(s, items) && NamesOnce(items)
    ensures (forall q :: q in lost <==> Lost(s, q)) && StatsOf(entries, items, s.disk).filesRemoved == |lost|
    ensures (forall q :: q in overlaid <==> Reports(items, q))
    ensures StatsOf(entries, items, s.disk).filesOverlaid == |overlaid|
    ensures forall q | Wanted(s, q) && ItemOf(s.disk[q]) != Get(s.staged, q) :: q in overlaid
  {
    hide Lost, Wanted, Count, OverlaidBytes;
    lost, overlaid := PathsOf(items, IsGone), PathsOf(items, Overlays);
    CountIsPaths(items, IsGone);
    CountIsPaths(items, Overlays);
    forall q ensures q in lost <==> Lost(s, q) {
      assert q in lost <==> Gone(q) in items;
    }
  }

  /** Index entries at stage zero: one to a path, and none above another. */
  ghost predicate StagesApart(index: seq<IndexEntry>) {
    PutsApart(BaseEdits(index))
  }

  /** A stage-zero entry that makes this edit. */
  ghost predicate Makes(entry: IndexEntry, e: Edit) {
    e.Put? && entry == IndexEntry(e.path, true, Some(e.item))
  }

  lemma {:induction false} BaseEditsArePuts(index: seq<IndexEntry>, e: Edit)
    ensures e in BaseEdits(index) <==> exists i | 0 <= i < |index| :: Makes(index[i], e)
  {
    if index != [] {
      var init, last := index[..|index| - 1], index[|index| - 1];
      BaseEditsArePuts(init, e);
      assert e in BaseEdits(index) <==> e in BaseEdits(init) || Makes(last, e);
      hide Makes;
      if i: nat :| i < |init| && Makes(init[i], e) {
        assert Makes(index[i], e);
      }
      if i: nat :| i < |index| && Makes(index[i], e) {
        assert i < |init| ==> init[i] == index[i];
      }
    }
  }

  /** The base tree holds exactly the stage-zero entries that have a tree entry. */
  lemma BaseHoldsIndex(index: seq<IndexEntry>, q: Path, item: Item)
    requires (forall i | 0 <= i < |index| :: index[i].path != []) && Rooted(BaseEdits(index)) && StagesApart(index)
    ensures Get(ApplyAll(EMPTY, BaseEdits(index)), q) == Some(item) <==>
            exists i | 0 <= i < |index| :: index[i] == IndexEntry(q, true, Some(item))
  {
    hide ApplyAll, Rooted, PutsApart;
    var edits := BaseEdits(index);
    BaseEditsArePuts(index, Put(q, item));
    forall e | e in edits ensures e.Put? { BaseEditsArePuts(index, e); }
    ApplyingMerges(EMPTY, edits);
    assert MergesAt(EMPTY, edits, ApplyAll(EMPTY, edits), q);
    assert Get(EMPTY, q) == None;
    if other :| PutsAt(edits, q, other) {
    }
  }

  // ---- The extra tree --------------------------------------------------------------

  /** The selected paths, as if each had been reported as an untracked file. */
  function AsItems(paths: seq<Path>): seq<StatusItem> {
    seq(|paths|, i requires 0 <= i < |paths| => Untracked(paths[i], true))
  }

  /** What the tree of selected paths should hold. */
  function ExtraAt(paths: seq<Path>, disk: Disk, q: Path): Option<Item> {
    if q in paths && q in disk then ItemOf(disk[q]) else None
  }

  lemma ExtraEdits(paths: seq<Path>, disk: Disk, e: Edit)
    ensures e in AllEdits(AsItems(paths), disk) <==> e.Put? && ExtraAt(paths, disk, e.path) == Some(e.item)
  {
    hide AllEdits, EditsOf;
    var items := AsItems(paths);
    EditsComeFromItems(items, disk, e);
    forall i: nat | i < |items|
      ensures e in EditsOf(items[i], disk) <==>
              e.Put? && e.path == paths[i] && ExtraAt(paths, disk, e.path) == Some(e.item)
    {
      EditsOfItem(items[i], disk, e);
      assert paths[i] in paths;
    }
    if e.Put? && ExtraAt(paths, disk, e.path) == Some(e.item) {
      var i: nat :| i < |paths| && paths[i] == e.path;
      assert e in EditsOf(items[i], disk);
    }
  }

  /** The tree of the selected paths holds each of them as it is on disk, and nothing else. */
  lemma ExtraTreeIsSelection(paths: seq<Path>, disk: Disk)
    requires DiskIsApart(disk)
    requires Rooted(AllEdits(AsItems(paths), disk))
    ensures forall q :: Get(ApplyAll(EMPTY, AllEdits(AsItems(paths), disk)), q) == ExtraAt(paths, disk, q)
  {
    hide AllEdits, ApplyAll, Rooted, AsItems, ItemOf;
    var edits := AllEdits(AsItems(paths), disk);
    forall e | e in edits ensures e.Put? && ExtraAt(paths, disk, e.path) == Some(e.item) { ExtraEdits(paths, disk, e); }
    assert PutsApart(edits) && NoDropOverPut(edits);
    ApplyingMerges(EMPTY, edits);
    forall q ensures Get(ApplyAll(EMPTY, edits), q) == ExtraAt(paths, disk, q) {
      assert MergesAt(EMPTY, edits, ApplyAll(EMPTY, edits), q);
      if ExtraAt(paths, disk, q).Some? {
        ExtraEdits(paths, disk, Put(q, ExtraAt(paths, disk, q).value));
        assert PutsAt(edits, q, ExtraAt(paths, disk, q).value);
      } else {
        assert forall item | PutsAt(edits, q, item) :: Put(q, item) in edits;
        assert Get(EMPTY, q) == None;
      }
    }
  }

  /** Build the `extra` tree from the selected paths, and sum what was read for it. */
  method EncodeExtra(paths: seq<Path>, disk: Disk) returns (r: Result<(Tree, nat), EncodeError>)
    requires forall i | 0 <= i < |paths| :: paths[i] != []
    ensures r.Ok? <==> forall i | 0 <= i < |paths| :: DiskAt(disk, paths[i]).Some?
    ensures r.Ok? ==> r.value.0.Dir? && Canonical(r.value.0)
    ensures r.Ok? && DiskIsApart(disk) ==> forall q :: Get(r.value.0, q) == ExtraAt(paths, disk, q)
    ensures r.Ok? ==> r.value.1 == OverlaidBytes(AsItems(paths), disk)
  {
    hide AllEdits, ApplyAll, Rooted, EditsOf, Get, Canonical, OverlaidBytes,
         SizeOf, ItemOf, DiskAt, DiskIsApart, ExtraAt;
    var editor := new Editor(EMPTY);
    var size := 0;
    EmptyPass(EMPTY, 0, disk);
    NoBytes(disk);
    assert AsItems(paths[..0]) == [];
    for i := 0 to |paths|
      invariant editor.root.Dir? && fresh(editor)
      invariant forall j | 0 <= j < i :: DiskAt(disk, paths[j]).Some?
      invariant Rooted(AllEdits(AsItems(paths[..i]), disk))
      invariant editor.root == ApplyAll(EMPTY, AllEdits(AsItems(paths[..i]), disk))
      invariant size == OverlaidBytes(AsItems(paths[..i]), disk)
    {
      var item := Untracked(paths[i], true);
      assert AsItems(paths[..i + 1]) == AsItems(paths[..i]) + [item];
      ghost var before := editor.root;
      var bytes := OverlayFromDisk(editor, disk, paths[i]);
      if bytes.Err? { return Err(bytes.error); }
      OverlaidEdit(before, item, disk);
      OneMoreEdited(EMPTY, AsItems(paths[..i]), item, disk);
      OneMoreSize(AsItems(paths[..i]), item, disk);
      size := size + bytes.value;
    }
    assert paths[..|paths|] == paths;
    if DiskIsApart(disk) { ExtraTreeIsSelection(paths, disk); }
    var tree := editor.Write();
    r := Ok((tree, size));
  }

  lemma OverlaidEdit(before: Tree, item: StatusItem, disk: Disk)
    requires before.Dir? && item.path != [] && Overlays(item) && Readable(item, disk)
    ensures Rooted(EditsOf(item, disk))
    ensures ApplyAll(before, EditsOf(item, disk)) ==
            var e := DiskAt(disk, item.path).value;
            if ItemOf(e).Some? then Upserted(before, item.path, ItemOf(e).value) else before
  {
    var edits := EditsOf(item, disk);
    assert edits == [] || edits[..0] == [];
  }

  lemma OneMoreSize(items: seq<StatusItem>, item: StatusItem, disk: Disk)
    ensures OverlaidBytes(items + [item], disk) == OverlaidBytes(items, disk) + OverlaidSize(item, disk)
  {
    assert (items + [item])[..|items|] == items;
  }

  lemma NoBytes(disk: Disk)
    ensures OverlaidBytes([], disk) == 0
  {
  }
}
