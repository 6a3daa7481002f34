/** Updating a worktree to a stream's tree: `read-tree --reset -u` and then `clean -d -f`
    under the worktree's lock, with any number of updates, pushes and outside edits going
    on at once.

    What git's own two steps do is taken from git-read-tree(1) and git-clean(1). */
module Worktree {
  import opened Options
  import opened Trees
  import Overlay

  /** A flat set of files: the leaves of a tree, an index, or a worktree. */
  type Files = map<Path, Item>

  /** A path equals, or lies above or below, one of `files`. */
  predicate Collides(files: Files, p: Path) {
    exists q | q in files :: Related(q, p)
  }

  // ---- The tree to check out -----------------------------------------------------

  function Overlaid(code: Files, extra: Files): Files {
    map p | p in code.Keys + extra.Keys && (p in extra || !Collides(extra, p)) ::
      if p in extra then extra[p] else code[p]
  }

  /** The tree of a stream, from its `code` tree and the `extra` trees there are. */
  function CombinedOf(code: Files, extra: map<string, Files>, stream: string): Files {
    if stream in extra then Overlaid(code, extra[stream]) else code
  }

  function At(files: Files, p: Path): Option<Item> {
    if p in files then Some(files[p]) else None
  }

  ghost predicate FlatReading(files: Files, t: Tree) {
    forall q :: Get(t, q) == At(files, q)
  }

  /** The flat overlay is the flat reading of the combined tree that gets checked out. */
  lemma OverlaidIsCombined(code: Files, extra: Files, codeTree: Tree, extraTree: Tree, combined: Tree)
    requires FlatReading(code, codeTree) && FlatReading(extra, extraTree)
    requires forall q :: Get(combined, q) == Overlay.Combined(codeTree, extraTree, q)
    ensures FlatReading(Overlaid(code, extra), combined)
  {
    hide Get;
    forall q ensures Get(combined, q) == At(Overlaid(code, extra), q) {
      assert Get(codeTree, q) == At(code, q) && Get(extraTree, q) == At(extra, q);
      assert forall p :: Get(extraTree, p).Some? <==> p in extra;
      assert Collides(extra, q) <==> exists p :: Get(extraTree, p).Some? && Related(p, q);
    }
  }

  // ---- What git's steps do -------------------------------------------------------

  /** Which untracked paths `clean` leaves alone, given the whole worktree: ignored ones
      (it runs without `-x`), and those of another repository. */
  type Spared = (Files, Path) -> bool

  /** The worktree after `read-tree --reset -u`: every file of the tree, whatever was there
      before; a file of the old index that the tree has dropped goes, and so does one in
      the way of the tree; other files stay. The new index is the tree. */
  function AfterReadTree(work: Files, index: Files, tree: Files): Files {
    map p | p in tree.Keys + work.Keys && (p in tree || (p !in index && !Collides(tree, p))) ::
      if p in tree then tree[p] else work[p]
  }

  /** The worktree after `clean -d -f`. */
  function AfterClean(work: Files, index: Files, spared: Spared): Files {
    map p | p in work && (p in index || spared(work, p)) :: work[p]
  }

  /** A `read-tree` that stops half way has written or removed some paths, possibly cut
      short, and has not replaced the index. */
  ghost predicate TornRead(left: Files, work: Files, tree: Files) {
    forall p | p in left :: p in tree || (p in work && left[p] == work[p])
  }

  ghost predicate TornClean(left: Files, work: Files, index: Files, spared: Spared) {
    && (forall p | p in left :: p in work && left[p] == work[p])
    && (forall p | p in AfterClean(work, index, spared) :: p in left)
  }

  /** What an undisturbed update should leave at a path: the tree's file; else a file that was
      there, that the previous index does not list, that is not in the tree's way, and that
      `clean` spares. */
  function LeftAt(work: Files, index: Files, tree: Files, spared: Spared, p: Path): Option<Item> {
    if p in tree then At(tree, p)
    else if p !in index && !Collides(tree, p) && spared(AfterReadTree(work, index, tree), p) then At(work, p)
    else None
  }

  lemma UpdateLeavesExactly(work: Files, index: Files, tree: Files, spared: Spared, p: Path)
    ensures At(AfterClean(AfterReadTree(work, index, tree), tree, spared), p) == LeftAt(work, index, tree, spared, p)
  {
  }

  /** A file that an earlier update delivered and the new tree has dropped is gone, ignored
      or not, if the index of that update is still there; with the index lost it stays,
      if and only if `clean` spares it and the tree does not need its place. */
  lemma DroppedFileNeedsIndex(work: Files, index: Files, tree: Files, spared: Spared, p: Path)
    requires p in work && p !in tree
    ensures p in index ==> p !in AfterClean(AfterReadTree(work, index, tree), tree, spared)
    ensures p in AfterClean(AfterReadTree(work, map[], tree), tree, spared) <==>
            !Collides(tree, p) && spared(AfterReadTree(work, map[], tree), p)
  {
    UpdateLeavesExactly(work, index, tree, spared, p);
    UpdateLeavesExactly(work, map[], tree, spared, p);
  }

  // ---- Everything that can happen ------------------------------------------------

  /** How far an update has come. The tree is settled before the lock is taken. */
  datatype Phase =
    | SawCode(stream: string, code: Files)
    | Resolved(tree: Files)
    | Holding(tree: Files)
    | Read(tree: Files)
    | Cleaned(tree: Files)
    | Done(tree: Files)
    | Failed

  /** What has happened so far, beyond what is on disk: `ours` are the paths of the worktree
      whose present file a `read-tree` wrote, and `touched` says that something outside
      changed the worktree or the index since the last whole `read-tree`. */
  datatype History = History(ours: set<Path>, touched: bool)

  datatype State = State(
    code: map<string, Files>, extra: map<string, Files>,
    work: Files, index: Files, lastTree: Option<Files>,
    updates: map<nat, Phase>, lock: Option<nat>,
    history: History)

  /** Each event of an update carries that update's number. */
  datatype Event =
    | RefsMove(code: map<string, Files>, extra: map<string, Files>)
    | Edit(work: Files)
    | IndexLost
    | Start(id: nat, stream: string)
    | SeesExtra(id: nat)
    | Locks(id: nat)
    | ReadTree(id: nat)
    | ReadTreeTorn(id: nat, work: Files)
    | Clean(id: nat)
    | CleanTorn(id: nat, work: Files)
    | Finish(id: nat, recorded: bool)
    | Stops(id: nat)

  predicate InWindow(phase: Phase) {
    phase.Holding? || phase.Read? || phase.Cleaned?
  }

  ghost predicate Can(s: State, e: Event, spared: Spared) {
    match e
    case RefsMove(_, _) => true
    case Edit(_) => true
    case IndexLost => true
    case Start(id, stream) => id !in s.updates
    case SeesExtra(id) => id in s.updates && s.updates[id].SawCode?
    case Locks(id) => id in s.updates && s.updates[id].Resolved? && s.lock.None?
    case ReadTree(id) => id in s.updates && s.updates[id].Holding?
    case ReadTreeTorn(id, work) => id in s.updates && s.updates[id].Holding? &&
      TornRead(work, s.work, s.updates[id].tree)
    case Clean(id) => id in s.updates && s.updates[id].Read?
    case CleanTorn(id, work) => id in s.updates && s.updates[id].Read? && TornClean(work, s.work, s.index, spared)
    case Finish(id, _) => id in s.updates && s.updates[id].Cleaned?
    case Stops(id) => id in s.updates && !s.updates[id].Done?
  }

  function Unlocked(s: State, id: nat): Option<nat> {
    if s.lock == Some(id) then None else s.lock
  }

  /** The paths of `paths` that a change from `work` to `now` leaves as they are. */
  function Untouched(paths: set<Path>, work: Files, now: Files): set<Path> {
    set p | p in paths && p in work && p in now && now[p] == work[p]
  }

  /** A never-synced stream fails before anything is touched; any other update may stop at
      any point, by an error, a timeout or a crash, and lets go of the lock. */
  ghost function Next(s: State, e: Event, spared: Spared): State
    requires Can(s, e, spared)
  {
    var h := s.history;
    match e
    case RefsMove(code, extra) => s.(code := code, extra := extra)
    case Edit(work) =>
      s.(work := work, history := h.(
         ours := Untouched(h.ours, s.work, work), touched := true))
    case IndexLost =>
      s.(index := map[], history := h.(touched := true))
    case Start(id, stream) =>
      s.(updates := s.updates[id := if stream in s.code then SawCode(stream, s.code[stream]) else Failed])
    case SeesExtra(id) =>
      var SawCode(stream, code) := s.updates[id];
      s.(updates := s.updates[id := Resolved(CombinedOf(code, s.extra, stream))])
    case Locks(id) => s.(updates := s.updates[id := Holding(s.updates[id].tree)], lock := Some(id))
    case ReadTree(id) =>
      var tree := s.updates[id].tree;
      var work := AfterReadTree(s.work, s.index, tree);
      s.(updates := s.updates[id := Read(tree)], work := work, index := tree,
         history := h.(
           ours := tree.Keys + h.ours * work.Keys,
           touched := false))
    case ReadTreeTorn(id, work) =>
      var tree := s.updates[id].tree;
      var written := set p | p in work && p in tree && !(p in s.work && s.work[p] == work[p]);
      s.(updates := s.updates[id := Failed], work := work, lock := Unlocked(s, id),
         history := h.(
           ours := written + h.ours * work.Keys,
           touched := true))
    case Clean(id) =>
      var work := AfterClean(s.work, s.index, spared);
      s.(updates := s.updates[id := Cleaned(s.updates[id].tree)], work := work,
         history := h.(ours := h.ours * work.Keys))
    case CleanTorn(id, work) =>
      s.(updates := s.updates[id := Failed], work := work, lock := Unlocked(s, id),
         history := h.(ours := h.ours * work.Keys, touched := true))
    case Finish(id, recorded) =>
      var tree := s.updates[id].tree;
      s.(updates := s.updates[id := Done(tree)], lock := Unlocked(s, id),
         lastTree := if recorded then Some(tree) else s.lastTree)
    case Stops(id) => s.(updates := s.updates[id := Failed], lock := Unlocked(s, id))
  }

  /** A worktree no update has ever touched. */
  function Begin(code: map<string, Files>, extra: map<string, Files>, work: Files): State {
    State(code, extra, work, map[], None, map[], None, History({}, false))
  }

  // ---- What always holds ---------------------------------------------------------

  /** The lock is held by exactly the update that is between taking and releasing it. */
  ghost predicate LockGuards(s: State) {
    && (s.lock.Some? ==> s.lock.value in s.updates)
    && (forall id | id in s.updates :: InWindow(s.updates[id]) <==> s.lock == Some(id))
  }

  ghost predicate OursArePresent(s: State) {
    forall p | p in s.history.ours :: p in s.work
  }

  /** The worktree is that of `tree`, up to files that are not in its way. */
  ghost predicate Installed(s: State, tree: Files) {
    && s.index == tree
    && (forall p | p in tree :: p in s.work && s.work[p] == tree[p])
    && (forall p | p in s.work && p !in tree :: !Collides(tree, p))
  }

  ghost predicate HolderInstalls(s: State) {
    s.lock.Some? && s.lock.value in s.updates && !s.history.touched ==>
      var phase := s.updates[s.lock.value];
      phase.Read? || phase.Cleaned? ==> Installed(s, phase.tree)
  }

  ghost predicate Inv(s: State) {
    LockGuards(s) && OursArePresent(s) && HolderInstalls(s)
  }

  lemma LockGuardsKept(s: State, e: Event, spared: Spared)
    requires LockGuards(s) && Can(s, e, spared)
    ensures LockGuards(Next(s, e, spared))
  {
    hide AfterReadTree, AfterClean, Untouched, Overlaid, TornRead, TornClean;
  }

  lemma OursArePresentKept(s: State, e: Event, spared: Spared)
    requires OursArePresent(s) && Can(s, e, spared)
    ensures OursArePresent(Next(s, e, spared))
  {
    hide Overlaid, Collides;
  }

  lemma ReadTreeInstalls(s: State, id: nat, spared: Spared)
    requires LockGuards(s) && Can(s, ReadTree(id), spared)
    ensures HolderInstalls(Next(s, ReadTree(id), spared))
  {
    hide Overlaid, Collides, Untouched;
  }

  lemma CleanKeepsTree(s: State, id: nat, spared: Spared)
    requires LockGuards(s) && HolderInstalls(s) && Can(s, Clean(id), spared)
    ensures HolderInstalls(Next(s, Clean(id), spared))
  {
    hide Overlaid, Collides, Untouched, AfterReadTree;
  }

  lemma HolderInstallsKept(s: State, e: Event, spared: Spared)
    requires LockGuards(s) && HolderInstalls(s) && Can(s, e, spared)
    ensures HolderInstalls(Next(s, e, spared))
  {
    hide Overlaid, Collides, Untouched, AfterReadTree, AfterClean, TornRead, TornClean;
    match e {
      case ReadTree(id) => ReadTreeInstalls(s, id, spared);
      case Clean(id) => CleanKeepsTree(s, id, spared);
      case _ =>
    }
  }

  lemma InvKept(s: State, e: Event, spared: Spared)
    requires Inv(s) && Can(s, e, spared)
    ensures Inv(Next(s, e, spared))
  {
    hide Next, Can, LockGuards, OursArePresent, HolderInstalls;
    LockGuardsKept(s, e, spared);
    OursArePresentKept(s, e, spared);
    HolderInstallsKept(s, e, spared);
  }

  // ---- Runs ------------------------------------------------------------------------

  ghost predicate Feasible(s: State, es: seq<Event>, spared: Spared)
    decreases |es|
  {
    es == [] || (Can(s, es[0], spared) && Feasible(Next(s, es[0], spared), es[1..], spared))
  }

  ghost function After(s: State, es: seq<Event>, spared: Spared): State
    requires Feasible(s, es, spared)
    decreases |es|
  {
    if es == [] then s else After(Next(s, es[0], spared), es[1..], spared)
  }

  lemma {:induction false} InvAlongRun(s: State, es: seq<Event>, spared: Spared)
    requires Inv(s) && Feasible(s, es, spared)
    ensures Inv(After(s, es, spared))
    decreases |es|
  {
    hide Inv, Can, Next;
    if es != [] {
      InvKept(s, es[0], spared);
      InvAlongRun(Next(s, es[0], spared), es[1..], spared);
    }
  }

  lemma {:induction false} AfterConcat(s: State, a: seq<Event>, b: seq<Event>, spared: Spared)
    requires Feasible(s, a + b, spared)
    ensures Feasible(s, a, spared) && Feasible(After(s, a, spared), b, spared)
    ensures After(s, a + b, spared) == After(After(s, a, spared), b, spared)
    decreases |a|
  {
    hide Can, Next;
    if a == [] {
      assert a + b == b;
    } else {
      assert (a + b)[0] == a[0] && (a + b)[1..] == a[1..] + b;
      AfterConcat(Next(s, a[0], spared), a[1..], b, spared);
    }
  }

  /** However many updates run at once, at most one of them is between taking the lock and
      releasing it. */
  lemma MutualExclusion(code: map<string, Files>, extra: map<string, Files>, work: Files, es: seq<Event>,
                        spared: Spared, a: nat, b: nat)
    requires Feasible(Begin(code, extra, work), es, spared)
    requires var s := After(Begin(code, extra, work), es, spared);
             a in s.updates && InWindow(s.updates[a]) && b in s.updates && InWindow(s.updates[b])
    ensures a == b
  {
    hide Feasible, After, OursArePresent, HolderInstalls;
    BeginIsSound(code, extra, work);
    InvAlongRun(Begin(code, extra, work), es, spared);
  }

  /** A step of git's own on the worktree, whole or torn. */
  predicate GitStep(e: Event) {
    e.ReadTree? || e.ReadTreeTorn? || e.Clean? || e.CleanTorn?
  }

  predicate Over(phase: Phase) {
    phase.Done? || phase.Failed?
  }

  /** An update that is over stays over, and one that has resolved its tree keeps that
      tree to the end. */
  lemma PhasesAdvance(s: State, e: Event, spared: Spared, id: nat)
    requires Can(s, e, spared) && id in s.updates
    ensures id in Next(s, e, spared).updates
    ensures var was, now := s.updates[id], Next(s, e, spared).updates[id];
            && (was.Done? ==> now == was) && (was.Failed? ==> now.Failed?)
            && (now.SawCode? ==> now == was)
            && (!was.SawCode? && !was.Failed? ==> now.Failed? || (!now.SawCode? && now.tree == was.tree))
  {
    hide AfterReadTree, AfterClean, Untouched, Overlaid, TornRead, TornClean;
  }

  /** An update installs the tree it resolved, or fails; it never turns to another. */
  lemma {:induction false} ResolvedTreeIsKept(s: State, es: seq<Event>, spared: Spared, id: nat)
    requires Feasible(s, es, spared) && id in s.updates && !s.updates[id].SawCode? && !s.updates[id].Failed?
    ensures var t := After(s, es, spared);
            id in t.updates &&
            (t.updates[id].Failed? || (!t.updates[id].SawCode? && t.updates[id].tree == s.updates[id].tree))
    ensures Over(s.updates[id]) ==> After(s, es, spared).updates[id] == s.updates[id]
    decreases |es|
  {
    hide Can, Next;
    if es != [] {
      PhasesAdvance(s, es[0], spared, id);
      var t := Next(s, es[0], spared);
      if t.updates[id].Failed? {
        FailedStaysFailed(t, es[1..], spared, id);
      } else {
        ResolvedTreeIsKept(t, es[1..], spared, id);
      }
    }
  }

  lemma {:induction false} FailedStaysFailed(s: State, es: seq<Event>, spared: Spared, id: nat)
    requires Feasible(s, es, spared) && id in s.updates && s.updates[id].Failed?
    ensures id in After(s, es, spared).updates && After(s, es, spared).updates[id].Failed?
    decreases |es|
  {
    hide Can, Next;
    if es != [] {
      PhasesAdvance(s, es[0], spared, id);
      FailedStaysFailed(Next(s, es[0], spared), es[1..], spared, id);
    }
  }

  predicate Outside(e: Event) {
    e.Edit? || e.IndexLost?
  }

  lemma OneStepOfWindow(s: State, e: Event, spared: Spared, id: nat)
    requires LockGuards(s) && Can(s, e, spared) && id in s.updates && InWindow(s.updates[id])
    ensures GitStep(e) ==> e.id == id
    ensures var t := Next(s, e, spared);
            && id in t.updates && (InWindow(t.updates[id]) || Over(t.updates[id]))
            && (InWindow(t.updates[id]) && !Outside(e) && !s.history.touched ==> !t.history.touched)
  {
    hide AfterReadTree, AfterClean, Untouched, Overlaid, TornRead, TornClean;
  }

  /** From taking the lock to releasing it, every step that git takes on the worktree is
      that update's own: those of two updates never interleave. If nothing outside meddles
      after its `read-tree`, the worktree is untouched up to the release. */
  lemma {:induction false} WindowIsExclusive(s: State, es: seq<Event>, spared: Spared, id: nat)
    requires Inv(s) && Feasible(s, es, spared)
    requires id in s.updates && InWindow(s.updates[id])
    requires id in After(s, es, spared).updates && InWindow(After(s, es, spared).updates[id])
    ensures forall e | e in es && GitStep(e) :: e.id == id
    ensures !s.history.touched && (forall e | e in es :: !Outside(e)) ==> !After(s, es, spared).history.touched
    decreases |es|
  {
    hide Can, Next, LockGuards, OursArePresent, HolderInstalls;
    if es != [] {
      OneStepOfWindow(s, es[0], spared, id);
      InvKept(s, es[0], spared);
      var t := Next(s, es[0], spared);
      if Over(t.updates[id]) {
        OverStaysOver(t, es[1..], spared, id);
        assert false;
      } else {
        WindowIsExclusive(t, es[1..], spared, id);
        assert es == [es[0]] + es[1..];
      }
    }
  }

  lemma OverStaysOver(s: State, es: seq<Event>, spared: Spared, id: nat)
    requires Feasible(s, es, spared) && id in s.updates && Over(s.updates[id])
    ensures id in After(s, es, spared).updates && Over(After(s, es, spared).updates[id])
  {
    hide Can, Next;
    if s.updates[id].Failed? {
      FailedStaysFailed(s, es, spared, id);
    } else {
      ResolvedTreeIsKept(s, es, spared, id);
    }
  }

  /** A file that a `read-tree` wrote and the index does not list. */
  predicate Orphaned(s: State, p: Path) {
    p in s.history.ours && p !in s.index
  }

  ghost predicate NothingOrphaned(s: State) {
    forall p | p in s.history.ours :: p in s.index
  }

  lemma StepOrphansNothing(s: State, e: Event, spared: Spared)
    requires Can(s, e, spared) && NothingOrphaned(s) && !e.ReadTreeTorn? && !e.IndexLost?
    ensures NothingOrphaned(Next(s, e, spared))
  {
    hide AfterClean, Overlaid, TornRead, TornClean, Collides;
  }

  /** Without a torn `read-tree` and without losing the index, nothing is ever orphaned. */
  lemma {:induction false} NoOrphans(s: State, es: seq<Event>, spared: Spared)
    requires Feasible(s, es, spared) && NothingOrphaned(s)
    requires forall e | e in es :: !e.ReadTreeTorn? && !e.IndexLost?
    ensures NothingOrphaned(After(s, es, spared))
    decreases |es|
  {
    hide Can, Next, NothingOrphaned;
    if es != [] {
      assert es[0] in es && forall e | e in es[1..] :: e in es;
      StepOrphansNothing(s, es[0], spared);
      NoOrphans(Next(s, es[0], spared), es[1..], spared);
    }
  }

  /** One event between an update's `read-tree` and its release. */
  lemma QuietStep(s: State, e: Event, spared: Spared, id: nat)
    requires LockGuards(s) && Can(s, e, spared) && !Outside(e)
    requires id in s.updates && (s.updates[id].Read? || s.updates[id].Cleaned?)
    requires id in Next(s, e, spared).updates && InWindow(Next(s, e, spared).updates[id])
    ensures var t := Next(s, e, spared);
            && t.index == s.index && t.history.ours <= s.history.ours && t.updates[id].tree == s.updates[id].tree
            && (s.updates[id].Cleaned? ==> t.updates[id].Cleaned? && t.work == s.work)
            && (s.updates[id].Read? && t.updates[id].Read? ==> t.work == s.work)
            && (s.updates[id].Read? && t.updates[id].Cleaned? ==> t.work == AfterClean(s.work, s.index, spared))
            && (t.updates[id].Read? || t.updates[id].Cleaned?)
  {
    hide AfterReadTree, AfterClean, Untouched, Overlaid, TornRead, TornClean;
  }

  /** From an update's `read-tree` to its release the worktree changes by its own `clean` alone,
      if nothing outside meddles. */
  lemma {:induction false} WindowContent(s: State, es: seq<Event>, spared: Spared, id: nat)
    requires Inv(s) && Feasible(s, es, spared) && forall e | e in es :: !Outside(e)
    requires id in s.updates && (s.updates[id].Read? || s.updates[id].Cleaned?)
    requires id in After(s, es, spared).updates && After(s, es, spared).updates[id].Cleaned?
    ensures var t := After(s, es, spared);
            && t.index == s.index && t.history.ours <= s.history.ours && t.updates[id].tree == s.updates[id].tree
            && t.work == if s.updates[id].Read? then AfterClean(s.work, s.index, spared) else s.work
    decreases |es|
  {
    hide Can, Next, LockGuards, OursArePresent, HolderInstalls, AfterClean;
    if es != [] {
      assert es[0] in es && forall e | e in es[1..] :: e in es;
      OneStepOfWindow(s, es[0], spared, id);
      InvKept(s, es[0], spared);
      var t := Next(s, es[0], spared);
      if Over(t.updates[id]) {
        OverStaysOver(t, es[1..], spared, id);
        assert false;
      } else {
        QuietStep(s, es[0], spared, id);
        WindowContent(t, es[1..], spared, id);
      }
    }
  }

  /** Over every run, whatever other updates, pushes, edits and failures went before: a
      completed update that nothing outside has meddled with since its `read-tree` leaves
      exactly its own tree and, of what it found, the files outside the index it found, out of
      the tree's way and spared by `clean`. So it keeps the user's ignored files; of those that
      updates had delivered and the tree has dropped it keeps exactly the orphaned ones that
      are out of the way and spared; and if no `read-tree` was ever cut short and the index
      never lost, none. */
  lemma CompletedUpdateSettles(code: map<string, Files>, extra: map<string, Files>, work: Files,
                               before: seq<Event>, during: seq<Event>, spared: Spared, id: nat)
    requires Feasible(Begin(code, extra, work), before + ([ReadTree(id)] + during), spared)
    requires forall e | e in during :: !Outside(e)
    requires var s := After(Begin(code, extra, work), before + ([ReadTree(id)] + during), spared);
             id in s.updates && s.updates[id].Cleaned?
    ensures Feasible(Begin(code, extra, work), before, spared)
    ensures var found := After(Begin(code, extra, work), before, spared);
            var s := After(Begin(code, extra, work), before + ([ReadTree(id)] + during), spared);
            var tree := s.updates[id].tree;
            && s.index == tree
            && (forall p :: At(s.work, p) == LeftAt(found.work, found.index, tree, spared, p))
            && (forall p | p in found.history.ours && p !in tree ::
                  p in s.work <==>
                  && Orphaned(found, p) && !Collides(tree, p)
                  && spared(AfterReadTree(found.work, found.index, tree), p))
            && ((forall e | e in before :: !e.ReadTreeTorn? && !e.IndexLost?) ==>
                  forall p | p in s.work && p !in tree :: p !in s.history.ours)
  {
    hide Can, Next, Installed, LockGuards, HolderInstalls, Feasible, After, AfterReadTree, AfterClean, Collides;
    var begin := Begin(code, extra, work);
    var found, read := ReadInRun(begin, before, during, spared, id);
    var s := After(begin, before + ([ReadTree(id)] + during), spared);
    BeginIsSound(code, extra, work);
    InvAlongRun(begin, before, spared);
    InvKept(found, ReadTree(id), spared);
    ReadTreeReads(found, id, spared);
    WindowContent(read, during, spared, id);
    var tree := s.updates[id].tree;
    forall p ensures At(s.work, p) == LeftAt(found.work, found.index, tree, spared, p) {
      UpdateLeavesExactly(found.work, found.index, tree, spared, p);
    }
    forall p | p in found.history.ours && p !in tree
      ensures p in s.work <==>
              Orphaned(found, p) && !Collides(tree, p) && spared(AfterReadTree(found.work, found.index, tree), p)
    {
      assert p in found.work && At(s.work, p) == LeftAt(found.work, found.index, tree, spared, p);
    }
    if forall e | e in before :: !e.ReadTreeTorn? && !e.IndexLost? {
      NoOrphans(begin, before, spared);
      forall p | p in s.work && p !in tree ensures p !in s.history.ours {
        assert At(s.work, p) == LeftAt(found.work, found.index, tree, spared, p);
      }
    }
  }

  lemma ReadInRun(begin: State, before: seq<Event>, during: seq<Event>, spared: Spared, id: nat)
    returns (found: State, read: State)
    requires Feasible(begin, before + ([ReadTree(id)] + during), spared)
    ensures Feasible(begin, before, spared) && found == After(begin, before, spared)
    ensures Can(found, ReadTree(id), spared) && read == Next(found, ReadTree(id), spared)
    ensures Feasible(read, during, spared)
    ensures After(begin, before + ([ReadTree(id)] + during), spared) == After(read, during, spared)
  {
    hide Can, Next;
    var tail := [ReadTree(id)] + during;
    AfterConcat(begin, before, tail, spared);
    found := After(begin, before, spared);
    assert tail[0] == ReadTree(id) && tail[1..] == during;
    read := Next(found, ReadTree(id), spared);
  }

  lemma ReadTreeReads(s: State, id: nat, spared: Spared)
    requires Can(s, ReadTree(id), spared)
    ensures var t := Next(s, ReadTree(id), spared);
            && id in t.updates && t.updates[id] == Read(s.updates[id].tree)
            && t.work == AfterReadTree(s.work, s.index, s.updates[id].tree) && t.index == s.updates[id].tree
            && t.history.ours <= s.updates[id].tree.Keys + s.history.ours
  {
    hide AfterReadTree;
  }

  lemma BeginIsSound(code: map<string, Files>, extra: map<string, Files>, work: Files)
    ensures Inv(Begin(code, extra, work)) && NothingOrphaned(Begin(code, extra, work))
  {
  }

  lemma InvInstalls(s: State, id: nat)
    requires Inv(s) && id in s.updates && s.updates[id].Cleaned? && !s.history.touched
    ensures s.index == s.updates[id].tree
  {
    assert InWindow(s.updates[id]);
    assert s.lock == Some(id);
  }

  // ---- A file that outlives its delivery ---------------------------------------------

  lemma NowThen(s: State, e: Event, rest: seq<Event>, spared: Spared)
    requires Can(s, e, spared) && Feasible(Next(s, e, spared), rest, spared)
    ensures Feasible(s, [e] + rest, spared) && After(s, [e] + rest, spared) == After(Next(s, e, spared), rest, spared)
  {
    assert ([e] + rest)[1..] == rest;
  }

  /** After a first update, to a tree of one file, was cut short with that file written; the
      file is then dropped from the stream. */
  function Torn(stream: string, p: Path, item: Item): State {
    State(map[stream := map[]], map[], map[p := item], map[], None, map[0 := Failed], None, History({p}, true))
  }

  lemma TornIsReachable(stream: string, p: Path, item: Item, spared: Spared, rest: seq<Event>) returns (es: seq<Event>)
    requires Feasible(Torn(stream, p, item), rest, spared)
    ensures var begin := Begin(map[stream := map[p := item]], map[], map[]);
            Feasible(begin, es, spared) && After(begin, es, spared) == After(Torn(stream, p, item), rest, spared)
  {
    hide AfterReadTree, AfterClean, Untouched, Overlaid, TornClean, Feasible, After;
    var file: Files := map[p := item];
    var begin := Begin(map[stream := file], map[], map[]);
    var s1 := begin.(updates := map[0 := SawCode(stream, file)]);
    assert Next(begin, Start(0, stream), spared) == s1;
    var s2 := begin.(updates := map[0 := Resolved(file)]);
    assert Next(s1, SeesExtra(0), spared) == s2;
    var s3 := begin.(updates := map[0 := Holding(file)], lock := Some(0));
    assert Next(s2, Locks(0), spared) == s3;
    var s4 := begin.(work := file, updates := map[0 := Failed], history := History({p}, true));
    assert Next(s3, ReadTreeTorn(0, file), spared) == s4;
    assert Next(s4, RefsMove(map[stream := map[]], map[]), spared) == Torn(stream, p, item);
    NowThen(s4, RefsMove(map[stream := map[]], map[]), rest, spared);
    var r4 := [RefsMove(map[stream := map[]], map[])] + rest;
    NowThen(s3, ReadTreeTorn(0, file), r4, spared);
    var r3 := [ReadTreeTorn(0, file)] + r4;
    NowThen(s2, Locks(0), r3, spared);
    var r2 := [Locks(0)] + r3;
    NowThen(s1, SeesExtra(0), r2, spared);
    var r1 := [SeesExtra(0)] + r2;
    NowThen(begin, Start(0, stream), r1, spared);
    es := [Start(0, stream)] + r1;
  }

  /** The same, after a second update has read the tree that lacks the file. */
  function TornThenRead(stream: string, p: Path, item: Item): State {
    Torn(stream, p, item).(updates := map[0 := Failed, 1 := Read(map[])], lock := Some(1),
                                 history := History({p}, false))
  }

  lemma SecondCanRead(stream: string, p: Path, item: Item, spared: Spared, rest: seq<Event>) returns (es: seq<Event>)
    requires Feasible(TornThenRead(stream, p, item), rest, spared)
    ensures var begin := Begin(map[stream := map[p := item]], map[], map[]);
            Feasible(begin, es, spared) &&
            After(begin, es, spared) == After(TornThenRead(stream, p, item), rest, spared)
  {
    hide Can, Next, Feasible, After;
    var s := Torn(stream, p, item);
    SecondStarts(stream, p, item, spared);
    SecondReads(stream, p, item, spared);
    var s1 := Next(s, Start(1, stream), spared);
    var s2 := Next(s1, SeesExtra(1), spared);
    var s3 := Next(s2, Locks(1), spared);
    NowThen(s3, ReadTree(1), rest, spared);
    NowThen(s2, Locks(1), [ReadTree(1)] + rest, spared);
    NowThen(s1, SeesExtra(1), [Locks(1)] + ([ReadTree(1)] + rest), spared);
    var all := [SeesExtra(1)] + ([Locks(1)] + ([ReadTree(1)] + rest));
    NowThen(s, Start(1, stream), all, spared);
    es := TornIsReachable(stream, p, item, spared, [Start(1, stream)] + all);
  }

  /** The second update, resolved. */
  function SecondResolved(stream: string, p: Path, item: Item): State {
    Torn(stream, p, item).(updates := map[0 := Failed, 1 := Resolved(map[])])
  }

  lemma SecondStarts(stream: string, p: Path, item: Item, spared: Spared)
    ensures var s := Torn(stream, p, item);
            var s1 := Next(s, Start(1, stream), spared);
            && Can(s, Start(1, stream), spared) && Can(s1, SeesExtra(1), spared)
            && Next(s1, SeesExtra(1), spared) == SecondResolved(stream, p, item)
  {
    hide AfterReadTree, AfterClean, Untouched, Overlaid, TornClean, TornRead;
    var s, none: Files := Torn(stream, p, item), map[];
    var s1 := s.(updates := map[0 := Failed, 1 := SawCode(stream, none)]);
    assert Next(s, Start(1, stream), spared) == s1;
  }

  lemma SecondReads(stream: string, p: Path, item: Item, spared: Spared)
    ensures var s := SecondResolved(stream, p, item);
            var s1 := Next(s, Locks(1), spared);
            && Can(s, Locks(1), spared) && Can(s1, ReadTree(1), spared)
            && Next(s1, ReadTree(1), spared) == TornThenRead(stream, p, item)
  {
    hide AfterClean, Untouched, Overlaid, TornClean, TornRead;
    var file: Files, none: Files := map[p := item], map[];
    var s := SecondResolved(stream, p, item);
    var s1 := s.(updates := map[0 := Failed, 1 := Holding(none)], lock := Some(1));
    assert Next(s, Locks(1), spared) == s1;
    assert AfterReadTree(file, none, none) == file;
  }

  /** That update, which nobody disturbs, then leaves the file if and only if `clean` spares it,
      though nothing but a `read-tree` ever wrote it, and the tree lacks it. */
  lemma TornReadOrphans(stream: string, p: Path, item: Item, spared: Spared) returns (es: seq<Event>)
    ensures var begin := Begin(map[stream := map[p := item]], map[], map[]);
            && Feasible(begin, es, spared)
            && var s := After(begin, es, spared);
               && 1 in s.updates && s.updates[1] == Cleaned(map[]) && !s.history.touched
               && (p in s.work <==> spared(map[p := item], p))
               && (p in s.work ==> p in s.history.ours)
  {
    hide AfterReadTree, Untouched, Overlaid, TornClean, TornRead, Feasible, After;
    var s := TornThenRead(stream, p, item);
    var t := Next(s, Clean(1), spared);
    NothingMore(t, spared);
    NowThen(s, Clean(1), [], spared);
    es := SecondCanRead(stream, p, item, spared, [Clean(1)] + []);
  }

  lemma NothingMore(s: State, spared: Spared)
    ensures Feasible(s, [], spared) && After(s, [], spared) == s
  {
  }

  // ---- Which tree gets installed ----------------------------------------------------

  lemma {:induction false} SawCodeIsKept(s: State, es: seq<Event>, spared: Spared, id: nat)
    requires Feasible(s, es, spared) && id in s.updates
    ensures id in After(s, es, spared).updates
    ensures After(s, es, spared).updates[id].SawCode? ==> After(s, es, spared).updates[id] == s.updates[id]
    decreases |es|
  {
    hide Can, Next;
    if es != [] {
      PhasesAdvance(s, es[0], spared, id);
      SawCodeIsKept(Next(s, es[0], spared), es[1..], spared, id);
    }
  }

  /** The events of one update: it reads `code`, then `extra`, and other things go on before,
      between and after. */
  function Reading(a: seq<Event>, id: nat, stream: string, b: seq<Event>, c: seq<Event>): seq<Event> {
    a + ([Start(id, stream)] + (b + ([SeesExtra(id)] + c)))
  }

  /** The states in which it reads the two. */
  lemma ReadingStates(s: State, a: seq<Event>, id: nat, stream: string, b: seq<Event>, c: seq<Event>, spared: Spared)
    returns (atCode: State, atExtra: State)
    requires Feasible(s, Reading(a, id, stream, b, c), spared)
    ensures Feasible(s, a, spared) && atCode == After(s, a, spared)
    ensures Feasible(s, a + ([Start(id, stream)] + b), spared)
    ensures atExtra == After(s, a + ([Start(id, stream)] + b), spared)
    ensures Can(atCode, Start(id, stream), spared) && Feasible(Next(atCode, Start(id, stream), spared), b, spared)
    ensures atExtra == After(Next(atCode, Start(id, stream), spared), b, spared)
    ensures Can(atExtra, SeesExtra(id), spared) && Feasible(Next(atExtra, SeesExtra(id), spared), c, spared)
    ensures After(s, Reading(a, id, stream, b, c), spared) == After(Next(atExtra, SeesExtra(id), spared), c, spared)
  {
    hide Can, Next;
    var upTo, tail := a + ([Start(id, stream)] + b), [SeesExtra(id)] + c;
    assert Reading(a, id, stream, b, c) == upTo + tail;
    AfterConcat(s, upTo, tail, spared);
    AfterConcat(s, a, [Start(id, stream)] + b, spared);
    atCode, atExtra := After(s, a, spared), After(s, upTo, spared);
    assert ([Start(id, stream)] + b)[1..] == b && tail[1..] == c;
  }

  /** What a completed update has installed is the tree that its stream's refs made when it
      read them: its `code` when it started and its `extra` when it looked at that. So it is
      the newest tree if and only if the refs of its stream make that tree now, and it is
      whenever no ref has moved since it started. */
  lemma InstalledIsNewestExactly(s: State, a: seq<Event>, id: nat, stream: string, b: seq<Event>, c: seq<Event>,
                                 spared: Spared)
    requires Inv(s) && Feasible(s, Reading(a, id, stream, b, c), spared)
    requires var t := After(s, Reading(a, id, stream, b, c), spared);
             id in t.updates && t.updates[id].Cleaned? && !t.history.touched && stream in t.code
    ensures Feasible(s, a, spared) && stream in After(s, a, spared).code
    ensures Feasible(s, a + ([Start(id, stream)] + b), spared)
    ensures var t := After(s, Reading(a, id, stream, b, c), spared);
            var code := After(s, a, spared).code[stream];
            var read := CombinedOf(code, After(s, a + ([Start(id, stream)] + b), spared).extra, stream);
            && t.index == read
            && (t.index == CombinedOf(t.code[stream], t.extra, stream) <==>
                  read == CombinedOf(t.code[stream], t.extra, stream))
            && ((forall e | e in b + c :: !e.RefsMove?) ==> t.index == CombinedOf(t.code[stream], t.extra, stream))
  {
    hide Feasible, After, Reading, CombinedOf, Can, Next, OursArePresent, HolderInstalls, LockGuards;
    var t := After(s, Reading(a, id, stream, b, c), spared);
    var atCode, atExtra := ReadingStates(s, a, id, stream, b, c, spared);
    var started, seen := Next(atCode, Start(id, stream), spared), Next(atExtra, SeesExtra(id), spared);
    StartsAndSees(atCode, atExtra, id, stream, spared);
    SawCodeIsKept(started, b, spared, id);
    if !started.updates[id].SawCode? {
      assert false;
    }
    ResolvedTreeIsKept(seen, c, spared, id);
    InvAlongRun(s, Reading(a, id, stream, b, c), spared);
    InvInstalls(t, id);
    if forall e | e in b + c :: !e.RefsMove? {
      assert forall e | e in b :: e in b + c;
      assert forall e | e in c :: e in b + c;
      RefsStay(started, b, spared);
      RefsStay(seen, c, spared);
    }
  }

  lemma StartsAndSees(atCode: State, atExtra: State, id: nat, stream: string, spared: Spared)
    requires Can(atCode, Start(id, stream), spared) && Can(atExtra, SeesExtra(id), spared)
    ensures var started := Next(atCode, Start(id, stream), spared);
            && id in started.updates && started.code == atCode.code && started.extra == atCode.extra
            && started.updates[id] == if stream in atCode.code then SawCode(stream, atCode.code[stream]) else Failed
    ensures id in atExtra.updates && atExtra.updates[id].SawCode?
    ensures var seen := Next(atExtra, SeesExtra(id), spared);
            && id in seen.updates && seen.code == atExtra.code && seen.extra == atExtra.extra
            && seen.updates[id] ==
                   Resolved(CombinedOf(atExtra.updates[id].code, atExtra.extra, atExtra.updates[id].stream))
  {
    hide CombinedOf;
  }

  lemma RefsStayOnce(s: State, e: Event, spared: Spared)
    requires Can(s, e, spared) && !e.RefsMove?
    ensures Next(s, e, spared).code == s.code && Next(s, e, spared).extra == s.extra
  {
    hide AfterReadTree, AfterClean, Untouched, Overlaid, TornRead, TornClean;
  }

  lemma {:induction false} RefsStay(s: State, es: seq<Event>, spared: Spared)
    requires Feasible(s, es, spared) && forall e | e in es :: !e.RefsMove?
    ensures After(s, es, spared).code == s.code && After(s, es, spared).extra == s.extra
    decreases |es|
  {
    hide Can, Next;
    if es != [] {
      RefsStayOnce(s, es[0], spared);
      assert forall e | e in es[1..] :: e in es;
      RefsStay(Next(s, es[0], spared), es[1..], spared);
    }
  }

  /** The steps from the lock to its release. */
  function Installing(id: nat): seq<Event> {
    [Locks(id)] + ([ReadTree(id)] + ([Clean(id)] + ([Finish(id, true)] + [])))
  }

  /** An update that has resolved its tree can install that tree whenever the lock is free,
      whatever the refs are. */
  lemma ResolvedTreeCanBeInstalled(s: State, spared: Spared, id: nat)
    requires Inv(s) && s.lock.None? && id in s.updates && s.updates[id].Resolved?
    ensures Feasible(s, Installing(id), spared)
    ensures var t := After(s, Installing(id), spared);
            && t.index == s.updates[id].tree && t.lastTree == Some(s.updates[id].tree)
            && t.code == s.code && t.extra == s.extra && t.lock.None?
            && t.updates == s.updates[id := Done(s.updates[id].tree)]
  {
    hide AfterReadTree, AfterClean, Untouched, Overlaid;
    var s1 := Next(s, Locks(id), spared);
    var s2 := Next(s1, ReadTree(id), spared);
    var s3 := Next(s2, Clean(id), spared);
    NowThen(s3, Finish(id, true), [], spared);
    NowThen(s2, Clean(id), [Finish(id, true)] + [], spared);
    NowThen(s1, ReadTree(id), [Clean(id)] + ([Finish(id, true)] + []), spared);
    NowThen(s, Locks(id), [ReadTree(id)] + ([Clean(id)] + ([Finish(id, true)] + [])), spared);
  }

  /** The refs as two updates of one stream see them, with a push between. */
  function TwoResolve(stream: string, newer: Files): seq<Event> {
    [Start(0, stream)] + ([SeesExtra(0)] + (
      [RefsMove(map[stream := newer], map[])] + ([Start(1, stream)] + ([SeesExtra(1)] + []))))
  }

  lemma TwoHaveResolved(stream: string, older: Files, newer: Files, work: Files, spared: Spared)
    ensures var s := Begin(map[stream := older], map[], work);
            && Feasible(s, TwoResolve(stream, newer), spared)
            && After(s, TwoResolve(stream, newer), spared) ==
               s.(code := map[stream := newer], updates := map[0 := Resolved(older), 1 := Resolved(newer)])
  {
    hide AfterReadTree, AfterClean, Untouched, Overlaid;
    var s := Begin(map[stream := older], map[], work);
    var s1 := s.(updates := map[0 := SawCode(stream, older)]);
    assert Next(s, Start(0, stream), spared) == s1;
    var s2 := s.(updates := map[0 := Resolved(older)]);
    assert Next(s1, SeesExtra(0), spared) == s2;
    var s3 := s2.(code := map[stream := newer]);
    assert Next(s2, RefsMove(map[stream := newer], map[]), spared) == s3;
    var s4 := s3.(updates := map[0 := Resolved(older), 1 := SawCode(stream, newer)]);
    assert Next(s3, Start(1, stream), spared) == s4;
    var s5 := s3.(updates := map[0 := Resolved(older), 1 := Resolved(newer)]);
    assert Next(s4, SeesExtra(1), spared) == s5;
    NowThen(s4, SeesExtra(1), [], spared);
    NowThen(s3, Start(1, stream), [SeesExtra(1)] + [], spared);
    NowThen(s2, RefsMove(map[stream := newer], map[]), [Start(1, stream)] + ([SeesExtra(1)] + []), spared);
    var rest := [RefsMove(map[stream := newer], map[])] + ([Start(1, stream)] + ([SeesExtra(1)] + []));
    NowThen(s1, SeesExtra(0), rest, spared);
    NowThen(s, Start(0, stream), [SeesExtra(0)] + rest, spared);
  }

  lemma {:induction false} RunThenRun(s: State, a: seq<Event>, b: seq<Event>, spared: Spared)
    requires Feasible(s, a, spared) && Feasible(After(s, a, spared), b, spared)
    ensures Feasible(s, a + b, spared) && After(s, a + b, spared) == After(After(s, a, spared), b, spared)
    decreases |a|
  {
    hide Can, Next;
    if a == [] {
      assert a + b == b;
    } else {
      assert (a + b)[0] == a[0] && (a + b)[1..] == a[1..] + b;
      RunThenRun(Next(s, a[0], spared), a[1..], b, spared);
    }
  }

  /** An update can replace the newest tree, already installed, by an older one: it had read
      the refs before they moved, and got the lock last. */
  lemma OlderTreeReplacesNewer(stream: string, older: Files, newer: Files, work: Files, spared: Spared)
    ensures var s := Begin(map[stream := older], map[], work);
            var es := TwoResolve(stream, newer) + Installing(1);
            && Feasible(s, es, spared) && After(s, es, spared).index == newer
            && Feasible(s, es + Installing(0), spared)
            && var t := After(s, es + Installing(0), spared);
               && stream in t.code && CombinedOf(t.code[stream], t.extra, stream) == newer
               && t.index == older && 0 in t.updates && t.updates[0] == Done(older)
  {
    hide Feasible, After, Next, Can, TwoResolve, Installing, LockGuards, OursArePresent, HolderInstalls;
    var s := Begin(map[stream := older], map[], work);
    BeginIsSound(map[stream := older], map[], work);
    TwoHaveResolved(stream, older, newer, work, spared);
    InvAlongRun(s, TwoResolve(stream, newer), spared);
    var u := After(s, TwoResolve(stream, newer), spared);
    ResolvedTreeCanBeInstalled(u, spared, 1);
    InvAlongRun(u, Installing(1), spared);
    RunThenRun(s, TwoResolve(stream, newer), Installing(1), spared);
    var v := After(u, Installing(1), spared);
    ResolvedTreeCanBeInstalled(v, spared, 0);
    RunThenRun(s, TwoResolve(stream, newer) + Installing(1), Installing(0), spared);
  }

  // ---- What the record says ----------------------------------------------------------

  predicate SetsIndex(e: Event) {
    e.ReadTree? || e.IndexLost?
  }

  predicate SetsRecord(e: Event) {
    e.Finish? && e.recorded
  }

  /** Where in a run the index was last written or lost. */
  function LastIndexing(es: seq<Event>): (r: Option<nat>)
    ensures r.Some? ==> r.value < |es| && SetsIndex(es[r.value])
  {
    if es == [] then None
    else if SetsIndex(es[|es| - 1]) then Some(|es| - 1)
    else LastIndexing(es[..|es| - 1])
  }

  /** Where in a run `last-tree` was last written. */
  function LastRecording(es: seq<Event>): (r: Option<nat>)
    ensures r.Some? ==> r.value < |es| && SetsRecord(es[r.value])
  {
    if es == [] then None
    else if SetsRecord(es[|es| - 1]) then Some(|es| - 1)
    else LastRecording(es[..|es| - 1])
  }

  lemma StepAt(s: State, es: seq<Event>, spared: Spared, k: nat)
    requires Feasible(s, es, spared) && k < |es|
    ensures Feasible(s, es[..k], spared) && Can(After(s, es[..k], spared), es[k], spared)
  {
    hide Can, Next;
    assert es == es[..k] + es[k..];
    AfterConcat(s, es[..k], es[k..], spared);
  }

  /** The tree of the update whose step stands at `k`. */
  ghost function TreeAt(s: State, es: seq<Event>, spared: Spared, k: nat): Files
    requires Feasible(s, es, spared) && k < |es| && (es[k].ReadTree? || es[k].Finish?)
  {
    StepAt(s, es, spared, k);
    After(s, es[..k], spared).updates[es[k].id].tree
  }

  /** The tree that the index is of, from a run's events: nothing once it is lost. */
  ghost function IndexedTree(s: State, es: seq<Event>, spared: Spared): Files
    requires Feasible(s, es, spared)
  {
    match LastIndexing(es)
    case None => s.index
    case Some(k) => if es[k].ReadTree? then TreeAt(s, es, spared, k) else map[]
  }

  ghost function RecordedTree(s: State, es: seq<Event>, spared: Spared): Option<Files>
    requires Feasible(s, es, spared)
  {
    match LastRecording(es)
    case None => s.lastTree
    case Some(k) => Some(TreeAt(s, es, spared, k))
  }

  lemma StepOfRecord(s: State, e: Event, spared: Spared)
    requires Can(s, e, spared)
    ensures Next(s, e, spared).index ==
            if e.ReadTree? then s.updates[e.id].tree else if e.IndexLost? then map[] else s.index
    ensures Next(s, e, spared).lastTree == if SetsRecord(e) then Some(s.updates[e.id].tree) else s.lastTree
  {
    hide AfterReadTree, AfterClean, Untouched, Overlaid, TornRead, TornClean;
  }

  lemma {:induction false} RunSetsIndexAndRecord(s: State, es: seq<Event>, spared: Spared)
    requires Feasible(s, es, spared)
    ensures After(s, es, spared).index == IndexedTree(s, es, spared)
    ensures After(s, es, spared).lastTree == RecordedTree(s, es, spared)
    decreases |es|
  {
    hide Can, Next;
    if es != [] {
      var init, last := es[..|es| - 1], es[|es| - 1];
      assert es == init + [last];
      AfterConcat(s, init, [last], spared);
      var t := After(s, init, spared);
      assert [last][0] == last && [last][1..] == [];
      StepOfRecord(t, last, spared);
      RunSetsIndexAndRecord(s, init, spared);
      assert forall k: nat | k < |init| :: es[..k] == init[..k];
    }
  }

  /** When `last-tree` tells the truth. Over every run from a fresh worktree, what it names is
      the tree of the index if and only if the last whole `read-tree` was of the tree that
      was last recorded; or, if the index was lost since (or never written), if and only if
      the recorded tree is empty. */
  lemma RecordIsTrueExactly(code: map<string, Files>, extra: map<string, Files>, work: Files, es: seq<Event>,
                            spared: Spared)
    requires Feasible(Begin(code, extra, work), es, spared)
    ensures var s := Begin(code, extra, work);
            var t := After(s, es, spared);
            var i, j := LastIndexing(es), LastRecording(es);
            && (t.lastTree.Some? <==> j.Some?)
            && (j.Some? && i.Some? && es[i.value].ReadTree? ==>
                  (t.index == t.lastTree.value <==> TreeAt(s, es, spared, i.value) == TreeAt(s, es, spared, j.value)))
            && (j.Some? && (i.None? || es[i.value].IndexLost?) ==>
                  (t.index == t.lastTree.value <==> TreeAt(s, es, spared, j.value) == map[]))
  {
    hide Feasible, After, Can, Next, TreeAt;
    RunSetsIndexAndRecord(Begin(code, extra, work), es, spared);
  }

  /** An update that fails between its `read-tree` and recording breaks it: a later update to
      the recorded tree is told that nothing changed, with another tree checked out. */
  lemma FailureAfterReadTreeMisleads(s: State, spared: Spared, id: nat)
    requires Inv(s) && s.lock.None? && id in s.updates && s.updates[id].Resolved?
    requires s.lastTree.Some? && s.lastTree.value != s.updates[id].tree
    ensures var es := [Locks(id), ReadTree(id), Stops(id)];
            && Feasible(s, es, spared)
            && var t := After(s, es, spared);
               t.lock.None? && t.lastTree == s.lastTree && t.index == s.updates[id].tree && t.index != t.lastTree.value
  {
    hide AfterReadTree, AfterClean, Untouched, Overlaid;
    var s1 := Next(s, Locks(id), spared);
    var s2 := Next(s1, ReadTree(id), spared);
    NowThen(s2, Stops(id), [], spared);
    NowThen(s1, ReadTree(id), [Stops(id)], spared);
    NowThen(s, Locks(id), [ReadTree(id), Stops(id)], spared);
  }

  /** A run from a fresh worktree that gets there: the newer tree is installed and recorded, and
      an update to the older one fails after its `read-tree`. */
  lemma FailedUpdateMisleads(stream: string, older: Files, newer: Files, work: Files, spared: Spared)
    returns (es: seq<Event>)
    requires older != newer
    ensures var s := Begin(map[stream := older], map[], work);
            && Feasible(s, es, spared)
            && var t := After(s, es, spared);
               t.lock.None? && t.lastTree == Some(newer) && t.index == older
  {
    hide Feasible, After, Next, Can, TwoResolve, Installing, LockGuards, OursArePresent, HolderInstalls;
    var s := Begin(map[stream := older], map[], work);
    BeginIsSound(map[stream := older], map[], work);
    TwoHaveResolved(stream, older, newer, work, spared);
    InvAlongRun(s, TwoResolve(stream, newer), spared);
    var u := After(s, TwoResolve(stream, newer), spared);
    ResolvedTreeCanBeInstalled(u, spared, 1);
    InvAlongRun(u, Installing(1), spared);
    RunThenRun(s, TwoResolve(stream, newer), Installing(1), spared);
    var v := After(u, Installing(1), spared);
    FailureAfterReadTreeMisleads(v, spared, 0);
    var last := [Locks(0), ReadTree(0), Stops(0)];
    RunThenRun(s, TwoResolve(stream, newer) + Installing(1), last, spared);
    es := TwoResolve(stream, newer) + Installing(1) + last;
  }
}
