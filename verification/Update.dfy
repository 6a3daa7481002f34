/** One worktree update as a single process carries it out: taking the lock, and the steps
    under it. */
module Update {
  import opened Options
  import opened Trees
  import opened Worktree

  // ---- The lock ------------------------------------------------------------------

  /** How long to wait for the lock; times are in nanoseconds. */
  datatype LockMode = FailFast | Wait(timeout: Option<nat>)

  /** What one try of the lock reports. */
  datatype Try = Acquired | WouldBlock | Errored

  datatype LockError = WorktreeBusy | LockTimeout | LockFailed

  const POLL := 100_000_000

  function Min(a: nat, b: nat): nat {
    if a < b then a else b
  }

  /** A blocking call answers only when the lock is free, or with an error. */
  predicate Answers(t: Try) {
    !t.WouldBlock?
  }

  /** Take the worktree's lock. `outcome(k)` is what try `k` reports and `lag(k)` how far the
      clock has run on when it is read after it, `oversleep(k)` by how much more than asked
      the sleep after it lasts, and `blocking` is what a blocking call does. */
  method AcquireWorktreeLock(mode: LockMode, start: nat, outcome: nat -> Try, blocking: Try,
                             lag: nat -> nat, oversleep: nat -> nat)
    returns (r: Result<(), LockError>, tries: nat, now: nat)
    requires Answers(blocking)
    ensures mode.FailFast? ==> tries == 1 && now == start && (r == Err(WorktreeBusy) <==> outcome(0).WouldBlock?)
    ensures mode == Wait(None) ==> (r.Ok? <==> blocking.Acquired?) && (r == Err(LockFailed) <==> blocking.Errored?)
    // Whenever the lock is polled: a try comes first, every try but the last found the lock
    // taken, and the answer is the last one's.
    ensures mode != Wait(None) ==>
              && tries >= 1 && (forall k | 0 <= k < tries - 1 :: outcome(k).WouldBlock?)
              && (r.Ok? <==> outcome(tries - 1).Acquired?) && (r == Err(LockFailed) <==> outcome(tries - 1).Errored?)
    // A timed wait gives up only when the clock, read after a failed try, has reached the
    // deadline (the try itself may have begun before it), and within a number of tries
    // set by its length alone.
    ensures mode.Wait? && mode.timeout.Some? ==>
              && (r == Err(LockTimeout) <==> outcome(tries - 1).WouldBlock?)
              && (r == Err(LockTimeout) ==> now >= start + mode.timeout.value)
              && tries <= mode.timeout.value / POLL + 2
    // It does not sleep before the first try, nor past the deadline.
    ensures mode != Wait(None) ==>
              && (tries == 1 ==> now == start || (outcome(0).WouldBlock? && now == start + lag(0)))
              && (mode.Wait? && (forall k :: oversleep(k) == 0) && (forall k :: lag(k) == 0) ==>
                    now <= start + mode.timeout.value)
  {
    match mode {
      case FailFast =>
        tries, now := 1, start;
        match outcome(0) {
          case Acquired => r := Ok(());
          case WouldBlock => r := Err(WorktreeBusy);
          case Errored => r := Err(LockFailed);
        }
      case Wait(None) =>
        tries, now := 1, start;
        r := if blocking.Acquired? then Ok(()) else Err(LockFailed);
      case Wait(Some(timeout)) =>
        var deadline := start + timeout;
        tries, now := 0, start;
        while true
          invariant forall k | 0 <= k < tries :: outcome(k).WouldBlock?
          invariant now >= Min(deadline, start + tries * POLL)
          invariant tries == 0 ==> now == start
          invariant (forall k :: oversleep(k) == 0) && (forall k :: lag(k) == 0) ==> now <= deadline
          invariant tries == 0 || start + (tries - 1) * POLL < deadline
          decreases if now < deadline then deadline - now else 0, if tries == 0 || now < deadline then 1 else 0
        {
          match outcome(tries) {
            case Acquired =>
              tries := tries + 1;
              TriesAreBounded(tries, timeout);
              return Ok(()), tries, now;
            case WouldBlock =>
              now := now + lag(tries);
              tries := tries + 1;
              if now >= deadline {
                TriesAreBounded(tries, timeout);
                return Err(LockTimeout), tries, now;
              }
              now := now + Min(POLL, deadline - now) + oversleep(tries - 1);
            case Errored =>
              tries := tries + 1;
              TriesAreBounded(tries, timeout);
              return Err(LockFailed), tries, now;
          }
        }
    }
  }

  lemma TriesAreBounded(tries: nat, timeout: nat)
    requires tries >= 1 && (tries == 1 || (tries - 2) * POLL < timeout)
    ensures tries <= timeout / POLL + 2
  {
    if tries >= 2 { assert (tries - 2) <= timeout / POLL; }
  }

  // ---- The update ----------------------------------------------------------------

  /** Whether one of git's steps completed, or what it left behind when it did not. */
  datatype Step = Completed | Broke(left: Files)

  datatype UpdateError = MissingCodeRef | LockNotTaken(error: LockError) | StepFailed

  datatype Report = Report(tree: Files, treeUnchanged: bool)

  /** `tree` holds all of `extra`, and what of `code` is not at, above or below it. */
  ghost predicate Combines(tree: Files, code: Files, extra: Files) {
    forall p :: At(tree, p) == if p in extra then At(extra, p) else if Collides(extra, p) then None else At(code, p)
  }

  /** `now` holds all of `tree`, and else exactly the files that were there, outside the
      previous index, out of the tree's way, and spared by `clean`. */
  ghost predicate LeftBy(now: Files, tree: Files, before: Files, listed: Files, spared: Spared) {
    forall p :: At(now, p) == LeftAt(before, listed, tree, spared, p)
  }

  lemma TreeCombines(code: Files, extra: Files)
    ensures Combines(Overlaid(code, extra), code, extra)
    ensures extra == map[] ==> Combines(code, code, extra)
  {
    hide Related;
  }

  lemma UpdateLeaves(work: Files, index: Files, tree: Files, spared: Spared)
    ensures LeftBy(AfterClean(AfterReadTree(work, index, tree), tree, spared), tree, work, index, spared)
  {
    hide AfterReadTree, AfterClean, LeftAt;
    forall p { UpdateLeavesExactly(work, index, tree, spared, p); }
  }

  class Checkout {
    var work: Files
    var index: Files
    var lastTree: Option<Files>

    constructor (work: Files)
      ensures this.work == work && index == map[] && lastTree == None
    {
      this.work, index, lastTree := work, map[], None;
    }

    /** Update the worktree to `stream`'s tree, given how each step outside this process
        turns out. */
    method UpdateWorktree(code: map<string, Files>, extra: map<string, Files>, stream: string, spared: Spared,
                          lock: Result<(), LockError>, readTree: Step, clean: Step, recorded: bool)
      returns (r: Result<Report, UpdateError>)
      modifies this
      // Before the lock is taken, nothing is touched.
      ensures r == Err(MissingCodeRef) <==> stream !in code
      ensures stream in code ==> ((exists e :: r == Err(LockNotTaken(e))) <==> lock.Err?)
      ensures stream !in code || lock.Err? ==> unchanged(this)
      // A failed step leaves the record as it was, and the index too unless it was `clean`
      // that failed.
      ensures r == Err(StepFailed) ==> lastTree == old(lastTree)
      ensures r == Err(StepFailed) && readTree.Broke? ==> index == old(index) && work == readTree.left
      ensures r == Err(StepFailed) && readTree.Completed? ==>
                && clean.Broke? && work == clean.left
                && stream in code && Combines(index, code[stream], if stream in extra then extra[stream] else map[])
      // A completed update leaves the tree, and nothing else but files that were there,
      // outside the previous index, out of the tree's way and spared by `clean`.
      ensures r.Ok? <==> stream in code && lock.Ok? && readTree.Completed? && clean.Completed?
      ensures r.Ok? ==>
                var tree := r.value.tree;
                && index == tree && (recorded ==> lastTree == Some(tree)) && (!recorded ==> lastTree == old(lastTree))
                && (r.value.treeUnchanged <==> old(lastTree) == Some(tree))
                && Combines(tree, code[stream], if stream in extra then extra[stream] else map[])
                && LeftBy(work, tree, old(work), old(index), spared)
    {
      hide AfterReadTree, AfterClean, Overlaid, Combines, LeftBy;
      if stream !in code { return Err(MissingCodeRef); }
      var tree := CombinedOf(code[stream], extra, stream);
      if lock.Err? { return Err(LockNotTaken(lock.error)); }
      var treeUnchanged := lastTree == Some(tree);
      if readTree.Broke? {
        work := readTree.left;
        return Err(StepFailed);
      }
      TreeCombines(code[stream], if stream in extra then extra[stream] else map[]);
      UpdateLeaves(work, index, tree, spared);
      work, index := AfterReadTree(work, index, tree), tree;
      if clean.Broke? {
        work := clean.left;
        return Err(StepFailed);
      }
      work := AfterClean(work, index, spared);
      if recorded { lastTree := Some(tree); }
      r := Ok(Report(tree, treeUnchanged));
    }
  }
}
