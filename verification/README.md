# git-full-send, modelled and proved

`git-full-send` syncs a developer's working state to a remote worktree through Git. A client
encodes two trees, `code` (the index overlaid with what is on disk) and `extra` (force-included
files that Git ignores), pushes each to a server under the refs of a stream, and pins what has
arrived; the server overlays `extra` onto `code` and checks the result out. This project models
the parts of it that carry an argument, and proves the argument.

## What is modelled

- **Selection** (`Paths`, `Glob`, `Rules`, `Walk`, `Select`): layered gitignore-style patterns
  with a concrete matcher (gitignore(5), section "PATTERN FORMAT"), the walk that carries included
  or excluded state down the tree, and its prune. The walk is proved to select a reference set
  that mentions neither walk nor prune.
- **pkt-lines** (`PktLine`, `Auth`, `Probe`): the resumable splitter of a receive-pack stream, the
  authentication preamble, and the probe's second reader of the same framing
  (gitprotocol-common(5), section "pkt-line Format"). A byte on the wire is a character below 256.
- **One push** (`Push`): `git`, two pumps, the peer and the main thread as a transition system. A
  server's connection handler has the same shape, and the two ends are put together.
- **Trees** (`Trees`, `Overlay`, `Encode`): nested trees with a path editor, proved against their
  flat reading; the overlay of `extra` onto `code`; the encoding of a status report.
- **Worktree updates** (`Worktree`, `Update`): any number of updates of one worktree, with pushes,
  outside edits, torn steps and a lost index, as a transition system; the lock's waiting loop and
  a single update as methods.
- **The sync protocol** (`SyncProtocol`): encode, push and retain for both chains with failure or a
  lost acknowledgement at any step.
- **Serving** (`AcceptLoop`): the bounded, draining accept loop.
- **Streams** (`Refs`): ref names, forgetting and reaping.
- **Metrics** (`Metrics`): aggregating the sink.

A class stands where the source keeps fields and changes them; its methods are specified by
functions of the old state, and the lemmas are about those functions. A system of threads or
processes is a transition relation with an invariant, lifted to all runs. Where a parameter named
`valid`, `spared`, `decode`, `lock` or the like appears, it stands for something outside the
program, and every statement holds for all of them.

## What the code does not guarantee

Each of these is a lemma with its exact condition or a run that shows it.

- The encoded tree depends on the order of the status pass when a tracked file has been replaced
  by a directory with files in it: a removal that comes last takes them along
  (`Encode.ReplacedByDirectory`, `Encode.EncodedTreeIsExpected`).
- Encoding fails outright when a path to overlay is not on disk (`Encode.Encode`), such as a
  conflicted path that was deleted.
- A pin can name a commit the server never got, and the next `extra` commit be parented on it, when
  two syncs of one stream overlap (`SyncProtocol.OverlappingSyncsPinUnsent`,
  `SyncProtocol.CodePinIsSoundExactly`, `SyncProtocol.ExtraPinIsSoundExactly`).
- The same happens, with no overlap at all, when a stream named `<id>/sent` is synced from the
  repository that syncs `<id>`: its refs are the pins of `<id>` (`SyncProtocol.PinsHoldExactly`,
  `SyncProtocol.SentStreamBreaksPins`). It is the only such clash.
- Once the client's outbound pump has failed, nothing drains the socketpair that `git` writes
  into, while the main thread waits for `git`: a `git` with more to write than there is room for
  never finishes (`Push.PushReturnsExactly`, `Push.PushCanHang`).
- Once `git` is gone, joining the outbound pump waits for ever if the peer has stopped reading and
  more is left than the connection takes: the writes have no deadline
  (`Push.TeardownReturnsExactly`, `Push.TeardownCanHang`).
- An update installs the tree it resolved before taking the lock, which can replace a newer one
  (`Worktree.OlderTreeReplacesNewer`, `Worktree.InstalledIsNewestExactly`).
- An ignored file that an update delivered outlives its removal from `extra` if the index was lost
  (`Worktree.DroppedFileNeedsIndex`) or a `read-tree` was cut short (`Worktree.TornReadOrphans`), if
  `clean` spares it and nothing needs its place (`Worktree.CompletedUpdateSettles`).
- `tree_unchanged` can be true of a tree that is not checked out, after an update failed between
  `read-tree` and recording (`Worktree.RecordIsTrueExactly`, `Worktree.FailedUpdateMisleads`).
- Forgetting or reaping `feature` also takes the refs of `feature/foo`, however fresh; and a dry run
  then counts them twice (`Refs.KeptExactly`, `Refs.DryRunIsAccurateExactly`).
- The probe and the splitter part at a header cut off by the end of the stream, and at a special
  packet or refusal that more bytes follow (`Probe.ReadersAgreeExactly`).
- Fields of one metrics record can collide when a key has a dot, or when a key of the record itself
  is empty (`Metrics.FieldsDistinctExactly`, `Metrics.DottedKeysCollide`, `Metrics.EmptyKeysCollide`).

The header comment of `select.rs` says in one place that the walk always descends and in another
that it prunes; the model follows the code, which prunes.

## Model

| member | source | states |
|---|---|---|
| `Paths.SplitRelOf` | crates/client/src/select.rs:457-466 | Splitting a path at its slashes gives back exactly the names the walk joined it from, so the prune compares true segments. |
| `Paths.RelOfInjective` | crates/client/src/select.rs:577-586 | Two different directory entries never get the same repo-relative path. |
| `Paths.SplitPrefix` | crates/client/src/select.rs:546-559 | A literal head that ends at a slash of the path is a prefix of it segment by segment. |
| `Glob.DisplayTellsApart` | crates/client/src/select.rs:485-491 | Patterns read from any two lines, both negated or neither, print alike if and only if they are the same pattern, so the distinct unanchored patterns may be counted by how they print. |
| `Glob.LiteralHead` | crates/client/src/select.rs:543-552 | Whatever a wildcard pattern matches starts with the bytes before its first wildcard, for every pattern and text, `**` and brackets included. |
| `Rules.LayersActAsOneList` | crates/client/src/select.rs:277-307 | The layers `[project, user, extra...]` decide every path as one list in which the last match wins. |
| `Rules.MatchLiesUnderPrefix` | crates/client/src/select.rs:534-565 | A path that an anchored pattern matches lies under that pattern's literal prefix, segment by segment; this is the law the prune rests on. |
| `Rules.NotePattern` | crates/client/src/select.rs:478-494 | One pattern adds its prefix, or its one display form and the exhaustive flag, or nothing when it is negative; what was recorded before stays. |
| `Rules.NoteLayer` | crates/client/src/select.rs:478-494 | The same for a whole layer in order. |
| `Rules.BuildPruneInfo` | crates/client/src/select.rs:471-521 | Every positive pattern is covered, by its prefix or by giving up pruning; the count is that of the distinct unanchored positive patterns, and it is positive exactly when pruning is off. |
| `Rules.PruneIsSound` | crates/client/src/select.rs:435-466 | What was recorded covers every positive pattern. |
| `Rules.PruneDecidesExactly` | crates/client/src/select.rs:457-466 | The walk may descend exactly where some positive pattern could match, in terms of the patterns alone. |
| `Rules.InsertedPatternDecidesOrNot` | crates/client/src/select.rs:569-573 | A pattern inserted anywhere in any layer leaves a path's verdict alone or makes it the pattern's own. |
| `Walk.NoInclusionBelow` | crates/client/src/select.rs:457-466 | At or below a directory that no prefix is compatible with, no path has an inclusion verdict. |
| `Walk.NothingChosenBelow` | crates/client/src/select.rs:410-418 | So nothing below a pruned directory is ever selected, through inherited state at any depth. |
| `Walk.WalkEntriesSelect` | crates/client/src/select.rs:376-427 | Under every sound prune, a walk that meets no unreadable directory selects exactly the leaves outside `.git` whose nearest decided ancestor-or-self is included. |
| `Walk.PrunedEntriesRefine` | crates/client/src/select.rs:410-418 | At every directory, the pruned walk selects the same paths in the same order as the exhaustive walk, enters no other directory, and fails nowhere else. |
| `Walk.PrunedWalkRefinesExhaustiveWalk` | crates/client/src/select.rs:376-427 | The same for the whole tree: the prune never changes what is selected. |
| `Walk.OutputIsDistinct` | crates/client/src/select.rs:419-423 | No path is selected twice. |
| `Walk.CountersAddUp` | crates/client/src/select.rs:394-425 | Every considered entry was entered, pruned, or not a directory; nothing is pruned while an unanchored pattern is present. |
| `Walk.SeenEntries` | crates/client/src/select.rs:394-425 | The non-directory entries counted are exactly those outside `.git` to which every directory on the way is included or could hold a match. |
| `Walk.InsertedPatternMovesState` | crates/client/src/select.rs:410-415 | An inserted pattern leaves each directory's state alone or moves it to the pattern's own verdict. |
| `Walk.InsertedPatternMovesSelectionOneWay` | crates/client/src/select.rs:431-434 | For every tree: an inserted `!` pattern can only shrink the selection, a positive one only grow it. |
| `Select.LoadSearch` | crates/client/src/select.rs:285-307 | The layers in order, a missing project or user file being no layer, or the first error in reading order; every pattern is well formed. |
| `Select.LoadExtras` | crates/client/src/select.rs:302-305 | A missing caller-supplied file is an error that names it; the first failure wins. |
| `Select.Walker.Run` | crates/client/src/select.rs:376-393 | Walking a directory extends the paths, the directories entered and the counters by exactly what the walk's specification says, also when it stops on an error. |
| `Select.Walker.RunListing` | crates/client/src/select.rs:394-425 | The same for a listing, stopping at the first unreadable directory. |
| `Select.Walker.Visit` | crates/client/src/select.rs:394-425 | The same for one entry: `.git` skipped uncounted, directories entered or pruned, leaves selected or not, anything else skipped. |
| `Select.SortSorts` | crates/client/src/select.rs:268-269 | Sorting yields the same paths in byte order. |
| `Select.SortDedupOfDistinct` | crates/client/src/select.rs:268-270 | On the walk's output the deduplication removes nothing, and the result is strictly sorted. |
| `Select.RenderedSelection` | crates/client/src/select.rs:248-275 | The rendered walk lists exactly the selected paths, each once. |
| `Select.SelectIn` | crates/client/src/select.rs:248-275 | On success exactly the selected paths in strict order, `paths_considered + 1 = dirs_entered + dirs_pruned + non-directory entries seen`, the number of distinct unanchored patterns, and nothing pruned if there is one; it succeeds wherever the exhaustive walk would, and otherwise gives the loading or listing error. |
| `PktLine.FormatThenParse` | crates/common/src/pktline.rs:196-199 | A formatted length parses back to itself, for every length up to ffff. |
| `PktLine.Run` | crates/common/src/pktline.rs:88-148 | Every byte is counted on exactly one side of the flush. |
| `PktLine.RunConcat` | crates/common/src/pktline.rs:88-148 | Feeding two runs of bytes in turn is feeding their concatenation. |
| `PktLine.ChunkingIsIrrelevant` | crates/common/src/pktline.rs:88-148 | Any chunking of a stream leaves the same counters and the same resumable state. |
| `PktLine.FlushSplit.constructor` | crates/common/src/pktline.rs:75-85 | A counter starts at the start of a stream, with nothing counted. |
| `PktLine.FlushSplit.Feed` | crates/common/src/pktline.rs:88-148 | Feeding a slice takes the counter, with its header buffer, from any state to where the byte-by-byte machine goes, and `total` stays the sum of both sides. |
| `PktLine.FlushSplit.Advance` | crates/common/src/pktline.rs:91-147 | Each turn of the loop takes a non-empty run within one state and lands where the machine does. |
| `PktLine.FlushSplit.TakeHeader` | crates/common/src/pktline.rs:98-109 | A header may straddle any number of reads; it is acted on once its fourth byte is in. |
| `PktLine.FlushSplit.Act` | crates/common/src/pktline.rs:110-135 | What each header value does: flush, special packet, empty line, payload to skip, or framing given up. |
| `PktLine.FlushSplit.Counts` | crates/common/src/pktline.rs:151-153 | The counts are those of the machine. |
| `PktLine.MachineSplitsByLines` | crates/common/src/pktline.rs:88-148 | From any line boundary the counts grow by exactly the line-level split of what follows, complete, cut short or unframed. |
| `PktLine.SplitIsLineSplit` | crates/common/src/pktline.rs:88-148 | The split of a whole stream is the split its framing defines, with no machine and no state. |
| `PktLine.SplitOfExchange` | crates/common/src/pktline.rs:1-19 | For k framed lines, a flush and a tail: k packets, the framed length and the flush before, the tail after. |
| `PktLine.PumpSplitting` | crates/common/src/pktline.rs:172-193 | The pump's counts are the split of exactly the chunks that went through in full, whatever reads and writes do; a broken write may put a further uncounted part of its chunk on the wire. |
| `PktLine.Reader.ReadExact` | crates/common/src/auth.rs:299-302 | An exact read takes precisely its bytes, or fails having consumed what there was. |
| `Auth.AcceptedAsExactly` | crates/common/src/auth.rs:122-147 | A value becomes a token if and only if it is that valid token between two runs of whitespace. |
| `Auth.RefusedExactly` | crates/common/src/auth.rs:122-147 | Which refusal each other value gets: empty exactly when it is all whitespace, else too long by its bytes, else not printable. |
| `Auth.ValidTokensSurvivePadding` | crates/common/src/auth.rs:122-147 | Every valid token is accepted unchanged from any surrounding whitespace. |
| `Auth.Utf8Injective` | crates/common/src/auth.rs:189-191 | Comparing tokens as bytes compares them as text. |
| `Auth.Utf8HasNoNewline` | crates/common/src/auth.rs:134-138 | A valid token's bytes hold no newline, so the preamble's terminator is unambiguous. |
| `Auth.XorZeroMeansEqual` | crates/common/src/auth.rs:192-194 | The exclusive or of two bytes is zero exactly when they are equal. |
| `Auth.OrZeroMeansBothZero` | crates/common/src/auth.rs:192-194 | The accumulator stays zero exactly while no difference has been folded in. |
| `Auth.Matches` | crates/common/src/auth.rs:189-196 | The fold over all shared bytes says byte equality, lengths included. |
| `Auth.ReadAuthPkt` | crates/common/src/auth.rs:298-327 | The outcome, and what is left unread, of reading one preamble from any stream: short, unframed, over-long, cut, wrong or right. |
| `Auth.PreambleRoundTrip` | crates/common/src/auth.rs:230-248 | A token's own preamble is accepted exactly when it is the expected token, and leaves precisely the bytes that follow, for all valid tokens and any trailing bytes. |
| `Auth.JudgeAcceptsExactly` | crates/common/src/auth.rs:318-326 | A payload is accepted exactly when it is the prefix, the secret, and at most one newline. |
| `Auth.AcceptedExactly` | crates/common/src/auth.rs:298-327 | A stream is accepted exactly when it opens with such a line. |
| `Probe.ReadAdvertisement` | crates/client/src/probe.rs:191-240 | Size, names and refusal, and what is left unread, for any stream: hung up, unframed, refused, or read to its end. |
| `Probe.ReadThroughLines` | crates/client/src/probe.rs:193-235 | Ordinary lines only add their bytes and their names. |
| `Probe.ProbeAgreesWithFlushSplit` | crates/client/src/probe.rs:191-259 | On every advertisement of ordinary lines ended by a flush, the probe stops at the flush with the counter's pre-flush bytes, and its refs are the counter's packets less the lines without a name. |
| `Probe.ReadersAgreeExactly` | crates/client/src/probe.rs:191-240 | On every stream: the probe fails exactly when a line is cut short after the ordinary ones; else its size is the counter's pre-flush bytes if and only if what follows them is nothing, a flush, no pkt-line header, or a special packet or refusal with nothing after it. |
| `Probe.ProbeStopsAtSpecialPackets` | crates/client/src/probe.rs:218-220 | One family on which they part: a delim or response-end packet before the flush stops the probe and not the counter. |
| `Push.SoundIsKept` | crates/common/src/pktline.rs:172-193 | Whatever a pump, its reader or its writer does next, nothing is lost, reordered or invented between the channels, and what it counted is what it moved. |
| `Push.InvIsKept` | crates/client/src/push.rs:290-337 | Each step of `git`, the pumps, the peer or the main thread keeps the whole session's invariant. |
| `Push.FailuresShow` | crates/client/src/push.rs:302-312 | The outbound pump ends unclean exactly when one of its reads or writes failed. |
| `Push.EveryRunIsSafe` | crates/client/src/push.rs:302-337 | In every interleaving the connection carries the preamble and a prefix of what `git` wrote; at the join, before the shutdown, it is all of it unless a read or write failed, and `sent` is its split; the reverse direction likewise. |
| `Push.OwnStepProgresses` | crates/client/src/push.rs:327-337 | Once `git` is gone, some step of this end is possible unless its outbound pump is writing into a connection that takes nothing more, and it leaves less to do. |
| `Push.TeardownCompletes` | crates/client/src/push.rs:327-337 | From every such state in which what is unread and unwritten fits what the connection still takes, some run of this end's own steps returns, with no failed write and nothing more from the peer. |
| `Push.TeardownReturnsExactly` | crates/client/src/push.rs:327-337 | With the outbound pump still at work, this end can return by its own steps, none of its writes failing and the peer reading nothing, if and only if what is unread and unwritten fits what the connection still takes. |
| `Push.TeardownCanHang` | crates/common/src/pktline.rs:180-183 | For every bound on the connection, a run from the beginning in which the peer stops reading: `git` is gone, one byte of its is left, and this end cannot return by its own steps without a failed write. |
| `Push.EveryTeardownReturnsOrStalls` | crates/client/src/push.rs:327-337 | In every run from there this end takes no more steps than what is unread and unwritten, and what the peer still sends, allow; until it has returned it has one to take, unless the outbound pump is stalled on a peer that does not read. |
| `Push.EndedPumpBoundsGit` | crates/client/src/push.rs:302-312 | After the outbound pump has ended, `git` can write no more than the socketpair has room for: nothing drains it. |
| `Push.PushReturnsExactly` | crates/client/src/push.rs:327-334 | In such a state, a `git` that exits only when it has written all it has left can finish, and the push return, if and only if that fits the room left in the socketpair. |
| `Push.PushCanHang` | crates/client/src/push.rs:302-334 | A run of four steps leads to a state in which a `git` with more to write than the socketpair holds never finishes. |
| `Push.ServerSeesGitExactly` | crates/server/src/lib.rs:562-570 | The child gets exactly what the client's `git` wrote if and only if both ends have the same token, or neither has one. |
| `Push.CountersAgree` | crates/server/src/lib.rs:642-666 | For all runs at both ends, each in chunks of its own, the server's inbound counters equal the client's `sent` if and only if the ends are configured alike. |
| `Trees.GetUpserted` | crates/server/src/lib.rs:1637-1653 | An upsert decides its path and everything above and below it, and nothing else, collisions of files and directories included. |
| `Trees.GetRemoved` | crates/client/src/encode.rs:296-301 | A removal takes its path and everything below it, and nothing else. |
| `Trees.LeavesUnrelated` | crates/server/src/lib.rs:1637-1653 | No leaf of a tree lies above another. |
| `Trees.GetWritten` | crates/client/src/encode.rs:347-350 | Writing the edited tree changes no leaf. |
| `Trees.WrittenIsCanonical` | crates/client/src/encode.rs:347-350 | A written tree has no directory without a leaf. |
| `Trees.LeavesDetermineTree` | crates/server/src/lib.rs:1655-1660 | Two written trees with the same leaves are the same tree. |
| `Trees.Editor.Upsert` | crates/client/src/encode.rs:523-525 | The editor then holds the item at its path, nothing above or below it, and everything else as before. |
| `Trees.Editor.Remove` | crates/client/src/encode.rs:297-299 | The editor then holds nothing at or below the path, and everything else as before. |
| `Trees.Editor.Write` | crates/client/src/encode.rs:347-350 | The written tree is canonical and has the editor's leaves. |
| `Overlay.OverlayExtraOntoCode` | crates/server/src/lib.rs:1612-1660 | For records in any order: with no `extra` the `code` tree unchanged; else every `extra` leaf, nothing above or below one, and `code` elsewhere. |
| `Overlay.OverlayIsOrderFree` | crates/server/src/lib.rs:1637-1660 | Any two traversal orders build one and the same tree. |
| `Overlay.CombinedLeaves` | crates/server/src/lib.rs:1602-1611 | The combined leaves are all of `extra`'s and exactly those of `code`'s that are not equal to, above or below one of them. |
| `Encode.LoadIndex` | crates/client/src/encode.rs:249-269 | The base tree is the empty tree with every unconflicted entry that has a tree entry put in, in index order. |
| `Encode.BaseHoldsIndex` | crates/client/src/encode.rs:249-269 | When stage-zero entries are apart, the base tree holds exactly them. |
| `Encode.OverlayFromDisk` | crates/client/src/encode.rs:485-527 | A file or symlink on disk is put at its path and sized; another kind of entry is skipped; nothing there is an error. |
| `Encode.ApplyItem` | crates/client/src/encode.rs:290-338 | What one status item does to the tree and the counters, and that it fails exactly when the item is overlaid and cannot be read. |
| `Encode.Encode` | crates/client/src/encode.rs:220-366 | It fails exactly when some overlaid path cannot be read; else the tree's leaves are the index's with every edit applied in order, and each counter is that of the report. |
| `Encode.EncodeExtra` | crates/client/src/encode.rs:448-466 | It fails exactly when a selected path is not on disk; else the tree holds each selected path as it is on disk and nothing else, and the size is the sum of what was read. |
| `Encode.ExtraTreeIsSelection` | crates/client/src/encode.rs:448-466 | Putting the selected paths in one after another loses none of them and leaves nothing besides. |
| `Encode.ApplyingMerges` | crates/client/src/encode.rs:285-339 | With the puts apart and no drop over a put, applying the edits one by one merges them: each put is there, each drop and everything near a put is gone, the rest stays. |
| `Encode.OrderIsIrrelevantExactly` | crates/client/src/encode.rs:285-339 | The order of the status pass is irrelevant if and only if no removed path lies at or above an overlaid one. |
| `Encode.LateDropLosesPut` | crates/client/src/encode.rs:296-301 | A removal reported after an overlay below it takes that overlay with it. |
| `Encode.AccurateMerge` | crates/client/src/encode.rs:276-339 | Merging an accurate report into the staged tree gives the expected tree, and nothing else does. |
| `Encode.EncodedTreeIsExpected` | crates/client/src/encode.rs:209-366 | From an accurate report encoding never fails, and whatever order its items come in, the tree that comes out holds exactly the disk's content at wanted paths and the staged entry where it is kept (submodules), if and only if no path reported gone lies at or above an overlaid one. |
| `Encode.ReplacedByDirectory` | crates/client/src/encode.rs:296-319 | A report that breaks the condition: for a tracked file `f` replaced by a directory with an untracked `f/g`, the accurate report drops `f` and puts `f/g`, and in the order put, drop the file `f/g` is lost. |
| `Encode.PermutedEdits` | crates/client/src/encode.rs:285-339 | Reordering the items of a report reorders their edits and no more. |
| `Encode.CountersAreExact` | crates/client/src/encode.rs:296-333 | On an accurate report that names each path once, `files_removed` is the number of lost paths and `files_overlaid` that of the overlaid ones, among them every wanted path whose content is not the staged one. |
| `Worktree.OverlaidIsCombined` | crates/server/src/lib.rs:1416-1424 | The flat tree that the worktree model checks out is the flat reading of the combined tree. |
| `Worktree.UpdateLeavesExactly` | crates/server/src/lib.rs:1472-1492 | What an undisturbed update leaves at each path: the tree's file, or else exactly the files outside the old index, out of the tree's way and spared by `clean`. |
| `Worktree.DroppedFileNeedsIndex` | crates/server/src/lib.rs:1381-1390 | A delivered file the tree has dropped goes, ignored or not, if the previous index is still there; without it, it stays if and only if `clean` spares it and the tree leaves its place. |
| `Worktree.InvKept` | crates/server/src/lib.rs:1391-1498 | Every event, of any update or from outside, keeps the invariant of lock, index and worktree. |
| `Worktree.MutualExclusion` | crates/server/src/lib.rs:1436-1443 | In every reachable state, at most one update is between taking the lock and releasing it. |
| `Worktree.ResolvedTreeIsKept` | crates/server/src/lib.rs:1416-1424 | From the moment an update has resolved its tree it never turns to another. |
| `Worktree.WindowIsExclusive` | crates/server/src/lib.rs:1436-1498 | From taking the lock to releasing it, every step git takes on the worktree is that update's own. |
| `Worktree.CompletedUpdateSettles` | crates/server/src/lib.rs:1472-1498 | Over every run: a completed update that nothing outside meddled with since its `read-tree` leaves at every path exactly the tree's file, or what was there if it lay outside the index the update found, out of the tree's way and spared by `clean`; so a delivered file that the tree dropped stays if and only if it was orphaned, out of the way and spared, and none does if no `read-tree` was torn and no index lost before. |
| `Worktree.WindowContent` | crates/server/src/lib.rs:1436-1498 | From an update's `read-tree` to its release, the index stays as it is and the worktree changes by its own `clean` alone, whatever other updates do. |
| `Worktree.TornReadOrphans` | crates/server/src/lib.rs:1472-1492 | A run from the beginning in which a first `read-tree` is cut short and the next update, undisturbed, of a tree without the file leaves it if and only if `clean` spares it. |
| `Worktree.NoOrphans` | crates/server/src/lib.rs:1426-1434 | Only a torn `read-tree` or a lost index orphans a delivered file. |
| `Worktree.InstalledIsNewestExactly` | crates/server/src/lib.rs:1416-1443 | A completed update has installed the tree of its stream's `code` when it started and `extra` when it looked at that; so it is the newest tree if and only if the refs make that tree now, as they do whenever none has moved. |
| `Worktree.OlderTreeReplacesNewer` | crates/server/src/lib.rs:1413-1443 | A run in which the newest tree is installed and an update that had waited then replaces it by an older one. |
| `Worktree.RecordIsTrueExactly` | crates/server/src/lib.rs:1452-1458 | Over every run, what `last-tree` names is the tree of the index if and only if the last whole `read-tree` was of the last recorded tree; or, with the index lost since, if and only if that tree is empty. |
| `Worktree.FailureAfterReadTreeMisleads` | crates/server/src/lib.rs:1494-1498 | An update that fails after its `read-tree` leaves `last-tree` naming a tree that is not checked out. |
| `Worktree.FailedUpdateMisleads` | crates/server/src/lib.rs:1452-1498 | For any two different trees, a run from a fresh worktree gets there: the newer one is recorded, the older one checked out. |
| `Update.AcquireWorktreeLock` | crates/server/src/lib.rs:1722-1776 | Each mode's answer is that of its last try; a timed wait tries at once, gives up only when the clock, read after a failed try, has reached its deadline, never sleeps past it, and ends within a number of tries set by its length. |
| `Update.Checkout.UpdateWorktree` | crates/server/src/lib.rs:1391-1543 | Which step's failure leaves what: all as it was before the lock, the index before a whole `read-tree`, the combined tree's index after a broken `clean`, the record before the end; and on success the combined tree, exactly the spared rest, and a truthful `tree_unchanged`. |
| `SyncProtocol.InvKept` | crates/client/src/lib.rs:172-220 | With the refs under their real names: each step of any sync, failed or unacknowledged or not, and each forget keeps the protocol's invariant while syncs of one stream do not overlap and no stream is another one's `/sent`. |
| `SyncProtocol.PinnedTipsArrived` | crates/client/src/push.rs:395-436 | In every state such runs reach, each pinned tip is in the server's store with all its ancestors, and so is every parent of every `extra` commit ever made. |
| `SyncProtocol.PinsHoldExactly` | crates/common/src/lib.rs:113-139 | Of any set of streams: all orderly runs over them keep every pin and every parent sound if and only if none of them is another one plus `/sent`. |
| `SyncProtocol.SentStreamMovesPins` | crates/common/src/lib.rs:113-139 | Encoding the stream `<id>/sent` moves both pins of `<id>` to what it encoded. |
| `SyncProtocol.SentStreamBreaksPins` | crates/client/src/encode.rs:412-424 | An orderly run over `<id>` and `<id>/sent` after which both pins of `<id>`, and the parent of its next `extra` commit, are commits the server never got. |
| `SyncProtocol.RetainedTipsAreOneChain` | crates/client/src/encode.rs:412-424 | On the same runs without forgets on the client, a stream's successive retained `extra` tips are one parent chain from a rootless commit to the present pin. |
| `SyncProtocol.OverlappingSyncsPinUnsent` | crates/client/src/lib.rs:187-219 | Overlapping syncs of one stream can pin, of both chains, a tip the server never got, and then parent the next `extra` commit on it. |
| `SyncProtocol.CodePinIsSoundExactly` | crates/client/src/lib.rs:187-201 | A `code` pin after an acknowledged push is sound if and only if the server had the commit already or the pushed ref still leads to it. |
| `SyncProtocol.ExtraPinIsSoundExactly` | crates/client/src/lib.rs:205-219 | The same for the `extra` pin. |
| `SyncProtocol.NextExtraIsPlaceableExactly` | crates/client/src/encode.rs:412-424 | A new `extra` commit has a parent that the server lacks exactly when its stream's pin is one. |
| `SyncProtocol.UnsentPinSpreads` | crates/client/src/encode.rs:412-424 | From any state with an unsound `extra` pin, the stream's next sync parents its `extra` commit on it. |
| `AcceptLoop.PermitsAreConserved` | crates/server/src/lib.rs:466-508 | In every reachable state, free permits, the one in the loop's hand and live handlers add up to the cap, across failed accepts and panics; a returned loop and dropped hooks mean no live handler. |
| `AcceptLoop.NoHandlerAfterShutdown` | crates/server/src/lib.rs:479-504 | Once the loop has taken the shutdown, nothing more is accepted and no handler starts. |
| `AcceptLoop.DrainCompletes` | crates/server/src/lib.rs:506-508 | Ending the live handlers is all it takes for the loop to return. |
| `Refs.CodeRefRoundTrip` | crates/server/src/lib.rs:1185-1189 | A name yields a stream exactly when it is that stream's `code` ref and the id is valid. |
| `Refs.CodeRefInjective` | crates/common/src/lib.rs:113-115 | Different streams have different `code` refs. |
| `Refs.PinsLookLikeStreams` | crates/common/src/lib.rs:119-139 | A stream's local pins are the `code` and `extra` refs of the stream `<id>/sent`, so recovery must not see them. |
| `Refs.CoversExactly` | crates/common/src/lib.rs:141-151 | A stream's prefix covers its own refs, none of `foobar` for `foo`, and all of `foo/bar`. |
| `Refs.SharedRefsNest` | crates/common/src/lib.rs:141-151 | Two streams share a ref only when one is named below the other. |
| `Refs.Repository.Forget` | crates/server/src/lib.rs:1206-1244 | Exactly the refs under the stream's prefix go, the answer is how many there were, and none is fine too. |
| `Refs.Repository.CountRefs` | crates/server/src/lib.rs:1351-1368 | How many refs lie under the prefix. |
| `Refs.Repository.FindStale` | crates/server/src/lib.rs:1291-1323 | Each stale stream once with the time that made it stale, and how many streams were scanned; an error exactly when a `code` ref leads to no commit. |
| `Refs.Repository.Reap` | crates/server/src/lib.rs:1284-1347 | A dry run or an error changes nothing; else exactly what no stale stream covers is left, the counts add up to what went, and with no stale stream below another they are the dry run's. |
| `Refs.ReapingIsFinal` | crates/server/src/lib.rs:1270-1283 | Reaping leaves no stale stream, so reaping again changes nothing. |
| `Refs.KeptExactly` | crates/server/src/lib.rs:1270-1283 | A stream keeps its refs if and only if no stale stream is it or is named above it. |
| `Refs.DryRunIsAccurateExactly` | crates/server/src/lib.rs:1325-1340 | A dry run reports the counts a real one would if and only if no stale stream is named below another. |
| `Metrics.FieldsNeverCollide` | crates/common/src/metrics.rs:229-260 | With dot-free keys, and none empty in the record itself, the dotted fields of one record are distinct. |
| `Metrics.SamePlainPathExactly` | crates/common/src/metrics.rs:239-243 | Two dot-free key paths are dotted alike if and only if they are the same once leading empty keys are dropped. |
| `Metrics.FieldsDistinctExactly` | crates/common/src/metrics.rs:229-260 | For every record: its fields are distinct if and only if its leaves differ in their keys, taken apart at dots, leading empty ones dropped, and with `len` added for an array. |
| `Metrics.EmptyKeysCollide` | crates/common/src/metrics.rs:239-243 | An empty key of the record itself disappears from the dotted path, and two leaves collide. |
| `Metrics.DottedKeysCollide` | crates/common/src/metrics.rs:239-243 | A key with a dot reads as a path, and two leaves collide. |
| `Metrics.SortedAscends` | crates/common/src/metrics.rs:210-211 | The values are put in order. |
| `Metrics.SortedPermutes` | crates/common/src/metrics.rs:210-211 | And they are the same values. |
| `Metrics.RanksAreNearest` | crates/common/src/metrics.rs:264-271 | Both quantiles take the value of nearest rank, halves going up, and the median's rank is not above the other's. |
| `Metrics.SummaryIsObserved` | crates/common/src/metrics.rs:210-218 | Median, 95th percentile and maximum are observed values, in that order, and the maximum is one. |
| `Metrics.CountWithinRecords` | crates/common/src/metrics.rs:198-200 | A field's count is at most the number of records, when no record carries a field twice. |
| `Metrics.InterleavingIsIrrelevant` | crates/common/src/metrics.rs:172-201 | Two sinks that hold the same records of each kind in the same order aggregate alike, however the kinds interleave. |
| `Metrics.SwapKeepsKinds` | crates/common/src/metrics.rs:172-188 | Swapping two neighbouring lines that are not of one kind keeps each kind's records and their order. |
| `Metrics.FlattenNumbers` | crates/common/src/metrics.rs:229-260 | Each numeric leaf is appended to its own field's values, in order, and no other field changes. |
| `Metrics.Describe` | crates/common/src/metrics.rs:196-221 | One entry for each field that occurs, summarising all its values over the records. |
| `Metrics.GroupByKind` | crates/common/src/metrics.rs:172-188 | The wanted kinds that occur, each with its records in the sink's order. |
| `Metrics.Aggregate` | crates/common/src/metrics.rs:165-223 | For each wanted kind that occurs, the statistics of its most recent records. |

## Left out

- Real files, sockets, signals, processes and threads: they are values, oracles and steps here.
- Git and gix themselves (negotiation, pack and index formats, hashing, ref transactions): only
  what git-read-tree(1), git-clean(1) and the tree editor document is assumed. An object is named
  by its content, and a push delivers its ref's history.
- Pattern matching: POSIX classes inside brackets, and gix's shortcut for patterns such as
  `*.wasm`, which decides no path differently.
- Reading order: the walk is proved for every order in which a directory may be listed, so the
  source's sort of each listing has no part in it. A failing `file_type`, and a name that is not
  UTF-8 where that matters, count as an unreadable directory.
- Decoding: turning payload bytes into text is the probe's parameter `decode`.
- Integer widths: counters are unbounded where the source has 64 bits.
- `Auth.Matches`: equality only; that it takes constant time is not stated. Token files and their
  permissions are not modelled either.
- `Encode.Encode`: reading the index, HEAD and status can fail in the source before the loop
  modelled here, and writing objects in it; those errors are not modelled. Commit and ref writing
  is part of `SyncProtocol`.
- `Encode.EncodedTreeIsExpected`: what gix's status pass reports is taken as given by the predicate
  `Accurate`; a working tree whose submodule holds tracked or listed files is not coherent there.
- `Push.EveryRunIsSafe`: panicking pump threads, and failing to clone a descriptor, are not among
  the steps. The server's watchdog acts on a run only as a failed write or an early end of stream.
- `Worktree.CompletedUpdateSettles`: a `git` step that outlives its killed parent, and with it the
  lock, is not among the events; and an outside edit that writes back what was there counts as no
  edit.
- `Update.Checkout.UpdateWorktree`: measurements taken under the lock, and the number of lines that
  `clean` prints, are not modelled.
- `SyncProtocol.PinnedTipsArrived`: the stores only grow; pruning unreachable objects on either side
  is not modelled, nor is more than one server.
- `Refs.Repository.Forget`: the ref transaction does not fail here.
- `Metrics.Aggregate`: quantiles over floating point, and the order in which kinds and fields are
  listed.
- Timings, tracing, command lines, JSON output, `doctor`, anchor derivation, and the outcome
  classification of a push.
