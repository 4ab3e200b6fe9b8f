# streamarrfs, modelled in Dafny

streamarrfs is a FUSE file system that shows the files of torrents and starts a torrent when
one of its files is read. This project models the parts of it that hold state or that several
functions must agree on, and proves what they promise:

- **The file tree.** `FileTree` says what `buildTree` computes from a torrent's flat file list
  and proves it an exact index of that list. `JsTree` has `buildTree` and `getDirFromFileTree`
  as they run, on mutable nested objects. `Fuse` has `readdir`, `getattr` and `open`, and proves
  that the list and the tree give the same answers. `Paths` holds the path strings.
- **Reading.** `ReadLoop` has the copy loop of `read`; `Readable` has `makeTorrentReadable`,
  with arbitrary interference at every await.
- **Torrents in the client.** `Lifecycle` has the classes with their events, ticks and sweeps.
  `TorrentRuns` covers every interleaving of them on the live array, at every await of a sweep,
  and how soon an idle torrent is gone, `Backlog` how many sweeps clear all stopping ones. `Sweeps`
  has sweeps that nothing interrupts, `Tightness` the runs that reach the bounds, and `Admission`
  the limit on ready torrents.
- **The indexing pipeline.** `Torrents` has the table and its service; `IndexerService` has the
  indexer's own code; `Indexer` has every interleaving of jobs, tasks, feeds, stops and reads as
  a step system, and `Alone` ties each operation's steps to its code. `Pipeline`, `Queue` and
  `Visibility` have what holds over the runs, and `Overlap` the runs that go wrong. `StopWindow` has
  the manual stop and the reads that come into it, `Feeds` feed ingestion. `Mount` joins pipeline and
  file system.

## Assumptions

- `split`, `join`, `Object.keys`, `find` and strict-mode property access behave as in JavaScript.
  File names do not collide with members of `Object.prototype`. Key lists are compared as sets.
- The `files` column decodes to the list it was encoded from. A FUSE call sees one state of the table.
- The file system and the stops share one webtorrent client. The indexer has another of its own
  (server/src/torrent-info/torrent-info.service.ts:10-24), so indexing starts nothing in it.
- webtorrent appends added torrents to `client.torrents`, refuses a second torrent with the same
  info hash, looks torrents up by info hash, removes a destroyed torrent before the sweep's loop
  advances, and fires the add callback on a ready, unpaused torrent.
- The file iterator yields the bytes from `start` to the inclusive, clamped `end`, cut anyhow.
  `Buffer.copy` copies what fits. Clocks do not run backwards.
- `update` is one step, and so is the consumer's find-and-mark phase. The un-awaited PROCESSING
  writes land before the result write of the same torrent. Ids come from an autoincrement column
  and no row is deleted. The database refuses a second row with the same guid.
- What is fetched for a free torrent has a name and a file list. The code creates its row READY
  and visible without checking that (server/src/torrents/sources/free/free-torrent-source.service.ts:40-56).

## Where the code differs from what one would expect

- A file's node looks like a directory holding `length`. `readdir` lists that name, and `getattr`
  accepts `<file>/length` as an empty directory unless the length is 0 (`Fuse.GetAttrExact`).
- A path that starts with a slash hides under the empty name, which is taken for the torrent's
  root (`Fuse.EmptyNameIsTheRoot`), so that a walk misses files or meets names that do not exist
  unless the root's names repeat below it (`Fuse.WalkFindsExactlyTheFiles`). At the mount root and
  in `healthcheck`, size and listing disagree by one (`Fuse.SizeIsOffOutside`).
- `open` never answers EBUSY (`Fuse.OpenFollowsVisibility`). `readdir` does not look at visibility: it
  lists the files of a hidden torrent that `getattr` and `open` deny (`Fuse.HiddenOrUnknown`).
- The ready limit counts ready torrents only. With k torrents pending at once it can be exceeded
  by k - 1, and by no more (`Admission.AdmissionBound`, `Admission.BoundIsReached`). README.md
  calls it the maximum allowed at any given time.
- Sweeps halve the backlog only while no torrent becomes stopping and none but stopping ones are
  removed (`Backlog.BacklogClears`, `Backlog.DestroyDefeatsHalving`). With ticks in between, the
  number of sweeps a torrent may need is its place in the client, not the logarithm of the client's
  size, and that bound is reached (`TorrentRuns.IdleTorrentIsRemoved`,
  `Tightness.PlaceBoundIsReached`).
- A read between the sweep's choice and its destroy does not save the torrent, and neither does
  its having been removed and started anew meanwhile (`TorrentRuns.DestroyedIdleIff`,
  `TorrentRuns.ReadBeforeDestroyIsLost`, `TorrentRuns.NewcomerIsDestroyed`).
- A torrent that becomes ready between the first and the third lookup of `makeTorrentReadable`
  is reported busy, although its comment promises the torrent (`Readable.AloneInClient`).
- A `queueNewTorrents` call that finds the job flag set clears it, so calls can overlap after all.
  Then three things change. A pop written after its row has been claimed takes the row back to
  QUEUED and up for another claim, and before the first such pop nothing takes a row back
  (`Pipeline.RanksNeverFallIff`, `Pipeline.NeverReopenedIff`, `Overlap.FlagDoesNotExclude`). With m calls at once the queue can
  hold m - 1 rows more than the concurrency, even if every pop is in time, and no more
  (`Queue.QueueIsBounded`, `Queue.QueueBoundIsReached`). And a row can be popped a second time
  after a newer one, though each row's first pop is in order (`Queue.PopsAreFifo`,
  `Queue.PopsSortedIff`, `Overlap.OlderIsRepeated`). Calls that do not overlap do none of this
  (`Pipeline.SoloIsTimely`, `Queue.SoloQueue`). A call that fails leaves the flag up and so makes the
  next one do nothing (`Alone.FailureCostsOneCall`).
- Visible rows are complete even when pops are late, except when a manual stop shows its row again
  after a late pop has blanked it (`Visibility.AlwaysCompleteIff`, `Overlap.StopShowsIncomplete`).
- The comment in `stopTorrent` says that no read can happen while the row is hidden. A read that
  looked the row up before may still start the torrent. A read that begins later may start it again
  too, once the stop has destroyed it, exactly when another row with the same info hash is visible
  or becomes so: info hashes are not unique (`StopWindow.LateReadIff`,
  `StopWindow.SharedHashDefeatsHiding`). And a destroy that fails or never settles leaves the row
  hidden (`StopWindow.StreamarrService.StopTorrent`).

## Model

| member | source | states |
|---|---|---|
| `Paths.SplitJoin` | server/src/streamarrfs/streamarrfs.service.ts:241-247 | splitting a joined path gives its components back |
| `Paths.JoinSplit` | server/src/streamarrfs/streamarrfs.service.ts:241-247 | joining a split path gives the string back |
| `Paths.MountedPathParses` | server/src/streamarrfs/streamarrfs.service.ts:225-243 | the service extracts from a path inside a torrent the hash and the inner path it was made of; the root test holds for the root and, wrongly, for a lone empty name |
| `FileTree.BuildIndexes` | server/src/streamarrfs/streamarrfs.service.ts:190-207 | for a prefix-free list, duplicates included, the tree has an object at exactly the prefixes of the paths and one number, the first entry's length, under each file |
| `FileTree.LookupExact` | server/src/streamarrfs/streamarrfs.service.ts:190-253 | a lookup succeeds exactly for prefixes and for a file's `length`; a directory shows the distinct next components, a file only `length` |
| `FileTree.FlattenRoundTrip` | server/src/streamarrfs/streamarrfs.service.ts:190-207 | the leaves of the tree are exactly what `find` answers for the list, first entry winning |
| `FileTree.OrderIrrelevant` | server/src/streamarrfs/streamarrfs.service.ts:190-207 | lists with the same entries build the same tree in whatever order, if equal paths have equal lengths |
| `FileTree.FaithfulIffPrefixFree` | server/src/streamarrfs/streamarrfs.service.ts:193-204 | for every list: the build succeeds and gives each file a node showing its length alone if and only if no path is a proper prefix of another |
| `JsTree.Round` | server/src/streamarrfs/streamarrfs.service.ts:197-203 | one step of `currentLevel` creates exactly the missing object, and throws exactly when it would assign to a number |
| `JsTree.BuildTree` | server/src/streamarrfs/streamarrfs.service.ts:190-207 | the nested objects built in place hold exactly the specified index, for every list; it throws exactly when the index does not exist |
| `JsTree.GetDirFromFileTree` | server/src/streamarrfs/streamarrfs.service.ts:245-253 | walking the objects yields the value the index has at the path, or undefined |
| `Fuse.ReadDir` | server/src/streamarrfs/streamarrfs.service.ts:255-306 | the handler on real objects answers as specified, in every branch |
| `Fuse.GetAttr` | server/src/streamarrfs/streamarrfs.service.ts:308-396 | likewise |
| `Fuse.GetAttrExact` | server/src/streamarrfs/streamarrfs.service.ts:326-395 | inside a visible torrent with a unique hash: directories with their number of names, files with the first entry's length, `<file>/length` as an empty directory if not 0, ENOENT otherwise |
| `Fuse.ReadDirExact` | server/src/streamarrfs/streamarrfs.service.ts:270-298 | the listing of every path inside such a torrent, read off the file list |
| `Fuse.WalkFindsExactlyTheFiles` | server/src/streamarrfs/streamarrfs.service.ts:255-396 | for every prefix-free list: a recursive walk by `readdir` and `getattr` meets every file with its length and no other file, and all else it meets is a directory sized by its listing, if and only if no path has an empty first name or the root's names repeat below that name |
| `Fuse.ListedIffAccepted` | server/src/streamarrfs/streamarrfs.service.ts:255-396 | `getattr` accepts a name exactly when `readdir` of the parent lists it, except a file's length of 0 |
| `Fuse.SizeIsListingLength` | server/src/streamarrfs/streamarrfs.service.ts:336-386 | inside a torrent a directory's size is the length of its listing |
| `Fuse.SizeIsOffOutside` | server/src/streamarrfs/streamarrfs.service.ts:258-267 | a remark beside that: at the mount root and in healthcheck the size is off by one |
| `Fuse.RootIsExact` | server/src/torrents/torrents.service.ts:19-29 | at the mount root `getattr` counts each visible row once, and `readdir` lists each hash exactly as often as there are visible rows with it |
| `Fuse.OtherPaths` | server/src/streamarrfs/streamarrfs.service.ts:255-396 | a path that is neither the root nor healthcheck and starts with no hash: `readdir` succeeds without names, `getattr` and `open` say ENOENT |
| `Fuse.LongerThanAHash` | server/src/streamarrfs/streamarrfs.service.ts:225-239 | a first name that goes on after forty hexadecimal digits is taken for a hash no row has: `readdir` answers with an I/O error, `getattr` and `open` with ENOENT |
| `Fuse.HiddenOrUnknown` | server/src/streamarrfs/streamarrfs.service.ts:270-298 | inside a torrent whose hash no visible row has, `getattr` and `open` say ENOENT; `readdir` fails only if no row at all has the hash, and lists a single hidden row as if it were visible |
| `Fuse.BrokenFiles` | server/src/streamarrfs/streamarrfs.service.ts:190-223 | a visible torrent without a file list, or whose list is no tree, is an I/O error in every listing and at its root, and without a list for every path in it |
| `Fuse.EmptyNameIsTheRoot` | server/src/streamarrfs/streamarrfs.service.ts:229-231 | the empty name is answered as the torrent's root, and is listed exactly when some path starts with a slash or is empty |
| `Fuse.OpenFollowsVisibility` | server/src/streamarrfs/streamarrfs.service.ts:398-434 | `open` succeeds when a visible row has the hash, whatever the rest of the path, and says ENOENT otherwise; a remark beside that: since its busy test negates a promise, it is never busy |
| `ReadLoop.CopyChunks` | server/src/streamarrfs/streamarrfs.service.ts:493-501 | copying chunk by chunk fills the buffer's front with the chunks' bytes as far as it reaches and leaves the rest alone |
| `ReadLoop.Read` | server/src/streamarrfs/streamarrfs.service.ts:491-503 | for any chunking and buffer: the file's bytes from `pos` fill exactly the counted prefix; with a buffer of `len` bytes the count is min(len, length - pos), and 0 at or past the end |
| `ReadLoop.ExtraByteIff` | server/src/streamarrfs/streamarrfs.service.ts:495-498 | a remark on the count: the one byte requested too many is returned exactly when the buffer is longer than `len` and the file goes on |
| `ReadLoop.ReadSequentially` | server/src/streamarrfs/streamarrfs.service.ts:491-503 | consecutive reads of any positive lengths give the file's bytes in order, none missing or repeated, and end with 0 at the whole file |
| `Readable.WaitForReady` | server/src/streamarrfs/streamarrfs.service.ts:579-591 | the poll ends at the first ready torrent seen, and fails if a poll finds no torrent or time runs out |
| `Readable.StartTorrentWithTimeout` | server/src/webtorrent/webtorrent.service.ts:228-264 | which of started, already there, timed out, failed or never settling a start comes to |
| `Readable.MakeTorrentReadable` | server/src/streamarrfs/streamarrfs.service.ts:538-611 | the code's reassignments decide exactly as the case analysis on its lookups |
| `Readable.AnswerIff` | server/src/streamarrfs/streamarrfs.service.ts:538-611 | for all lookups whatever: an exception, null, no answer ever, and each torrent are the answer exactly in the cases read off the lookups, the row's visibility and the start |
| `Readable.UsableWasSeenReady` | server/src/streamarrfs/streamarrfs.service.ts:538-611 | under any interference a non-null answer means a torrent with this hash was seen ready during the call |
| `Readable.UsableIsReadyUnlessReplaced` | server/src/streamarrfs/streamarrfs.service.ts:579-594 | the torrent returned is not ready itself exactly when it replaced the polled one between the poll that ended the wait and the lookup after it |
| `Readable.AloneInClient` | server/src/streamarrfs/streamarrfs.service.ts:544-600 | undisturbed, a torrent in the client is returned ready exactly when it is ready at once, or in time to be resumed if paused, or becomes ready while polled; in the last case a paused one is returned still paused |
| `Readable.AloneOtherwise` | server/src/streamarrfs/streamarrfs.service.ts:550-571 | undisturbed, a paused torrent is resumed, and an absent one started if its row is visible |
| `Lifecycle.WebTorrentService.HandleTorrentRead` | server/src/webtorrent/webtorrent.service.ts:336-362 | an event marks its torrent running and read now, and changes no other |
| `Lifecycle.WebTorrentService.ResumeTorrent` | server/src/webtorrent/webtorrent.service.ts:271-289 | resumes exactly a ready, paused torrent with the hash, without touching its read date |
| `Lifecycle.WebTorrentService.HasReachedMaxConcurrentReadyTorrents` | server/src/webtorrent/webtorrent.service.ts:329-334 | compares the number of ready torrents with the limit |
| `Lifecycle.WebTorrentService.UpdateTorrentStatus` | server/src/webtorrent/webtorrent.service.ts:377-414 | the three tests in order come to a table of idle times, for either order of the thresholds and with no recorded read |
| `Lifecycle.WebTorrentService.StopTorrentWithInfoHash` | server/src/webtorrent/webtorrent.service.ts:126-140 | removes exactly the torrent with the hash, or nothing when its destroy fails |
| `Lifecycle.WebTorrentService.PauseOrStopTorrents` | server/src/webtorrent/webtorrent.service.ts:419-450 | with nothing happening at its awaits, the loop over the live array comes to a sweep in which each destroyed entry hides the next |
| `TorrentRuns.TickExact` | server/src/webtorrent/webtorrent.service.ts:377-414 | after a tick, for each torrent and each idle time: running below the pause threshold, stopping past both, pausing or still paused in between, and as before if not ready or never read |
| `TorrentRuns.EventsExact` | server/src/webtorrent/webtorrent.service.ts:271-362 | a read, a resume, readiness and an addition change one torrent, field by field, and leave the array's order alone |
| `TorrentRuns.ActiveIsNeverChosen` | server/src/webtorrent/webtorrent.service.ts:336-450 | in every interleaving, however many sweeps are under way, a sweep chooses only a ready torrent idle past both thresholds, and pausing or paused means idle for pauseAfter |
| `TorrentRuns.DestroyedIdleIff` | server/src/webtorrent/webtorrent.service.ts:436-442 | in every run a chosen torrent is idle past both thresholds when its destroy comes if and only if its last event since the choice, if any, is that long ago and, in case it was removed and added anew meanwhile, it has become ready and been read since |
| `TorrentRuns.ReadBeforeDestroyIsLost` | server/src/webtorrent/webtorrent.service.ts:436-442 | for all thresholds there is a run that is about to destroy a torrent read this very moment |
| `TorrentRuns.NewcomerIsDestroyed` | server/src/webtorrent/webtorrent.service.ts:126-140 | for all thresholds there is a run that is about to destroy a torrent just started, because one with its hash was chosen before |
| `TorrentRuns.IdleTorrentIsRemoved` | server/src/webtorrent/webtorrent.service.ts:377-450 | a torrent with no further event, once a tick has found it idle past both thresholds, is gone after any chain of whole sweeps longer than the torrents in front of it, whatever comes between any two awaits, sweeps that hang or overlap included |
| `Backlog.BacklogClears` | server/src/webtorrent/webtorrent.service.ts:419-450 | in every run from an empty client, once no torrent becomes stopping and none but stopping ones are removed, floor(log2 n) + 1 whole sweeps one after another clear n stopping torrents, whatever else comes between any two awaits |
| `Backlog.DestroyDefeatsHalving` | server/src/webtorrent/webtorrent.service.ts:419-450 | for all thresholds a run in which one sweep does not clear one stopping torrent, because one that is not stopping is destroyed behind the iterator |
| `TorrentRuns.SweepAlone` | server/src/webtorrent/webtorrent.service.ts:419-450 | the steps of one sweep with nothing in between come to what the loop as written does |
| `Tightness.PlaceBoundIsReached` | server/src/webtorrent/webtorrent.service.ts:377-450 | for every place and all thresholds some run from an empty client with one whole sweep fewer leaves the torrent in it |
| `TorrentRuns.NothingToResume` | server/src/webtorrent/webtorrent.service.ts:427-433 | a remark on the commented-out pause(): without it no run pauses a torrent unless webtorrent does, and resuming changes nothing |
| `Sweeps.SweepAccounts` | server/src/webtorrent/webtorrent.service.ts:421-449 | what stays stopping was skipped, only stopping torrents are removed, and at most as many are skipped as destroyed |
| `Sweeps.SweepHalves` | server/src/webtorrent/webtorrent.service.ts:419-450 | one pass leaves at most half of the stopping torrents |
| `Sweeps.HalvingIsTight` | server/src/webtorrent/webtorrent.service.ts:419-450 | when all are stopping it leaves exactly half |
| `Sweeps.SweepsClear` | server/src/webtorrent/webtorrent.service.ts:419-450 | floor(log2 n) + 1 passes clear n stopping torrents when nothing else changes |
| `Sweeps.SweepSparesTheRest` | server/src/webtorrent/webtorrent.service.ts:419-450 | no other torrent is lost or reordered, whichever destroys fail |
| `Sweeps.SweepEntry` | server/src/webtorrent/webtorrent.service.ts:419-450 | what becomes of each entry of a sweep: destroyed if it is stopping and looked at, paused if it is pausing and looked at, else as before; those behind a destroyed one are not looked at |
| `Sweeps.LinearlyManySweeps` | server/src/webtorrent/webtorrent.service.ts:377-450 | a remark beside `Tightness.PlaceBoundIsReached`, with no events at all: of n + 1 torrents one survives n rounds of tick and sweep; read dates may lie ahead of the clock when the threshold is below n |
| `Admission.AdmissionBound` | server/src/streamarrfs/streamarrfs.service.ts:459-475 | in every interleaving with at most k torrents pending, ready plus pending never exceeds max - 1 + k; with k = 1 the limit holds |
| `Admission.BoundIsReached` | server/src/webtorrent/webtorrent.service.ts:329-334 | for every max and k some run ends with max - 1 + k ready torrents |
| `Admission.TurnedAwayIff` | server/src/streamarrfs/streamarrfs.service.ts:459-468 | in every run a read is turned away if and only if its torrent was absent when it looked it up and at least max torrents are ready when it counts |
| `Admission.PresentIsNeverTurnedAway` | server/src/streamarrfs/streamarrfs.service.ts:459-468 | so a read that found its torrent in the client stays past the guard until its own end, however many are ready and whatever happens to that torrent |
| `Torrents.FindOneByInfoHash` | server/src/torrents/torrents.service.ts:104-108 | a row with the hash, or none if no row has it |
| `Torrents.FindOneVisibleByInfoHash` | server/src/torrents/torrents.service.ts:110-115 | a visible row with the hash, or none |
| `Torrents.OldestNew` | server/src/torrents/torrents.service.ts:42-49 | a NEW row created no later than any other NEW row, or none if there is no NEW row |
| `Torrents.TorrentsService.PopNewTorrent` | server/src/torrents/torrents.service.ts:41-56 | moves the oldest NEW row to QUEUED and changes nothing else |
| `IndexerService.TorrentIndexerService.QueueNewTorrents` | server/src/torrents/indexer/torrent-indexer.service.ts:40-48 | alone, it moves an oldest NEW row to QUEUED when the flag is down, there is room and there is a NEW row, changes nothing otherwise, never overfills the queue, and leaves the flag down even if another call had raised it |
| `IndexerService.TorrentIndexerService.MarkQueued` | server/src/torrents/indexer/torrent-indexer.service.ts:58-68 | marks every queued row when a slot is free and none otherwise |
| `IndexerService.TorrentIndexerService.UpdateTorrentToReady` | server/src/torrents/indexer/torrent-indexer.service.ts:99-110 | the row becomes visible whatever was found, and complete exactly if enough was; its guid and url stay the snapshot's, no other row changes, and a sound table stays sound exactly then |
| `IndexerService.TorrentIndexerService.IndexTorrent` | server/src/torrents/indexer/torrent-indexer.service.ts:112-155 | a magnet url ends as its lookup says, an http page that is a magnet link as the lookup of that link says, any other http page as the page says, and any other url in error: complete and visible with exactly what was found, in error if that is not enough, and still PROCESSING if the deciding lookup throws; no other row changes |
| `Indexer.RowsMove` | server/src/torrents/indexer/torrent-indexer.service.ts:40-155 | before the first late pop, every step that is none itself moves a row forward by its status, rewrites it while it is processed, or shows or hides it when complete; guid, url and creation time stay |
| `Indexer.StepKeepsTable` | server/src/torrents/torrents.service.ts:131-134 | before the first late pop, every step but a late pop keeps rows complete when visible and in-flight snapshots harmless, however calls overlap |
| `Indexer.StepRaisesRank` | server/src/torrents/indexer/torrent-indexer.service.ts:40-155 | before the first late pop, a step that is none itself lowers no row's rank, and a status change raises it |
| `Indexer.LowersRankIff` | server/src/torrents/torrents.service.ts:31-56 | in every state, a step takes some row back to an earlier status if and only if it writes a pop whose row has been claimed since it was found, or a PROCESSING status over a row that is already finished |
| `Indexer.NoLateMark` | server/src/torrents/indexer/torrent-indexer.service.ts:112-136 | before the first late pop the latter does not happen |
| `Visibility.AlwaysCompleteIff` | server/src/torrents/indexer/torrent-indexer.service.ts:54-155 | in every run whatever, each visible row is READY with hash, name, files and magnet link at every moment if and only if no stop shows again a row that has ceased to be complete |
| `Visibility.VisibleIsComplete` | server/src/streamarr/streamarr.service.ts:38-53 | so this holds in every run with timely pops, stops included, and in every run in which no stop shows its row again, late pops included |
| `Pipeline.GuidsStayDistinct` | server/src/torrents/db/entities/torrent.entity.ts:21-32 | in every run, however calls overlap, no two rows get the same guid, and every row keeps its guid, url and creation time |
| `Pipeline.RanksNeverFallIff` | server/src/torrents/indexer/torrent-indexer.service.ts:40-155 | in every run, no row ever falls back to an earlier status if and only if every pop is written before its row is claimed |
| `Pipeline.SoloIsTimely` | server/src/torrents/indexer/torrent-indexer.service.ts:40-48 | calls that do not overlap always write their pops in time |
| `Pipeline.ClaimsAreExclusive` | server/src/torrents/indexer/torrent-indexer.service.ts:54-79 | in every run with timely pops, consumer runs and pops overlapping or not, consumer runs mark disjoint sets of rows and no row is indexed twice |
| `Pipeline.NeverReopenedIff` | server/src/torrents/indexer/torrent-indexer.service.ts:54-79 | in every run from a start, no row once claimed comes up for another claim if and only if every pop is written in time |
| `Pipeline.FewStatusChanges` | server/src/torrents/indexer/torrent-indexer.service.ts:40-155 | any run with timely pops has at most three status changes per row |
| `Queue.QueueIsBounded` | server/src/torrents/indexer/torrent-indexer.service.ts:40-48 | in every run, late pops included, with at most m calls at once that may still write the QUEUED rows never exceed the concurrency plus m - 1, or the number at the start if that was larger |
| `Queue.QueueBoundIsReached` | server/src/torrents/indexer/torrent-indexer.service.ts:40-48 | for every concurrency and m some run of timely pops, with m such calls at once, fills the queue to just that |
| `Queue.PopsAreFifo` | server/src/torrents/torrents.service.ts:41-56 | in every run, whatever overlaps, a pop that takes a row out of NEW never takes one created before a row popped earlier, while feeds keep adding rows |
| `Queue.PopsSortedIff` | server/src/torrents/torrents.service.ts:41-56 | a corollary for all pops together, repeated ones included: they come in order of creation if and only if no row is popped a second time after a newer one |
| `Queue.SoloQueue` | server/src/torrents/indexer/torrent-indexer.service.ts:40-48 | calls that do not overlap keep the queue within the concurrency and pop in order of creation, from a start on any earlier table |
| `Overlap.FlagDoesNotExclude` | server/src/torrents/indexer/torrent-indexer.service.ts:40-48 | three calls get past the job flag so that one row is claimed and indexed twice and falls back from READY |
| `Overlap.StopShowsIncomplete` | server/src/streamarr/streamarr.service.ts:38-53 | after the same overlap a late pop in the middle of a stop leaves a QUEUED row without files visible |
| `Overlap.OlderIsRepeated` | server/src/torrents/indexer/torrent-indexer.service.ts:40-48 | a run in which a row is popped again after a newer one |
| `Alone.IndexingAlone` | server/src/torrents/indexer/torrent-indexer.service.ts:112-155 | the steps of one indexing, taken alone, leave its row as `IndexTorrent` does, whether it finds enough, too little, or throws |
| `Alone.PopAlone` | server/src/torrents/indexer/torrent-indexer.service.ts:40-48 | the steps of one call, taken alone, queue the oldest NEW row if the flag is down and there is room, and otherwise only clear the flag |
| `Alone.FailureCostsOneCall` | server/src/torrents/indexer/torrent-indexer.service.ts:40-48 | a call that fails leaves the flag up, and the next one then does nothing but clear it |
| `Alone.ClaimAlone` | server/src/torrents/indexer/torrent-indexer.service.ts:54-79 | a consumer run marks exactly its rows, and each indexing it starts works on the row as it was found |
| `Alone.CreateAlone` | server/src/torrents/sources/free/free-torrent-source.service.ts:40-56 | the rows feeds and free torrents add, column by column |
| `Feeds.JackettTorrentSourceService.ProcessRssFeed` | server/src/torrents/sources/feeds/jackett/jackett-torrent-source.service.ts:89-101 | afterwards the guids are the earlier ones and those of items with a non-empty guid and link, each added NEW and invisible with the link of the first such item; earlier rows stay as they are |
| `Feeds.JackettTorrentSourceService.ProcessJsonFeed` | server/src/torrents/sources/feeds/jackett/jackett-torrent-source.service.ts:119-141 | likewise for the results, where a guid that starts with "magnet" stands in for a missing link |
| `Feeds.JackettTorrentSourceService.RunJob` | server/src/torrents/sources/feeds/jackett/jackett-torrent-source.service.ts:44-79 | a disabled or overlapping job does nothing; any other does the same over the items of all feeds that can be fetched, the first feed that offers a guid giving its url, and lowers the flag |
| `Feeds.MergeIsExact` | server/src/torrents/sources/feeds/jackett/jackett-torrent-source.service.ts:81-153 | existing rows stay, exactly the valid unseen guids are added as NEW invisible rows with the first url offered, guids stay distinct |
| `Feeds.MergeIsIdempotent` | server/src/torrents/sources/feeds/jackett/jackett-torrent-source.service.ts:81-153 | merging the same contents again changes nothing |
| `Feeds.OneJobAtATime` | server/src/torrents/sources/feeds/jackett/jackett-torrent-source.service.ts:53-78 | a remark on the flag: in every order of calls and ends at most one job runs, exactly while the flag is up |
| `StopWindow.StreamarrService.StopTorrent` | server/src/streamarr/streamarr.service.ts:38-53 | a successful stop restores the table of a visible row; a failed or unsettled destroy leaves the row hidden |
| `Alone.StopAlone` | server/src/streamarr/streamarr.service.ts:38-53 | the steps of a stop, taken alone, take the torrent out of the client and leave its row visible and all else as it was |
| `StopWindow.LateReadIff` | server/src/streamarr/streamarr.service.ts:38-53 | in every run, a read that begins after the hide could start the torrent inside the window if and only if at some moment the torrent is not in the client and, by then, another row has been visible with its hash, at the hide or revealed since by another stop, an indexing or a new free torrent |
| `StopWindow.StartInWindowLookedUpBefore` | server/src/streamarrfs/streamarrfs.service.ts:555-571 | if no other row is visible with the hash, a read that starts the torrent inside the window had found its row before the hide |
| `StopWindow.SharedHashDefeatsHiding` | server/src/torrents/db/entities/torrent.entity.ts:26-28 | a run in which a second row comes out with the hash of the first, the first is hidden and its torrent destroyed, and a later read has started the torrent again before the row is shown |
| `Mount.ListedTorrentIsServed` | server/src/streamarrfs/streamarrfs.service.ts:255-396 | in every run in which no stop shows an incomplete row, a visible torrent with a unique valid hash and a prefix-free list is listed at the root and served without an error, and a walk finds exactly its files under the exact condition on empty names |

## Left out

- Mounting, unmounting, wiping the mount directory and the shutdown hooks: foreign calls only.
- The insides of webtorrent, p-queue, p-timeout, p-wait-for, TypeORM and Node's buffers, beyond the contracts above.
- Fetching and parsing torrents, magnet links and feeds: any result or failure is allowed for.
- `activeReads`: it is displayed only, and starts at 2 or is undefined, so no balance holds.
- Direct writes through the REST controller: they may set any column and would void every table invariant.
- Progress of the indexer: with a concurrency above 1 an early return strands marked rows, and a thrown indexing leaves its row PROCESSING.
- A stop or a failing lookup inside a sweep that hangs the sweep: `StopTorrentWithInfoHash` takes presence in the client as given.
- Reads of paths that `open` has not accepted, and the lookup of the file inside a started torrent.
- Names that are members of `Object.prototype`, the order of names in a listing, and file times, owners and mode bits.
- A database error in the middle of a feed, which would end that feed early.
- Configuration parsing, health checks, formatting, server-sent events, the web page, migrations and container files.
- TorrentRuns.IdleTorrentIsRemoved: bounds the number of sweeps by the torrent's place and not logarithmically, because ticks between sweeps make the logarithmic bound false, as `Tightness.PlaceBoundIsReached` shows.
- Lifecycle.WebTorrentService.PauseOrStopTorrents: runs without interference at its awaits; the sweeps of `TorrentRuns` have anything in between.
