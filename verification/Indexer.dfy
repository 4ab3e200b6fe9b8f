/** The indexing pipeline as a step system: cron jobs, indexing tasks, feeds, manual stops and reads,
    interleaved at every await. `update` is one step, and so is the consumer's find-and-mark phase. */
module Indexer {
  import opened Wrappers
  import opened Torrents
  import FileTree

  /** What is found out about a torrent; a field may be missing. */
  datatype TorrentInfo = TorrentInfo(
    infoHash: Option<string>, name: Option<string>, files: Option<seq<FileTree.File>>, magnetURI: Option<string>)

  predicate HasEnoughInfoForReadyStatus(info: Option<TorrentInfo>) {
    && info.Some? && info.value.infoHash.Some? && info.value.files.Some? && info.value.name.Some?
    && info.value.magnetURI.Some?
  }

  // --- Result writes ---

  function WithReady(rows: Table, id: nat, snapshot: Row, info: TorrentInfo): Table
    requires id < |rows|
  {
    rows[id := snapshot.(magnetURI := info.magnetURI, infoHash := info.infoHash, name := info.name,
                         files := info.files, status := READY, isVisible := true)]
  }

  function WithError(rows: Table, id: nat): Table
    requires id < |rows|
  {
    rows[id := rows[id].(status := ERROR, errors := Some("Failed to get info"), isVisible := false)]
  }

  /** A free torrent as it is created: its hash is its guid. */
  function FreeRow(hash: string, magnetURI: string, fetched: TorrentInfo, createdAt: nat): Row {
    Row(hash, "free-" + hash, Some(hash), fetched.name, fetched.files, Some(magnetURI), true, READY, None, createdAt)
  }

  // --- The system ---

  /** A `queueNewTorrents` call: it has counted the queued rows; it is past its check; it holds the row it
      will write back; it has written. */
  datatype Call = Counted(n: nat) | Finding | Found(id: nat, snapshot: Row) | Written

  /** Row `id` as claimed by the consumer run `run`. */
  datatype Job = Job(run: nat, id: nat)

  /** A `stopTorrent` call: it has found its row; it has hidden that row; it has destroyed the torrent. */
  datatype Stop = Located(id: nat, hash: string) | Hidden(id: nat, hash: string) | Destroyed(id: nat, hash: string)

  /** A read past its visibility lookup, with the row that found, if any. */
  datatype Read = Read(hash: string, row: Option<nat>)

  datatype Sys = Sys(
    now: nat,
    rows: Table,
    isQueueJobRunning: bool,
    calls: map<nat, Call>,
    claimed: map<Job, Row>,    // rows a consumer has marked, with the snapshot it holds
    tasks: map<Job, Row>,      // rows being indexed, likewise
    stops: map<nat, Stop>,
    reading: map<nat, Read>,
    client: set<string>,       // the info hashes of the torrents in the file system's own webtorrent client
    popped: seq<nat>,          // createdAt of every row popped so far
    claims: seq<set<nat>>,     // what each consumer run marked
    started: seq<nat>)         // every row whose indexing was started

  datatype Step =
    | Wait(ms: nat)
    | CallBegin(call: nat)
    | CallCheck(call: nat)
    | CallFind(call: nat, id: nat)
    | CallFindNone(call: nat)
    | CallWrite(call: nat)
    | CallEnd(call: nat)
    | CallFail(call: nat)
    | Claim(ids: set<nat>)
    | StartIndex(job: Job)
    | Mark(job: Job)                                // an un-awaited PROCESSING write
    | Finish(job: Job, info: Option<TorrentInfo>)   // the result write
    | Crash(job: Job)                               // the indexing throws
    | FeedCreate(guid: string, url: string)
    | FreeCreate(hash: string, magnetURI: string, fetched: TorrentInfo)
    | StopFind(stop: nat, id: nat)
    | StopHide(stop: nat)
    | StopDestroy(stop: nat)
    | StopShow(stop: nat)
    | StopFail(stop: nat)
    | ReadFind(read: nat, wanted: string)           // findOneVisibleByInfoHash
    | ReadStart(read: nat)                          // client.add with the magnet link found, for an absent torrent
    | ReadEnd(read: nat)
    | OtherDestroy(gone: string)                    // a sweep or a start timeout

  predicate Enabled(s: Sys, step: Step) {
    match step
    case Wait(_) => true
    case CallBegin(c) => c !in s.calls
    case CallCheck(c) => c in s.calls && s.calls[c].Counted?
    case CallFind(c, id) => c in s.calls && s.calls[c].Finding? && IsOldestNew(s.rows, id)
    case CallFindNone(c) => c in s.calls && s.calls[c].Finding? && OldestNew(s.rows) == None
    case CallWrite(c) => c in s.calls && s.calls[c].Found? && s.calls[c].id < |s.rows|
    case CallEnd(c) => c in s.calls && s.calls[c].Written?
    case CallFail(c) => c in s.calls
    case Claim(ids) => ids <= Queued(s.rows)
    case StartIndex(job) => job in s.claimed
    case Mark(job) => job in s.tasks && job.id < |s.rows|
    case Finish(job, _) => job in s.tasks && job.id < |s.rows|
    case Crash(job) => job in s.tasks
    case FeedCreate(guid, _) => !HasGuid(s.rows, guid)
    case FreeCreate(hash, _, fetched) => !HasGuid(s.rows, hash) && fetched.name.Some? && fetched.files.Some?
    case StopFind(k, id) => k !in s.stops && id < |s.rows| && s.rows[id].infoHash.Some?
    case StopHide(k) => k in s.stops && s.stops[k].Located? && s.stops[k].id < |s.rows|
    case StopDestroy(k) => k in s.stops && s.stops[k].Hidden? && s.stops[k].hash in s.client
    case StopShow(k) => k in s.stops && s.stops[k].Destroyed? && s.stops[k].id < |s.rows|
    case StopFail(k) => k in s.stops
    case ReadFind(r, _) => r !in s.reading
    case ReadStart(r) => r in s.reading && s.reading[r].row.Some? && s.reading[r].hash !in s.client
    case ReadEnd(r) => r in s.reading
    case OtherDestroy(hash) => hash in s.client
  }

  /** Marking a set of rows, each from its own current state. */
  function Marked(rows: Table, ids: set<nat>): (r: Table)
    ensures |r| == |rows|
    ensures forall k :: 0 <= k < |rows| ==> r[k] == if k in ids then rows[k].(status := PROCESSING) else rows[k]
  {
    seq(|rows|, k requires 0 <= k < |rows| => if k in ids then rows[k].(status := PROCESSING) else rows[k])
  }

  predicate IsCallStep(step: Step) {
    step.CallBegin? || step.CallCheck? || step.CallFind? || step.CallFindNone? || step.CallWrite? || step.CallEnd?
    || step.CallFail?
  }

  function ApplyCall(s: Sys, step: Step, concurrency: nat): Sys
    requires Enabled(s, step) && IsCallStep(step)
  {
    match step
    case CallBegin(c) => s.(calls := s.calls[c := Counted(|Queued(s.rows)|)])
    case CallCheck(c) =>
      if !s.isQueueJobRunning && s.calls[c].n < concurrency
      then s.(isQueueJobRunning := true, calls := s.calls[c := Finding])
      else s.(isQueueJobRunning := false, calls := s.calls - {c})
    case CallFind(c, id) => s.(calls := s.calls[c := Found(id, s.rows[id])])
    case CallFindNone(c) => s.(calls := s.calls[c := Written])
    case CallWrite(c) =>
      var Found(id, snapshot) := s.calls[c];
      s.(rows := WithStatus(s.rows, id, snapshot, QUEUED), calls := s.calls[c := Written],
         popped := s.popped + [snapshot.createdAt])
    case CallEnd(c) => s.(isQueueJobRunning := false, calls := s.calls - {c})
    case CallFail(c) => s.(calls := s.calls - {c})
  }

  /** The jobs of one consumer run, with the rows as it found them. */
  function JobsFor(rows: Table, ids: set<nat>, run: nat): (jobs: map<Job, Row>)
    requires ids <= Queued(rows)
    ensures forall job :: job in jobs <==> job.run == run && job.id in ids
    ensures forall job :: job in jobs ==> jobs[job] == rows[job.id]
  {
    map id | id in ids :: Job(run, id) := rows[id]
  }

  predicate IsJobStep(step: Step) {
    step.Claim? || step.StartIndex? || step.Mark? || step.Finish? || step.Crash?
  }

  function ApplyJob(s: Sys, step: Step): Sys
    requires Enabled(s, step) && IsJobStep(step)
  {
    match step
    case Claim(ids) =>
      s.(rows := Marked(s.rows, ids), claims := s.claims + [ids],
         claimed := s.claimed + JobsFor(s.rows, ids, |s.claims|))
    case StartIndex(job) =>
      s.(claimed := s.claimed - {job}, tasks := s.tasks[job := s.claimed[job]], started := s.started + [job.id])
    case Mark(job) => s.(rows := WithStatus(s.rows, job.id, s.tasks[job], PROCESSING))
    case Finish(job, info) =>
      s.(rows := if HasEnoughInfoForReadyStatus(info) then WithReady(s.rows, job.id, s.tasks[job], info.value)
                 else WithError(s.rows, job.id),
         tasks := s.tasks - {job})
    case Crash(job) => s.(tasks := s.tasks - {job})
  }

  predicate IsStopStep(step: Step) {
    step.StopFind? || step.StopHide? || step.StopDestroy? || step.StopShow? || step.StopFail?
  }

  function ApplyStop(s: Sys, step: Step): Sys
    requires Enabled(s, step) && IsStopStep(step)
  {
    match step
    case StopFind(k, id) => s.(stops := s.stops[k := Located(id, s.rows[id].infoHash.value)])
    case StopHide(k) =>
      var Located(id, hash) := s.stops[k];
      s.(rows := WithVisible(s.rows, id, false), stops := s.stops[k := Hidden(id, hash)])
    case StopDestroy(k) =>
      var Hidden(id, hash) := s.stops[k];
      s.(client := s.client - {hash}, stops := s.stops[k := Destroyed(id, hash)])
    case StopShow(k) => s.(rows := WithVisible(s.rows, s.stops[k].id, true), stops := s.stops - {k})
    case StopFail(k) => s.(stops := s.stops - {k})
  }

  /** The clock, the feeds and the reads, and the destroys that are not a manual stop's. */
  function ApplyRest(s: Sys, step: Step): Sys
    requires Enabled(s, step) && !IsCallStep(step) && !IsJobStep(step) && !IsStopStep(step)
  {
    match step
    case Wait(ms) => s.(now := s.now + ms)
    case FeedCreate(guid, url) => s.(rows := s.rows + [NewRow(guid, url, s.now)])
    case FreeCreate(hash, magnetURI, fetched) => s.(rows := s.rows + [FreeRow(hash, magnetURI, fetched, s.now)])
    case ReadFind(r, hash) => s.(reading := s.reading[r := Read(hash, FindOneVisibleByInfoHash(s.rows, hash))])
    case ReadStart(r) => s.(client := s.client + {s.reading[r].hash})
    case ReadEnd(r) => s.(reading := s.reading - {r})
    case OtherDestroy(hash) => s.(client := s.client - {hash})
    case _ => s
  }

  function Apply(s: Sys, step: Step, concurrency: nat): Sys
    requires Enabled(s, step)
  {
    if IsCallStep(step) then ApplyCall(s, step, concurrency)
    else if IsJobStep(step) then ApplyJob(s, step)
    else if IsStopStep(step) then ApplyStop(s, step)
    else ApplyRest(s, step)
  }

  /** The process starts on any table, such as the one it left behind, with nothing in flight. */
  function Start(now: nat, rows: Table): Sys {
    Sys(now, rows, false, map[], map[], map[], map[], map[], {}, [], [], [])
  }

  // --- Runs ---

  predicate Legal(s: Sys, steps: seq<Step>, concurrency: nat)
    decreases |steps|
  {
    steps == [] || (Enabled(s, steps[0]) && Legal(Apply(s, steps[0], concurrency), steps[1..], concurrency))
  }

  function Exec(s: Sys, steps: seq<Step>, concurrency: nat): Sys
    requires Legal(s, steps, concurrency)
    decreases |steps|
  {
    if steps == [] then s else Exec(Apply(s, steps[0], concurrency), steps[1..], concurrency)
  }

  /** The state before step `k`. */
  function StateAt(s: Sys, steps: seq<Step>, k: nat, concurrency: nat): Sys
    requires Legal(s, steps, concurrency) && k <= |steps|
    decreases k
  {
    if k == 0 then s else StateAt(Apply(s, steps[0], concurrency), steps[1..], k - 1, concurrency)
  }

  lemma {:induction false} StateAtNext(s: Sys, steps: seq<Step>, k: nat, concurrency: nat)
    requires Legal(s, steps, concurrency) && k < |steps|
    ensures var t := StateAt(s, steps, k, concurrency);
            Enabled(t, steps[k]) && StateAt(s, steps, k + 1, concurrency) == Apply(t, steps[k], concurrency)
    decreases k
  {
    if k > 0 {
      StateAtNext(Apply(s, steps[0], concurrency), steps[1..], k - 1, concurrency);
    }
  }

  lemma {:induction false} StateAtEnd(s: Sys, steps: seq<Step>, concurrency: nat)
    requires Legal(s, steps, concurrency)
    ensures StateAt(s, steps, |steps|, concurrency) == Exec(s, steps, concurrency)
    decreases |steps|
  {
    if steps != [] {
      StateAtEnd(Apply(s, steps[0], concurrency), steps[1..], concurrency);
    }
  }

  /** A run can be cut off and continued otherwise. */
  lemma {:induction false} Branches(s: Sys, steps: seq<Step>, k: nat, other: seq<Step>, concurrency: nat)
    requires Legal(s, steps, concurrency) && k <= |steps|
    ensures Legal(s, steps[..k] + other, concurrency)
            <==> Legal(StateAt(s, steps, k, concurrency), other, concurrency)
    decreases k
  {
    var run := steps[..k] + other;
    if k == 0 {
      assert run == other;
    } else {
      assert run[1..] == steps[1..][..k - 1] + other;
      Branches(Apply(s, steps[0], concurrency), steps[1..], k - 1, other, concurrency);
    }
  }

  // --- Complete rows and harmless snapshots ---

  predicate Complete(r: Row) {
    r.status == READY && r.infoHash.Some? && r.name.Some? && r.files.Some? && r.magnetURI.Some?
  }

  /** A row that is visible, or only known by its info hash, is complete. */
  predicate RowOk(r: Row) {
    r.isVisible || r.infoHash.Some? ==> Complete(r)
  }

  predicate RowsOk(rows: Table) {
    forall k :: 0 <= k < |rows| ==> RowOk(rows[k])
  }

  /** The columns that are set when a row is created and never change. */
  predicate SameOrigin(r: Row, r': Row) {
    r.feedGuid == r'.feedGuid && r.feedURL == r'.feedURL && r.createdAt == r'.createdAt
  }

  function Rank(status: Status): nat {
    match status
    case NEW => 0
    case QUEUED => 1
    case PROCESSING => 2
    case _ => 3
  }

  /** A snapshot that is safe to write back over row `id`. */
  predicate Stale(rows: Table, id: nat, snapshot: Row) {
    && id < |rows| && rows[id].status == PROCESSING
    && !snapshot.isVisible && snapshot.infoHash.None? && SameOrigin(snapshot, rows[id])
  }

  /** A snapshot some call has found NEW: as long as no consumer has claimed row `id`, the row still is that
      snapshot, queued at most. */
  predicate FoundNew(rows: Table, id: nat, snapshot: Row) {
    && id < |rows| && snapshot.status == NEW && RowOk(snapshot) && SameOrigin(snapshot, rows[id])
    && (Rank(rows[id].status) < 2 ==> rows[id] == snapshot || rows[id] == snapshot.(status := QUEUED))
  }

  predicate InFlight(s: Sys, job: Job) {
    job in s.claimed || job in s.tasks
  }

  predicate SnapshotsOk(s: Sys) {
    && (forall job :: job in s.claimed ==> Stale(s.rows, job.id, s.claimed[job]))
    && (forall job :: job in s.tasks ==> Stale(s.rows, job.id, s.tasks[job]))
  }

  /** No row is in flight twice. */
  ghost predicate JobsOk(s: Sys) {
    && s.claimed.Keys !! s.tasks.Keys
    && forall i, j :: InFlight(s, i) && InFlight(s, j) && i.id == j.id ==> i == j
  }

  predicate CallsOk(s: Sys) {
    forall c :: c in s.calls && s.calls[c].Found? ==> FoundNew(s.rows, s.calls[c].id, s.calls[c].snapshot)
  }

  predicate StopsOk(s: Sys) {
    forall k :: k in s.stops ==> s.stops[k].id < |s.rows| && Complete(s.rows[s.stops[k].id])
  }

  ghost predicate TableInv(s: Sys) {
    RowsOk(s.rows) && SnapshotsOk(s) && JobsOk(s) && CallsOk(s) && StopsOk(s)
  }

  /** A pop that comes too late: its row has been claimed since it was found. Calls can overlap, since one
      that finds the job flag set clears it. */
  predicate LateWrite(s: Sys, step: Step) {
    && step.CallWrite? && step.call in s.calls && s.calls[step.call].Found?
    && s.calls[step.call].id < |s.rows| && Rank(s.rows[s.calls[step.call].id].status) >= 2
  }

  // --- What a step can do to a row ---

  /** The moves of one row: forward by a status, rewritten while processing, or shown and hidden while complete. */
  predicate Moves(r: Row, r': Row) {
    && SameOrigin(r, r')
    && match r.status
       case NEW => r' == r || r' == r.(status := QUEUED)
       case QUEUED => r' == r || r' == r.(status := PROCESSING)
       case PROCESSING =>
         || r' == r
         || Complete(r')
         || (r'.status in {PROCESSING, ERROR} && !r'.isVisible && r'.infoHash.None?)
       case _ => r' == r || (Complete(r) && r' == r.(isVisible := r'.isVisible))
  }

  /** Which rows a step writes. */
  function Writes(s: Sys, step: Step): set<nat>
    requires Enabled(s, step)
  {
    match step
    case CallWrite(c) => {s.calls[c].id}
    case Claim(ids) => ids
    case Mark(job) => {job.id}
    case Finish(job, _) => {job.id}
    case StopHide(k) => {s.stops[k].id}
    case StopShow(k) => {s.stops[k].id}
    case _ => {}
  }

  lemma RowsKept(s: Sys, step: Step, concurrency: nat)
    requires Enabled(s, step)
    ensures var s' := Apply(s, step, concurrency);
            && |s.rows| <= |s'.rows|
            && forall k :: 0 <= k < |s.rows| && k !in Writes(s, step) ==> s'.rows[k] == s.rows[k]
  {
  }

  lemma RowsAdded(s: Sys, step: Step, concurrency: nat)
    requires Enabled(s, step)
    ensures var s' := Apply(s, step, concurrency);
            forall k :: |s.rows| <= k < |s'.rows| ==>
              RowOk(s'.rows[k]) && s'.rows[k].status in {NEW, READY} && s'.rows[k].createdAt == s.now
  {
  }

  lemma RowsMove(s: Sys, step: Step, concurrency: nat, k: nat)
    requires TableInv(s) && Enabled(s, step) && !LateWrite(s, step) && k < |s.rows|
    ensures |s.rows| <= |Apply(s, step, concurrency).rows|
    ensures Moves(s.rows[k], Apply(s, step, concurrency).rows[k])
  {
    RowsKept(s, step, concurrency);
    if k in Writes(s, step) {
      WritesMove(s, step, concurrency, k);
    } else {
      hide *;
    }
  }

  lemma WritesMove(s: Sys, step: Step, concurrency: nat, k: nat)
    requires TableInv(s) && Enabled(s, step) && !LateWrite(s, step) && k < |s.rows| && k in Writes(s, step)
    ensures k < |Apply(s, step, concurrency).rows| && Moves(s.rows[k], Apply(s, step, concurrency).rows[k])
  {
    if IsJobStep(step) {
      JobsWriteMoves(s, step, k);
    } else if IsStopStep(step) {
      StopsWriteMoves(s, step, k);
    } else {
      CallsWriteMoves(s, step, concurrency, k);
    }
  }

  lemma JobsWriteMoves(s: Sys, step: Step, k: nat)
    requires SnapshotsOk(s) && RowsOk(s.rows) && Enabled(s, step) && IsJobStep(step)
    requires k < |s.rows| && k in Writes(s, step)
    ensures k < |ApplyJob(s, step).rows| && Moves(s.rows[k], ApplyJob(s, step).rows[k])
  {
    assert RowOk(s.rows[k]);
  }

  lemma StopsWriteMoves(s: Sys, step: Step, k: nat)
    requires StopsOk(s) && Enabled(s, step) && IsStopStep(step) && k < |s.rows| && k in Writes(s, step)
    ensures k < |ApplyStop(s, step).rows| && Moves(s.rows[k], ApplyStop(s, step).rows[k])
  {
  }

  lemma CallsWriteMoves(s: Sys, step: Step, concurrency: nat, k: nat)
    requires CallsOk(s) && Enabled(s, step) && IsCallStep(step) && !LateWrite(s, step)
    requires k < |s.rows| && k in Writes(s, step)
    ensures k < |ApplyCall(s, step, concurrency).rows|
    ensures Moves(s.rows[k], ApplyCall(s, step, concurrency).rows[k])
  {
    assert FoundNew(s.rows, k, s.calls[step.call].snapshot);
  }

  lemma RowsStayOk(s: Sys, step: Step, concurrency: nat)
    requires TableInv(s) && Enabled(s, step) && !LateWrite(s, step)
    ensures RowsOk(Apply(s, step, concurrency).rows)
  {
    hide Apply, Enabled, TableInv, LateWrite;
    RowsAdded(s, step, concurrency);
    assert RowsOk(s.rows) by { TableInvParts(s); }
    forall k | 0 <= k < |Apply(s, step, concurrency).rows| ensures RowOk(Apply(s, step, concurrency).rows[k]) {
      if k < |s.rows| {
        RowsMove(s, step, concurrency, k);
        assert RowOk(s.rows[k]);
      }
    }
  }

  /** A row being processed stays so, snapshots included, until its own result write. */
  lemma StaleStays(s: Sys, step: Step, concurrency: nat, id: nat, snapshot: Row)
    requires StopsOk(s) && SnapshotsOk(s) && Enabled(s, step) && !LateWrite(s, step)
    requires Stale(s.rows, id, snapshot) && !(step.Finish? && step.job.id == id)
    ensures Stale(Apply(s, step, concurrency).rows, id, snapshot)
  {
    RowsKept(s, step, concurrency);
    if id in Writes(s, step) {
      assert !step.CallWrite? && !step.StopHide? && !step.StopShow? && !step.Claim?;
      assert step.Mark? && step.job.id == id;
      assert Stale(s.rows, id, s.tasks[step.job]);
    }
  }

  lemma CallFrame(s: Sys, step: Step, concurrency: nat)
    requires Enabled(s, step) && IsCallStep(step)
    ensures var s' := ApplyCall(s, step, concurrency);
            && s'.claimed == s.claimed && s'.tasks == s.tasks && s'.claims == s.claims && s'.started == s.started
            && s'.stops == s.stops && s'.reading == s.reading && s'.client == s.client && s'.now == s.now
  {
  }

  lemma JobFrame(s: Sys, step: Step)
    requires Enabled(s, step) && IsJobStep(step)
    ensures var s' := ApplyJob(s, step);
            && s'.calls == s.calls && s'.popped == s.popped
            && s'.stops == s.stops && s'.reading == s.reading && s'.client == s.client && s'.now == s.now
  {
  }

  lemma StopFrame(s: Sys, step: Step)
    requires Enabled(s, step) && IsStopStep(step)
    ensures var s' := ApplyStop(s, step);
            && s'.calls == s.calls && s'.popped == s.popped
            && s'.claimed == s.claimed && s'.tasks == s.tasks && s'.claims == s.claims && s'.started == s.started
            && s'.reading == s.reading && s'.now == s.now && (!step.StopDestroy? ==> s'.client == s.client)
  {
  }

  lemma RestFrame(s: Sys, step: Step)
    requires Enabled(s, step) && !IsCallStep(step) && !IsJobStep(step) && !IsStopStep(step)
    ensures var s' := ApplyRest(s, step);
            && s'.calls == s.calls && s'.popped == s.popped && s'.stops == s.stops && s.now <= s'.now
            && s'.claimed == s.claimed && s'.tasks == s.tasks && s'.claims == s.claims && s'.started == s.started
            && (!step.ReadFind? && !step.ReadEnd? ==> s'.reading == s.reading)
            && (!step.ReadStart? && !step.OtherDestroy? ==> s'.client == s.client)
  {
  }

  /** What a step leaves alone. */
  lemma Frames(s: Sys, step: Step, concurrency: nat)
    requires Enabled(s, step)
    ensures var s' := Apply(s, step, concurrency);
            && (!IsCallStep(step) ==> s'.calls == s.calls && s'.popped == s.popped)
            && (!IsJobStep(step) ==>
                  s'.claimed == s.claimed && s'.tasks == s.tasks && s'.claims == s.claims && s'.started == s.started)
            && (!IsStopStep(step) ==> s'.stops == s.stops)
            && (!step.ReadFind? && !step.ReadEnd? ==> s'.reading == s.reading)
            && (!step.StopDestroy? && !step.ReadStart? && !step.OtherDestroy? ==> s'.client == s.client)
            && s.now <= s'.now
  {
    hide ApplyCall, ApplyJob, ApplyStop, ApplyRest, Enabled;
    if IsCallStep(step) {
      CallFrame(s, step, concurrency);
    } else if IsJobStep(step) {
      JobFrame(s, step);
    } else if IsStopStep(step) {
      StopFrame(s, step);
    } else {
      RestFrame(s, step);
    }
  }

  /** Where the jobs of the next state come from. */
  lemma JobsMove(s: Sys, step: Step, concurrency: nat)
    requires Enabled(s, step)
    ensures var s' := Apply(s, step, concurrency);
            && (forall job :: job in s'.claimed ==>
                  || (job in s.claimed && s'.claimed[job] == s.claimed[job])
                  || (step.Claim? && job.id in step.ids && job.run == |s.claims|
                      && s'.claimed[job] == s.rows[job.id]))
            && (forall job :: job in s'.tasks ==>
                  if step == StartIndex(job) then
                    job in s.claimed && s'.tasks[job] == s.claimed[job] && job !in s'.claimed
                  else job in s.tasks && s'.tasks[job] == s.tasks[job])
            && (step.Finish? ==> step.job !in s'.tasks)
  {
    if IsJobStep(step) {
      assert Apply(s, step, concurrency) == ApplyJob(s, step);
    } else {
      hide Apply, Enabled;
      Frames(s, step, concurrency);
    }
  }

  lemma ClaimedIsStale(s: Sys, step: Step, concurrency: nat, id: nat)
    requires RowsOk(s.rows) && Enabled(s, step) && step.Claim? && id in step.ids
    ensures id < |s.rows| && Stale(Apply(s, step, concurrency).rows, id, s.rows[id])
  {
    assert id in Queued(s.rows);
    assert RowOk(s.rows[id]);
  }

  lemma SnapshotsStayOk(s: Sys, step: Step, concurrency: nat)
    requires TableInv(s) && Enabled(s, step) && !LateWrite(s, step)
    ensures SnapshotsOk(Apply(s, step, concurrency))
  {
    var s' := Apply(s, step, concurrency);
    JobsMove(s, step, concurrency);
    hide Apply, Enabled, Stale;
    forall job | job in s'.claimed ensures Stale(s'.rows, job.id, s'.claimed[job]) {
      if step.Claim? && job.id in step.ids {
        ClaimedIsStale(s, step, concurrency, job.id);
      }
      if job in s.claimed && s'.claimed[job] == s.claimed[job] {
        NotItsFinish(s, step, job);
        StaleStays(s, step, concurrency, job.id, s.claimed[job]);
      }
    }
    forall job | job in s'.tasks ensures Stale(s'.rows, job.id, s'.tasks[job]) {
      NotItsFinish(s, step, job);
      StaleStays(s, step, concurrency, job.id, if job in s.tasks then s.tasks[job] else s.claimed[job]);
    }
  }

  /** A result write of another job goes to another row. */
  lemma NotItsFinish(s: Sys, step: Step, job: Job)
    requires JobsOk(s) && Enabled(s, step) && InFlight(s, job) && !(step.Finish? && step.job == job)
    ensures !(step.Finish? && step.job.id == job.id)
  {
    if step.Finish? {
      assert InFlight(s, step.job);
    }
  }

  lemma JobsStayOk(s: Sys, step: Step, concurrency: nat)
    requires SnapshotsOk(s) && JobsOk(s) && Enabled(s, step)
    ensures JobsOk(Apply(s, step, concurrency))
  {
    var s' := Apply(s, step, concurrency);
    JobsMove(s, step, concurrency);
    if step.Claim? {
      forall job | InFlight(s, job) ensures job.id !in step.ids {
        assert s.rows[job.id].status == PROCESSING;
      }
    }
    forall job | InFlight(s', job)
      ensures InFlight(s, job) || (step.Claim? && job.id in step.ids && job.run == |s.claims|)
    {
    }
  }

  lemma FoundNewStays(s: Sys, step: Step, concurrency: nat, id: nat, snapshot: Row)
    requires TableInv(s) && Enabled(s, step) && !LateWrite(s, step) && FoundNew(s.rows, id, snapshot)
    ensures FoundNew(Apply(s, step, concurrency).rows, id, snapshot)
  {
    hide Apply, Enabled, TableInv, LateWrite;
    RowsMove(s, step, concurrency, id);
  }

  /** Where the calls and stops of the next state come from. */
  lemma CallsMove(s: Sys, step: Step, concurrency: nat)
    requires Enabled(s, step)
    ensures var s' := Apply(s, step, concurrency);
            forall c :: c in s'.calls && s'.calls[c].Found? ==>
              || (c in s.calls && s.calls[c] == s'.calls[c])
              || (IsOldestNew(s.rows, s'.calls[c].id) && s'.calls[c].snapshot == s.rows[s'.calls[c].id]
                  && s'.rows == s.rows)
  {
  }

  lemma StopsMove(s: Sys, step: Step, concurrency: nat)
    requires Enabled(s, step)
    ensures var s' := Apply(s, step, concurrency);
            forall k :: k in s'.stops ==>
              || (k in s.stops && s'.stops[k].id == s.stops[k].id)
              || (s'.stops[k].id < |s.rows| && s.rows[s'.stops[k].id].infoHash.Some? && s'.rows == s.rows)
  {
  }

  lemma CallsStayOk(s: Sys, step: Step, concurrency: nat)
    requires TableInv(s) && Enabled(s, step) && !LateWrite(s, step)
    ensures CallsOk(Apply(s, step, concurrency))
  {
    var s' := Apply(s, step, concurrency);
    CallsMove(s, step, concurrency);
    hide Apply, Enabled;
    forall c | c in s'.calls && s'.calls[c].Found? ensures FoundNew(s'.rows, s'.calls[c].id, s'.calls[c].snapshot) {
      if c in s.calls && s.calls[c] == s'.calls[c] {
        FoundNewStays(s, step, concurrency, s.calls[c].id, s.calls[c].snapshot);
      } else {
        assert RowOk(s.rows[s'.calls[c].id]);
      }
    }
  }

  lemma StopsStayOk(s: Sys, step: Step, concurrency: nat)
    requires TableInv(s) && Enabled(s, step) && !LateWrite(s, step)
    ensures StopsOk(Apply(s, step, concurrency))
  {
    hide Apply, Enabled, TableInv, LateWrite, Complete;
    var s' := Apply(s, step, concurrency);
    TableInvParts(s);
    StopsMove(s, step, concurrency);
    forall k | k in s'.stops ensures s'.stops[k].id < |s'.rows| && Complete(s'.rows[s'.stops[k].id]) {
      var id := s'.stops[k].id;
      assert id < |s.rows| && RowOk(s.rows[id]);
      CompleteStays(s, step, concurrency, id);
    }
  }

  lemma CompleteStays(s: Sys, step: Step, concurrency: nat, id: nat)
    requires TableInv(s) && Enabled(s, step) && !LateWrite(s, step) && id < |s.rows| && Complete(s.rows[id])
    ensures id < |Apply(s, step, concurrency).rows| && Complete(Apply(s, step, concurrency).rows[id])
  {
    hide Apply, Enabled, TableInv, LateWrite;
    RowsMove(s, step, concurrency, id);
  }

  /** Every step but a late pop keeps rows complete when visible and everything in flight harmless. */
  lemma StepKeepsTable(s: Sys, step: Step, concurrency: nat)
    requires TableInv(s) && Enabled(s, step) && !LateWrite(s, step)
    ensures TableInv(Apply(s, step, concurrency))
  {
    hide *;
    TableInvParts(s);
    RowsStayOk(s, step, concurrency);
    SnapshotsStayOk(s, step, concurrency);
    JobsStayOk(s, step, concurrency);
    CallsStayOk(s, step, concurrency);
    StopsStayOk(s, step, concurrency);
    TableInvParts(Apply(s, step, concurrency));
  }

  lemma TableInvParts(s: Sys)
    ensures TableInv(s) <==> RowsOk(s.rows) && SnapshotsOk(s) && JobsOk(s) && CallsOk(s) && StopsOk(s)
  {
  }

  // --- Ranks ---

  /** Whether a step takes some row back to an earlier status. */
  predicate LowersRank(s: Sys, step: Step, concurrency: nat)
    requires Enabled(s, step)
  {
    exists k :: 0 <= k < |s.rows| && k < |Apply(s, step, concurrency).rows|
                && Rank(Apply(s, step, concurrency).rows[k].status) < Rank(s.rows[k].status)
  }

  /** Before the first late pop, a step that is none itself lowers no rank, and raises one where it changes a
      status. */
  lemma StepRaisesRank(s: Sys, step: Step, concurrency: nat, k: nat)
    requires TableInv(s) && Enabled(s, step) && !LateWrite(s, step) && k < |s.rows|
    ensures var s' := Apply(s, step, concurrency);
            && |s.rows| <= |s'.rows|
            && Rank(s.rows[k].status) <= Rank(s'.rows[k].status)
            && (s.rows[k].status != s'.rows[k].status ==> Rank(s.rows[k].status) < Rank(s'.rows[k].status))
  {
    hide Apply, Enabled, TableInv, LateWrite;
    RowsMove(s, step, concurrency, k);
  }

  /** A PROCESSING write over a row that is already READY or in error. */
  predicate LateMark(s: Sys, step: Step) {
    step.Mark? && step.job.id < |s.rows| && Rank(s.rows[step.job.id].status) == 3
  }

  lemma LateLowers(s: Sys, step: Step, concurrency: nat)
    requires Enabled(s, step) && (LateWrite(s, step) || LateMark(s, step))
    ensures LowersRank(s, step, concurrency)
  {
    var id := if step.CallWrite? then s.calls[step.call].id else step.job.id;
    assert Rank(Apply(s, step, concurrency).rows[id].status) < Rank(s.rows[id].status);
  }

  lemma OtherWritesLowerNone(s: Sys, step: Step, concurrency: nat, k: nat)
    requires Enabled(s, step) && !LateWrite(s, step) && !LateMark(s, step)
    requires k < |s.rows| && k in Writes(s, step)
    ensures k < |Apply(s, step, concurrency).rows|
    ensures Rank(s.rows[k].status) <= Rank(Apply(s, step, concurrency).rows[k].status)
  {
  }

  lemma OthersLowerNone(s: Sys, step: Step, concurrency: nat)
    requires Enabled(s, step) && !LateWrite(s, step) && !LateMark(s, step)
    ensures !LowersRank(s, step, concurrency)
  {
    RowsKept(s, step, concurrency);
    hide Apply, Enabled, LateWrite, LateMark, Rank, Writes;
    forall k | 0 <= k < |s.rows| && k < |Apply(s, step, concurrency).rows|
      ensures Rank(s.rows[k].status) <= Rank(Apply(s, step, concurrency).rows[k].status)
    {
      if k in Writes(s, step) {
        OtherWritesLowerNone(s, step, concurrency, k);
      }
    }
  }

  /** In every state: exactly the late pops, and PROCESSING writes over a finished row, lower a rank. */
  lemma LowersRankIff(s: Sys, step: Step, concurrency: nat)
    requires Enabled(s, step)
    ensures LowersRank(s, step, concurrency) <==> LateWrite(s, step) || LateMark(s, step)
  {
    hide *;
    if LateWrite(s, step) || LateMark(s, step) {
      LateLowers(s, step, concurrency);
    } else {
      OthersLowerNone(s, step, concurrency);
    }
  }

  /** Before the first late pop no PROCESSING write is late. */
  lemma NoLateMark(s: Sys, step: Step)
    requires TableInv(s) && Enabled(s, step)
    ensures !LateMark(s, step)
  {
    if step.Mark? {
      assert Stale(s.rows, step.job.id, s.tasks[step.job]);
    }
  }
}
