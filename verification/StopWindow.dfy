/** `stopTorrent`: hide the row, destroy the torrent, show the row again. */
module StopWindow {
  import opened Wrappers
  import opened Torrents
  import opened Indexer
  import Overlap
  import Pipeline

  /** How the destroy turns out: done; rejected; or, for a torrent not in the client, never settled. */
  datatype Destroyed = Ok | Rejected | Never

  /** What the caller sees: done, an exception (also when no row has the hash), or nothing, ever. */
  datatype StopOutcome = Stopped | Threw | Hangs

  class StreamarrService {
    const torrentService: TorrentsService

    constructor (torrentService: TorrentsService)
      ensures this.torrentService == torrentService
    {
      this.torrentService := torrentService;
    }

    /** Without interference: on success the table is what it was with the row visible, so a visible row's
        table is restored; on any failure after the hide the row stays hidden. */
    method StopTorrent(infoHash: string, destroyed: Destroyed) returns (outcome: StopOutcome)
      modifies torrentService
      ensures var before := old(torrentService.rows);
              var torrentDb := FindOneByInfoHash(before, infoHash);
              if torrentDb.None? then outcome == Threw && torrentService.rows == before
              else
                && (outcome == Stopped <==> destroyed == Ok) && (outcome == Hangs <==> destroyed == Never)
                && torrentService.rows
                   == before[torrentDb.value := before[torrentDb.value].(isVisible := destroyed == Ok)]
                && (destroyed == Ok && before[torrentDb.value].isVisible ==> torrentService.rows == before)
    {
      var torrentDb := FindOneByInfoHash(torrentService.rows, infoHash);
      if torrentDb.None? {
        return Threw;
      }
      torrentService.SetVisible(torrentDb.value, false);
      match destroyed {
        case Rejected => return Threw;
        case Never => return Hangs;
        case Ok =>
      }
      torrentService.SetVisible(torrentDb.value, true);
      outcome := Stopped;
    }
  }

  // --- Reads during the window ---

  /** A lookup of `hash` would find a visible row. */
  predicate Shows(rows: Table, hash: string) {
    exists k :: 0 <= k < |rows| && rows[k].isVisible && rows[k].infoHash == Some(hash)
  }

  /** Rows get their info hash with their result: what is not that far has none, in the table and in flight. */
  predicate Anonymous(s: Sys) {
    && (forall k :: 0 <= k < |s.rows| && s.rows[k].status in {NEW, QUEUED} ==> s.rows[k].infoHash.None?)
    && (forall c :: c in s.calls && s.calls[c].Found? ==> s.calls[c].snapshot.infoHash.None?)
    && (forall job :: job in s.claimed ==> s.claimed[job].infoHash.None?)
    && (forall job :: job in s.tasks ==> s.tasks[job].infoHash.None?)
  }

  lemma StepKeepsRowsAnonymous(s: Sys, step: Step, concurrency: nat)
    requires Anonymous(s) && Enabled(s, step)
    ensures var s' := Apply(s, step, concurrency);
            forall k :: 0 <= k < |s'.rows| && s'.rows[k].status in {NEW, QUEUED} ==> s'.rows[k].infoHash.None?
  {
    RowsKept(s, step, concurrency);
    RowsAdded(s, step, concurrency);
    hide Apply, Enabled, Writes;
    var s' := Apply(s, step, concurrency);
    forall k | 0 <= k < |s'.rows| && s'.rows[k].status in {NEW, QUEUED} ensures s'.rows[k].infoHash.None? {
      if k < |s.rows| && k in Writes(s, step) {
        WritesKeepAnonymous(s, step, concurrency, k);
      }
    }
  }

  lemma WritesKeepAnonymous(s: Sys, step: Step, concurrency: nat, k: nat)
    requires Anonymous(s) && Enabled(s, step) && k < |s.rows| && k in Writes(s, step)
    ensures k < |Apply(s, step, concurrency).rows|
    ensures var r := Apply(s, step, concurrency).rows[k]; r.status in {NEW, QUEUED} ==> r.infoHash.None?
  {
  }

  lemma StepKeepsAnonymous(s: Sys, step: Step, concurrency: nat)
    requires Anonymous(s) && Enabled(s, step)
    ensures Anonymous(Apply(s, step, concurrency))
  {
    StepKeepsRowsAnonymous(s, step, concurrency);
    CallsMove(s, step, concurrency);
    JobsMove(s, step, concurrency);
    Pipeline.ClaimsKnownRows(s, step);
    hide Apply, Enabled;
  }

  lemma {:induction false} RunKeepsAnonymous(s: Sys, steps: seq<Step>, concurrency: nat)
    requires Anonymous(s) && Legal(s, steps, concurrency)
    ensures Anonymous(Exec(s, steps, concurrency))
    decreases |steps|
  {
    if steps != [] {
      StepKeepsAnonymous(s, steps[0], concurrency);
      RunKeepsAnonymous(Apply(s, steps[0], concurrency), steps[1..], concurrency);
    }
  }

  /** The steps after which a lookup of `hash` can succeed: another stop shows a row with it, an indexing
      comes out with it, or it is the hash of a new free torrent. */
  predicate Reveals(s: Sys, step: Step, hash: string) {
    match step
    case StopShow(k) =>
      k in s.stops && s.stops[k].id < |s.rows| && s.rows[s.stops[k].id].infoHash == Some(hash)
    case Finish(_, info) => HasEnoughInfoForReadyStatus(info) && info.value.infoHash == Some(hash)
    case FreeCreate(h, _, _) => h == hash
    case _ => false
  }

  lemma RevealsShows(s: Sys, step: Step, concurrency: nat, hash: string)
    requires Enabled(s, step) && Reveals(s, step, hash)
    ensures Shows(Apply(s, step, concurrency).rows, hash)
  {
    var id := match step
              case StopShow(k) => s.stops[k].id
              case Finish(job, _) => job.id
              case _ => |s.rows|;
    var r := Apply(s, step, concurrency).rows[id];
    assert r.isVisible && r.infoHash == Some(hash);
  }

  lemma OthersRevealNothing(s: Sys, step: Step, concurrency: nat, hash: string)
    requires Anonymous(s) && Enabled(s, step) && !Reveals(s, step, hash) && !Shows(s.rows, hash)
    ensures !Shows(Apply(s, step, concurrency).rows, hash)
  {
    RowsKept(s, step, concurrency);
    var rows := Apply(s, step, concurrency).rows;
    forall k | 0 <= k < |rows| ensures !(rows[k].isVisible && rows[k].infoHash == Some(hash)) {
      if k >= |s.rows| {
        AddedRowsRevealNothing(s, step, concurrency, hash, k);
      } else if k in Writes(s, step) {
        WritesRevealNothing(s, step, concurrency, hash, k);
      } else {
        assert !(s.rows[k].isVisible && s.rows[k].infoHash == Some(hash));
      }
    }
  }

  lemma AddedRowsRevealNothing(s: Sys, step: Step, concurrency: nat, hash: string, k: nat)
    requires Enabled(s, step) && !Reveals(s, step, hash) && |s.rows| <= k < |Apply(s, step, concurrency).rows|
    ensures var r := Apply(s, step, concurrency).rows[k]; !(r.isVisible && r.infoHash == Some(hash))
  {
  }

  lemma WritesRevealNothing(s: Sys, step: Step, concurrency: nat, hash: string, k: nat)
    requires Anonymous(s) && Enabled(s, step) && !Reveals(s, step, hash) && !Shows(s.rows, hash)
    requires k < |s.rows| && k in Writes(s, step)
    ensures k < |Apply(s, step, concurrency).rows|
    ensures var r := Apply(s, step, concurrency).rows[k]; !(r.isVisible && r.infoHash == Some(hash))
  {
    assert !(s.rows[k].isVisible && s.rows[k].infoHash == Some(hash));
    hide ApplyCall, ApplyJob, ApplyStop, ApplyRest, Enabled, Anonymous, Shows, Reveals;
    if IsCallStep(step) {
      CallsRevealNothing(s, step, concurrency, hash, k);
    } else if IsJobStep(step) {
      JobsRevealNothing(s, step, hash, k);
    } else {
      StopsRevealNothing(s, step, hash, k);
    }
  }

  lemma CallsRevealNothing(s: Sys, step: Step, concurrency: nat, hash: string, k: nat)
    requires Anonymous(s) && Enabled(s, step) && IsCallStep(step) && k < |s.rows| && k in Writes(s, step)
    ensures k < |ApplyCall(s, step, concurrency).rows|
    ensures ApplyCall(s, step, concurrency).rows[k].infoHash.None?
  {
  }

  lemma JobsRevealNothing(s: Sys, step: Step, hash: string, k: nat)
    requires Anonymous(s) && Enabled(s, step) && IsJobStep(step) && !Reveals(s, step, hash)
    requires k < |s.rows| && k in Writes(s, step) && !(s.rows[k].isVisible && s.rows[k].infoHash == Some(hash))
    ensures k < |ApplyJob(s, step).rows|
    ensures var r := ApplyJob(s, step).rows[k]; !(r.isVisible && r.infoHash == Some(hash))
  {
  }

  lemma StopsRevealNothing(s: Sys, step: Step, hash: string, k: nat)
    requires Enabled(s, step) && !IsCallStep(step) && !IsJobStep(step) && !Reveals(s, step, hash)
    requires k < |s.rows| && k in Writes(s, step)
    ensures IsStopStep(step) && k < |ApplyStop(s, step).rows|
    ensures var r := ApplyStop(s, step).rows[k]; !(r.isVisible && r.infoHash == Some(hash))
  {
  }

  lemma ShowsIff(s: Sys, step: Step, concurrency: nat, hash: string)
    requires Anonymous(s) && Enabled(s, step) && !Shows(s.rows, hash)
    ensures Shows(Apply(s, step, concurrency).rows, hash) <==> Reveals(s, step, hash)
  {
    hide *;
    if Reveals(s, step, hash) {
      RevealsShows(s, step, concurrency, hash);
    } else {
      OthersRevealNothing(s, step, concurrency, hash);
    }
  }

  /** No row but `id` is visible with this hash. */
  predicate Alone(rows: Table, id: nat, hash: string) {
    forall k :: 0 <= k < |rows| && rows[k].isVisible && rows[k].infoHash == Some(hash) ==> k == id
  }

  lemma HidesIff(s: Sys, stop: nat, concurrency: nat, hash: string)
    requires Enabled(s, StopHide(stop))
    ensures Shows(Apply(s, StopHide(stop), concurrency).rows, hash) <==> !Alone(s.rows, s.stops[stop].id, hash)
  {
    var rows, id := Apply(s, StopHide(stop), concurrency).rows, s.stops[stop].id;
    assert !rows[id].isVisible;
    forall k | 0 <= k < |rows| && k != id ensures rows[k] == s.rows[k] {}
    if !Alone(s.rows, id, hash) {
      var k :| 0 <= k < |s.rows| && s.rows[k].isVisible && s.rows[k].infoHash == Some(hash) && k != id;
      assert rows[k].isVisible;
    }
  }

  /** Nothing in the first `n` steps of the window reveals the hash. */
  predicate Undisturbed(s: Sys, window: seq<Step>, n: nat, concurrency: nat, hash: string)
    requires Legal(s, window, concurrency) && n <= |window|
  {
    forall j :: 0 <= j < n ==> !Reveals(StateAt(s, window, j, concurrency), window[j], hash)
  }

  lemma {:induction false} ClosedIff(s: Sys, window: seq<Step>, n: nat, concurrency: nat, hash: string)
    requires Anonymous(s) && Legal(s, window, concurrency) && n <= |window|
    ensures Anonymous(StateAt(s, window, n, concurrency))
    ensures (forall j :: 0 <= j <= n ==> !Shows(StateAt(s, window, j, concurrency).rows, hash))
            <==> !Shows(s.rows, hash) && Undisturbed(s, window, n, concurrency, hash)
    decreases n
  {
    if n > 0 {
      ClosedIff(s, window, n - 1, concurrency, hash);
      StateAtNext(s, window, n - 1, concurrency);
      var t := StateAt(s, window, n - 1, concurrency);
      hide Apply, Enabled, Reveals, Anonymous, Shows;
      StepKeepsAnonymous(t, window[n - 1], concurrency);
      if !Shows(t.rows, hash) {
        ShowsIff(t, window[n - 1], concurrency, hash);
      }
    } else {
      assert StateAt(s, window, 0, concurrency) == s;
    }
  }

  // --- A read of its own, besides those of the run ---

  predicate Mentions(step: Step, read: nat) {
    match step
    case ReadFind(r, _) => r == read
    case ReadStart(r) => r == read
    case ReadEnd(r) => r == read
    case _ => false
  }

  predicate Unused(window: seq<Step>, read: nat) {
    forall j :: 0 <= j < |window| ==> !Mentions(window[j], read)
  }

  /** The system with one more read in it. */
  function Plus(s: Sys, read: nat, entry: Read): Sys {
    s.(reading := s.reading[read := entry])
  }

  lemma StepIgnoresRead(s: Sys, step: Step, concurrency: nat, read: nat, entry: Read)
    requires !Mentions(step, read) && read !in s.reading
    ensures Enabled(Plus(s, read, entry), step) <==> Enabled(s, step)
    ensures Enabled(s, step) ==>
              && Apply(Plus(s, read, entry), step, concurrency) == Plus(Apply(s, step, concurrency), read, entry)
              && read !in Apply(s, step, concurrency).reading
  {
    EnabledIgnoresRead(s, step, read, entry);
    if Enabled(s, step) {
      hide ApplyCall, ApplyJob, ApplyStop, ApplyRest, Enabled;
      if IsCallStep(step) {
        CallIgnoresRead(s, step, concurrency, read, entry);
      } else if IsJobStep(step) {
        JobIgnoresRead(s, step, read, entry);
      } else if IsStopStep(step) {
        StopIgnoresRead(s, step, read, entry);
      } else {
        RestIgnoresRead(s, step, read, entry);
      }
    }
  }

  lemma EnabledIgnoresRead(s: Sys, step: Step, read: nat, entry: Read)
    requires !Mentions(step, read)
    ensures Enabled(Plus(s, read, entry), step) <==> Enabled(s, step)
  {
  }

  lemma CallIgnoresRead(s: Sys, step: Step, concurrency: nat, read: nat, entry: Read)
    requires Enabled(s, step) && Enabled(Plus(s, read, entry), step) && IsCallStep(step) && read !in s.reading
    ensures ApplyCall(Plus(s, read, entry), step, concurrency) == Plus(ApplyCall(s, step, concurrency), read, entry)
    ensures read !in ApplyCall(s, step, concurrency).reading
  {
    var t := Plus(s, read, entry);
    assert t.rows == s.rows && t.calls == s.calls && t.isQueueJobRunning == s.isQueueJobRunning;
  }

  lemma JobIgnoresRead(s: Sys, step: Step, read: nat, entry: Read)
    requires Enabled(s, step) && Enabled(Plus(s, read, entry), step) && IsJobStep(step) && read !in s.reading
    ensures ApplyJob(Plus(s, read, entry), step) == Plus(ApplyJob(s, step), read, entry)
    ensures read !in ApplyJob(s, step).reading
  {
  }

  lemma StopIgnoresRead(s: Sys, step: Step, read: nat, entry: Read)
    requires Enabled(s, step) && Enabled(Plus(s, read, entry), step) && IsStopStep(step) && read !in s.reading
    ensures ApplyStop(Plus(s, read, entry), step) == Plus(ApplyStop(s, step), read, entry)
    ensures read !in ApplyStop(s, step).reading
  {
  }

  lemma RestIgnoresRead(s: Sys, step: Step, read: nat, entry: Read)
    requires !Mentions(step, read) && read !in s.reading && Enabled(s, step)
    requires !IsCallStep(step) && !IsJobStep(step) && !IsStopStep(step)
    ensures Enabled(Plus(s, read, entry), step)
    ensures ApplyRest(Plus(s, read, entry), step) == Plus(ApplyRest(s, step), read, entry)
    ensures read !in ApplyRest(s, step).reading
  {
  }

  lemma {:induction false} RunIgnoresRead(s: Sys, steps: seq<Step>, concurrency: nat, read: nat, entry: Read)
    requires Unused(steps, read) && read !in s.reading
    ensures Legal(Plus(s, read, entry), steps, concurrency) <==> Legal(s, steps, concurrency)
    ensures Legal(s, steps, concurrency) ==>
              && Exec(Plus(s, read, entry), steps, concurrency) == Plus(Exec(s, steps, concurrency), read, entry)
              && read !in Exec(s, steps, concurrency).reading
    decreases |steps|
  {
    if steps != [] {
      assert !Mentions(steps[0], read);
      hide Apply, Enabled, Plus, Mentions;
      StepIgnoresRead(s, steps[0], concurrency, read, entry);
      if Enabled(s, steps[0]) {
        RunIgnoresRead(Apply(s, steps[0], concurrency), steps[1..], concurrency, read, entry);
      }
    }
  }

  /** The window with a read in it that begins at `from` and starts the torrent at `to`. */
  function WithRead(window: seq<Step>, from: nat, to: nat, read: nat, hash: string): seq<Step>
    requires from <= to <= |window|
  {
    window[..from] + ([ReadFind(read, hash)] + (window[from..to] + [ReadStart(read)]))
  }

  lemma {:induction false} SegmentLeads(s: Sys, window: seq<Step>, from: nat, to: nat, concurrency: nat)
    requires Legal(s, window, concurrency) && from <= to <= |window|
    ensures Legal(StateAt(s, window, from, concurrency), window[from..to], concurrency)
    ensures Exec(StateAt(s, window, from, concurrency), window[from..to], concurrency)
            == StateAt(s, window, to, concurrency)
    decreases |window| - from
  {
    var segment := window[from..to];
    if from < to {
      StateAtNext(s, window, from, concurrency);
      SegmentLeads(s, window, from + 1, to, concurrency);
      hide Apply, Enabled, StateAt;
      assert segment[0] == window[from] && segment[1..] == window[from + 1..to];
    }
  }

  lemma {:induction false} StepAfterRun(s: Sys, steps: seq<Step>, step: Step, concurrency: nat)
    ensures Legal(s, steps + [step], concurrency)
            <==> Legal(s, steps, concurrency) && Enabled(Exec(s, steps, concurrency), step)
    decreases |steps|
  {
    hide Apply, Enabled;
    var longer := steps + [step];
    if steps == [] {
      assert longer == [step] && longer[1..] == [];
    } else {
      assert longer[1..] == steps[1..] + [step];
      if Enabled(s, steps[0]) {
        StepAfterRun(Apply(s, steps[0], concurrency), steps[1..], step, concurrency);
      }
    }
  }

  /** Such a read is possible exactly when a row with the hash is visible as it begins and the torrent is not
      in the client when it would start it. */
  lemma WithReadIff(s: Sys, window: seq<Step>, from: nat, to: nat, concurrency: nat, read: nat, hash: string)
    requires Legal(s, window, concurrency) && from <= to <= |window| && Unused(window, read)
    ensures Legal(s, WithRead(window, from, to, read, hash), concurrency)
            <==> && read !in StateAt(s, window, from, concurrency).reading
                 && Shows(StateAt(s, window, from, concurrency).rows, hash)
                 && hash !in StateAt(s, window, to, concurrency).client
  {
    hide Apply, Enabled, StateAt, Shows, Mentions, Legal, Exec;
    var t, segment := StateAt(s, window, from, concurrency), window[from..to];
    Branches(s, window, from, [ReadFind(read, hash)] + (segment + [ReadStart(read)]), concurrency);
    SegmentLeads(s, window, from, to, concurrency);
    assert Unused(segment, read) by {
      forall j | 0 <= j < |segment| ensures !Mentions(segment[j], read) {
        assert segment[j] == window[from + j];
      }
    }
    ReadAroundIff(t, segment, concurrency, read, hash);
  }

  lemma FindStep(s: Sys, concurrency: nat, read: nat, hash: string)
    ensures Enabled(s, ReadFind(read, hash)) <==> read !in s.reading
    ensures read !in s.reading ==>
              Apply(s, ReadFind(read, hash), concurrency)
              == Plus(s, read, Read(hash, FindOneVisibleByInfoHash(s.rows, hash)))
  {
  }

  lemma StartStep(s: Sys, concurrency: nat, read: nat, entry: Read)
    ensures Enabled(Plus(s, read, entry), ReadStart(read)) <==> entry.row.Some? && entry.hash !in s.client
  {
  }

  /** The same for a run that is all between the read's beginning and its start. */
  lemma ReadAroundIff(s: Sys, steps: seq<Step>, concurrency: nat, read: nat, hash: string)
    requires Legal(s, steps, concurrency) && Unused(steps, read)
    ensures Legal(s, [ReadFind(read, hash)] + (steps + [ReadStart(read)]), concurrency)
            <==> read !in s.reading && Shows(s.rows, hash) && hash !in Exec(s, steps, concurrency).client
  {
    hide Apply, Enabled, Plus, FindOneVisibleByInfoHash, Unused;
    var entry, more := Read(hash, FindOneVisibleByInfoHash(s.rows, hash)), steps + [ReadStart(read)];
    var run := [ReadFind(read, hash)] + more;
    assert run[0] == ReadFind(read, hash) && run[1..] == more;
    FindStep(s, concurrency, read, hash);
    if read !in s.reading {
      assert Legal(s, run, concurrency) <==> Legal(Plus(s, read, entry), more, concurrency);
      hide Legal, Exec;
      RunIgnoresRead(s, steps, concurrency, read, entry);
      StepAfterRun(Plus(s, read, entry), steps, ReadStart(read), concurrency);
      StartStep(Exec(s, steps, concurrency), concurrency, read, entry);
    } else {
      assert !Legal(s, run, concurrency);
    }
  }

  /** At some moment of the window a read of its own could begin, and then start the torrent. */
  ghost predicate AdmitsLateRead(s: Sys, window: seq<Step>, concurrency: nat, hash: string) {
    exists from: nat, to: nat, read: nat :: from <= to <= |window| && Unused(window, read)
      && Legal(s, WithRead(window, from, to, read, hash), concurrency)
  }

  lemma {:induction false} Above(used: set<nat>) returns (read: nat)
    ensures forall r :: r in used ==> r < read
  {
    if used == {} {
      read := 0;
    } else {
      var r :| r in used;
      read := Above(used - {r});
      assert used == used - {r} + {r};
      if read <= r {
        read := r + 1;
      }
    }
  }

  lemma {:induction false} AboveMentioned(window: seq<Step>) returns (read: nat)
    ensures forall r :: r >= read ==> Unused(window, r)
  {
    if window == [] {
      read := 0;
    } else {
      read := AboveMentioned(window[1..]);
      var step := window[0];
      if (step.ReadFind? || step.ReadStart? || step.ReadEnd?) && read <= step.read {
        read := step.read + 1;
      }
      forall r | r >= read ensures Unused(window, r) {
        assert Unused(window[1..], r);
        forall j | 0 <= j < |window| ensures !Mentions(window[j], r) {
          if j > 0 { assert window[j] == window[1..][j - 1]; }
        }
      }
    }
  }

  lemma LateReadWhereShown(s: Sys, window: seq<Step>, from: nat, to: nat, concurrency: nat, hash: string)
    requires Legal(s, window, concurrency) && from <= to <= |window|
    requires Shows(StateAt(s, window, from, concurrency).rows, hash)
    requires hash !in StateAt(s, window, to, concurrency).client
    ensures AdmitsLateRead(s, window, concurrency, hash)
  {
    var t := StateAt(s, window, from, concurrency);
    var read := Above(t.reading.Keys);
    var unused := AboveMentioned(window);
    if read < unused {
      read := unused;
    }
    hide Shows, StateAt, WithRead, Mentions;
    WithReadIff(s, window, from, to, concurrency, read, hash);
    assert Legal(s, WithRead(window, from, to, read, hash), concurrency);
  }

  /** By some moment of the window, when the torrent is not in the client, the hash has been shown: some other
      row was visible with it at the hide, or a step since revealed it. */
  predicate Exposed(s: Sys, alone: bool, window: seq<Step>, n: nat, concurrency: nat, hash: string)
    requires Legal(s, window, concurrency) && n <= |window|
  {
    && hash !in StateAt(s, window, n, concurrency).client
    && !(alone && Undisturbed(s, window, n, concurrency, hash))
  }

  lemma LateReadIsExposed(s: Sys, window: seq<Step>, concurrency: nat, hash: string) returns (n: nat)
    requires Anonymous(s) && Legal(s, window, concurrency) && AdmitsLateRead(s, window, concurrency, hash)
    ensures n <= |window| && Exposed(s, !Shows(s.rows, hash), window, n, concurrency, hash)
  {
    var from: nat, to: nat, read: nat :| from <= to <= |window| && Unused(window, read)
      && Legal(s, WithRead(window, from, to, read, hash), concurrency);
    hide StateAt, Shows, Anonymous, Undisturbed, WithRead, Reveals;
    WithReadIff(s, window, from, to, concurrency, read, hash);
    ClosedIff(s, window, to, concurrency, hash);
    n := to;
  }

  lemma ExposedAdmits(s: Sys, window: seq<Step>, n: nat, concurrency: nat, hash: string)
    requires Anonymous(s) && Legal(s, window, concurrency) && n <= |window|
    requires Exposed(s, !Shows(s.rows, hash), window, n, concurrency, hash)
    ensures AdmitsLateRead(s, window, concurrency, hash)
  {
    hide StateAt, Shows, Anonymous, Undisturbed, AdmitsLateRead, Reveals;
    ClosedIff(s, window, n, concurrency, hash);
    var from :| 0 <= from <= n && Shows(StateAt(s, window, from, concurrency).rows, hash);
    LateReadWhereShown(s, window, from, n, concurrency, hash);
  }

  /** In every run: a read that begins inside the window, from the hide on, can start the torrent if and only
      if at some moment the torrent is not in the client, as after the stop's own destroy, and by then a row
      other than the hidden one has been visible with its hash: at the hide already, or made so since by another
      stop, an indexing or a new free torrent. */
  lemma LateReadIff(
      now: nat, rows: Table, before: seq<Step>, stop: nat, window: seq<Step>, concurrency: nat, hash: string)
    requires RowsOk(rows) && Legal(Start(now, rows), before, concurrency)
    requires var s := Exec(Start(now, rows), before, concurrency);
             Enabled(s, StopHide(stop)) && Legal(Apply(s, StopHide(stop), concurrency), window, concurrency)
    ensures var s := Exec(Start(now, rows), before, concurrency);
            var hidden := Apply(s, StopHide(stop), concurrency);
            AdmitsLateRead(hidden, window, concurrency, hash)
            <==> exists n :: 0 <= n <= |window|
                             && Exposed(hidden, Alone(s.rows, s.stops[stop].id, hash), window, n, concurrency, hash)
  {
    var s := Exec(Start(now, rows), before, concurrency);
    var hidden := Apply(s, StopHide(stop), concurrency);
    assert stop in s.stops;
    hide *;
    StartIsAnonymous(now, rows);
    RunKeepsAnonymous(Start(now, rows), before, concurrency);
    StepKeepsAnonymous(s, StopHide(stop), concurrency);
    HidesIff(s, stop, concurrency, hash);
    if AdmitsLateRead(hidden, window, concurrency, hash) {
      var n := LateReadIsExposed(hidden, window, concurrency, hash);
    }
    forall n | 0 <= n <= |window|
               && Exposed(hidden, Alone(s.rows, s.stops[stop].id, hash), window, n, concurrency, hash)
      ensures AdmitsLateRead(hidden, window, concurrency, hash)
    {
      ExposedAdmits(hidden, window, n, concurrency, hash);
    }
  }

  lemma StartIsAnonymous(now: nat, rows: Table)
    requires RowsOk(rows)
    ensures Anonymous(Start(now, rows))
  {
    forall k | 0 <= k < |rows| && rows[k].status in {NEW, QUEUED} ensures rows[k].infoHash.None? {
      assert RowOk(rows[k]);
    }
  }

  /** The read has found a row with this hash, and starts its torrent if that is not in the client. */
  predicate HasFound(s: Sys, read: nat, hash: string) {
    read in s.reading && s.reading[read].hash == hash && s.reading[read].row.Some?
  }

  lemma LookupsMove(s: Sys, step: Step, concurrency: nat)
    requires Enabled(s, step)
    ensures Apply(s, step, concurrency).reading ==
            if step.ReadFind? then
              s.reading[step.read := Read(step.wanted, FindOneVisibleByInfoHash(s.rows, step.wanted))]
            else if step.ReadEnd? then s.reading - {step.read}
            else s.reading
  {
    if !step.ReadFind? && !step.ReadEnd? {
      hide Apply;
      Frames(s, step, concurrency);
    }
  }

  lemma StepFindsNothing(s: Sys, step: Step, concurrency: nat, hash: string, read: nat)
    requires Enabled(s, step) && !Shows(s.rows, hash) && HasFound(Apply(s, step, concurrency), read, hash)
    ensures HasFound(s, read, hash)
  {
    hide Apply;
    LookupsMove(s, step, concurrency);
  }

  lemma {:induction false} FoundBefore(s: Sys, window: seq<Step>, n: nat, concurrency: nat, hash: string, read: nat)
    requires Legal(s, window, concurrency) && n <= |window|
    requires forall j :: 0 <= j < n ==> !Shows(StateAt(s, window, j, concurrency).rows, hash)
    requires HasFound(StateAt(s, window, n, concurrency), read, hash)
    ensures HasFound(s, read, hash)
    decreases n
  {
    if n > 0 {
      StateAtNext(s, window, n - 1, concurrency);
      hide Apply, Enabled, HasFound;
      StepFindsNothing(StateAt(s, window, n - 1, concurrency), window[n - 1], concurrency, hash, read);
      FoundBefore(s, window, n - 1, concurrency, hash, read);
    }
  }

  /** Otherwise any read that starts the torrent at the end of the window had found its row before the hide. */
  lemma StartInWindowLookedUpBefore(
      now: nat, rows: Table, before: seq<Step>, stop: nat, window: seq<Step>, concurrency: nat, hash: string,
      read: nat)
    requires RowsOk(rows) && Legal(Start(now, rows), before, concurrency)
    requires var s := Exec(Start(now, rows), before, concurrency);
             && Enabled(s, StopHide(stop)) && Legal(Apply(s, StopHide(stop), concurrency), window, concurrency)
             && Alone(s.rows, s.stops[stop].id, hash)
             && Undisturbed(Apply(s, StopHide(stop), concurrency), window, |window|, concurrency, hash)
             && var end := Exec(Apply(s, StopHide(stop), concurrency), window, concurrency);
                Enabled(end, ReadStart(read)) && end.reading[read].hash == hash
    ensures HasFound(Exec(Start(now, rows), before, concurrency), read, hash)
  {
    hide *;
    StartIsAnonymous(now, rows);
    RunKeepsAnonymous(Start(now, rows), before, concurrency);
    var s := Exec(Start(now, rows), before, concurrency);
    StepKeepsAnonymous(s, StopHide(stop), concurrency);
    HidesIff(s, stop, concurrency, hash);
    StarterHasFound(Exec(Apply(s, StopHide(stop), concurrency), window, concurrency), read);
    OnlyLookedUpBefore(Apply(s, StopHide(stop), concurrency), window, concurrency, hash, read);
    HideKeepsReads(s, stop, concurrency, hash, read);
  }

  lemma StarterHasFound(s: Sys, read: nat)
    requires Enabled(s, ReadStart(read))
    ensures HasFound(s, read, s.reading[read].hash)
  {
  }

  lemma OnlyLookedUpBefore(s: Sys, window: seq<Step>, concurrency: nat, hash: string, read: nat)
    requires Anonymous(s) && Legal(s, window, concurrency) && !Shows(s.rows, hash)
    requires Undisturbed(s, window, |window|, concurrency, hash) && HasFound(Exec(s, window, concurrency), read, hash)
    ensures HasFound(s, read, hash)
  {
    hide Anonymous, Legal, Shows, HasFound, StateAt, Exec, Reveals;
    ClosedIff(s, window, |window|, concurrency, hash);
    StateAtEnd(s, window, concurrency);
    FoundBefore(s, window, |window|, concurrency, hash, read);
  }

  lemma HideKeepsReads(s: Sys, stop: nat, concurrency: nat, hash: string, read: nat)
    requires Enabled(s, StopHide(stop)) && HasFound(Apply(s, StopHide(stop), concurrency), read, hash)
    ensures HasFound(s, read, hash)
  {
  }

  // --- Two rows with one hash ---

  /** A read starts the torrent; a second row is indexed and comes out with the same hash; a stop hides the first
      row and destroys the torrent; then a read begins, finds the second row and starts the torrent again. */
  function SharedHash(info: TorrentInfo, hash: string): seq<Step> {
    [ReadFind(0, hash), ReadStart(0), Claim({1}), StartIndex(Job(0, 1)), Finish(Job(0, 1), Some(info)),
     StopFind(0, 0), StopHide(0), StopDestroy(0), ReadFind(1, hash), ReadStart(1)]
  }

  /** The torrent runs. */
  function Running(rows: Table, hash: string): Sys {
    Start(0, rows).(reading := map[0 := Read(hash, Some(0))], client := {hash})
  }

  function Indexed(b: Row, info: TorrentInfo): Row {
    b.(magnetURI := info.magnetURI, infoHash := info.infoHash, name := info.name, files := info.files,
       status := READY, isVisible := true)
  }

  /** It runs, and the second row is indexed. */
  function BothIndexed(a: Row, b: Row, info: TorrentInfo, hash: string): Sys {
    Running([a, Indexed(b, info)], hash).(claims := [{1}], started := [1])
  }

  /** The first row is hidden and the torrent destroyed. */
  function Stopped(a: Row, b: Row, info: TorrentInfo, hash: string): Sys {
    BothIndexed(a.(isVisible := false), b, info, hash).(client := {}, stops := map[0 := Destroyed(0, hash)])
  }

  lemma FirstIsFound(a: Row, b: Row, hash: string)
    requires a.isVisible && a.infoHash == Some(hash) && b.infoHash == None
    ensures FindOneVisibleByInfoHash([a, b], hash) == Some(0)
  {
    hide FindOneVisibleByInfoHash;
    assert [a, b][0].isVisible && [a, b][0].infoHash == Some(hash);
  }

  lemma ReadStarts(a: Row, b: Row, info: TorrentInfo, hash: string, end: Sys)
    requires a.isVisible && a.infoHash == Some(hash) && b.infoHash == None
    requires Overlap.Leads(Running([a, b], hash), SharedHash(info, hash), 2, end)
    ensures Overlap.Leads(Start(0, [a, b]), SharedHash(info, hash), 0, end)
  {
    hide Overlap.Leads, FindOneVisibleByInfoHash;
    var steps, s0 := SharedHash(info, hash), Start(0, [a, b]);
    FirstIsFound(a, b, hash);
    var s1 := s0.(reading := map[0 := Read(hash, Some(0))]);
    Overlap.Unroll(s1, steps, 1, Running([a, b], hash), end);
    Overlap.Unroll(s0, steps, 0, s1, end);
  }

  function SecondClaimed(a: Row, b: Row, hash: string): Sys {
    Running([a, b.(status := PROCESSING)], hash).(claims := [{1}], claimed := map[Job(0, 1) := b])
  }

  lemma ClaimSecond(a: Row, b: Row, hash: string)
    requires Complete(a) && b.status == QUEUED
    ensures Enabled(Running([a, b], hash), Claim({1}))
    ensures Apply(Running([a, b], hash), Claim({1}), 1) == SecondClaimed(a, b, hash)
  {
    assert Queued([a, b]) == {1};
    assert Marked([a, b], {1}) == [a, b.(status := PROCESSING)];
    var jobs := JobsFor([a, b], {1}, 0);
    assert forall job :: job in jobs <==> job == Job(0, 1);
    assert jobs == map[Job(0, 1) := b];
  }

  lemma SecondIsIndexed(a: Row, b: Row, info: TorrentInfo, hash: string, end: Sys)
    requires Complete(a) && b.status == QUEUED && HasEnoughInfoForReadyStatus(Some(info))
    requires Overlap.Leads(BothIndexed(a, b, info, hash), SharedHash(info, hash), 5, end)
    ensures Overlap.Leads(Running([a, b], hash), SharedHash(info, hash), 2, end)
  {
    hide Overlap.Leads;
    IndexSecond(a, b, info, hash, end);
    hide Apply, Enabled, Running, SecondClaimed;
    ClaimSecond(a, b, hash);
    Overlap.Unroll(Running([a, b], hash), SharedHash(info, hash), 2, SecondClaimed(a, b, hash), end);
  }

  lemma IndexSecond(a: Row, b: Row, info: TorrentInfo, hash: string, end: Sys)
    requires HasEnoughInfoForReadyStatus(Some(info))
    requires Overlap.Leads(BothIndexed(a, b, info, hash), SharedHash(info, hash), 5, end)
    ensures Overlap.Leads(SecondClaimed(a, b, hash), SharedHash(info, hash), 3, end)
  {
    hide Overlap.Leads;
    var steps, s3 := SharedHash(info, hash), SecondClaimed(a, b, hash);
    var s4 := s3.(claimed := map[], tasks := map[Job(0, 1) := b], started := [1]);
    assert Apply(s3, steps[3], 1) == s4;
    assert Apply(s4, steps[4], 1) == BothIndexed(a, b, info, hash);
    Overlap.Unroll(s4, steps, 4, BothIndexed(a, b, info, hash), end);
    Overlap.Unroll(s3, steps, 3, s4, end);
  }

  lemma FirstIsStopped(a: Row, b: Row, info: TorrentInfo, hash: string, end: Sys)
    requires a.infoHash == Some(hash)
    requires Overlap.Leads(Stopped(a, b, info, hash), SharedHash(info, hash), 8, end)
    ensures Overlap.Leads(BothIndexed(a, b, info, hash), SharedHash(info, hash), 5, end)
  {
    hide Overlap.Leads;
    var steps, s5 := SharedHash(info, hash), BothIndexed(a, b, info, hash);
    var s6 := s5.(stops := map[0 := Located(0, hash)]);
    var s7 := BothIndexed(a.(isVisible := false), b, info, hash).(stops := map[0 := Hidden(0, hash)]);
    Overlap.Unroll(s7, steps, 7, Stopped(a, b, info, hash), end);
    Overlap.Unroll(s6, steps, 6, s7, end);
    Overlap.Unroll(s5, steps, 5, s6, end);
  }

  lemma ReadStartsAgain(a: Row, b: Row, info: TorrentInfo, hash: string) returns (end: Sys)
    requires info.infoHash == Some(hash)
    ensures Overlap.Leads(Stopped(a, b, info, hash), SharedHash(info, hash), 8, end)
    ensures end.client == {hash} && end.stops == map[0 := Destroyed(0, hash)]
  {
    var steps, s8 := SharedHash(info, hash), Stopped(a, b, info, hash);
    assert s8.rows[1].isVisible && s8.rows[1].infoHash == Some(hash);
    var found := FindOneVisibleByInfoHash(s8.rows, hash);
    hide FindOneVisibleByInfoHash;
    var s9 := s8.(reading := s8.reading[1 := Read(hash, found)]);
    end := s9.(client := {hash});
    assert Overlap.Leads(end, steps, 10, end);
    hide Overlap.Leads;
    Overlap.Unroll(s9, steps, 9, end, end);
    Overlap.Unroll(s8, steps, 8, s9, end);
  }

  /** So hiding the row does not keep a later read from starting the torrent that is being stopped: info hashes
      are not unique, and the other row with the hash stays visible. After the stop's own destroy, and before
      the stop shows its row again, the torrent is back in the client. */
  lemma SharedHashDefeatsHiding(a: Row, b: Row, info: TorrentInfo, hash: string)
    requires Complete(a) && a.isVisible && a.infoHash == Some(hash)
    requires b.status == QUEUED && !b.isVisible && b.infoHash == None
    requires HasEnoughInfoForReadyStatus(Some(info)) && info.infoHash == Some(hash)
    ensures RowsOk([a, b]) && Legal(Start(0, [a, b]), SharedHash(info, hash), 1)
    ensures var end := Exec(Start(0, [a, b]), SharedHash(info, hash), 1);
            end.client == {hash} && end.stops == map[0 := Destroyed(0, hash)]
  {
    assert RowsOk([a, b]);
    hide *;
    var end := ReadStartsAgain(a, b, info, hash);
    FirstIsStopped(a, b, info, hash, end);
    SecondIsIndexed(a, b, info, hash, end);
    ReadStarts(a, b, info, hash, end);
    LeadsFromTheStart(Start(0, [a, b]), SharedHash(info, hash), end);
  }

  lemma LeadsFromTheStart(s: Sys, steps: seq<Step>, end: Sys)
    requires Overlap.Leads(s, steps, 0, end)
    ensures Legal(s, steps, 1) && Exec(s, steps, 1) == end
  {
    assert steps[0..] == steps;
  }
}
