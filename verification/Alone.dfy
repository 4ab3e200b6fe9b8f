/** What the steps of the indexing pipeline come to when each operation's steps are taken alone: the same as the
    service's own code does. */
module Alone {
  import opened Wrappers
  import opened Torrents
  import opened Indexer
  import IndexerService

  lemma OneStep(s: Sys, step: Step, concurrency: nat)
    ensures Legal(s, [step], concurrency) <==> Enabled(s, step)
    ensures Enabled(s, step) ==> Exec(s, [step], concurrency) == Apply(s, step, concurrency)
  {
    assert [step][1..] == [];
  }

  lemma FirstStep(s: Sys, steps: seq<Step>, concurrency: nat)
    requires steps != []
    ensures Legal(s, steps, concurrency)
            <==> Enabled(s, steps[0]) && Legal(Apply(s, steps[0], concurrency), steps[1..], concurrency)
    ensures Legal(s, steps, concurrency) ==>
              Exec(s, steps, concurrency) == Exec(Apply(s, steps[0], concurrency), steps[1..], concurrency)
  {
  }

  lemma TwoSteps(s: Sys, first: Step, second: Step, concurrency: nat)
    ensures Legal(s, [first, second], concurrency)
            <==> Enabled(s, first) && Enabled(Apply(s, first, concurrency), second)
    ensures Legal(s, [first, second], concurrency) ==>
              Exec(s, [first, second], concurrency) == Apply(Apply(s, first, concurrency), second, concurrency)
  {
    hide Apply, Enabled;
    assert [first, second][1..] == [second];
    FirstStep(s, [first, second], concurrency);
    if Enabled(s, first) {
      OneStep(Apply(s, first, concurrency), second, concurrency);
    }
  }

  // --- Indexing ---

  /** What a task finds out, as the lookup that decides. */
  function Found(info: Option<TorrentInfo>): IndexerService.Fetch {
    match info
    case None => IndexerService.Null
    case Some(i) => IndexerService.Gives(i, IndexerService.FileSource)
  }

  /** A task that marks its row, as those with an http or magnet url do, and then writes its result or crashes,
      ends as `IndexTorrent` does; and so does one that only writes an error, as for any other url. */
  lemma IndexingAlone(s: Sys, job: Job, info: Option<TorrentInfo>, concurrency: nat)
    requires job in s.tasks && job.id < |s.rows|
    ensures Legal(s, [Mark(job), Finish(job, info)], concurrency)
    ensures var rows := Exec(s, [Mark(job), Finish(job, info)], concurrency).rows;
            && job.id < |rows| && rows == s.rows[job.id := rows[job.id]]
            && IndexerService.Ends(rows[job.id], s.tasks[job], Found(info))
    ensures Legal(s, [Mark(job), Crash(job)], concurrency)
    ensures var rows := Exec(s, [Mark(job), Crash(job)], concurrency).rows;
            && job.id < |rows| && rows == s.rows[job.id := rows[job.id]]
            && IndexerService.Ends(rows[job.id], s.tasks[job], IndexerService.Throws)
    ensures Legal(s, [Finish(job, None)], concurrency)
    ensures Exec(s, [Finish(job, None)], concurrency).rows
            == s.rows[job.id := IndexerService.InError(s.rows[job.id])]
  {
    TwoSteps(s, Mark(job), Finish(job, info), concurrency);
    TwoSteps(s, Mark(job), Crash(job), concurrency);
    OneStep(s, Finish(job, None), concurrency);
    hide Legal, Exec;
    MarkThen(s, job, info, concurrency);
  }

  lemma MarkThen(s: Sys, job: Job, info: Option<TorrentInfo>, concurrency: nat)
    requires job in s.tasks && job.id < |s.rows|
    ensures var marked := s.(rows := s.rows[job.id := s.tasks[job].(status := PROCESSING)]);
            && Enabled(s, Mark(job)) && Apply(s, Mark(job), concurrency) == marked
            && Enabled(marked, Finish(job, info)) && Enabled(marked, Crash(job))
            && Apply(marked, Crash(job), concurrency).rows == marked.rows
            && var rows := Apply(marked, Finish(job, info), concurrency).rows;
               job.id < |rows| && rows == s.rows[job.id := rows[job.id]]
               && IndexerService.Ends(rows[job.id], s.tasks[job], Found(info))
  {
  }

  // --- Popping and claiming ---

  /** A call that finds the flag down and room in the queue moves the row it finds, an oldest NEW one, to QUEUED,
      and is gone with the flag down; any other changes no row and clears the flag, whoever set it. */
  lemma PopAlone(s: Sys, call: nat, id: nat, concurrency: nat)
    requires call !in s.calls && IsOldestNew(s.rows, id)
    ensures !s.isQueueJobRunning && |Queued(s.rows)| < concurrency ==>
              var steps := [CallBegin(call), CallCheck(call), CallFind(call, id), CallWrite(call), CallEnd(call)];
              && Legal(s, steps, concurrency)
              && Exec(s, steps, concurrency)
                 == s.(rows := s.rows[id := s.rows[id].(status := QUEUED)], popped := s.popped + [s.rows[id].createdAt])
    ensures s.isQueueJobRunning || |Queued(s.rows)| >= concurrency ==>
              && Legal(s, [CallBegin(call), CallCheck(call)], concurrency)
              && Exec(s, [CallBegin(call), CallCheck(call)], concurrency) == s.(isQueueJobRunning := false)
  {
    TwoSteps(s, CallBegin(call), CallCheck(call), concurrency);
    if !s.isQueueJobRunning && |Queued(s.rows)| < concurrency {
      PopPasses(s, call, id, concurrency);
    } else {
      assert s.calls[call := Counted(|Queued(s.rows)|)] - {call} == s.calls;
    }
  }

  lemma PopPasses(s: Sys, call: nat, id: nat, concurrency: nat)
    requires call !in s.calls && IsOldestNew(s.rows, id)
    requires !s.isQueueJobRunning && |Queued(s.rows)| < concurrency
    ensures var steps := [CallBegin(call), CallCheck(call), CallFind(call, id), CallWrite(call), CallEnd(call)];
            && Legal(s, steps, concurrency)
            && Exec(s, steps, concurrency)
               == s.(rows := s.rows[id := s.rows[id].(status := QUEUED)], popped := s.popped + [s.rows[id].createdAt])
  {
    hide Legal, Exec, Apply, Enabled;
    PopFinds(s, call, id, concurrency);
    PopWrites(s, call, id, concurrency);
    var tail := [CallFind(call, id), CallWrite(call), CallEnd(call)];
    assert tail[1..] == [CallWrite(call), CallEnd(call)];
    FirstStep(AfterCheck(s, call), tail, concurrency);
    var steps := [CallBegin(call), CallCheck(call), CallFind(call, id), CallWrite(call), CallEnd(call)];
    assert steps[1..] == [CallCheck(call)] + tail && ([CallCheck(call)] + tail)[1..] == tail;
    FirstStep(s.(calls := s.calls[call := Counted(|Queued(s.rows)|)]), [CallCheck(call)] + tail, concurrency);
    FirstStep(s, steps, concurrency);
  }

  function AfterCheck(s: Sys, call: nat): Sys {
    s.(isQueueJobRunning := true, calls := s.calls[call := Finding])
  }

  function AfterFind(s: Sys, call: nat, id: nat): Sys
    requires id < |s.rows|
  {
    s.(isQueueJobRunning := true, calls := s.calls[call := Call.Found(id, s.rows[id])])
  }

  /** The first three steps of a call that gets past the flag, and the last two. */
  lemma PopFinds(s: Sys, call: nat, id: nat, concurrency: nat)
    requires call !in s.calls && IsOldestNew(s.rows, id)
    requires !s.isQueueJobRunning && |Queued(s.rows)| < concurrency
    ensures var s1 := s.(calls := s.calls[call := Counted(|Queued(s.rows)|)]);
            var s2 := AfterCheck(s, call);
            && Enabled(s, CallBegin(call)) && Apply(s, CallBegin(call), concurrency) == s1
            && Enabled(s1, CallCheck(call)) && Apply(s1, CallCheck(call), concurrency) == s2
            && Enabled(s2, CallFind(call, id)) && Apply(s2, CallFind(call, id), concurrency) == AfterFind(s, call, id)
  {
    var s1 := s.(calls := s.calls[call := Counted(|Queued(s.rows)|)]);
    assert s1.calls[call := Finding] == AfterCheck(s, call).calls;
    assert AfterCheck(s, call).calls[call := Call.Found(id, s.rows[id])] == AfterFind(s, call, id).calls;
  }

  lemma PopWrites(s: Sys, call: nat, id: nat, concurrency: nat)
    requires call !in s.calls && IsOldestNew(s.rows, id) && !s.isQueueJobRunning
    ensures var s3 := AfterFind(s, call, id);
            && Legal(s3, [CallWrite(call), CallEnd(call)], concurrency)
            && Exec(s3, [CallWrite(call), CallEnd(call)], concurrency)
               == s.(rows := s.rows[id := s.rows[id].(status := QUEUED)], popped := s.popped + [s.rows[id].createdAt])
  {
    var s3 := AfterFind(s, call, id);
    var s4 := s3.(calls := s.calls[call := Written], rows := s.rows[id := s.rows[id].(status := QUEUED)],
                  popped := s.popped + [s.rows[id].createdAt]);
    assert s3.calls[call := Written] == s4.calls && s4.calls - {call} == s.calls;
    assert Apply(s3, CallWrite(call), concurrency) == s4;
    TwoSteps(s3, CallWrite(call), CallEnd(call), concurrency);
  }

  /** A call that fails leaves the flag up, and the next one then does nothing but clear it: a failure costs one
      call. */
  lemma FailureCostsOneCall(s: Sys, call: nat, next: nat, concurrency: nat)
    requires call in s.calls && next !in s.calls && s.isQueueJobRunning
    ensures Enabled(s, CallFail(call))
    ensures var failed := Apply(s, CallFail(call), concurrency);
            && failed.isQueueJobRunning && call !in failed.calls && failed.rows == s.rows
            && Legal(failed, [CallBegin(next), CallCheck(next)], concurrency)
            && Exec(failed, [CallBegin(next), CallCheck(next)], concurrency) == failed.(isQueueJobRunning := false)
  {
    var failed := Apply(s, CallFail(call), concurrency);
    TwoSteps(failed, CallBegin(next), CallCheck(next), concurrency);
    assert failed.calls[next := Counted(|Queued(failed.rows)|)] - {next} == failed.calls;
  }

  /** A consumer's claim marks exactly its rows, and each indexing it starts works on the row as the claim found
      it. */
  lemma ClaimAlone(s: Sys, ids: set<nat>, concurrency: nat)
    requires ids <= Queued(s.rows)
    ensures Enabled(s, Claim(ids))
    ensures var t := Apply(s, Claim(ids), concurrency);
            && |t.rows| == |s.rows| && t.claims == s.claims + [ids]
            && (forall k :: 0 <= k < |s.rows| ==>
                  t.rows[k] == if k in ids then s.rows[k].(status := PROCESSING) else s.rows[k])
            && forall id :: id in ids ==>
                 var job := Job(|s.claims|, id);
                 && Enabled(t, StartIndex(job))
                 && Apply(t, StartIndex(job), concurrency)
                    == t.(claimed := t.claimed - {job}, tasks := t.tasks[job := s.rows[id]],
                          started := t.started + [id])
  {
    Claims(s, ids, concurrency);
    var t := Apply(s, Claim(ids), concurrency);
    hide Apply, Enabled;
    forall id | id in ids
      ensures var job := Job(|s.claims|, id);
              && Enabled(t, StartIndex(job))
              && Apply(t, StartIndex(job), concurrency)
                 == t.(claimed := t.claimed - {job}, tasks := t.tasks[job := s.rows[id]],
                       started := t.started + [id])
    {
      Starts(t, Job(|s.claims|, id), concurrency);
    }
  }

  lemma Claims(s: Sys, ids: set<nat>, concurrency: nat)
    requires ids <= Queued(s.rows)
    ensures Enabled(s, Claim(ids))
    ensures var t := Apply(s, Claim(ids), concurrency);
            && |t.rows| == |s.rows| && t.claims == s.claims + [ids]
            && (forall k :: 0 <= k < |s.rows| ==>
                  t.rows[k] == if k in ids then s.rows[k].(status := PROCESSING) else s.rows[k])
            && (forall id :: id in ids ==>
                  Job(|s.claims|, id) in t.claimed && t.claimed[Job(|s.claims|, id)] == s.rows[id])
  {
  }

  lemma Starts(t: Sys, job: Job, concurrency: nat)
    requires job in t.claimed
    ensures Enabled(t, StartIndex(job))
    ensures Apply(t, StartIndex(job), concurrency)
            == t.(claimed := t.claimed - {job}, tasks := t.tasks[job := t.claimed[job]],
                  started := t.started + [job.id])
  {
  }

  // --- Creating and stopping ---

  /** The rows that feeds and free torrents add, column by column. */
  lemma CreateAlone(s: Sys, guid: string, url: string, hash: string, magnetURI: string, fetched: TorrentInfo,
                    concurrency: nat)
    requires !HasGuid(s.rows, guid) && !HasGuid(s.rows, hash) && fetched.name.Some? && fetched.files.Some?
    ensures Enabled(s, FeedCreate(guid, url)) && Enabled(s, FreeCreate(hash, magnetURI, fetched))
    ensures Apply(s, FeedCreate(guid, url), concurrency).rows
            == s.rows + [Row(guid, url, None, None, None, None, false, NEW, None, s.now)]
    ensures Apply(s, FreeCreate(hash, magnetURI, fetched), concurrency).rows
            == s.rows + [Row(hash, "free-" + hash, Some(hash), fetched.name, fetched.files, Some(magnetURI), true,
                             READY, None, s.now)]
  {
  }

  /** The first two steps of a stop, and the last two. */
  lemma StopHides(s: Sys, stop: nat, id: nat, hash: string, concurrency: nat)
    requires stop !in s.stops && id < |s.rows| && s.rows[id].infoHash == Some(hash)
    ensures var s1 := s.(stops := s.stops[stop := Located(id, hash)]);
            && Enabled(s, StopFind(stop, id)) && Apply(s, StopFind(stop, id), concurrency) == s1
            && Enabled(s1, StopHide(stop)) && Apply(s1, StopHide(stop), concurrency) == AfterHide(s, stop, id, hash)
  {
    var s1 := s.(stops := s.stops[stop := Located(id, hash)]);
    assert s1.stops[stop := Hidden(id, hash)] == AfterHide(s, stop, id, hash).stops;
  }

  function AfterHide(s: Sys, stop: nat, id: nat, hash: string): Sys
    requires id < |s.rows|
  {
    s.(rows := s.rows[id := s.rows[id].(isVisible := false)], stops := s.stops[stop := Hidden(id, hash)])
  }

  lemma StopShows(s: Sys, stop: nat, id: nat, hash: string, concurrency: nat)
    requires stop !in s.stops && id < |s.rows| && hash in s.client
    ensures var s2 := AfterHide(s, stop, id, hash);
            && Legal(s2, [StopDestroy(stop), StopShow(stop)], concurrency)
            && Exec(s2, [StopDestroy(stop), StopShow(stop)], concurrency)
               == s.(rows := s.rows[id := s.rows[id].(isVisible := true)], client := s.client - {hash})
  {
    var s2 := AfterHide(s, stop, id, hash);
    var s3 := s2.(stops := s.stops[stop := Destroyed(id, hash)], client := s.client - {hash});
    assert s2.stops[stop := Destroyed(id, hash)] == s3.stops && s3.stops - {stop} == s.stops;
    assert Apply(s2, StopDestroy(stop), concurrency) == s3;
    TwoSteps(s2, StopDestroy(stop), StopShow(stop), concurrency);
  }

  /** A stop whose torrent is in the client takes it out and leaves its row visible, and nothing else changed. */
  lemma StopAlone(s: Sys, stop: nat, id: nat, hash: string, concurrency: nat)
    requires stop !in s.stops && id < |s.rows| && s.rows[id].infoHash == Some(hash) && hash in s.client
    ensures var steps := [StopFind(stop, id), StopHide(stop), StopDestroy(stop), StopShow(stop)];
            && Legal(s, steps, concurrency)
            && Exec(s, steps, concurrency)
               == s.(rows := s.rows[id := s.rows[id].(isVisible := true)], client := s.client - {hash})
  {
    hide Apply, Enabled, Legal, Exec;
    StopHides(s, stop, id, hash, concurrency);
    StopShows(s, stop, id, hash, concurrency);
    var s1 := s.(stops := s.stops[stop := Located(id, hash)]);
    var tail := [StopHide(stop), StopDestroy(stop), StopShow(stop)];
    assert tail[1..] == [StopDestroy(stop), StopShow(stop)];
    FirstStep(s1, tail, concurrency);
    var steps := [StopFind(stop, id), StopHide(stop), StopDestroy(stop), StopShow(stop)];
    assert steps[1..] == tail;
    FirstStep(s, steps, concurrency);
  }
}
