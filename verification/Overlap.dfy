/** Concrete runs: what goes wrong when `queueNewTorrents` calls overlap and a pop is written too late. */
module Overlap {
  import opened Wrappers
  import opened Torrents
  import opened Indexer
  import Queue
  import Visibility

  /** `steps[k..]` takes `s` to `end`. */
  ghost predicate Leads(s: Sys, steps: seq<Step>, k: nat, end: Sys) {
    k <= |steps| && Legal(s, steps[k..], 1) && Exec(s, steps[k..], 1) == end
  }

  lemma Unroll(s: Sys, steps: seq<Step>, k: nat, t: Sys, end: Sys)
    requires k < |steps| && Enabled(s, steps[k]) && Apply(s, steps[k], 1) == t && Leads(t, steps, k + 1, end)
    ensures Leads(s, steps, k, end)
  {
    assert steps[k..][1..] == steps[k + 1..];
  }

  /** A system whose table is the single row `r`, with these calls in flight. */
  function OneRow(r: Row, flag: bool, calls: map<nat, Call>): Sys {
    Start(0, [r]).(isQueueJobRunning := flag, calls := calls)
  }

  // --- Two calls hold the same row ---

  /** Three calls: the first passes its check; the second finds the flag set, does nothing and clears it on
      its way out; so the third passes too, and both hold the same NEW row. */
  const OVERLAP: seq<Step> := [
    CallBegin(0), CallCheck(0), CallBegin(1), CallCheck(1), CallBegin(2), CallCheck(2), CallFind(0, 0), CallFind(2, 0)]

  /** Where that ends. */
  function BothHold(r: Row): Sys {
    OneRow(r, true, map[0 := Found(0, r), 2 := Found(0, r)])
  }

  lemma OverlapEnds(r: Row)
    requires r.status == NEW
    ensures Leads(OneRow(r, false, map[0 := Finding]), OVERLAP, 4, BothHold(r))
  {
    assert Queued([r]) == {};
    var s4 := OneRow(r, false, map[0 := Finding]);
    var s5 := OneRow(r, false, map[0 := Finding, 2 := Counted(0)]);
    var s6 := OneRow(r, true, map[0 := Finding, 2 := Finding]);
    var s7 := OneRow(r, true, map[0 := Found(0, r), 2 := Finding]);
    var s8 := BothHold(r);
    assert Leads(s8, OVERLAP, 8, s8);
    hide Leads;
    Unroll(s7, OVERLAP, 7, s8, s8);
    Unroll(s6, OVERLAP, 6, s7, s8);
    Unroll(s5, OVERLAP, 5, s6, s8);
    Unroll(s4, OVERLAP, 4, s5, s8);
  }

  lemma OverlapRuns(r: Row)
    requires r.status == NEW
    ensures Leads(Start(0, [r]), OVERLAP, 0, BothHold(r))
  {
    hide Leads;
    assert Queued([r]) == {};
    var s0 := Start(0, [r]);
    var s1 := OneRow(r, false, map[0 := Counted(0)]);
    var s2 := OneRow(r, true, map[0 := Finding]);
    var s3 := OneRow(r, true, map[0 := Finding, 1 := Counted(0)]);
    var s4 := OneRow(r, false, map[0 := Finding]);
    var end := BothHold(r);
    OverlapEnds(r);
    Unroll(s3, OVERLAP, 3, s4, end);
    Unroll(s2, OVERLAP, 2, s3, end);
    Unroll(s1, OVERLAP, 1, s2, end);
    Unroll(s0, OVERLAP, 0, s1, end);
  }

  // --- The row is indexed while one of them still holds it ---

  const INFO := TorrentInfo(Some("hash"), Some("name"), Some([]), Some("magnet:"))

  const INDEXING: seq<Step> := [CallWrite(0), Claim({0}), StartIndex(Job(0, 0)), Finish(Job(0, 0), Some(INFO))]

  /** The row is claimed, and its indexing not yet started. */
  function ClaimedOnce(r: Row): Sys {
    OneRow(r.(status := PROCESSING), true, map[0 := Written, 2 := Found(0, r)])
      .(claimed := map[Job(0, 0) := r.(status := QUEUED)], popped := [r.createdAt], claims := [{0}])
  }

  /** The row is READY, and call 2 still holds the NEW snapshot. */
  function IndexedOnce(r: Row): Sys {
    OneRow(r.(magnetURI := INFO.magnetURI, infoHash := INFO.infoHash, name := INFO.name, files := INFO.files,
              status := READY, isVisible := true),
           true, map[0 := Written, 2 := Found(0, r)]).(popped := [r.createdAt], claims := [{0}], started := [0])
  }

  /** The row is queued, and not yet claimed. */
  function QueuedOnce(r: Row): Sys {
    OneRow(r.(status := QUEUED), true, map[0 := Written, 2 := Found(0, r)]).(popped := [r.createdAt])
  }

  lemma FirstPop(r: Row)
    ensures Enabled(BothHold(r), CallWrite(0)) && Apply(BothHold(r), CallWrite(0), 1) == QueuedOnce(r)
  {
  }

  /** Claiming the only row. */
  lemma ClaimOne(s: Sys, q: Row)
    requires s.rows == [q] && q.status == QUEUED
    ensures Enabled(s, Claim({0}))
    ensures Apply(s, Claim({0}), 1) == s.(rows := [q.(status := PROCESSING)], claims := s.claims + [{0}],
                                          claimed := s.claimed[Job(|s.claims|, 0) := q])
  {
    ClaimOneRow(q, |s.claims|);
    hide Queued, Marked, JobsFor;
    assert s.claimed + map[Job(|s.claims|, 0) := q] == s.claimed[Job(|s.claims|, 0) := q];
  }

  lemma ClaimOneRow(q: Row, run: nat)
    requires q.status == QUEUED
    ensures Queued([q]) == {0} && Marked([q], {0}) == [q.(status := PROCESSING)]
    ensures JobsFor([q], {0}, run) == map[Job(run, 0) := q]
  {
    assert Queued([q]) == {0};
    var jobs := JobsFor([q], {0}, run);
    assert forall job :: job in jobs <==> job == Job(run, 0);
  }

  lemma FirstIndexing(r: Row)
    ensures Leads(ClaimedOnce(r), INDEXING, 2, IndexedOnce(r))
  {
    var s3, end := Apply(ClaimedOnce(r), INDEXING[2], 1), IndexedOnce(r);
    assert Apply(s3, INDEXING[3], 1) == end;
    assert Leads(end, INDEXING, 4, end);
    hide Leads;
    Unroll(s3, INDEXING, 3, end, end);
    Unroll(ClaimedOnce(r), INDEXING, 2, s3, end);
  }

  lemma IndexingRuns(r: Row)
    requires r.status == NEW
    ensures Leads(BothHold(r), INDEXING, 0, IndexedOnce(r))
  {
    FirstIndexing(r);
    FirstPop(r);
    ClaimOne(QueuedOnce(r), r.(status := QUEUED));
    hide Leads, Apply, Enabled;
    Unroll(QueuedOnce(r), INDEXING, 1, ClaimedOnce(r), IndexedOnce(r));
    Unroll(BothHold(r), INDEXING, 0, QueuedOnce(r), IndexedOnce(r));
  }

  // --- The late pop ---

  /** The other call writes its snapshot back, and the row goes through the pipeline again. */
  const REINDEXING: seq<Step> := [CallWrite(2), Claim({0}), StartIndex(Job(1, 0))]

  /** The row is queued for the second time. */
  function QueuedAgain(r: Row): Sys {
    OneRow(r.(status := QUEUED), true, map[0 := Written, 2 := Written])
      .(popped := [r.createdAt, r.createdAt], claims := [{0}], started := [0])
  }

  function ClaimedAgain(r: Row): Sys {
    QueuedAgain(r).(rows := [r.(status := PROCESSING)], claims := [{0}, {0}],
                    claimed := map[Job(1, 0) := r.(status := QUEUED)])
  }

  lemma LatePop(r: Row)
    ensures Enabled(IndexedOnce(r), CallWrite(2)) && Apply(IndexedOnce(r), CallWrite(2), 1) == QueuedAgain(r)
  {
  }

  lemma SecondIndexing(r: Row) returns (end: Sys)
    ensures Leads(ClaimedAgain(r), REINDEXING, 2, end)
    ensures end.started == [0, 0] && end.claims == [{0}, {0}] && end.rows == [r.(status := PROCESSING)]
  {
    end := Apply(ClaimedAgain(r), REINDEXING[2], 1);
    assert Leads(end, REINDEXING, 3, end);
    hide Leads;
    Unroll(ClaimedAgain(r), REINDEXING, 2, end, end);
  }

  lemma ReindexingRuns(r: Row) returns (end: Sys)
    requires r.status == NEW
    ensures Leads(IndexedOnce(r), REINDEXING, 0, end)
    ensures end.started == [0, 0] && end.claims == [{0}, {0}] && end.rows == [r.(status := PROCESSING)]
  {
    end := SecondIndexing(r);
    LatePop(r);
    ClaimOne(QueuedAgain(r), r.(status := QUEUED));
    hide Leads, Apply, Enabled;
    Unroll(QueuedAgain(r), REINDEXING, 1, ClaimedAgain(r), end);
    Unroll(IndexedOnce(r), REINDEXING, 0, QueuedAgain(r), end);
  }

  /** The flag does not keep calls from overlapping, and then a row that was READY and visible falls back to
      PROCESSING, invisible, and is claimed and indexed again. */
  lemma FlagDoesNotExclude(r: Row)
    requires r.status == NEW && !r.isVisible
    ensures Legal(Start(0, [r]), OVERLAP, 1)
    ensures var s := Exec(Start(0, [r]), OVERLAP, 1);
            && Legal(s, INDEXING, 1) && Exec(s, INDEXING, 1) == IndexedOnce(r)
            && Legal(IndexedOnce(r), REINDEXING, 1)
            && var end := Exec(IndexedOnce(r), REINDEXING, 1);
               end.started == [0, 0] && end.claims == [{0}, {0}] && end.rows == [r.(status := PROCESSING)]
  {
    hide Legal, Exec;
    OverlapRuns(r);
    IndexingRuns(r);
    var end := ReindexingRuns(r);
    assert OVERLAP[0..] == OVERLAP && INDEXING[0..] == INDEXING && REINDEXING[0..] == REINDEXING;
  }

  // --- The late pop in the middle of a stop ---

  /** A read starts the torrent; a manual stop hides its row and destroys it; then the other call writes its
      snapshot back, and the stop shows the row again. */
  const RESHOWING: seq<Step> := [
    ReadFind(0, "hash"), ReadStart(0), StopFind(0, 0), StopHide(0), StopDestroy(0), CallWrite(2), StopShow(0)]

  /** The torrent runs, and the stop has found its row. */
  function StopBegun(r: Row): Sys {
    IndexedOnce(r)
      .(reading := map[0 := Read("hash", Some(0))], client := {"hash"}, stops := map[0 := Located(0, "hash")])
  }

  lemma StopBegins(r: Row, end: Sys)
    requires Leads(StopBegun(r), RESHOWING, 3, end)
    ensures Leads(IndexedOnce(r), RESHOWING, 0, end)
  {
    var s0 := IndexedOnce(r);
    assert s0.rows[0].isVisible && s0.rows[0].infoHash == Some("hash");
    var s1 := s0.(reading := map[0 := Read("hash", Some(0))]);
    assert Apply(s0, RESHOWING[0], 1) == s1;
    var s2 := s1.(client := {"hash"});
    hide Leads;
    Unroll(s2, RESHOWING, 2, StopBegun(r), end);
    Unroll(s1, RESHOWING, 1, s2, end);
    Unroll(s0, RESHOWING, 0, s1, end);
  }

  lemma StopEnds(r: Row) returns (end: Sys)
    requires r.status == NEW
    ensures Leads(StopBegun(r), RESHOWING, 3, end) && end.rows == [r.(status := QUEUED, isVisible := true)]
  {
    var s3 := StopBegun(r);
    var s4 := s3.(rows := [s3.rows[0].(isVisible := false)], stops := map[0 := Hidden(0, "hash")]);
    var s5 := s4.(client := {}, stops := map[0 := Destroyed(0, "hash")]);
    var s6 := s5.(rows := [r.(status := QUEUED)], calls := map[0 := Written, 2 := Written],
                  popped := [r.createdAt, r.createdAt]);
    end := s6.(rows := [r.(status := QUEUED, isVisible := true)], stops := map[]);
    assert Leads(end, RESHOWING, 7, end);
    hide Leads;
    Unroll(s6, RESHOWING, 6, end, end);
    Unroll(s5, RESHOWING, 5, s6, end);
    Unroll(s4, RESHOWING, 4, s5, end);
    Unroll(s3, RESHOWING, 3, s4, end);
  }

  /** Then the stop shows a row that is no longer complete: after the same overlap it is QUEUED, without files
      or a magnet link, and visible. */
  lemma StopShowsIncomplete(r: Row)
    requires r == NewRow(r.feedGuid, r.feedURL, r.createdAt)
    ensures Legal(Start(0, [r]), OVERLAP, 1)
    ensures var s := Exec(Start(0, [r]), OVERLAP, 1);
            && Legal(s, INDEXING, 1) && Legal(Exec(s, INDEXING, 1), RESHOWING, 1)
            && var rows := Exec(Exec(s, INDEXING, 1), RESHOWING, 1).rows;
               rows == [r.(status := QUEUED, isVisible := true)] && !Visibility.VisibleComplete(rows)
  {
    hide Legal, Exec;
    OverlapRuns(r);
    IndexingRuns(r);
    var end := StopEnds(r);
    StopBegins(r, end);
    assert OVERLAP[0..] == OVERLAP && INDEXING[0..] == INDEXING && RESHOWING[0..] == RESHOWING;
    assert end.rows[0].isVisible && !Complete(end.rows[0]);
  }

  // --- A row popped again after a newer one ---

  /** As before, two calls hold the first row; one of them pops it, a third pops the second row, and then the
      other one pops the first row again. */
  const REPEATING: seq<Step> := [
    CallBegin(0), CallCheck(0), CallBegin(1), CallCheck(1), CallBegin(2), CallBegin(3), CallCheck(2), CallFind(0, 0),
    CallFind(2, 0), CallWrite(0), CallEnd(0), CallCheck(3), CallFind(3, 1), CallWrite(3), CallWrite(2)]

  function TwoRows(a: Row, b: Row, flag: bool, calls: map<nat, Call>, popped: seq<nat>): Sys {
    Start(b.createdAt, [a, b]).(isQueueJobRunning := flag, calls := calls, popped := popped)
  }

  /** Both calls hold the first row, and the third has counted the queue. */
  function BothHoldFirst(a: Row, b: Row): Sys {
    TwoRows(a, b, true, map[0 := Found(0, a), 2 := Found(0, a), 3 := Counted(0)], [])
  }

  lemma Repeat0(a: Row, b: Row, end: Sys)
    requires a.status == NEW && b.status == NEW
    requires Leads(TwoRows(a, b, true, map[0 := Finding, 1 := Counted(0)], []), REPEATING, 3, end)
    ensures Leads(Start(b.createdAt, [a, b]), REPEATING, 0, end)
  {
    assert Queued([a, b]) == {};
    hide Leads, Queued;
    var s1, s2 := TwoRows(a, b, false, map[0 := Counted(0)], []), TwoRows(a, b, true, map[0 := Finding], []);
    var s3 := TwoRows(a, b, true, map[0 := Finding, 1 := Counted(0)], []);
    Unroll(s2, REPEATING, 2, s3, end);
    Unroll(s1, REPEATING, 1, s2, end);
    Unroll(Start(b.createdAt, [a, b]), REPEATING, 0, s1, end);
  }

  /** Two calls have counted, and the first is looking for a row. */
  function TwoCounted(a: Row, b: Row): Sys {
    TwoRows(a, b, false, map[0 := Finding, 2 := Counted(0), 3 := Counted(0)], [])
  }

  lemma Repeat3(a: Row, b: Row, end: Sys)
    requires a.status == NEW && b.status == NEW && Leads(TwoCounted(a, b), REPEATING, 6, end)
    ensures Leads(TwoRows(a, b, true, map[0 := Finding, 1 := Counted(0)], []), REPEATING, 3, end)
  {
    assert Queued([a, b]) == {};
    hide Leads, Queued;
    var s4 := TwoRows(a, b, false, map[0 := Finding], []);
    var s5 := TwoRows(a, b, false, map[0 := Finding, 2 := Counted(0)], []);
    Unroll(s5, REPEATING, 5, TwoCounted(a, b), end);
    Unroll(s4, REPEATING, 4, s5, end);
    Unroll(TwoRows(a, b, true, map[0 := Finding, 1 := Counted(0)], []), REPEATING, 3, s4, end);
  }

  lemma Repeat6(a: Row, b: Row, end: Sys)
    requires a.status == NEW && b.status == NEW && a.createdAt < b.createdAt
    requires Leads(BothHoldFirst(a, b), REPEATING, 9, end)
    ensures Leads(TwoCounted(a, b), REPEATING, 6, end)
  {
    assert IsOldestNew([a, b], 0);
    hide Leads, IsOldestNew;
    var s7 := TwoRows(a, b, true, map[0 := Finding, 2 := Finding, 3 := Counted(0)], []);
    var s8 := TwoRows(a, b, true, map[0 := Found(0, a), 2 := Finding, 3 := Counted(0)], []);
    Unroll(s8, REPEATING, 8, BothHoldFirst(a, b), end);
    Unroll(s7, REPEATING, 7, s8, end);
    Unroll(TwoCounted(a, b), REPEATING, 6, s7, end);
  }

  /** The first row is popped, and the third call is looking for a row. */
  function FirstPopped(a: Row, b: Row): Sys {
    TwoRows(a.(status := QUEUED), b, true, map[2 := Found(0, a), 3 := Finding], [a.createdAt])
  }

  lemma Repeat9(a: Row, b: Row, end: Sys)
    requires Leads(FirstPopped(a, b), REPEATING, 12, end)
    ensures Leads(BothHoldFirst(a, b), REPEATING, 9, end)
  {
    hide Leads;
    var qa := a.(status := QUEUED);
    var s10 := TwoRows(qa, b, true, map[0 := Written, 2 := Found(0, a), 3 := Counted(0)], [a.createdAt]);
    var s11 := TwoRows(qa, b, false, map[2 := Found(0, a), 3 := Counted(0)], [a.createdAt]);
    Unroll(s11, REPEATING, 11, FirstPopped(a, b), end);
    Unroll(s10, REPEATING, 10, s11, end);
    Unroll(BothHoldFirst(a, b), REPEATING, 9, s10, end);
  }

  lemma Repeat12(a: Row, b: Row) returns (end: Sys)
    requires b.status == NEW
    ensures Leads(FirstPopped(a, b), REPEATING, 12, end)
    ensures end.popped == [a.createdAt, b.createdAt, a.createdAt]
  {
    var qa, qb := a.(status := QUEUED), b.(status := QUEUED);
    assert IsOldestNew([qa, b], 1);
    hide IsOldestNew;
    var s13 := TwoRows(qa, b, true, map[2 := Found(0, a), 3 := Found(1, b)], [a.createdAt]);
    var s14 := TwoRows(qa, qb, true, map[2 := Found(0, a), 3 := Written], [a.createdAt, b.createdAt]);
    end := TwoRows(qa, qb, true, map[2 := Written, 3 := Written], [a.createdAt, b.createdAt, a.createdAt]);
    assert Leads(end, REPEATING, 15, end);
    hide Leads;
    Unroll(s14, REPEATING, 14, end, end);
    Unroll(s13, REPEATING, 13, s14, end);
    Unroll(FirstPopped(a, b), REPEATING, 12, s13, end);
  }

  /** With overlapping calls the pops taken together need not come in order of creation. */
  lemma OlderIsRepeated(a: Row, b: Row)
    requires a.status == NEW && b.status == NEW && a.createdAt < b.createdAt
    ensures Legal(Start(b.createdAt, [a, b]), REPEATING, 1)
    ensures !Queue.SortedTimes(Exec(Start(b.createdAt, [a, b]), REPEATING, 1).popped)
  {
    hide Legal, Exec;
    var end := Repeat12(a, b);
    Repeat9(a, b, end);
    Repeat6(a, b, end);
    Repeat3(a, b, end);
    Repeat0(a, b, end);
    assert REPEATING[0..] == REPEATING;
    assert end.popped[1] > end.popped[2];
  }
}
