/** What holds over whole runs of the indexing pipeline. */
module Pipeline {
  import opened Torrents
  import opened Indexer

  // --- Origins: in every run whatever ---

  predicate Belongs(rows: Table, id: nat, snapshot: Row) {
    id < |rows| && SameOrigin(rows[id], snapshot)
  }

  /** Whatever is in flight belongs to its row. */
  predicate OriginsOk(s: Sys) {
    && (forall c :: c in s.calls && s.calls[c].Found? ==> Belongs(s.rows, s.calls[c].id, s.calls[c].snapshot))
    && (forall job :: job in s.claimed ==> Belongs(s.rows, job.id, s.claimed[job]))
    && (forall job :: job in s.tasks ==> Belongs(s.rows, job.id, s.tasks[job]))
  }

  /** The rows are still there, with their guids, urls and creation times. */
  predicate Extends(rows: Table, rows': Table) {
    |rows| <= |rows'| && forall k :: 0 <= k < |rows| ==> SameOrigin(rows[k], rows'[k])
  }

  lemma StepExtends(s: Sys, step: Step, concurrency: nat)
    requires OriginsOk(s) && Enabled(s, step)
    ensures Extends(s.rows, Apply(s, step, concurrency).rows)
  {
    RowsKept(s, step, concurrency);
  }

  /** What is in flight after a step was so before, or is some row as it is. */
  lemma FlightsMove(s: Sys, step: Step, concurrency: nat)
    requires OriginsOk(s) && Enabled(s, step)
    ensures var s' := Apply(s, step, concurrency);
            && (forall c :: c in s'.calls && s'.calls[c].Found? ==>
                  Belongs(s.rows, s'.calls[c].id, s'.calls[c].snapshot))
            && (forall job :: job in s'.claimed ==> Belongs(s.rows, job.id, s'.claimed[job]))
            && (forall job :: job in s'.tasks ==> Belongs(s.rows, job.id, s'.tasks[job]))
  {
    hide Apply, Enabled;
    CallsMove(s, step, concurrency);
    JobsMove(s, step, concurrency);
    ClaimsKnownRows(s, step);
  }

  lemma ClaimsKnownRows(s: Sys, step: Step)
    requires Enabled(s, step)
    ensures step.Claim? ==> forall id :: id in step.ids ==> id < |s.rows| && s.rows[id].status == QUEUED
  {
  }

  lemma StepKeepsOrigins(s: Sys, step: Step, concurrency: nat)
    requires OriginsOk(s) && Enabled(s, step)
    ensures OriginsOk(Apply(s, step, concurrency))
  {
    StepExtends(s, step, concurrency);
    FlightsMove(s, step, concurrency);
    hide Apply, Enabled;
    var s' := Apply(s, step, concurrency);
    forall id: nat, snapshot | Belongs(s.rows, id, snapshot) ensures Belongs(s'.rows, id, snapshot) {
      assert SameOrigin(s.rows[id], s'.rows[id]);
    }
  }

  /** What a step adds is one row at most, with a guid of its own. */
  lemma AddsUnseenGuid(s: Sys, step: Step, concurrency: nat)
    requires Enabled(s, step)
    ensures var s' := Apply(s, step, concurrency);
            |s'.rows| > |s.rows| ==> |s'.rows| == |s.rows| + 1 && !HasGuid(s.rows, s'.rows[|s.rows|].feedGuid)
  {
  }

  lemma GuidsGrow(rows: Table, rows': Table)
    requires DistinctGuids(rows) && Extends(rows, rows')
    requires |rows'| > |rows| ==> |rows'| == |rows| + 1 && !HasGuid(rows, rows'[|rows|].feedGuid)
    ensures DistinctGuids(rows')
  {
    forall i, j | 0 <= i < j < |rows'| ensures rows'[i].feedGuid != rows'[j].feedGuid {
      assert SameOrigin(rows[i], rows'[i]);
      if j < |rows| {
        assert SameOrigin(rows[j], rows'[j]);
      }
    }
  }

  lemma StepKeepsGuids(s: Sys, step: Step, concurrency: nat)
    requires OriginsOk(s) && DistinctGuids(s.rows) && Enabled(s, step)
    ensures DistinctGuids(Apply(s, step, concurrency).rows)
  {
    hide *;
    StepExtends(s, step, concurrency);
    AddsUnseenGuid(s, step, concurrency);
    GuidsGrow(s.rows, Apply(s, step, concurrency).rows);
  }

  /** In every run, however calls overlap, every row keeps its guid, its url and its creation time, and no
      two rows get the same guid. */
  lemma {:induction false} GuidsStayDistinct(s: Sys, steps: seq<Step>, concurrency: nat)
    requires OriginsOk(s) && DistinctGuids(s.rows) && Legal(s, steps, concurrency)
    ensures DistinctGuids(Exec(s, steps, concurrency).rows) && Extends(s.rows, Exec(s, steps, concurrency).rows)
    decreases |steps|
  {
    if steps != [] {
      hide Apply, Enabled, OriginsOk, DistinctGuids;
      var s' := Apply(s, steps[0], concurrency);
      StepKeepsOrigins(s, steps[0], concurrency);
      StepExtends(s, steps[0], concurrency);
      StepKeepsGuids(s, steps[0], concurrency);
      GuidsStayDistinct(s', steps[1..], concurrency);
      ExtendsTransitive(s.rows, s'.rows, Exec(s', steps[1..], concurrency).rows);
    }
  }

  lemma ExtendsTransitive(a: Table, b: Table, c: Table)
    requires Extends(a, b) && Extends(b, c)
    ensures Extends(a, c)
  {
    forall k | 0 <= k < |a| ensures SameOrigin(a[k], c[k]) {
      assert SameOrigin(a[k], b[k]) && SameOrigin(b[k], c[k]);
    }
  }

  // --- Timely runs ---

  /** A legal run in which no pop is written after its row was claimed. */
  predicate TimelyRun(s: Sys, steps: seq<Step>, concurrency: nat)
    decreases |steps|
  {
    steps == []
    || (Enabled(s, steps[0]) && !LateWrite(s, steps[0])
        && TimelyRun(Apply(s, steps[0], concurrency), steps[1..], concurrency))
  }

  lemma {:induction false} TimelyKeepsTable(s: Sys, steps: seq<Step>, concurrency: nat)
    requires TableInv(s) && TimelyRun(s, steps, concurrency)
    ensures Legal(s, steps, concurrency) && TableInv(Exec(s, steps, concurrency))
    decreases |steps|
  {
    if steps != [] {
      StepKeepsTable(s, steps[0], concurrency);
      TimelyKeepsTable(Apply(s, steps[0], concurrency), steps[1..], concurrency);
    }
  }

  /** No step of the run takes a row back to an earlier status. */
  predicate RanksNeverFall(s: Sys, steps: seq<Step>, concurrency: nat)
    requires Legal(s, steps, concurrency)
    decreases |steps|
  {
    steps == []
    || (!LowersRank(s, steps[0], concurrency)
        && RanksNeverFall(Apply(s, steps[0], concurrency), steps[1..], concurrency))
  }

  /** In every run: no row ever falls back to an earlier status exactly when every pop is written before its
      row is claimed. */
  lemma {:induction false} RanksNeverFallIff(s: Sys, steps: seq<Step>, concurrency: nat)
    requires TableInv(s) && Legal(s, steps, concurrency)
    ensures RanksNeverFall(s, steps, concurrency) <==> TimelyRun(s, steps, concurrency)
    decreases |steps|
  {
    if steps != [] {
      LowersRankIff(s, steps[0], concurrency);
      NoLateMark(s, steps[0]);
      if !LateWrite(s, steps[0]) {
        StepKeepsTable(s, steps[0], concurrency);
        RanksNeverFallIff(Apply(s, steps[0], concurrency), steps[1..], concurrency);
      }
    }
  }

  /** At most one `queueNewTorrents` call at a time. */
  predicate Solo(s: Sys) {
    forall c, d :: c in s.calls && d in s.calls ==> c == d
  }

  /** A legal run in which `queueNewTorrents` calls never overlap. */
  predicate SoloRun(s: Sys, steps: seq<Step>, concurrency: nat)
    decreases |steps|
  {
    && Solo(s)
    && (steps == []
        || (Enabled(s, steps[0]) && SoloRun(Apply(s, steps[0], concurrency), steps[1..], concurrency)))
  }

  /** Whatever a call holds is still NEW. */
  predicate Fresh(s: Sys) {
    forall c :: c in s.calls && s.calls[c].Found? ==> s.calls[c].id < |s.rows| && s.rows[s.calls[c].id].status == NEW
  }

  /** Only a pop writes to a NEW row. */
  lemma NewRowUnwritten(s: Sys, step: Step, id: nat)
    requires SnapshotsOk(s) && StopsOk(s) && Enabled(s, step)
    requires id < |s.rows| && s.rows[id].status == NEW && !step.CallWrite?
    ensures id !in Writes(s, step)
  {
    if step.Mark? || step.Finish? {
      assert Stale(s.rows, step.job.id, s.tasks[step.job]);
    }
  }

  lemma SoloStepKeepsFresh(s: Sys, step: Step, concurrency: nat)
    requires TableInv(s) && Solo(s) && Fresh(s) && Enabled(s, step)
    ensures Fresh(Apply(s, step, concurrency)) && !LateWrite(s, step)
  {
    var s' := Apply(s, step, concurrency);
    RowsKept(s, step, concurrency);
    CallsMove(s, step, concurrency);
    if step.CallWrite? {
      assert forall c :: c in s'.calls ==> c == step.call && s'.calls[c].Written?;
    } else {
      forall c | c in s'.calls && s'.calls[c].Found? && c in s.calls && s.calls[c] == s'.calls[c]
        ensures s'.rows[s'.calls[c].id].status == NEW
      {
        NewRowUnwritten(s, step, s.calls[c].id);
      }
    }
  }

  /** Calls that do not overlap are always in time. */
  lemma {:induction false} SoloIsTimely(s: Sys, steps: seq<Step>, concurrency: nat)
    requires TableInv(s) && Fresh(s) && SoloRun(s, steps, concurrency)
    ensures TimelyRun(s, steps, concurrency)
    decreases |steps|
  {
    if steps != [] {
      SoloStepKeepsFresh(s, steps[0], concurrency);
      StepKeepsTable(s, steps[0], concurrency);
      SoloIsTimely(Apply(s, steps[0], concurrency), steps[1..], concurrency);
    }
  }

  // --- Exclusive claims ---

  predicate PastQueue(rows: Table, id: nat) {
    id < |rows| && Rank(rows[id].status) >= 2
  }

  predicate EverClaimed(s: Sys, id: nat) {
    exists j :: 0 <= j < |s.claims| && id in s.claims[j]
  }

  ghost predicate ClaimsOk(s: Sys) {
    && (forall id :: EverClaimed(s, id) ==> PastQueue(s.rows, id))
    && (forall i, j :: 0 <= i < j < |s.claims| ==> s.claims[i] !! s.claims[j])
  }

  ghost predicate StartedOk(s: Sys) {
    && (forall j :: 0 <= j < |s.started| ==> PastQueue(s.rows, s.started[j]))
    && (forall j, job :: 0 <= j < |s.started| && job in s.claimed ==> s.started[j] != job.id)
    && (forall i, j :: 0 <= i < j < |s.started| ==> s.started[i] != s.started[j])
  }

  lemma PastQueueStays(s: Sys, step: Step, concurrency: nat)
    requires TableInv(s) && Enabled(s, step) && !LateWrite(s, step)
    ensures forall id :: PastQueue(s.rows, id) ==> PastQueue(Apply(s, step, concurrency).rows, id)
  {
    hide Apply, TableInv, Enabled, LateWrite;
    forall id | PastQueue(s.rows, id) ensures PastQueue(Apply(s, step, concurrency).rows, id) {
      StepRaisesRank(s, step, concurrency, id);
    }
  }

  lemma ClaimPassesQueue(s: Sys, step: Step, concurrency: nat, id: nat)
    requires Enabled(s, step) && step.Claim? && id in step.ids
    ensures !PastQueue(s.rows, id) && PastQueue(Apply(s, step, concurrency).rows, id)
  {
    assert id in Queued(s.rows);
  }

  lemma HistoryGrows(s: Sys, step: Step, concurrency: nat)
    requires Enabled(s, step)
    ensures var s' := Apply(s, step, concurrency);
            && s'.claims == (if step.Claim? then s.claims + [step.ids] else s.claims)
            && s'.started == (if step.StartIndex? then s.started + [step.job.id] else s.started)
  {
    if !IsJobStep(step) {
      hide Apply, Enabled;
      Frames(s, step, concurrency);
    }
  }

  lemma StepKeepsClaims(s: Sys, step: Step, concurrency: nat)
    requires TableInv(s) && ClaimsOk(s) && Enabled(s, step) && !LateWrite(s, step)
    ensures ClaimsOk(Apply(s, step, concurrency))
  {
    PastQueueStays(s, step, concurrency);
    HistoryGrows(s, step, concurrency);
    hide Apply, TableInv, LateWrite, PastQueue;
    var s' := Apply(s, step, concurrency);
    if step.Claim? {
      forall id | id in step.ids
        ensures !PastQueue(s.rows, id) && PastQueue(s'.rows, id) && !EverClaimed(s, id)
      {
        ClaimPassesQueue(s, step, concurrency, id);
      }
      forall i | 0 <= i < |s.claims| ensures s.claims[i] !! step.ids {
        assert forall id :: id in s.claims[i] ==> EverClaimed(s, id);
      }
    }
    forall id | EverClaimed(s', id) ensures PastQueue(s'.rows, id) {
      assert EverClaimed(s, id) || (step.Claim? && id in step.ids);
    }
  }

  lemma ClaimedIsPastQueue(s: Sys, job: Job)
    requires TableInv(s) && job in s.claimed
    ensures PastQueue(s.rows, job.id)
    ensures forall other :: other in s.claimed && other.id == job.id ==> other == job
  {
    assert Stale(s.rows, job.id, s.claimed[job]);
    assert InFlight(s, job);
    forall other | other in s.claimed && other.id == job.id ensures other == job {
      assert InFlight(s, other);
    }
  }

  /** With at most one row added to the started ones, and only unclaimed rows to the claimed ones. */
  lemma StartedFrom(s: Sys, s': Sys, added: seq<nat>)
    requires StartedOk(s) && forall id :: PastQueue(s.rows, id) ==> PastQueue(s'.rows, id)
    requires |added| <= 1 && s'.started == s.started + added
    requires forall id :: id in added ==> PastQueue(s.rows, id) && id !in s.started
    requires forall job :: job in s'.claimed ==>
               (job in s.claimed || !PastQueue(s.rows, job.id)) && job.id !in added
    ensures StartedOk(s')
  {
    hide PastQueue;
    forall j, job | 0 <= j < |s'.started| && job in s'.claimed ensures s'.started[j] != job.id {
      if j < |s.started| {
        assert PastQueue(s.rows, s.started[j]);
      } else {
        assert s'.started[j] in added;
      }
    }
    forall j | 0 <= j < |s'.started| ensures PastQueue(s'.rows, s'.started[j]) {
      if j >= |s.started| { assert s'.started[j] in added; }
    }
  }

  lemma StepKeepsStarted(s: Sys, step: Step, concurrency: nat)
    requires TableInv(s) && StartedOk(s) && Enabled(s, step) && !LateWrite(s, step)
    ensures StartedOk(Apply(s, step, concurrency))
  {
    assert step.StartIndex? ==> step.job in s.claimed && step.job !in Apply(s, step, concurrency).claimed;
    hide Apply, Enabled, TableInv, LateWrite, PastQueue;
    var s' := Apply(s, step, concurrency);
    HistoryGrows(s, step, concurrency);
    JobsMove(s, step, concurrency);
    PastQueueStays(s, step, concurrency);
    if step.StartIndex? {
      ClaimedIsPastQueue(s, step.job);
    }
    forall job | job in s'.claimed && job !in s.claimed ensures !PastQueue(s.rows, job.id) {
      ClaimPassesQueue(s, step, concurrency, job.id);
    }
    hide StartedOk;
    StartedFrom(s, s', if step.StartIndex? then [step.job.id] else []);
  }

  lemma {:induction false} RunKeepsClaims(s: Sys, steps: seq<Step>, concurrency: nat)
    requires TableInv(s) && ClaimsOk(s) && StartedOk(s) && TimelyRun(s, steps, concurrency)
    ensures Legal(s, steps, concurrency)
    ensures ClaimsOk(Exec(s, steps, concurrency)) && StartedOk(Exec(s, steps, concurrency))
    decreases |steps|
  {
    if steps != [] {
      hide Apply, TableInv, ClaimsOk, StartedOk;
      StepKeepsTable(s, steps[0], concurrency);
      StepKeepsClaims(s, steps[0], concurrency);
      StepKeepsStarted(s, steps[0], concurrency);
      RunKeepsClaims(Apply(s, steps[0], concurrency), steps[1..], concurrency);
    }
  }

  /** Consumer runs and pops may overlap, yet as long as no pop is late no two consumer runs mark the same
      row and no row is ever indexed twice. */
  lemma ClaimsAreExclusive(now: nat, rows: Table, steps: seq<Step>, concurrency: nat)
    requires RowsOk(rows) && TimelyRun(Start(now, rows), steps, concurrency)
    ensures Legal(Start(now, rows), steps, concurrency)
    ensures var s := Exec(Start(now, rows), steps, concurrency);
            && (forall i, j :: 0 <= i < j < |s.claims| ==> s.claims[i] !! s.claims[j])
            && (forall i, j :: 0 <= i < j < |s.started| ==> s.started[i] != s.started[j])
  {
    RunKeepsClaims(Start(now, rows), steps, concurrency);
  }

  /** A row claimed before is up for another claim. */
  predicate Reopened(s: Sys) {
    exists id :: id in Queued(s.rows) && EverClaimed(s, id)
  }

  predicate NeverReopened(s: Sys, steps: seq<Step>, concurrency: nat)
    requires Legal(s, steps, concurrency)
    decreases |steps|
  {
    && !Reopened(s)
    && (steps == [] || NeverReopened(Apply(s, steps[0], concurrency), steps[1..], concurrency))
  }

  /** What calls hold has been claimed if it is no longer NEW or QUEUED. */
  predicate FoundClaimed(s: Sys) {
    forall c :: c in s.calls && s.calls[c].Found? && PastQueue(s.rows, s.calls[c].id) ==> EverClaimed(s, s.calls[c].id)
  }

  /** Only a claim takes a row out of the queue. */
  lemma OnlyClaimsPassQueue(s: Sys, step: Step, concurrency: nat, id: nat)
    requires TableInv(s) && Enabled(s, step) && id < |s.rows| && !PastQueue(s.rows, id)
    requires PastQueue(Apply(s, step, concurrency).rows, id)
    ensures step.Claim? && id in step.ids
  {
    RowsKept(s, step, concurrency);
    assert id in Writes(s, step);
  }

  lemma StepKeepsFoundClaimed(s: Sys, step: Step, concurrency: nat)
    requires TableInv(s) && FoundClaimed(s) && Enabled(s, step) && !LateWrite(s, step)
    ensures FoundClaimed(Apply(s, step, concurrency))
  {
    var s' := Apply(s, step, concurrency);
    CallsMove(s, step, concurrency);
    HistoryGrows(s, step, concurrency);
    forall id | EverClaimed(s, id) ensures EverClaimed(s', id) {
      var j :| 0 <= j < |s.claims| && id in s.claims[j];
      assert s'.claims[j] == s.claims[j];
    }
    if step.Claim? {
      assert s'.claims[|s.claims|] == step.ids;
      assert forall id :: id in step.ids ==> EverClaimed(s', id);
    }
    forall c | c in s'.calls && s'.calls[c].Found? && PastQueue(s'.rows, s'.calls[c].id)
      ensures EverClaimed(s', s'.calls[c].id)
    {
      var id := s'.calls[c].id;
      assert c in s.calls && s.calls[c] == s'.calls[c];
      assert FoundNew(s.rows, id, s.calls[c].snapshot);
      if !PastQueue(s.rows, id) {
        OnlyClaimsPassQueue(s, step, concurrency, id);
      }
    }
  }

  lemma LateWriteReopens(s: Sys, step: Step, concurrency: nat)
    requires TableInv(s) && FoundClaimed(s) && Enabled(s, step) && LateWrite(s, step)
    ensures Reopened(Apply(s, step, concurrency))
  {
    var s', id := Apply(s, step, concurrency), s.calls[step.call].id;
    assert EverClaimed(s, id) && s'.claims == s.claims;
    assert EverClaimed(s', id) && id in Queued(s'.rows);
  }

  lemma {:induction false} NeverReopenedFrom(s: Sys, steps: seq<Step>, concurrency: nat)
    requires TableInv(s) && ClaimsOk(s) && FoundClaimed(s) && Legal(s, steps, concurrency)
    ensures NeverReopened(s, steps, concurrency) <==> TimelyRun(s, steps, concurrency)
    decreases |steps|
  {
    assert !Reopened(s);
    if steps != [] {
      hide Apply, TableInv, ClaimsOk, FoundClaimed, Enabled, LateWrite, Reopened;
      if LateWrite(s, steps[0]) {
        LateWriteReopens(s, steps[0], concurrency);
      } else {
        StepKeepsTable(s, steps[0], concurrency);
        StepKeepsClaims(s, steps[0], concurrency);
        StepKeepsFoundClaimed(s, steps[0], concurrency);
        NeverReopenedFrom(Apply(s, steps[0], concurrency), steps[1..], concurrency);
      }
    }
  }

  /** The condition is exact: in every run from a start, no row once claimed ever comes up for another claim
      if and only if every pop is written in time. */
  lemma NeverReopenedIff(now: nat, rows: Table, steps: seq<Step>, concurrency: nat)
    requires RowsOk(rows) && Legal(Start(now, rows), steps, concurrency)
    ensures NeverReopened(Start(now, rows), steps, concurrency) <==> TimelyRun(Start(now, rows), steps, concurrency)
  {
    NeverReopenedFrom(Start(now, rows), steps, concurrency);
  }

  // --- A bound on status changes ---

  function TotalRank(rows: Table): nat {
    if rows == [] then 0 else TotalRank(rows[..|rows| - 1]) + Rank(rows[|rows| - 1].status)
  }

  /** How many rows change their status between two tables. */
  function Changed(rows: Table, rows': Table): nat
    requires |rows| <= |rows'|
  {
    if rows == [] then 0
    else
      var last := |rows| - 1;
      Changed(rows[..last], rows') + if rows[last].status != rows'[last].status then 1 else 0
  }

  function StatusChanges(s: Sys, steps: seq<Step>, concurrency: nat): nat
    requires TimelyRun(s, steps, concurrency) && TableInv(s)
    decreases |steps|
  {
    if steps == [] then 0
    else
      var s' := Apply(s, steps[0], concurrency);
      StepKeepsTable(s, steps[0], concurrency);
      RowsKept(s, steps[0], concurrency);
      Changed(s.rows, s'.rows) + StatusChanges(s', steps[1..], concurrency)
  }

  lemma {:induction false} RankPaysForChanges(rows: Table, rows': Table)
    requires |rows| <= |rows'|
    requires forall k :: 0 <= k < |rows| ==>
               Rank(rows[k].status) + (if rows[k].status != rows'[k].status then 1 else 0) <= Rank(rows'[k].status)
    ensures TotalRank(rows) + Changed(rows, rows') <= TotalRank(rows'[..|rows|])
  {
    if rows != [] {
      var last := |rows| - 1;
      RankPaysForChanges(rows[..last], rows');
      assert rows'[..|rows|][..last] == rows'[..last];
    }
  }

  lemma {:induction false} TotalRankMonotone(rows: Table, n: nat)
    requires n <= |rows|
    ensures TotalRank(rows[..n]) <= TotalRank(rows) <= 3 * |rows|
  {
    if rows != [] {
      var init := rows[..|rows| - 1];
      TotalRankMonotone(init, if n < |rows| then n else n - 1);
      if n < |rows| {
        assert init[..n] == rows[..n];
      } else {
        assert rows[..n] == rows;
      }
    } else {
      assert rows[..n] == rows;
    }
  }

  /** In a run with timely pops the table's rows change status at most three times per row, counting the rows
      at the end and discounting the ranks at the start. A row whose indexing throws stays unfinished. */
  lemma {:induction false} FewStatusChanges(s: Sys, steps: seq<Step>, concurrency: nat)
    requires TableInv(s) && TimelyRun(s, steps, concurrency)
    ensures Legal(s, steps, concurrency)
    ensures TotalRank(s.rows) + StatusChanges(s, steps, concurrency) <= 3 * |Exec(s, steps, concurrency).rows|
    decreases |steps|
  {
    if steps == [] {
      TotalRankMonotone(s.rows, 0);
    } else {
      var s' := Apply(s, steps[0], concurrency);
      StepKeepsTable(s, steps[0], concurrency);
      RowsKept(s, steps[0], concurrency);
      forall k | 0 <= k < |s.rows|
        ensures Rank(s.rows[k].status) + (if s.rows[k].status != s'.rows[k].status then 1 else 0)
                <= Rank(s'.rows[k].status)
      {
        StepRaisesRank(s, steps[0], concurrency, k);
      }
      RankPaysForChanges(s.rows, s'.rows);
      TotalRankMonotone(s'.rows, |s.rows|);
      FewStatusChanges(s', steps[1..], concurrency);
    }
  }
}
