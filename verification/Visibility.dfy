/** What the file system gets to see: whether visible rows are complete, in every run. */
module Visibility {
  import opened Torrents
  import opened Indexer
  import Pipeline

  predicate VisibleComplete(rows: Table) {
    forall k :: 0 <= k < |rows| && rows[k].isVisible ==> Complete(rows[k])
  }

  /** Nothing in flight is visible: writing it back can hide a row but not show one. */
  predicate Shielded(s: Sys) {
    && VisibleComplete(s.rows)
    && (forall c :: c in s.calls && s.calls[c].Found? ==> !s.calls[c].snapshot.isVisible)
    && (forall job :: job in s.claimed ==> !s.claimed[job].isVisible)
    && (forall job :: job in s.tasks ==> !s.tasks[job].isVisible)
  }

  /** A stop that shows its row again although the row is no longer complete. */
  predicate BadShow(s: Sys, step: Step) {
    && step.StopShow? && step.stop in s.stops && s.stops[step.stop].id < |s.rows|
    && !Complete(s.rows[s.stops[step.stop].id])
  }

  lemma BadShowShows(s: Sys, step: Step, concurrency: nat)
    requires Enabled(s, step) && BadShow(s, step)
    ensures !VisibleComplete(Apply(s, step, concurrency).rows)
  {
    var id := s.stops[step.stop].id;
    assert Apply(s, step, concurrency).rows[id].isVisible;
  }

  lemma OthersShowComplete(s: Sys, step: Step, concurrency: nat)
    requires Shielded(s) && Enabled(s, step) && !BadShow(s, step)
    ensures VisibleComplete(Apply(s, step, concurrency).rows)
  {
    RowsKept(s, step, concurrency);
    RowsAdded(s, step, concurrency);
    Pipeline.ClaimsKnownRows(s, step);
  }

  lemma FlightsStayHidden(s: Sys, step: Step, concurrency: nat)
    requires Shielded(s) && Enabled(s, step) && VisibleComplete(Apply(s, step, concurrency).rows)
    ensures Shielded(Apply(s, step, concurrency))
  {
    hide Apply, Enabled;
    CallsMove(s, step, concurrency);
    JobsMove(s, step, concurrency);
    Pipeline.ClaimsKnownRows(s, step);
  }

  /** Every visible row is complete at every moment of the run. */
  predicate AlwaysComplete(s: Sys, steps: seq<Step>, concurrency: nat)
    requires Legal(s, steps, concurrency)
    decreases |steps|
  {
    && VisibleComplete(s.rows)
    && (steps == [] || AlwaysComplete(Apply(s, steps[0], concurrency), steps[1..], concurrency))
  }

  predicate NoBadShow(s: Sys, steps: seq<Step>, concurrency: nat)
    requires Legal(s, steps, concurrency)
    decreases |steps|
  {
    steps == []
    || (!BadShow(s, steps[0]) && NoBadShow(Apply(s, steps[0], concurrency), steps[1..], concurrency))
  }

  lemma {:induction false} AlwaysCompleteFrom(s: Sys, steps: seq<Step>, concurrency: nat)
    requires Shielded(s) && Legal(s, steps, concurrency)
    ensures AlwaysComplete(s, steps, concurrency) <==> NoBadShow(s, steps, concurrency)
    decreases |steps|
  {
    if steps != [] {
      hide Apply, Enabled, BadShow, VisibleComplete;
      if BadShow(s, steps[0]) {
        BadShowShows(s, steps[0], concurrency);
      } else {
        OthersShowComplete(s, steps[0], concurrency);
        FlightsStayHidden(s, steps[0], concurrency);
        AlwaysCompleteFrom(Apply(s, steps[0], concurrency), steps[1..], concurrency);
      }
    }
  }

  /** In every run, whatever overlaps: status writes put whole stale snapshots back, yet each visible row has
      status READY and all it takes to serve it at every moment, if and only if no stop ever shows again a
      row that has ceased to be complete. */
  lemma AlwaysCompleteIff(now: nat, rows: Table, steps: seq<Step>, concurrency: nat)
    requires VisibleComplete(rows) && Legal(Start(now, rows), steps, concurrency)
    ensures AlwaysComplete(Start(now, rows), steps, concurrency) <==> NoBadShow(Start(now, rows), steps, concurrency)
  {
    AlwaysCompleteFrom(Start(now, rows), steps, concurrency);
  }

  lemma {:induction false} AlwaysMeansAtTheEnd(s: Sys, steps: seq<Step>, concurrency: nat)
    requires Legal(s, steps, concurrency) && AlwaysComplete(s, steps, concurrency)
    ensures VisibleComplete(Exec(s, steps, concurrency).rows)
    decreases |steps|
  {
    if steps != [] {
      AlwaysMeansAtTheEnd(Apply(s, steps[0], concurrency), steps[1..], concurrency);
    }
  }

  lemma {:induction false} NoShowIsNoBadShow(s: Sys, steps: seq<Step>, concurrency: nat)
    requires Legal(s, steps, concurrency) && forall k :: 0 <= k < |steps| ==> !steps[k].StopShow?
    ensures NoBadShow(s, steps, concurrency)
    decreases |steps|
  {
    if steps != [] {
      assert !steps[0].StopShow?;
      NoShowIsNoBadShow(Apply(s, steps[0], concurrency), steps[1..], concurrency);
    }
  }

  lemma {:induction false} TimelyIsNoBadShow(s: Sys, steps: seq<Step>, concurrency: nat)
    requires TableInv(s) && Pipeline.TimelyRun(s, steps, concurrency)
    ensures Legal(s, steps, concurrency) && NoBadShow(s, steps, concurrency)
    decreases |steps|
  {
    if steps != [] {
      hide Apply, Enabled;
      StepKeepsTable(s, steps[0], concurrency);
      TimelyIsNoBadShow(Apply(s, steps[0], concurrency), steps[1..], concurrency);
    }
  }

  /** So a visible row is complete in every run in which no pop is late, stops included, and, late pops
      included, in every run in which no stop gets to show its row again. */
  lemma VisibleIsComplete(now: nat, rows: Table, steps: seq<Step>, concurrency: nat)
    requires RowsOk(rows) && Legal(Start(now, rows), steps, concurrency)
    requires Pipeline.TimelyRun(Start(now, rows), steps, concurrency)
             || forall k :: 0 <= k < |steps| ==> !steps[k].StopShow?
    ensures AlwaysComplete(Start(now, rows), steps, concurrency)
    ensures VisibleComplete(Exec(Start(now, rows), steps, concurrency).rows)
  {
    var s := Start(now, rows);
    assert VisibleComplete(rows) by {
      forall k | 0 <= k < |rows| && rows[k].isVisible ensures Complete(rows[k]) {
        assert RowOk(rows[k]);
      }
    }
    if Pipeline.TimelyRun(s, steps, concurrency) {
      TimelyIsNoBadShow(s, steps, concurrency);
    } else {
      NoShowIsNoBadShow(s, steps, concurrency);
    }
    AlwaysCompleteIff(now, rows, steps, concurrency);
    AlwaysMeansAtTheEnd(s, steps, concurrency);
  }
}
