/** The indexer's queue, in every run: how long it gets, and in which order rows enter it. */
module Queue {
  import opened Torrents
  import opened Indexer
  import Pipeline
  import Wrappers

  // --- How long the queue gets ---

  function QueueLength(rows: Table): nat {
    |Queued(rows)|
  }

  /** A call that may still write: it counted fewer queued rows than allowed, or is past its check. */
  predicate MayWrite(call: Call, concurrency: nat) {
    call.Finding? || call.Found? || (call.Counted? && call.n < concurrency)
  }

  function Writers(s: Sys, concurrency: nat): set<nat> {
    set c | c in s.calls && MayWrite(s.calls[c], concurrency)
  }

  /** A legal run with at most `m` such calls at once. */
  predicate AtMostRun(s: Sys, steps: seq<Step>, m: nat, concurrency: nat)
    decreases |steps|
  {
    && |Writers(s, concurrency)| <= m
    && (steps == []
        || (Enabled(s, steps[0]) && AtMostRun(Apply(s, steps[0], concurrency), steps[1..], m, concurrency)))
  }

  lemma OnlyPopsQueueRow(s: Sys, step: Step, concurrency: nat, k: nat)
    requires Enabled(s, step) && k < |s.rows| && k in Writes(s, step) && !step.CallWrite?
    ensures k < |Apply(s, step, concurrency).rows|
    ensures Apply(s, step, concurrency).rows[k].status == QUEUED ==> s.rows[k].status == QUEUED
  {
  }

  /** Only a pop makes the queue longer, and by one row. */
  lemma OnlyPopsQueue(s: Sys, step: Step, concurrency: nat)
    requires Enabled(s, step)
    ensures QueueLength(Apply(s, step, concurrency).rows) <= QueueLength(s.rows) + if step.CallWrite? then 1 else 0
  {
    var s' := Apply(s, step, concurrency);
    var extra := if step.CallWrite? then {s.calls[step.call].id} else {};
    assert step.CallWrite? ==> Writes(s, step) == extra;
    RowsKept(s, step, concurrency);
    RowsAdded(s, step, concurrency);
    hide Apply, Enabled;
    forall k | k in Queued(s'.rows) ensures k in Queued(s.rows) + extra {
      if k < |s.rows| && k in Writes(s, step) && k !in extra {
        OnlyPopsQueueRow(s, step, concurrency, k);
      }
    }
    Wrappers.SubsetCard(Queued(s'.rows), Queued(s.rows) + extra);
  }

  /** A pop ends its call's chance to write, and only a call that counts a queue with room gets one. */
  lemma WritersMove(s: Sys, step: Step, concurrency: nat)
    requires Enabled(s, step)
    ensures var w, w' := Writers(s, concurrency), Writers(Apply(s, step, concurrency), concurrency);
            if step.CallWrite? then step.call in w && w' <= w - {step.call}
            else w' <= w || (step.CallBegin? && QueueLength(s.rows) < concurrency
                             && QueueLength(Apply(s, step, concurrency).rows) == QueueLength(s.rows))
  {
    if !IsCallStep(step) {
      hide Apply, Enabled;
      Frames(s, step, concurrency);
    }
  }

  lemma StepKeepsBound(s: Sys, step: Step, m: nat, bound: int, concurrency: nat)
    requires Enabled(s, step) && concurrency - 1 + m <= bound
    requires |Writers(Apply(s, step, concurrency), concurrency)| <= m
    requires QueueLength(s.rows) + |Writers(s, concurrency)| <= bound
    ensures var s' := Apply(s, step, concurrency);
            QueueLength(s'.rows) + |Writers(s', concurrency)| <= bound
  {
    hide Apply, Enabled, Queued, Writers;
    var w, w' := Writers(s, concurrency), Writers(Apply(s, step, concurrency), concurrency);
    OnlyPopsQueue(s, step, concurrency);
    WritersMove(s, step, concurrency);
    if step.CallWrite? {
      Wrappers.SubsetCard(w', w - {step.call});
    } else if w' <= w {
      Wrappers.SubsetCard(w', w);
    }
  }

  /** In every run, late pops included: with at most m calls at once that may still write, the queue never
      holds more than concurrency - 1 + m rows, or more than it started with. */
  lemma {:induction false} QueueIsBoundedFrom(s: Sys, steps: seq<Step>, m: nat, bound: int, concurrency: nat)
    requires AtMostRun(s, steps, m, concurrency) && concurrency - 1 + m <= bound
    requires QueueLength(s.rows) + |Writers(s, concurrency)| <= bound
    ensures Legal(s, steps, concurrency) && QueueLength(Exec(s, steps, concurrency).rows) <= bound
    decreases |steps|
  {
    if steps != [] {
      hide Apply, Enabled, Queued, Writers;
      StepKeepsBound(s, steps[0], m, bound, concurrency);
      QueueIsBoundedFrom(Apply(s, steps[0], concurrency), steps[1..], m, bound, concurrency);
    }
  }

  lemma QueueIsBounded(now: nat, rows: Table, steps: seq<Step>, m: nat, concurrency: nat)
    requires AtMostRun(Start(now, rows), steps, m, concurrency)
    ensures Legal(Start(now, rows), steps, concurrency)
    ensures var queued := QueueLength(Exec(Start(now, rows), steps, concurrency).rows);
            queued <= QueueLength(rows) || queued <= concurrency - 1 + m
  {
    var bound := if QueueLength(rows) <= concurrency - 1 + m then concurrency - 1 + m else QueueLength(rows);
    assert Writers(Start(now, rows), concurrency) == {};
    QueueIsBoundedFrom(Start(now, rows), steps, m, bound, concurrency);
  }

  /** Calls that do not overlap are at most one at once, so they never overfill the queue. */
  lemma {:induction false} SoloIsAtMostOne(s: Sys, steps: seq<Step>, concurrency: nat)
    requires Pipeline.SoloRun(s, steps, concurrency)
    ensures AtMostRun(s, steps, 1, concurrency)
    decreases |steps|
  {
    var w := Writers(s, concurrency);
    if w != {} {
      var c :| c in w;
      assert w == {c};
    }
    if steps != [] {
      SoloIsAtMostOne(Apply(s, steps[0], concurrency), steps[1..], concurrency);
    }
  }

  // --- The bound is reached ---

  function Upto(n: nat): (ids: set<nat>)
    ensures |ids| == n && forall k: nat :: k in ids <==> k < n
  {
    if n == 0 then {} else Upto(n - 1) + {n - 1}
  }

  /** `n` rows, all created at once, the first `q` of them queued. */
  function RowAt(k: nat, q: nat): Row {
    NewRow(seq(k, _ => 'g'), "", 0).(status := if k < q then QUEUED else NEW)
  }

  function RowsWith(n: nat, q: nat): (rows: Table)
    ensures |rows| == n && forall k :: 0 <= k < n ==> rows[k] == RowAt(k, q)
  {
    seq(n, k requires 0 <= k < n => RowAt(k, q))
  }

  lemma RowsWithQueued(n: nat, q: nat)
    requires q <= n
    ensures Queued(RowsWith(n, q)) == Upto(q) && QueueLength(RowsWith(n, q)) == q
  {
    assert Queued(RowsWith(n, q)) == Upto(q);
  }

  /** The calls from `from` to `to`, each having counted `q` rows. */
  function Counts(from: nat, to: nat, q: nat): (calls: map<nat, Call>)
    ensures forall c: nat :: c in calls <==> from <= c < to
    ensures forall c :: c in calls ==> calls[c] == Counted(q)
  {
    map c | c in Upto(to) && from <= c :: Counted(q)
  }

  /** Of `m` calls that all counted `q` rows, `done` have popped a row each. */
  function Stage(q: nat, m: nat, done: nat): Sys {
    Start(0, RowsWith(q + m, q + done)).(calls := Counts(done, m, q), popped := seq(done, _ => 0))
  }

  ghost predicate Reaches(s: Sys, steps: seq<Step>, t: Sys, m: nat, concurrency: nat) {
    && AtMostRun(s, steps, m, concurrency) && Pipeline.TimelyRun(s, steps, concurrency)
    && Legal(s, steps, concurrency) && Exec(s, steps, concurrency) == t
  }

  lemma {:induction false} Extend(s: Sys, steps: seq<Step>, t: Sys, step: Step, u: Sys, m: nat, concurrency: nat)
    requires Reaches(s, steps, t, m, concurrency)
    requires Enabled(t, step) && !LateWrite(t, step)
    requires Apply(t, step, concurrency) == u && |Writers(u, concurrency)| <= m
    ensures Reaches(s, steps + [step], u, m, concurrency)
    decreases |steps|
  {
    hide Apply, Enabled, Writers, LateWrite;
    var longer := steps + [step];
    if steps == [] {
      assert longer[0] == step && longer[1..] == [];
      assert AtMostRun(u, [], m, concurrency) && Legal(u, [], concurrency) && Exec(u, [], concurrency) == u;
      assert Pipeline.TimelyRun(u, [], concurrency);
    } else {
      assert longer[0] == steps[0] && longer[1..] == steps[1..] + [step];
      Extend(Apply(s, steps[0], concurrency), steps[1..], t, step, u, m, concurrency);
    }
  }

  /** Calls numbered below `m` are at most `m`. */
  lemma FewWriters(s: Sys, m: nat, concurrency: nat)
    requires forall c :: c in s.calls ==> c < m
    ensures |Writers(s, concurrency)| <= m
  {
    Wrappers.SubsetCard(Writers(s, concurrency), Upto(m));
  }

  /** `k` calls have counted the queue, before any goes on. */
  function Begun(q: nat, m: nat, k: nat): Sys {
    Start(0, RowsWith(q + m, q)).(calls := Counts(0, k, q))
  }

  lemma {:induction false} AllBegin(q: nat, m: nat, k: nat) returns (steps: seq<Step>)
    requires k <= m
    ensures Reaches(Begun(q, m, 0), steps, Begun(q, m, k), m, q + 1)
  {
    hide Reaches, Begun, Apply, Enabled, Writers;
    FewBegun(q, m, k);
    if k == 0 {
      steps := NothingYet(Begun(q, m, 0), m, q + 1);
    } else {
      steps := AllBegin(q, m, k - 1);
      BeginStep(q, m, k - 1);
      Extend(Begun(q, m, 0), steps, Begun(q, m, k - 1), CallBegin(k - 1), Begun(q, m, k), m, q + 1);
      steps := steps + [CallBegin(k - 1)];
    }
  }

  lemma FewBegun(q: nat, m: nat, k: nat)
    requires k <= m
    ensures |Writers(Begun(q, m, k), q + 1)| <= m
  {
    FewWriters(Begun(q, m, k), m, q + 1);
  }

  lemma NothingYet(s: Sys, m: nat, concurrency: nat) returns (steps: seq<Step>)
    requires |Writers(s, concurrency)| <= m
    ensures Reaches(s, steps, s, m, concurrency)
  {
    steps := [];
  }

  lemma CountOne(k: nat, q: nat)
    ensures Counts(0, k + 1, q) == Counts(0, k, q)[k := Counted(q)]
  {
  }

  lemma BeginStep(q: nat, m: nat, k: nat)
    ensures Enabled(Begun(q, m, k), CallBegin(k))
    ensures Apply(Begun(q, m, k), CallBegin(k), q + 1) == Begun(q, m, k + 1)
  {
    hide RowsWith, Queued, Counts;
    RowsWithQueued(q + m, q);
    CountOne(k, q);
  }

  /** The stage while call `done` is at `call`. */
  function Between(q: nat, m: nat, done: nat, call: Call): Sys {
    Stage(q, m, done).(isQueueJobRunning := true, calls := Counts(done, m, q)[done := call])
  }

  function Popped(q: nat, m: nat, done: nat): Sys {
    Stage(q, m, done + 1).(isQueueJobRunning := true, calls := Counts(done, m, q)[done := Written])
  }

  lemma CheckAndFind(q: nat, m: nat, done: nat)
    requires done < m
    ensures Enabled(Stage(q, m, done), CallCheck(done))
    ensures Apply(Stage(q, m, done), CallCheck(done), q + 1) == Between(q, m, done, Finding)
    ensures Enabled(Between(q, m, done, Finding), CallFind(done, q + done))
    ensures Apply(Between(q, m, done, Finding), CallFind(done, q + done), q + 1)
            == Between(q, m, done, Found(q + done, RowAt(q + done, q + done)))
  {
  }

  lemma WriteAndEnd(q: nat, m: nat, done: nat)
    requires done < m
    ensures var s := Between(q, m, done, Found(q + done, RowAt(q + done, q + done)));
            && Enabled(s, CallWrite(done)) && !LateWrite(s, CallWrite(done))
            && Apply(s, CallWrite(done), q + 1) == Popped(q, m, done)
    ensures Enabled(Popped(q, m, done), CallEnd(done))
    ensures Apply(Popped(q, m, done), CallEnd(done), q + 1) == Stage(q, m, done + 1)
  {
    var k, n := q + done, q + m;
    assert RowsWith(n, k)[k := RowAt(k, k).(status := QUEUED)] == RowsWith(n, k + 1);
    assert seq(done, _ => 0) + [0] == seq(done + 1, _ => 0);
    assert Counts(done, m, q)[done := Written] - {done} == Counts(done + 1, m, q);
  }

  lemma FewAtOnce(q: nat, m: nat, done: nat, call: Call)
    requires done < m
    ensures |Writers(Between(q, m, done, call), q + 1)| <= m
  {
    FewWriters(Between(q, m, done, call), m, q + 1);
  }

  lemma FewAtTheEnd(q: nat, m: nat, done: nat)
    requires done < m
    ensures |Writers(Popped(q, m, done), q + 1)| <= m && |Writers(Stage(q, m, done + 1), q + 1)| <= m
  {
    FewWriters(Popped(q, m, done), m, q + 1);
    FewWriters(Stage(q, m, done + 1), m, q + 1);
  }

  lemma OnePops(q: nat, m: nat, done: nat, steps: seq<Step>) returns (longer: seq<Step>)
    requires done < m && Reaches(Begun(q, m, 0), steps, Stage(q, m, done), m, q + 1)
    ensures Reaches(Begun(q, m, 0), longer, Stage(q, m, done + 1), m, q + 1)
  {
    var found := Between(q, m, done, Found(q + done, RowAt(q + done, q + done)));
    var finding, popped := Between(q, m, done, Finding), Popped(q, m, done);
    FewAtOnce(q, m, done, Finding);
    FewAtOnce(q, m, done, Found(q + done, RowAt(q + done, q + done)));
    FewAtTheEnd(q, m, done);
    CheckAndFind(q, m, done);
    WriteAndEnd(q, m, done);
    hide Reaches, Stage, Between, Popped, Begun, Apply, Enabled, Writers;
    longer := steps + [CallCheck(done)];
    Extend(Begun(q, m, 0), steps, Stage(q, m, done), CallCheck(done), finding, m, q + 1);
    Extend(Begun(q, m, 0), longer, finding, CallFind(done, q + done), found, m, q + 1);
    longer := longer + [CallFind(done, q + done)];
    Extend(Begun(q, m, 0), longer, found, CallWrite(done), popped, m, q + 1);
    longer := longer + [CallWrite(done)];
    Extend(Begun(q, m, 0), longer, popped, CallEnd(done), Stage(q, m, done + 1), m, q + 1);
    longer := longer + [CallEnd(done)];
  }

  lemma {:induction false} SomePop(q: nat, m: nat, done: nat) returns (steps: seq<Step>)
    requires done <= m
    ensures Reaches(Begun(q, m, 0), steps, Stage(q, m, done), m, q + 1)
  {
    if done == 0 {
      steps := AllBegin(q, m, m);
      assert Begun(q, m, m) == Stage(q, m, 0);
    } else {
      hide Reaches, Stage, Begun;
      steps := SomePop(q, m, done - 1);
      steps := OnePops(q, m, done - 1, steps);
    }
  }

  /** For every concurrency and every m some run of timely calls, at most m at once, ends with
      concurrency - 1 + m queued rows: with m = 2 the concurrency is exceeded, and the bound above is exact. */
  lemma QueueBoundIsReached(concurrency: nat, m: nat)
    requires concurrency > 0
    ensures exists rows, steps :: Overfills(rows, steps, m, concurrency)
  {
    hide *;
    var q := concurrency - 1;
    var steps := SomePop(q, m, m);
    AllPopped(q, m, steps);
  }

  lemma AllPopped(q: nat, m: nat, steps: seq<Step>)
    requires Reaches(Begun(q, m, 0), steps, Stage(q, m, m), m, q + 1)
    ensures Overfills(RowsWith(q + m, q), steps, m, q + 1)
  {
    hide RowsWith, Queued, QueueLength, Stage, Begun, AtMostRun, Legal, Exec, Pipeline.TimelyRun;
    FirstAndLast(q, m);
    RowsWithQueued(q + m, q + m);
    RowsWithQueued(q + m, q);
  }

  lemma FirstAndLast(q: nat, m: nat)
    ensures Begun(q, m, 0) == Start(0, RowsWith(q + m, q)) && Stage(q, m, m).rows == RowsWith(q + m, q + m)
  {
    hide RowsWith;
  }

  ghost predicate Overfills(rows: Table, steps: seq<Step>, m: nat, concurrency: nat) {
    && AtMostRun(Start(0, rows), steps, m, concurrency) && Pipeline.TimelyRun(Start(0, rows), steps, concurrency)
    && Legal(Start(0, rows), steps, concurrency)
    && QueueLength(rows) < concurrency
    && QueueLength(Exec(Start(0, rows), steps, concurrency).rows) == concurrency - 1 + m
  }

  // --- First in, first out ---

  predicate SortedTimes(times: seq<nat>) {
    forall i, j :: 0 <= i < j < |times| ==> times[i] <= times[j]
  }

  /** No NEW row, and none yet to be added, is older than `time`. */
  predicate NoneOlder(s: Sys, time: nat) {
    time <= s.now && forall k :: 0 <= k < |s.rows| && s.rows[k].status == NEW ==> time <= s.rows[k].createdAt
  }

  /** What was popped, and what a call holds to pop it, is no newer than any row that is still NEW. */
  predicate TimesOk(s: Sys) {
    && (forall k :: 0 <= k < |s.rows| && s.rows[k].status == NEW ==> s.rows[k].createdAt <= s.now)
    && (forall j :: 0 <= j < |s.popped| ==> NoneOlder(s, s.popped[j]))
    && (forall c :: c in s.calls && s.calls[c].Found? ==> NoneOlder(s, s.calls[c].snapshot.createdAt))
  }

  /** No row becomes NEW again; the rows added are created now. */
  lemma NewStaysNew(s: Sys, step: Step, concurrency: nat, k: nat)
    requires Enabled(s, step) && k < |Apply(s, step, concurrency).rows|
    requires Apply(s, step, concurrency).rows[k].status == NEW
    ensures var r := Apply(s, step, concurrency).rows[k];
            if k < |s.rows| then s.rows[k].status == NEW && s.rows[k].createdAt == r.createdAt
            else r.createdAt == s.now
  {
    RowsKept(s, step, concurrency);
    RowsAdded(s, step, concurrency);
  }

  lemma NoneOlderStays(s: Sys, step: Step, concurrency: nat, time: nat)
    requires Enabled(s, step) && NoneOlder(s, time)
    ensures NoneOlder(Apply(s, step, concurrency), time)
  {
    hide Apply, Enabled;
    Frames(s, step, concurrency);
    var s' := Apply(s, step, concurrency);
    forall k | 0 <= k < |s'.rows| && s'.rows[k].status == NEW ensures time <= s'.rows[k].createdAt {
      NewStaysNew(s, step, concurrency, k);
    }
  }

  lemma PoppedGrows(s: Sys, step: Step, concurrency: nat)
    requires Enabled(s, step)
    ensures Apply(s, step, concurrency).popped ==
            if step.CallWrite? then s.popped + [s.calls[step.call].snapshot.createdAt] else s.popped
  {
    if !IsCallStep(step) {
      hide Apply, Enabled;
      Frames(s, step, concurrency);
    }
  }

  lemma StepKeepsTimes(s: Sys, step: Step, concurrency: nat)
    requires TimesOk(s) && Enabled(s, step)
    ensures TimesOk(Apply(s, step, concurrency))
  {
    var s' := Apply(s, step, concurrency);
    assert step.CallWrite? ==> NoneOlder(s, s.calls[step.call].snapshot.createdAt);
    CallsMove(s, step, concurrency);
    PoppedGrows(s, step, concurrency);
    Frames(s, step, concurrency);
    hide Apply, Enabled, NoneOlder;
    forall k | 0 <= k < |s'.rows| && s'.rows[k].status == NEW ensures s'.rows[k].createdAt <= s'.now {
      NewStaysNew(s, step, concurrency, k);
    }
    forall j | 0 <= j < |s'.popped| ensures NoneOlder(s', s'.popped[j]) {
      NoneOlderStays(s, step, concurrency, s'.popped[j]);
    }
    forall c | c in s'.calls && s'.calls[c].Found? ensures NoneOlder(s', s'.calls[c].snapshot.createdAt) {
      if !(c in s.calls && s.calls[c] == s'.calls[c]) {
        OldestIsNoneOlder(s, s'.calls[c].id);
      }
      NoneOlderStays(s, step, concurrency, s'.calls[c].snapshot.createdAt);
    }
  }

  lemma OldestIsNoneOlder(s: Sys, id: nat)
    requires TimesOk(s) && IsOldestNew(s.rows, id)
    ensures NoneOlder(s, s.rows[id].createdAt)
  {
  }

  /** A pop that takes its row out of NEW. Calls that hold the same row pop it again. */
  predicate FirstPop(s: Sys, step: Step) {
    && step.CallWrite? && step.call in s.calls && s.calls[step.call].Found?
    && s.calls[step.call].id < |s.rows| && s.rows[s.calls[step.call].id].status == NEW
  }

  /** A pop of a row created before some row popped earlier. */
  predicate PopsOlder(s: Sys, step: Step) {
    && step.CallWrite? && step.call in s.calls && s.calls[step.call].Found?
    && exists t :: t in s.popped && t > s.calls[step.call].snapshot.createdAt
  }

  lemma FirstPopIsInOrder(s: Sys, step: Step)
    requires TimesOk(s) && Pipeline.OriginsOk(s) && FirstPop(s, step)
    ensures !PopsOlder(s, step)
  {
    var Found(id, snapshot) := s.calls[step.call];
    assert Pipeline.Belongs(s.rows, id, snapshot);
    forall t | t in s.popped ensures t <= snapshot.createdAt {
      assert NoneOlder(s, t);
    }
  }

  /** Every pop that takes a row out of NEW comes in order of creation. */
  predicate FirstPopsInOrder(s: Sys, steps: seq<Step>, concurrency: nat)
    requires Legal(s, steps, concurrency)
    decreases |steps|
  {
    steps == []
    || ((FirstPop(s, steps[0]) ==> !PopsOlder(s, steps[0]))
        && FirstPopsInOrder(Apply(s, steps[0], concurrency), steps[1..], concurrency))
  }

  /** In every run, whatever overlaps, while feeds keep adding rows: a pop that takes a row out of NEW never
      takes one created before a row popped earlier. */
  lemma {:induction false} PopsAreFifo(s: Sys, steps: seq<Step>, concurrency: nat)
    requires TimesOk(s) && Pipeline.OriginsOk(s) && Legal(s, steps, concurrency)
    ensures FirstPopsInOrder(s, steps, concurrency)
    decreases |steps|
  {
    if steps != [] {
      hide Apply, Enabled, TimesOk, FirstPop, PopsOlder;
      if FirstPop(s, steps[0]) { FirstPopIsInOrder(s, steps[0]); }
      StepKeepsTimes(s, steps[0], concurrency);
      Pipeline.StepKeepsOrigins(s, steps[0], concurrency);
      PopsAreFifo(Apply(s, steps[0], concurrency), steps[1..], concurrency);
    }
  }

  /** No row is popped a second time after a newer one. */
  predicate NoOlderRepeat(s: Sys, steps: seq<Step>, concurrency: nat)
    requires Legal(s, steps, concurrency)
    decreases |steps|
  {
    steps == []
    || (!(PopsOlder(s, steps[0]) && !FirstPop(s, steps[0]))
        && NoOlderRepeat(Apply(s, steps[0], concurrency), steps[1..], concurrency))
  }

  lemma SortedGrows(s: Sys, step: Step, concurrency: nat)
    requires Enabled(s, step) && SortedTimes(s.popped)
    ensures SortedTimes(Apply(s, step, concurrency).popped) <==> !PopsOlder(s, step)
  {
    PoppedGrows(s, step, concurrency);
    var popped := Apply(s, step, concurrency).popped;
    if step.CallWrite? {
      assert step.call in s.calls && s.calls[step.call].Found?;
      hide Apply, Enabled;
      var last := s.calls[step.call].snapshot.createdAt;
      assert popped[|s.popped|] == last;
      if PopsOlder(s, step) {
        var t :| t in s.popped && t > last;
        var j :| 0 <= j < |s.popped| && s.popped[j] == t;
        assert popped[j] == t;
      } else {
        forall j | 0 <= j < |s.popped| ensures popped[j] <= last {
          assert s.popped[j] in s.popped;
        }
      }
    }
  }

  lemma {:induction false} PoppedIsPrefix(s: Sys, steps: seq<Step>, concurrency: nat)
    requires Legal(s, steps, concurrency)
    ensures s.popped <= Exec(s, steps, concurrency).popped
    decreases |steps|
  {
    if steps != [] {
      PoppedGrows(s, steps[0], concurrency);
      PoppedIsPrefix(Apply(s, steps[0], concurrency), steps[1..], concurrency);
    }
  }

  /** In every run: all pops together, repeated ones included, come in order of creation if and only if no row
      is popped a second time after a newer one. */
  lemma {:induction false} PopsSortedIff(s: Sys, steps: seq<Step>, concurrency: nat)
    requires TimesOk(s) && Pipeline.OriginsOk(s) && SortedTimes(s.popped) && Legal(s, steps, concurrency)
    ensures SortedTimes(Exec(s, steps, concurrency).popped) <==> NoOlderRepeat(s, steps, concurrency)
    decreases |steps|
  {
    if steps != [] {
      hide Apply, Enabled, TimesOk, FirstPop, PopsOlder, SortedTimes;
      var s' := Apply(s, steps[0], concurrency);
      if FirstPop(s, steps[0]) { FirstPopIsInOrder(s, steps[0]); }
      SortedGrows(s, steps[0], concurrency);
      if PopsOlder(s, steps[0]) {
        PoppedIsPrefix(s', steps[1..], concurrency);
        if SortedTimes(Exec(s', steps[1..], concurrency).popped) {
          PrefixSorted(s'.popped, Exec(s', steps[1..], concurrency).popped);
        }
      } else {
        StepKeepsTimes(s, steps[0], concurrency);
        Pipeline.StepKeepsOrigins(s, steps[0], concurrency);
        PopsSortedIff(s', steps[1..], concurrency);
      }
    }
  }

  lemma PrefixSorted(a: seq<nat>, b: seq<nat>)
    requires a <= b && SortedTimes(b)
    ensures SortedTimes(a)
  {
  }

  lemma {:induction false} SoloNeverRepeats(s: Sys, steps: seq<Step>, concurrency: nat)
    requires TableInv(s) && Pipeline.Fresh(s) && Pipeline.SoloRun(s, steps, concurrency)
    ensures Legal(s, steps, concurrency) && NoOlderRepeat(s, steps, concurrency)
    decreases |steps|
  {
    if steps != [] {
      assert PopsOlder(s, steps[0]) ==> FirstPop(s, steps[0]);
      hide Apply, Enabled, PopsOlder, FirstPop;
      Pipeline.SoloStepKeepsFresh(s, steps[0], concurrency);
      StepKeepsTable(s, steps[0], concurrency);
      SoloNeverRepeats(Apply(s, steps[0], concurrency), steps[1..], concurrency);
    }
  }

  /** What non-overlapping calls make of both: the queue stays within the concurrency, or what it was, and all
      pops come in order of creation. */
  lemma SoloQueue(now: nat, rows: Table, steps: seq<Step>, concurrency: nat)
    requires RowsOk(rows) && Pipeline.SoloRun(Start(now, rows), steps, concurrency)
    requires forall k :: 0 <= k < |rows| ==> rows[k].createdAt <= now
    ensures Legal(Start(now, rows), steps, concurrency)
    ensures var s := Exec(Start(now, rows), steps, concurrency);
            && SortedTimes(s.popped)
            && (QueueLength(s.rows) <= QueueLength(rows) || QueueLength(s.rows) <= concurrency)
  {
    SoloNeverRepeats(Start(now, rows), steps, concurrency);
    PopsSortedIff(Start(now, rows), steps, concurrency);
    SoloIsAtMostOne(Start(now, rows), steps, concurrency);
    QueueIsBounded(now, rows, steps, 1, concurrency);
  }
}
