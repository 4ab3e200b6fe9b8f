/** How many sweeps clear the stopping torrents when no torrent becomes stopping and none but stopping ones are
    removed, with sweeps, adds and events interleaved at every await. */
module Backlog {
  import opened Wrappers
  import opened Lifecycle
  import opened TorrentRuns
  import Sweeps
  import Tightness

  // --- Which entries are stopping ---

  function Flags(client: seq<Snap>): (f: seq<bool>)
    ensures |f| == |client| && forall k :: 0 <= k < |f| ==> f[k] == (client[k].status == Stopping)
  {
    seq(|client|, k requires 0 <= k < |client| => client[k].status == Stopping)
  }

  function Count(f: seq<bool>): nat {
    if f == [] then 0 else (if f[0] then 1 else 0) + Count(f[1..])
  }

  /** Those among the first `n`; the array may have shrunk below `n`. */
  function CountTo(f: seq<bool>, n: nat): nat {
    if n <= |f| then Count(f[..n]) else Count(f)
  }

  lemma {:induction false} CountIsStopCount(client: seq<Snap>)
    ensures Count(Flags(client)) == Sweeps.StopCount(client)
  {
    if client != [] {
      assert Flags(client)[1..] == Flags(client[1..]);
      CountIsStopCount(client[1..]);
    }
  }

  lemma {:induction false} CountConcat(f: seq<bool>, g: seq<bool>)
    ensures Count(f + g) == Count(f) + Count(g)
  {
    if f == [] {
      assert f + g == g;
    } else {
      assert (f + g)[1..] == f[1..] + g;
      CountConcat(f[1..], g);
    }
  }

  lemma CountSplit(f: seq<bool>, n: nat)
    requires n <= |f|
    ensures Count(f) == Count(f[..n]) + Count(f[n..])
  {
    assert f == f[..n] + f[n..];
    CountConcat(f[..n], f[n..]);
  }

  lemma CountToNext(f: seq<bool>, n: nat)
    requires n < |f|
    ensures CountTo(f, n + 1) == CountTo(f, n) + if f[n] then 1 else 0
  {
    assert f[..n + 1] == f[..n] + [f[n]];
    CountConcat(f[..n], [f[n]]);
    assert [f[n]][1..] == [];
  }

  lemma CountToAtMost(f: seq<bool>, n: nat)
    ensures CountTo(f, n) <= Count(f)
  {
    if n <= |f| { CountSplit(f, n); }
  }

  lemma CountAppended(f: seq<bool>, n: nat)
    ensures Count(f + [false]) == Count(f) && CountTo(f + [false], n) == CountTo(f, n)
  {
    CountConcat(f, [false]);
    assert [false][1..] == [];
    if n <= |f| {
      assert (f + [false])[..n] == f[..n];
    } else if n == |f| + 1 {
      assert (f + [false])[..n] == f + [false];
    }
  }

  /** Removing a stopping entry: one less in all, and no more than before among the first `n`. */
  lemma CountRemoved(f: seq<bool>, p: nat, n: nat)
    requires p < |f| && f[p]
    ensures var f' := f[..p] + f[p + 1..]; Count(f') == Count(f) - 1 && CountTo(f', n) <= CountTo(f, n)
  {
    var f' := f[..p] + f[p + 1..];
    CountWithout(f, p);
    if p < n < |f| {
      assert f'[..n] == f[..n + 1][..p] + f[..n + 1][p + 1..];
      CountWithout(f[..n + 1], p);
      CountToNext(f, n);
    } else if n <= p {
      assert f'[..n] == f[..n];
    } else {
      CountToAtMost(f', n);
      assert n == |f| ==> f[..n] == f;
    }
  }

  lemma CountWithout(f: seq<bool>, p: nat)
    requires p < |f| && f[p]
    ensures Count(f[..p] + f[p + 1..]) == Count(f) - 1
  {
    CountSplit(f, p);
    CountConcat(f[..p], f[p + 1..]);
    assert f[p..][1..] == f[p + 1..];
  }

  // --- Calm runs ---

  /** No torrent becomes stopping or ceases to be by an event, none is removed but stopping ones, and no destroy
      is rejected. Adds, events on the other torrents, ticks that mark none, and any number of sweeps may come. */
  predicate Calm(s: Sys, step: Step, cfg: Config)
    requires Enabled(s, step)
  {
    match step
    case Touch(h) => Get(s.client, h).status != Stopping
    case Resume(h) => Get(s.client, h).status != Stopping
    case Tick => forall k :: 0 <= k < |s.client| && Ticked(s.client[k], s.now, cfg).status == Stopping ==>
                   s.client[k].status == Stopping
    case OtherDestroy(h) => Get(s.client, h).status == Stopping
    case SweepDestroy(w) => Get(s.client, s.sweeps[w].victim.value).status == Stopping
    case SweepFail(_) => false
    case _ => true
  }

  predicate CalmRun(s: Sys, steps: seq<Step>, cfg: Config)
    requires Legal(s, steps, cfg)
    decreases |steps|
  {
    steps == [] || (Calm(s, steps[0], cfg) && CalmRun(Apply(s, steps[0], cfg), steps[1..], cfg))
  }

  /** Where a removal takes place. */
  function Gone(s: Sys, step: Step): nat
    requires Enabled(s, step) && (step.OtherDestroy? || step.SweepDestroy?)
  {
    Place(s.client, if step.OtherDestroy? then step.hash else s.sweeps[step.sweep].victim.value).value
  }

  /** What a calm step does to the flags. */
  lemma FlagsMove(s: Sys, step: Step, cfg: Config)
    requires AllHonest(s, cfg) && Enabled(s, step) && Calm(s, step, cfg)
    ensures var f, f' := Flags(s.client), Flags(Apply(s, step, cfg).client);
            if step.Add? then f' == f + [false]
            else if step.OtherDestroy? || step.SweepDestroy? then
              Gone(s, step) < |f| && f[Gone(s, step)] && f' == f[..Gone(s, step)] + f[Gone(s, step) + 1..]
            else f' == f
  {
    if Moves(step) {
      MovesFlags(s, step, cfg);
    } else if step.Tick? {
      TickKeepsFlags(s, cfg);
    } else {
      UpdatesKeepFlags(s, step, cfg);
    }
  }

  lemma MovesFlags(s: Sys, step: Step, cfg: Config)
    requires Enabled(s, step) && Calm(s, step, cfg) && Moves(step)
    ensures var f, f' := Flags(s.client), Flags(Apply(s, step, cfg).client);
            if step.Add? then f' == f + [false]
            else Gone(s, step) < |f| && f[Gone(s, step)] && f' == f[..Gone(s, step)] + f[Gone(s, step) + 1..]
  {
  }

  lemma UpdatesKeepFlags(s: Sys, step: Step, cfg: Config)
    requires Enabled(s, step) && Calm(s, step, cfg) && !Moves(step) && !step.Tick?
    ensures Flags(Apply(s, step, cfg).client) == Flags(s.client)
  {
  }

  lemma TickKeepsFlags(s: Sys, cfg: Config)
    requires AllHonest(s, cfg) && Calm(s, Tick, cfg)
    ensures Flags(Apply(s, Tick, cfg).client) == Flags(s.client)
  {
    forall k | 0 <= k < |s.client| ensures Flags(Apply(s, Tick, cfg).client)[k] == Flags(s.client)[k] {
      assert Honest(s.client[k], s.now, cfg);
    }
  }

  // --- One sweep halves the backlog ---

  /** The sweep has a torrent in hand that it is about to destroy. */
  predicate InHand(s: Sys, sweep: nat) {
    sweep in s.sweeps && s.sweeps[sweep].victim.Some? && Place(s.client, s.sweeps[sweep].victim.value).Some?
  }

  /** With `n` stopping torrents when the sweep began: those its iterator has left behind, but for the one in
      hand, are no more than those removed since. */
  predicate Halving(s: Sys, sweep: nat, n: nat) {
    && sweep in s.sweeps
    && CountTo(Flags(s.client), s.sweeps[sweep].next) - (if InHand(s, sweep) then 1 else 0)
       <= n - Count(Flags(s.client))
  }

  lemma CalmNeverGrows(s: Sys, step: Step, cfg: Config)
    requires AllHonest(s, cfg) && Enabled(s, step) && Calm(s, step, cfg)
    ensures Count(Flags(Apply(s, step, cfg).client)) <= Count(Flags(s.client))
  {
    hide Apply, Enabled, AllHonest, Calm, Gone;
    FlagsMove(s, step, cfg);
    var f := Flags(s.client);
    if step.Add? {
      CountAppended(f, 0);
    } else if step.OtherDestroy? || step.SweepDestroy? {
      CountRemoved(f, Gone(s, step), 0);
    }
  }

  lemma SweepHalvesBegin(s: Sys, sweep: nat, cfg: Config)
    requires Enabled(s, SweepBegin(sweep))
    ensures Halving(Apply(s, SweepBegin(sweep), cfg), sweep, Count(Flags(s.client)))
  {
    var f := Flags(s.client);
    assert f[..0] == [];
  }

  lemma VisitKeepsHalving(s: Sys, sweep: nat, cfg: Config, n: nat)
    requires Enabled(s, SweepVisit(sweep)) && Halving(s, sweep, n)
    requires Flags(Apply(s, SweepVisit(sweep), cfg).client) == Flags(s.client)
    ensures Halving(Apply(s, SweepVisit(sweep), cfg), sweep, n)
  {
    var s', i := Apply(s, SweepVisit(sweep), cfg), s.sweeps[sweep].next;
    CountToNext(Flags(s.client), i);
    if Flags(s.client)[i] {
      assert s'.client[i].infoHash == s.client[i].infoHash;
      assert InHand(s', sweep);
    }
  }

  /** How the cursor of a sweep that goes on, and the torrent in its hand, move when it visits nothing. */
  lemma CursorKept(s: Sys, step: Step, cfg: Config, sweep: nat)
    requires Enabled(s, step) && step != SweepEnd(sweep) && step != SweepVisit(sweep) && sweep in s.sweeps
    ensures var s' := Apply(s, step, cfg);
            && sweep in s'.sweeps && s'.sweeps[sweep].next == s.sweeps[sweep].next
            && (InHand(s, sweep) && !InHand(s', sweep) ==> step.OtherDestroy? || step.SweepDestroy? || step.SweepFail?)
  {
    if !Moves(step) {
      UpdatesKeepHashes(s, step, cfg);
      if InHand(s, sweep) {
        SamePlaces(s.client, Apply(s, step, cfg).client, s.sweeps[sweep].victim.value);
      }
    } else if step.Add? && InHand(s, sweep) {
      var x := s.sweeps[sweep].victim.value;
      assert Apply(s, step, cfg).client[Place(s.client, x).value] == Get(s.client, x);
    }
  }

  lemma HalvingKept(s: Sys, step: Step, cfg: Config, sweep: nat, n: nat)
    requires AllHonest(s, cfg) && Enabled(s, step) && Calm(s, step, cfg)
    requires Halving(s, sweep, n) && step != SweepEnd(sweep)
    ensures Halving(Apply(s, step, cfg), sweep, n)
  {
    FlagsMove(s, step, cfg);
    if step == SweepVisit(sweep) {
      VisitKeepsHalving(s, sweep, cfg, n);
    } else {
      CursorKept(s, step, cfg, sweep);
      CountsKept(s, step, cfg, s.sweeps[sweep].next);
      hide Apply, Enabled, AllHonest, Flags, InHand, Gone, CountTo;
    }
  }

  lemma CountsKept(s: Sys, step: Step, cfg: Config, next: nat)
    requires AllHonest(s, cfg) && Enabled(s, step) && Calm(s, step, cfg)
    ensures var f, f' := Flags(s.client), Flags(Apply(s, step, cfg).client);
            && CountTo(f', next) <= CountTo(f, next)
            && Count(f') == Count(f) - if step.OtherDestroy? || step.SweepDestroy? then 1 else 0
  {
    hide Apply, Enabled, AllHonest, Calm, Gone;
    FlagsMove(s, step, cfg);
    var f := Flags(s.client);
    if step.Add? {
      CountAppended(f, next);
    } else if step.OtherDestroy? || step.SweepDestroy? {
      CountRemoved(f, Gone(s, step), next);
    }
  }

  lemma SweepHalvesEnd(s: Sys, sweep: nat, cfg: Config, n: nat)
    requires Enabled(s, SweepEnd(sweep)) && Halving(s, sweep, n)
    ensures Count(Flags(Apply(s, SweepEnd(sweep), cfg).client)) <= n / 2
  {
    var f := Flags(s.client);
    assert f[..|f|] == f;
  }

  // --- So logarithmically many clear it ---

  lemma {:induction false} CalmPassesClear(
      s: Sys, steps: seq<Step>, cfg: Config, current: Option<nat>, n: nat)
    requires AllHonest(s, cfg) && Legal(s, steps, cfg) && CalmRun(s, steps, cfg)
    requires current.None? ==> Passes(steps, None) >= Sweeps.Bits(Count(Flags(s.client)))
    requires current.Some? ==> Halving(s, current.value, n) && Passes(steps, current) >= 1 + Sweeps.Bits(n / 2)
    ensures Count(Flags(Exec(s, steps, cfg).client)) == 0
    decreases |steps|
  {
    if steps != [] {
      var step, s' := steps[0], Apply(s, steps[0], cfg);
      var count, count' := Count(Flags(s.client)), Count(Flags(s'.client));
      StepKeepsHonest(s, step, cfg);
      CalmNeverGrows(s, step, cfg);
      Sweeps.BitsMonotone(count', count);
      hide Apply, Enabled, AllHonest, Halving, Flags, Count, Calm;
      if current.None? && count > 0 && step.SweepBegin?
         && Passes(steps[1..], Some(step.sweep)) >= Sweeps.Bits(count) {
        SweepHalvesBegin(s, step.sweep, cfg);
        CalmPassesClear(s', steps[1..], cfg, Some(step.sweep), count);
      } else if current.None? {
        CalmPassesClear(s', steps[1..], cfg, None, n);
      } else if step == SweepEnd(current.value) {
        SweepHalvesEnd(s, current.value, cfg, n);
        Sweeps.BitsMonotone(count', n / 2);
        CalmPassesClear(s', steps[1..], cfg, None, n);
      } else {
        HalvingKept(s, step, cfg, current.value, n);
        CalmPassesClear(s', steps[1..], cfg, current, n);
      }
    }
  }

  /** In every run from an empty client: once no torrent becomes stopping any more and none but stopping ones are
      removed, floor(log2 n) + 1 whole sweeps, one after another, clear n stopping torrents, whatever adds,
      events, ticks and further sweeps, overlapping or hanging, come between any two awaits. */
  lemma BacklogClears(start: int, before: seq<Step>, after: seq<Step>, cfg: Config)
    requires Legal(Start(start), before, cfg)
    requires var s := Exec(Start(start), before, cfg);
             && Legal(s, after, cfg) && CalmRun(s, after, cfg)
             && Passes(after, None) >= Sweeps.Bits(Sweeps.StopCount(s.client))
    ensures Sweeps.StopCount(Exec(Exec(Start(start), before, cfg), after, cfg).client) == 0
  {
    var s := Exec(Start(start), before, cfg);
    RunsStayHonest(Start(start), before, cfg);
    CountIsStopCount(s.client);
    CountIsStopCount(Exec(s, after, cfg).client);
    CalmPassesClear(s, after, cfg, None, 0);
  }

  // --- Why only stopping torrents may be removed ---

  /** The torrent in front is visited and then destroyed elsewhere, which hides "x" from the sweep. */
  const HIDING: seq<Step> := [SweepBegin(0), SweepVisit(0), OtherDestroy(""), SweepEnd(0)]

  function BeforeHiding(cfg: Config): seq<Step> {
    Tightness.SetupSteps(1) + [Wait(Tightness.Long(cfg)), Tick]
  }

  /** A torrent that is not stopping, and "x", which is. */
  function OneStopping(cfg: Config): Sys {
    Sys(Tightness.Long(cfg), [Added(""), Snap("x", true, false, Stopping, Some(0))], map[])
  }

  lemma BeforeHidingRuns(cfg: Config)
    ensures Legal(Start(0), BeforeHiding(cfg), cfg)
    ensures Exec(Start(0), BeforeHiding(cfg), cfg) == OneStopping(cfg)
  {
    var s, more := Sys(0, Tightness.Waiting(1, Running), map[]), [Wait(Tightness.Long(cfg)), Tick];
    assert Tightness.Name(0) == "";
    var client := [Added(""), Snap("x", true, false, Running, Some(0))];
    assert Tightness.Waiting(1, Running) == client;
    assert TickAll(client, Tightness.Long(cfg), cfg) == OneStopping(cfg).client;
    var s1 := s.(now := Tightness.Long(cfg));
    assert more[2..] == [] && more[0..] == more;
    Unroll(s1, more, 1, OneStopping(cfg), OneStopping(cfg), cfg);
    Unroll(s, more, 0, s1, OneStopping(cfg), cfg);
    Tightness.SetupRuns(1, cfg);
    Tightness.Continues(Start(0), Tightness.SetupSteps(1), more, cfg);
  }

  /** For all thresholds some run from an empty client shows that the condition on removals is needed: when a
      torrent that is not stopping is destroyed behind the iterator, one whole sweep does not clear even one
      stopping torrent. */
  lemma DestroyDefeatsHalving(cfg: Config)
    ensures Legal(Start(0), BeforeHiding(cfg), cfg)
    ensures var s := Exec(Start(0), BeforeHiding(cfg), cfg);
            && Legal(s, HIDING, cfg) && Passes(HIDING, None) >= Sweeps.Bits(Sweeps.StopCount(s.client))
            && Sweeps.StopCount(Exec(s, HIDING, cfg).client) == Sweeps.StopCount(s.client) == 1
  {
    BeforeHidingRuns(cfg);
    HidingRuns(cfg);
    HidingPasses();
    var x := Snap("x", true, false, Stopping, Some(0));
    assert [Added(""), x][1..] == [x] && [x][1..] == [];
  }

  lemma HidingPasses()
    ensures Passes(HIDING, None) >= 1 && Sweeps.Bits(1) == 1
  {
    assert HIDING[1..][1..][1..] == [SweepEnd(0)] && [SweepEnd(0)][1..] == [];
    assert Passes(HIDING[1..][1..][1..], Some(0)) == 1;
    assert Passes(HIDING[1..], Some(0)) == Passes(HIDING[1..][1..], Some(0)) == 1;
  }

  lemma HidingRuns(cfg: Config)
    ensures Legal(OneStopping(cfg), HIDING, cfg)
    ensures Exec(OneStopping(cfg), HIDING, cfg).client == [Snap("x", true, false, Stopping, Some(0))]
  {
    var x := Snap("x", true, false, Stopping, Some(0));
    var s := OneStopping(cfg);
    var s1 := s.(sweeps := map[0 := Cursor(0, None)]);
    var s2 := s.(sweeps := map[0 := Cursor(1, None)]);
    var s3 := s2.(client := [x]);
    var end := s3.(sweeps := map[]);
    assert Settled(s.client[0]) == s.client[0] && s.client[0 := s.client[0]] == s.client;
    assert Place(s.client, "") == Some(0) && s.client[1..] == [x] && s.client[..0] == [];
    assert HIDING[4..] == [] && HIDING[0..] == HIDING;
    hide Place;
    Unroll(s3, HIDING, 3, end, end, cfg);
    Unroll(s2, HIDING, 2, s3, end, cfg);
    Unroll(s1, HIDING, 1, s2, end, cfg);
    Unroll(s, HIDING, 0, s1, end, cfg);
  }
}
