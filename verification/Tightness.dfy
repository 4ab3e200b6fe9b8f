/** The bound on the sweeps an idle torrent may survive is reached by runs of the step system. */
module Tightness {
  import opened Wrappers
  import opened Lifecycle
  import opened TorrentRuns
  import Sweeps

  lemma {:induction false} Continues(s: Sys, first: seq<Step>, more: seq<Step>, cfg: Config)
    requires Legal(s, first, cfg) && Legal(Exec(s, first, cfg), more, cfg)
    ensures Legal(s, first + more, cfg)
    ensures Exec(s, first + more, cfg) == Exec(Exec(s, first, cfg), more, cfg)
    decreases |first|
  {
    if first == [] {
      assert first + more == more;
    } else {
      assert (first + more)[1..] == first[1..] + more;
      Continues(Apply(s, first[0], cfg), first[1..], more, cfg);
    }
  }

  // --- The client ---

  /** The `i`-th torrent in front of "x". */
  function Name(i: nat): string {
    seq(i, _ => 't')
  }

  /** `m` torrents that have not become ready, and behind them "x", read once at time 0. */
  function Waiting(m: nat, status: Status): seq<Snap> {
    NamesAdded(m) + [Snap("x", true, false, status, Some(0))]
  }

  function NamesAdded(m: nat): seq<Snap> {
    seq(m, k requires 0 <= k < m => Added(Name(k)))
  }

  lemma WaitingEntries(m: nat, status: Status)
    ensures |Waiting(m, status)| == m + 1 && Waiting(m, status)[m] == Snap("x", true, false, status, Some(0))
    ensures forall k :: 0 <= k < m ==> Waiting(m, status)[k] == Added(Name(k))
  {
  }

  lemma NamesDiffer(i: nat, j: nat)
    requires i != j
    ensures Name(i) != Name(j)
  {
    assert |Name(i)| == i && |Name(j)| == j;
  }

  lemma NameIsNotX(i: nat)
    ensures Name(i) != "x"
  {
    if i == 1 { assert Name(i)[0] == 't'; } else { assert |Name(i)| == i; }
  }

  lemma PlacesWaiting(m: nat, status: Status)
    ensures DistinctHashes(Waiting(m, status)) && Place(Waiting(m, status), "x") == Some(m)
    ensures forall k :: 0 <= k < m ==> Place(Waiting(m, status), Name(k)) == Some(k)
  {
    var s := Waiting(m, status);
    WaitingEntries(m, status);
    hide Waiting, Name;
    forall i, j | 0 <= i < j < |s| ensures s[i].infoHash != s[j].infoHash {
      if j < m { NamesDiffer(i, j); } else { NameIsNotX(i); }
    }
    forall k | 0 <= k < m ensures Place(s, Name(k)) == Some(k) {
      assert s[k].infoHash == Name(k);
    }
    assert s[m].infoHash == "x";
  }

  /** Long enough to be idle past both thresholds. */
  function Long(cfg: Config): nat {
    Max(if cfg.pauseAfter > 0 then cfg.pauseAfter else 0, if cfg.stopAfter > 0 then cfg.stopAfter else 0)
  }

  // --- Setting it up ---

  function AddSteps(n: nat): seq<Step> {
    if n == 0 then [] else AddSteps(n - 1) + [Add(Name(n - 1))]
  }

  function SetupSteps(n: nat): seq<Step> {
    AddSteps(n) + [Add("x"), BecomeReady("x"), Touch("x")]
  }

  lemma {:induction false} AddsRun(n: nat, cfg: Config)
    ensures Legal(Start(0), AddSteps(n), cfg) && Exec(Start(0), AddSteps(n), cfg) == Sys(0, NamesAdded(n), map[])
  {
    if n > 0 {
      AddsRun(n - 1, cfg);
      var s, add := Sys(0, NamesAdded(n - 1), map[]), Add(Name(n - 1));
      forall k | 0 <= k < n - 1 ensures s.client[k].infoHash != Name(n - 1) {
        NamesDiffer(k, n - 1);
      }
      assert NamesAdded(n - 1) + [Added(Name(n - 1))] == NamesAdded(n);
      assert [add][1..] == [] && Exec(s, [add], cfg) == Sys(0, NamesAdded(n), map[]);
      Continues(Start(0), AddSteps(n - 1), [add], cfg);
    }
  }

  lemma SetupRuns(n: nat, cfg: Config)
    ensures Legal(Start(0), SetupSteps(n), cfg)
    ensures Exec(Start(0), SetupSteps(n), cfg) == Sys(0, Waiting(n, Running), map[])
  {
    AddsRun(n, cfg);
    var more := [Add("x"), BecomeReady("x"), Touch("x")];
    XRuns(n, cfg);
    Continues(Start(0), AddSteps(n), more, cfg);
  }

  lemma XIsBehind(n: nat, t: Snap)
    requires t.infoHash == "x"
    ensures Place(NamesAdded(n), "x") == None && Place(NamesAdded(n) + [t], "x") == Some(n)
  {
    var s := NamesAdded(n) + [t];
    forall k | 0 <= k < n ensures NamesAdded(n)[k].infoHash != "x" && s[k].infoHash != "x" {
      NameIsNotX(k);
    }
    assert s[n] == t;
  }

  lemma XRuns(n: nat, cfg: Config)
    ensures var s, more := Sys(0, NamesAdded(n), map[]), [Add("x"), BecomeReady("x"), Touch("x")];
            Legal(s, more, cfg) && Exec(s, more, cfg) == Sys(0, Waiting(n, Running), map[])
  {
    var s, more := Sys(0, NamesAdded(n), map[]), [Add("x"), BecomeReady("x"), Touch("x")];
    var names := NamesAdded(n);
    var s1 := s.(client := names + [Added("x")]);
    var s2 := s.(client := names + [Snap("x", true, false, Na, None)]);
    var s3 := Sys(0, Waiting(n, Running), map[]);
    XIsBehind(n, Added("x"));
    XIsBehind(n, Snap("x", true, false, Na, None));
    hide Place;
    assert s1.client[n := Snap("x", true, false, Na, None)] == s2.client;
    assert s2.client[n := Snap("x", true, false, Running, Some(0))] == s3.client;
    assert more[3..] == [];
    Unroll(s2, more, 2, s3, s3, cfg);
    Unroll(s1, more, 1, s2, s3, cfg);
    Unroll(s, more, 0, s1, s3, cfg);
    assert more[0..] == more;
  }

  // --- One round ---

  /** The client once the torrent in front of "x" is `t`. */
  function Front(m: nat, status: Status, t: Snap): seq<Snap>
    requires m > 0
  {
    NamesAdded(m - 1) + [t, Snap("x", true, false, status, Some(0))]
  }

  function ReadOnce(m: nat, now: int): Snap
    requires m > 0
  {
    Snap(Name(m - 1), true, false, Running, Some(now))
  }

  /** After a round's tick: the torrent in front of "x", read at `time`, is stopping, and so is "x". */
  function Marked(m: nat, time: int): seq<Snap>
    requires m > 0
  {
    Front(m, Stopping, ReadOnce(m, time).(status := Stopping))
  }

  /** The torrent in front of "x" becomes ready and is read once, and a long time passes. */
  function EventSteps(m: nat, cfg: Config): seq<Step>
    requires m > 0
  {
    [BecomeReady(Name(m - 1)), Touch(Name(m - 1)), Wait(Long(cfg))]
  }

  /** That, then a tick and a whole sweep. */
  function RoundSteps(m: nat, now: int, cfg: Config): seq<Step>
    requires m > 0
  {
    EventSteps(m, cfg) + ([Tick, SweepBegin(0)] + AloneSteps(Marked(m, now), 0))
  }

  function RoundsSteps(m: nat, now: int, cfg: Config): seq<Step> {
    if m == 0 then [] else RoundSteps(m, now, cfg) + RoundsSteps(m - 1, now + Long(cfg), cfg)
  }

  lemma FrontFromWaiting(m: nat, status: Status, t: Snap)
    requires m > 0
    ensures |Waiting(m, status)| == m + 1 && Waiting(m, status)[m - 1] == Added(Name(m - 1))
    ensures Waiting(m, status)[m - 1 := t] == Front(m, status, t)
  {
  }

  lemma FrontPlaces(m: nat, status: Status, t: Snap)
    requires m > 0 && t.infoHash == Name(m - 1)
    ensures Place(Front(m, status, t), Name(m - 1)) == Some(m - 1) && Place(Front(m, status, t), "x") == Some(m)
    ensures DistinctHashes(Front(m, status, t))
  {
    PlacesWaiting(m, status);
    FrontFromWaiting(m, status, t);
    hide Waiting, Front;
    SamePlaces(Waiting(m, status), Front(m, status, t), Name(m - 1));
    SamePlaces(Waiting(m, status), Front(m, status, t), "x");
  }

  lemma TickMarks(m: nat, now: int, status: Status, cfg: Config)
    requires m > 0 && now >= 0
    ensures TickAll(Front(m, status, ReadOnce(m, now)), now + Long(cfg), cfg) == Marked(m, now)
  {
    var read := Front(m, status, ReadOnce(m, now));
    var ticked := TickAll(read, now + Long(cfg), cfg);
    forall k | 0 <= k < m + 1 ensures ticked[k] == Marked(m, now)[k] {
      assert ticked[k] == Ticked(read[k], now + Long(cfg), cfg);
    }
  }

  lemma Wakes(m: nat, now: int, status: Status, cfg: Config)
    requires m > 0
    ensures var s, t := Sys(now, Waiting(m, status), map[]), Snap(Name(m - 1), true, false, Na, None);
            && Enabled(s, BecomeReady(Name(m - 1)))
            && Apply(s, BecomeReady(Name(m - 1)), cfg) == s.(client := Front(m, status, t))
  {
    hide Waiting, Place, Name, DistinctHashes, Front;
    PlacesWaiting(m, status);
    FrontFromWaiting(m, status, Snap(Name(m - 1), true, false, Na, None));
  }

  lemma IsRead(m: nat, now: int, status: Status, cfg: Config)
    requires m > 0
    ensures var t := Snap(Name(m - 1), true, false, Na, None);
            var s := Sys(now, Front(m, status, t), map[]);
            && Enabled(s, Touch(Name(m - 1)))
            && Apply(s, Touch(Name(m - 1)), cfg) == s.(client := Front(m, status, ReadOnce(m, now)))
  {
    var t := Snap(Name(m - 1), true, false, Na, None);
    FrontPlaces(m, status, t);
    assert Front(m, status, t)[m - 1] == t;
    assert Front(m, status, t)[m - 1 := ReadOnce(m, now)] == Front(m, status, ReadOnce(m, now));
    hide Place, Name, DistinctHashes, Front;
  }

  lemma EventsRun(m: nat, now: int, status: Status, cfg: Config)
    requires m > 0 && now >= 0
    ensures var s := Sys(now, Waiting(m, status), map[]);
            && Legal(s, EventSteps(m, cfg), cfg)
            && Exec(s, EventSteps(m, cfg), cfg)
               == Sys(now + Long(cfg), Front(m, status, ReadOnce(m, now)), map[])
  {
    hide Waiting, Front, Name, Place;
    var steps, s := EventSteps(m, cfg), Sys(now, Waiting(m, status), map[]);
    var s1 := s.(client := Front(m, status, Snap(Name(m - 1), true, false, Na, None)));
    var s2 := s.(client := Front(m, status, ReadOnce(m, now)));
    var s3 := s2.(now := now + Long(cfg));
    Wakes(m, now, status, cfg);
    IsRead(m, now, status, cfg);
    assert steps[3..] == [] && steps[0..] == steps;
    Unroll(s2, steps, 2, s3, s3, cfg);
    Unroll(s1, steps, 1, s2, s3, cfg);
    Unroll(s, steps, 0, s1, s3, cfg);
  }

  /** The sweep destroys the torrent in front of "x" and so passes over "x". */
  lemma SweepHidesX(m: nat, now: int)
    requires m > 0
    ensures Sweep(Marked(m, now), {}) == Waiting(m - 1, Stopping)
  {
    var front, x := NamesAdded(m - 1), Snap("x", true, false, Stopping, Some(0));
    var tail := [ReadOnce(m, now).(status := Stopping), x];
    Sweeps.SweepPassesSettled(front, tail);
    assert tail[2..] == [];
    assert Sweep(tail, {}) == [x];
  }

  lemma RoundRuns(m: nat, now: int, status: Status, cfg: Config)
    requires m > 0 && now >= 0
    ensures var s := Sys(now, Waiting(m, status), map[]);
            && Legal(s, RoundSteps(m, now, cfg), cfg)
            && Exec(s, RoundSteps(m, now, cfg), cfg) == Sys(now + Long(cfg), Waiting(m - 1, Stopping), map[])
  {
    EventsRun(m, now, status, cfg);
    TickAndSweep(m, now, status, cfg);
    hide Waiting, Front, Marked, Apply, Enabled, Legal, Exec, EventSteps, ReadOnce, AloneSteps;
    Continues(Sys(now, Waiting(m, status), map[]), EventSteps(m, cfg),
              [Tick, SweepBegin(0)] + AloneSteps(Marked(m, now), 0), cfg);
  }

  lemma TickThenBegin(client: seq<Snap>, now: int, cfg: Config)
    ensures var s, ticked := Sys(now, client, map[]), Sys(now, TickAll(client, now, cfg), map[]);
            && Enabled(s, Tick) && Apply(s, Tick, cfg) == ticked
            && Enabled(ticked, SweepBegin(0)) && Apply(ticked, SweepBegin(0), cfg) == Alone(now, ticked.client, 0)
  {
  }

  lemma SweepFromStart(client: seq<Snap>)
    ensures SweepFrom(client, 0, {}) == Sweep(client, {})
  {
    assert client[0..] == client;
  }

  lemma TickAndSweep(m: nat, now: int, status: Status, cfg: Config)
    requires m > 0 && now >= 0
    ensures var s := Sys(now + Long(cfg), Front(m, status, ReadOnce(m, now)), map[]);
            var steps := [Tick, SweepBegin(0)] + AloneSteps(Marked(m, now), 0);
            && Legal(s, steps, cfg)
            && Exec(s, steps, cfg) == Sys(now + Long(cfg), Waiting(m - 1, Stopping), map[])
  {
    hide *;
    var later, client := now + Long(cfg), Marked(m, now);
    var s, ticked := Sys(later, Front(m, status, ReadOnce(m, now)), map[]), Sys(later, client, map[]);
    var steps, end := [Tick, SweepBegin(0)] + AloneSteps(client, 0), Sys(later, Waiting(m - 1, Stopping), map[]);
    assert steps[0] == Tick && steps[1] == SweepBegin(0) && steps[2..] == AloneSteps(client, 0);
    assert steps[0..] == steps;
    MarkedIsDistinct(m, now);
    TickMarks(m, now, status, cfg);
    TickThenBegin(s.client, later, cfg);
    SweepHidesX(m, now);
    SweepFromStart(client);
    SweepAlone(later, client, 0, cfg);
    Unroll(ticked, steps, 1, Alone(later, client, 0), end, cfg);
    Unroll(s, steps, 0, ticked, end, cfg);
  }

  lemma MarkedIsDistinct(m: nat, now: int)
    requires m > 0
    ensures DistinctHashes(Marked(m, now))
  {
    FrontPlaces(m, Stopping, ReadOnce(m, now).(status := Stopping));
  }

  lemma RoundsUnfold(m: nat, now: int, cfg: Config)
    ensures RoundsSteps(m, now, cfg) ==
            if m == 0 then [] else RoundSteps(m, now, cfg) + RoundsSteps(m - 1, now + Long(cfg), cfg)
  {
  }

  lemma NoRounds(now: int, status: Status, cfg: Config)
    ensures var s := Sys(now, Waiting(0, status), map[]);
            Legal(s, [], cfg) && Exec(s, [], cfg) == s && Place(s.client, "x").Some?
  {
    PlacesWaiting(0, status);
  }

  lemma {:induction false} RoundsRun(m: nat, now: int, status: Status, cfg: Config)
    requires now >= 0
    ensures var s := Sys(now, Waiting(m, status), map[]);
            && Legal(s, RoundsSteps(m, now, cfg), cfg)
            && Place(Exec(s, RoundsSteps(m, now, cfg), cfg).client, "x").Some?
    decreases m
  {
    hide *;
    RoundsUnfold(m, now, cfg);
    if m == 0 {
      NoRounds(now, status, cfg);
    } else {
      LongIsNat(cfg);
      RoundRuns(m, now, status, cfg);
      RoundsRun(m - 1, now + Long(cfg), Stopping, cfg);
      Continues(Sys(now, Waiting(m, status), map[]), RoundSteps(m, now, cfg),
                RoundsSteps(m - 1, now + Long(cfg), cfg), cfg);
    }
  }

  lemma LongIsNat(cfg: Config)
    ensures Long(cfg) >= 0
  {
  }

  // --- No event on "x" ---

  predicate NoneOn(steps: seq<Step>, x: string) {
    forall k :: 0 <= k < |steps| ==>
      steps[k] != Touch(x) && steps[k] != Resume(x) && steps[k] != Add(x) && !steps[k].SweepFail?
  }

  lemma {:induction false} NoneOnIsQuiet(s: Sys, steps: seq<Step>, cfg: Config, x: string)
    requires Legal(s, steps, cfg) && NoneOn(steps, x)
    ensures QuietRun(s, steps, cfg, x)
    decreases |steps|
  {
    if steps != [] {
      assert steps[0] != Touch(x) && steps[0] != Resume(x) && steps[0] != Add(x) && !steps[0].SweepFail?;
      NoneOnIsQuiet(Apply(s, steps[0], cfg), steps[1..], cfg, x);
    }
  }

  lemma {:induction false} AloneNoneOn(client: seq<Snap>, i: nat, x: string)
    ensures NoneOn(AloneSteps(client, i), x)
    decreases |client| - i
  {
    if i < |client| {
      AloneNoneOn(if client[i].status == Stopping then client[..i] + client[i + 1..]
                  else client[i := Settled(client[i])], i + 1, x);
    }
  }

  lemma {:induction false} RoundsNoneOn(m: nat, now: int, cfg: Config)
    ensures NoneOn(RoundsSteps(m, now, cfg), "x")
    decreases m
  {
    hide *;
    RoundsUnfold(m, now, cfg);
    if m == 0 {
      NoneOnNothing("x");
    } else {
      RoundNoneOn(m, now, cfg);
      RoundsNoneOn(m - 1, now + Long(cfg), cfg);
      NoneOnConcat(RoundSteps(m, now, cfg), RoundsSteps(m - 1, now + Long(cfg), cfg), "x");
    }
  }

  lemma NoneOnNothing(x: string)
    ensures NoneOn([], x)
  {
  }

  lemma NoneOnConcat(first: seq<Step>, more: seq<Step>, x: string)
    requires NoneOn(first, x) && NoneOn(more, x)
    ensures NoneOn(first + more, x)
  {
  }

  lemma RoundNoneOn(m: nat, now: int, cfg: Config)
    requires m > 0
    ensures NoneOn(RoundSteps(m, now, cfg), "x")
  {
    hide AloneSteps, Marked;
    NameIsNotX(m - 1);
    AloneNoneOn(Marked(m, now), 0, "x");
    NoneOnConcat([Tick, SweepBegin(0)], AloneSteps(Marked(m, now), 0), "x");
    NoneOnConcat(EventSteps(m, cfg), [Tick, SweepBegin(0)] + AloneSteps(Marked(m, now), 0), "x");
  }

  // --- As many whole sweeps as rounds ---

  lemma {:induction false} PassesAlone(client: seq<Snap>, i: nat, more: seq<Step>)
    ensures Passes(AloneSteps(client, i) + more, Some(0)) == 1 + Passes(more, None)
    decreases |client| - i
  {
    var steps := AloneSteps(client, i) + more;
    if i >= |client| {
      assert steps[1..] == more;
    } else if client[i].status == Stopping {
      var rest := client[..i] + client[i + 1..];
      assert steps[1..][1..] == AloneSteps(rest, i + 1) + more;
      PassesAlone(rest, i + 1, more);
    } else {
      var settled := client[i := Settled(client[i])];
      assert steps[1..] == AloneSteps(settled, i + 1) + more;
      PassesAlone(settled, i + 1, more);
    }
  }

  /** A round's steps after its tick, and the rounds that follow. */
  function AfterTick(m: nat, now: int, cfg: Config): seq<Step>
    requires m > 0
  {
    [SweepBegin(0)] + (AloneSteps(Marked(m, now), 0) + RoundsSteps(m - 1, now + Long(cfg), cfg))
  }

  lemma RoundsFrom(m: nat, now: int, cfg: Config)
    requires m > 0
    ensures RoundsSteps(m, now, cfg) == EventSteps(m, cfg) + ([Tick] + AfterTick(m, now, cfg))
  {
  }

  lemma {:induction false} PassesSkips(first: seq<Step>, more: seq<Step>)
    requires forall k :: 0 <= k < |first| ==> !first[k].SweepBegin?
    ensures Passes(first + more, None) == Passes(more, None)
  {
    if first == [] {
      assert first + more == more;
    } else {
      assert (first + more)[1..] == first[1..] + more;
      PassesSkips(first[1..], more);
    }
  }

  lemma AfterTickPasses(m: nat, now: int, cfg: Config)
    requires m > 0
    ensures Passes(AfterTick(m, now, cfg), None) > Passes(RoundsSteps(m - 1, now + Long(cfg), cfg), None)
  {
    var more, after := RoundsSteps(m - 1, now + Long(cfg), cfg), AfterTick(m, now, cfg);
    hide RoundsSteps, AloneSteps, Marked;
    assert after[1..] == AloneSteps(Marked(m, now), 0) + more;
    PassesAlone(Marked(m, now), 0, more);
  }

  lemma EventsPass(m: nat, cfg: Config, after: seq<Step>)
    requires m > 0
    ensures Passes(EventSteps(m, cfg) + ([Tick] + after), None) == Passes(after, None)
  {
    hide Passes;
    assert EventSteps(m, cfg) + ([Tick] + after) == (EventSteps(m, cfg) + [Tick]) + after;
    PassesSkips(EventSteps(m, cfg) + [Tick], after);
  }

  lemma {:induction false} PassesRounds(m: nat, now: int, cfg: Config)
    ensures Passes(RoundsSteps(m, now, cfg), None) >= m
    ensures m > 0 ==> Passes(AfterTick(m, now, cfg), None) >= m
    decreases m
  {
    hide *;
    if m > 0 {
      AfterTickPasses(m, now, cfg);
      PassesRounds(m - 1, now + Long(cfg), cfg);
      RoundsFrom(m, now, cfg);
      EventsPass(m, cfg, AfterTick(m, now, cfg));
    }
  }

  lemma {:induction false} OnceIdleSkips(s: Sys, first: seq<Step>, more: seq<Step>, cfg: Config, x: string)
    requires Legal(s, first, cfg) && Legal(Exec(s, first, cfg), more, cfg)
    requires forall k :: 0 <= k < |first| ==> first[k] != Tick
    ensures Legal(s, first + more, cfg)
    ensures PassesOnceIdle(s, first + more, cfg, x) == PassesOnceIdle(Exec(s, first, cfg), more, cfg, x)
    decreases |first|
  {
    if first == [] {
      assert first + more == more;
    } else {
      assert (first + more)[1..] == first[1..] + more;
      OnceIdleSkips(Apply(s, first[0], cfg), first[1..], more, cfg, x);
    }
  }

  /** The first tick already finds "x" idle. */
  lemma IdleAtTick(n: nat, after: seq<Step>, cfg: Config)
    requires n > 0
    requires Legal(Sys(Long(cfg), Front(n, Running, ReadOnce(n, 0)), map[]), [Tick] + after, cfg)
    ensures PassesOnceIdle(Sys(Long(cfg), Front(n, Running, ReadOnce(n, 0)), map[]), [Tick] + after, cfg, "x")
            == Passes(after, None)
  {
    var client := Front(n, Running, ReadOnce(n, 0));
    FrontPlaces(n, Running, ReadOnce(n, 0));
    assert Expired(Get(client, "x"), Long(cfg), cfg);
    hide Front, Place, Apply, Enabled;
    assert ([Tick] + after)[1..] == after;
  }

  lemma NoTickYet(n: nat, cfg: Config)
    requires n > 0
    ensures forall k :: 0 <= k < |EventSteps(n, cfg)| ==> EventSteps(n, cfg)[k] != Tick
  {
  }

  lemma IdleAtOnce(n: nat, cfg: Config)
    requires n > 0
    ensures var s, steps := Sys(0, Waiting(n, Running), map[]), RoundsSteps(n, 0, cfg);
            Legal(s, steps, cfg) && PassesOnceIdle(s, steps, cfg, "x") == Passes(AfterTick(n, 0, cfg), None)
  {
    hide *;
    NoTickYet(n, cfg);
    var s, more := Sys(0, Waiting(n, Running), map[]), [Tick] + AfterTick(n, 0, cfg);
    RoundsRun(n, 0, Running, cfg);
    RoundsFrom(n, 0, cfg);
    EventsRun(n, 0, Running, cfg);
    LegalRest(s, EventSteps(n, cfg), more, cfg);
    IdleAtTick(n, AfterTick(n, 0, cfg), cfg);
    OnceIdleSkips(s, EventSteps(n, cfg), more, cfg, "x");
  }

  lemma {:induction false} LegalRest(s: Sys, first: seq<Step>, more: seq<Step>, cfg: Config)
    requires Legal(s, first, cfg) && Legal(s, first + more, cfg)
    ensures Legal(Exec(s, first, cfg), more, cfg)
    decreases |first|
  {
    if first == [] {
      assert first + more == more;
    } else {
      assert (first + more)[1..] == first[1..] + more;
      LegalRest(Apply(s, first[0], cfg), first[1..], more, cfg);
    }
  }

  // --- The bound is reached ---

  /** For every place n and all thresholds some run from an empty client, quiet for the torrent at that place,
      holds n whole sweeps, one after another, since a tick found the torrent idle, and leaves it in the client:
      n sweeps do not suffice, and by `TorrentRuns.IdleTorrentIsRemoved` n + 1 do. */
  lemma PlaceBoundIsReached(n: nat, cfg: Config)
    ensures var before, after := SetupSteps(n), RoundsSteps(n, 0, cfg);
            && Legal(Start(0), before, cfg)
            && var s := Exec(Start(0), before, cfg);
               && Place(s.client, "x") == Some(n) && Legal(s, after, cfg) && QuietRun(s, after, cfg, "x")
               && PassesOnceIdle(s, after, cfg, "x") == n
               && Place(Exec(s, after, cfg).client, "x").Some?
  {
    var s, after := Sys(0, Waiting(n, Running), map[]), RoundsSteps(n, 0, cfg);
    SetupRuns(n, cfg);
    PlacesWaiting(n, Running);
    RoundsRun(n, 0, Running, cfg);
    RoundsNoneOn(n, 0, cfg);
    hide Waiting, Place, Apply, Enabled, RoundSteps, SetupSteps;
    NoneOnIsQuiet(s, after, cfg, "x");
    if n > 0 {
      IdleAtOnce(n, cfg);
      PassesRounds(n, 0, cfg);
    }
    if PassesOnceIdle(s, after, cfg, "x") > n {
      PassesOnceIdleClear(s, after, cfg, "x", n);
    }
  }
}
