/** Every interleaving of events, ticks and sweeps on the live array of one client's torrents. */
module TorrentRuns {
  import opened Wrappers
  import opened Lifecycle

  /** A sweep under way: where its iterator stands in the array, and the torrent it has found stopping and is
      about to destroy. Between that test and the destroy it awaits a lookup, and other steps may come in. */
  datatype Cursor = Cursor(next: nat, victim: Option<string>)

  datatype Sys = Sys(now: int, client: seq<Snap>, sweeps: map<nat, Cursor>)

  datatype Step =
    | Wait(ms: nat)
    | Add(hash: string)
    | BecomeReady(hash: string)
    | ForeignPause(hash: string)   // webtorrent's own; the service's pause() is commented out
    | Touch(hash: string)          // the write of an open or read event
    | Resume(hash: string)
    | OtherDestroy(hash: string)   // manual stop or start timeout
    | Tick
    | SweepBegin(sweep: nat)
    | SweepVisit(sweep: nat)
    | SweepDestroy(sweep: nat)
    | SweepFail(sweep: nat)        // the destroy is rejected
    | SweepEnd(sweep: nat)

  /** Where the torrent `x` is in the client. */
  function Place(s: seq<Snap>, x: string): (r: Option<nat>)
    ensures r.Some? ==> r.value < |s| && s[r.value].infoHash == x
                        && forall k :: 0 <= k < r.value ==> s[k].infoHash != x
    ensures r.None? <==> forall k :: 0 <= k < |s| ==> s[k].infoHash != x
  {
    if s == [] then None
    else if s[0].infoHash == x then Some(0)
    else
      match Place(s[1..], x)
      case None => None
      case Some(k) =>
        assert forall j :: 0 < j < |s| ==> s[j] == s[1..][j - 1];
        Some(k + 1)
  }

  function Get(s: seq<Snap>, x: string): (t: Snap)
    requires Place(s, x).Some?
  {
    s[Place(s, x).value]
  }

  function Replace(s: seq<Snap>, x: string, t: Snap): seq<Snap>
    requires Place(s, x).Some?
  {
    s[Place(s, x).value := t]
  }

  /** The entries behind a removed one move forward. */
  function Remove(s: seq<Snap>, x: string): seq<Snap>
    requires Place(s, x).Some?
  {
    var p := Place(s, x).value;
    s[..p] + s[p + 1..]
  }

  lemma SamePlaces(s: seq<Snap>, s': seq<Snap>, x: string)
    requires |s| == |s'| && forall k :: 0 <= k < |s| ==> s'[k].infoHash == s[k].infoHash
    ensures Place(s', x) == Place(s, x) && (DistinctHashes(s) ==> DistinctHashes(s'))
  {
  }

  lemma PlacesAppended(s: seq<Snap>, t: Snap, x: string)
    requires DistinctHashes(s) && Place(s, t.infoHash).None? && x != t.infoHash
    ensures Place(s + [t], x) == Place(s, x)
    ensures Place(s, x).Some? ==> Get(s + [t], x) == Get(s, x)
  {
    assert forall k :: 0 <= k < |s| ==> (s + [t])[k] == s[k];
  }

  /** Removing an entry shifts those behind it by one. */
  predicate Shifted(s: seq<Snap>, s': seq<Snap>, p: nat) {
    p < |s| && |s'| == |s| - 1
    && (forall k :: 0 <= k < p ==> s'[k] == s[k]) && forall k :: p <= k < |s'| ==> s'[k] == s[k + 1]
  }

  lemma DistinctShifted(s: seq<Snap>, s': seq<Snap>, p: nat)
    requires DistinctHashes(s) && Shifted(s, s', p)
    ensures DistinctHashes(s') && Place(s', s[p].infoHash) == None
  {
    forall k | 0 <= k < |s'| ensures s'[k].infoHash != s[p].infoHash {
      if k < p { assert s'[k] == s[k]; } else { assert s'[k] == s[k + 1]; }
    }
  }

  lemma PlaceShifted(s: seq<Snap>, s': seq<Snap>, p: nat, x: string)
    requires Shifted(s, s', p) && s[p].infoHash != x
    ensures Place(s, x) == None ==> Place(s', x) == None
    ensures Place(s, x).Some? ==>
              Place(s', x).Some? && Place(s', x).value <= Place(s, x).value && Get(s', x) == Get(s, x)
  {
    if Place(s, x).Some? {
      var q := Place(s, x).value;
      var q' := if q < p then q else q - 1;
      assert s'[q'] == s[q];
      forall k | 0 <= k < q' ensures s'[k].infoHash != x {
        if k < p { assert s'[k] == s[k]; } else { assert s'[k] == s[k + 1]; }
      }
      assert Place(s', x) == Some(q');
    } else {
      forall k | 0 <= k < |s'| ensures s'[k].infoHash != x {
        if k < p { assert s'[k] == s[k]; } else { assert s'[k] == s[k + 1]; }
      }
    }
  }

  lemma PlacesRemoved(s: seq<Snap>, h: string, x: string)
    requires DistinctHashes(s) && Place(s, h).Some?
    ensures var s' := Remove(s, h);
            && DistinctHashes(s')
            && (x == h || Place(s, x) == None ==> Place(s', x) == None)
            && (x != h && Place(s, x).Some? ==>
                  Place(s', x).Some? && Place(s', x).value <= Place(s, x).value && Get(s', x) == Get(s, x))
  {
    var p, s' := Place(s, h).value, Remove(s, h);
    assert Shifted(s, s', p);
    hide Shifted, DistinctHashes;
    DistinctShifted(s, s', p);
    if x != h {
      PlaceShifted(s, s', p, x);
    }
  }

  predicate Enabled(s: Sys, step: Step) {
    match step
    case Wait(_) => true
    case Tick => true
    case Add(h) => Place(s.client, h).None?
    case SweepBegin(w) => w !in s.sweeps
    case SweepVisit(w) => w in s.sweeps && s.sweeps[w].victim.None? && s.sweeps[w].next < |s.client|
    case SweepDestroy(w) =>
      w in s.sweeps && s.sweeps[w].victim.Some? && Place(s.client, s.sweeps[w].victim.value).Some?
    case SweepFail(w) =>
      w in s.sweeps && s.sweeps[w].victim.Some? && Place(s.client, s.sweeps[w].victim.value).Some?
    case SweepEnd(w) => w in s.sweeps && s.sweeps[w].victim.None? && s.sweeps[w].next >= |s.client|
    case _ => Place(s.client, step.hash).Some?
  }

  function Apply(s: Sys, step: Step, cfg: Config): Sys
    requires Enabled(s, step)
  {
    match step
    case Wait(ms) => s.(now := s.now + ms)
    case Add(h) => s.(client := s.client + [Added(h)])
    case BecomeReady(h) => s.(client := Replace(s.client, h, Get(s.client, h).(ready := true)))
    case ForeignPause(h) => s.(client := Replace(s.client, h, Get(s.client, h).(paused := true)))
    case Touch(h) => s.(client := Replace(s.client, h, Touched(Get(s.client, h), s.now)))
    case Resume(h) => s.(client := Replace(s.client, h, Resumed(Get(s.client, h))))
    case OtherDestroy(h) => s.(client := Remove(s.client, h))
    case Tick => s.(client := TickAll(s.client, s.now, cfg))
    case SweepBegin(w) => s.(sweeps := s.sweeps[w := Cursor(0, None)])
    case SweepVisit(w) =>
      var i := s.sweeps[w].next;
      var t := s.client[i];
      s.(client := s.client[i := Settled(t)],
         sweeps := s.sweeps[w := Cursor(i + 1, if t.status == Stopping then Some(t.infoHash) else None)])
    case SweepDestroy(w) =>
      s.(client := Remove(s.client, s.sweeps[w].victim.value), sweeps := s.sweeps[w := s.sweeps[w].(victim := None)])
    case SweepFail(w) => s.(sweeps := s.sweeps[w := s.sweeps[w].(victim := None)])
    case SweepEnd(w) => s.(sweeps := s.sweeps - {w})
  }

  predicate Legal(s: Sys, steps: seq<Step>, cfg: Config)
    decreases |steps|
  {
    steps == [] || (Enabled(s, steps[0]) && Legal(Apply(s, steps[0], cfg), steps[1..], cfg))
  }

  function Exec(s: Sys, steps: seq<Step>, cfg: Config): Sys
    requires Legal(s, steps, cfg)
    decreases |steps|
  {
    if steps == [] then s else Exec(Apply(s, steps[0], cfg), steps[1..], cfg)
  }

  function Start(now: int): Sys {
    Sys(now, [], map[])
  }

  // --- What events and ticks do to one torrent ---

  /** The torrent at place `k`, and no other, is marked by an event; a new one goes to the end. */
  lemma EventsExact(s: Sys, k: nat, y: string, cfg: Config)
    requires DistinctHashes(s.client) && k < |s.client| && Place(s.client, y) == None
    ensures var t := s.client[k];
            var x := t.infoHash;
            && Enabled(s, Touch(x)) && Enabled(s, BecomeReady(x)) && Enabled(s, Resume(x)) && Enabled(s, Add(y))
            && Apply(s, Touch(x), cfg).client == s.client[k := Snap(x, t.ready, t.paused, Running, Some(s.now))]
            && Apply(s, BecomeReady(x), cfg).client == s.client[k := Snap(x, true, t.paused, t.status, t.lastRead)]
            && Apply(s, Resume(x), cfg).client ==
               (if t.ready && t.paused then s.client[k := Snap(x, true, false, Running, t.lastRead)] else s.client)
            && Apply(s, Add(y), cfg).client == s.client + [Snap(y, false, false, Na, None)]
  {
    assert Place(s.client, s.client[k].infoHash) == Some(k);
  }

  /** After a tick: a ready torrent with a recorded read is running below the pause threshold, stopping past both,
      and in between pausing, or still paused. Any other keeps its status, and nothing else changes. */
  lemma TickExact(s: Sys, k: nat, cfg: Config)
    requires k < |s.client|
    ensures var t, t' := s.client[k], Apply(s, Tick, cfg).client[k];
            && |Apply(s, Tick, cfg).client| == |s.client|
            && t' == Snap(t.infoHash, t.ready, t.paused, t'.status, t.lastRead)
            && (!t.ready || t.lastRead == None ==> t'.status == t.status)
            && (t.ready && t.lastRead.Some? ==>
                  var idle := s.now - t.lastRead.value;
                  && (idle < cfg.pauseAfter ==> t'.status == Running)
                  && (idle >= cfg.pauseAfter && idle >= cfg.stopAfter ==> t'.status == Stopping)
                  && (cfg.pauseAfter <= idle < cfg.stopAfter ==>
                        t'.status == if t.status == Paused then Paused else Pausing))
  {
  }

  // --- Statuses never lie about idleness ---

  predicate Honest(t: Snap, now: int, cfg: Config) {
    && (t.lastRead.Some? ==> t.lastRead.value <= now)
    && (t.status == Stopping ==> Expired(t, now, cfg))
    && (t.status == Pausing || t.status == Paused ==> t.ready && IdleFor(t, now, cfg.pauseAfter))
  }

  predicate AllHonest(s: Sys, cfg: Config) {
    forall k :: 0 <= k < |s.client| ==> Honest(s.client[k], s.now, cfg)
  }

  lemma StepKeepsHonest(s: Sys, step: Step, cfg: Config)
    requires AllHonest(s, cfg) && Enabled(s, step)
    ensures AllHonest(Apply(s, step, cfg), cfg)
  {
    if Moves(step) {
      MovesKeepHonest(s, step, cfg);
    } else if step.Tick? {
      TickKeepsHonest(s, cfg);
    } else {
      UpdatesKeepHonest(s, step, cfg);
    }
  }

  lemma MovesKeepHonest(s: Sys, step: Step, cfg: Config)
    requires AllHonest(s, cfg) && Enabled(s, step) && Moves(step)
    ensures AllHonest(Apply(s, step, cfg), cfg)
  {
  }

  lemma TickKeepsHonest(s: Sys, cfg: Config)
    requires AllHonest(s, cfg)
    ensures AllHonest(Apply(s, Tick, cfg), cfg)
  {
  }

  lemma UpdatesKeepHonest(s: Sys, step: Step, cfg: Config)
    requires AllHonest(s, cfg) && Enabled(s, step) && !Moves(step) && !step.Tick?
    ensures AllHonest(Apply(s, step, cfg), cfg)
  {
  }

  lemma {:induction false} RunsStayHonest(s: Sys, steps: seq<Step>, cfg: Config)
    requires AllHonest(s, cfg) && Legal(s, steps, cfg)
    ensures AllHonest(Exec(s, steps, cfg), cfg)
    decreases |steps|
  {
    if steps != [] {
      StepKeepsHonest(s, steps[0], cfg);
      RunsStayHonest(Apply(s, steps[0], cfg), steps[1..], cfg);
    }
  }

  /** The torrent a sweep is about to find stopping. */
  predicate Chooses(s: Sys, sweep: nat, x: string) {
    Enabled(s, SweepVisit(sweep))
    && s.client[s.sweeps[sweep].next].status == Stopping && s.client[s.sweeps[sweep].next].infoHash == x
  }

  /** After any run from an empty client, whatever order the two cron jobs, the events and the destroys come
      in and however many sweeps are under way, a sweep can only choose a torrent that is ready and was last
      read at least max(pauseAfter, stopAfter) ago, and only one idle for pauseAfter is pausing or paused. */
  lemma ActiveIsNeverChosen(start: int, steps: seq<Step>, cfg: Config, sweep: nat, x: string)
    requires Legal(Start(start), steps, cfg)
    ensures var s := Exec(Start(start), steps, cfg);
            && (Chooses(s, sweep, x) ==> Expired(s.client[s.sweeps[sweep].next], s.now, cfg))
            && forall k :: 0 <= k < |s.client| && s.client[k].status in {Pausing, Paused} ==>
                 s.client[k].ready && IdleFor(s.client[k], s.now, cfg.pauseAfter)
  {
    RunsStayHonest(Start(start), steps, cfg);
  }

  // --- From the choice to the destroy ---

  lemma StepKeepsDistinct(s: Sys, step: Step, cfg: Config)
    requires DistinctHashes(s.client) && Enabled(s, step)
    ensures DistinctHashes(Apply(s, step, cfg).client)
  {
    if step.OtherDestroy? || step.SweepDestroy? {
      var h := if step.OtherDestroy? then step.hash else s.sweeps[step.sweep].victim.value;
      PlacesRemoved(s.client, h, h);
    } else if !step.Add? {
      UpdatesKeepHashes(s, step, cfg);
      SamePlaces(s.client, Apply(s, step, cfg).client, "");
    }
  }

  predicate Moves(step: Step) {
    step.Add? || step.OtherDestroy? || step.SweepDestroy?
  }

  lemma UpdatesKeepHashes(s: Sys, step: Step, cfg: Config)
    requires Enabled(s, step) && !Moves(step)
    ensures var s' := Apply(s, step, cfg);
            && |s.client| == |s'.client|
            && forall k :: 0 <= k < |s.client| ==> s'.client[k].infoHash == s.client[k].infoHash
  {
  }

  /** What a step that moves nothing does to the torrent at one place. */
  lemma EntryMoves(s: Sys, step: Step, cfg: Config, x: string, k: nat)
    requires DistinctHashes(s.client) && Enabled(s, step) && !Moves(step)
    requires k < |s.client| && s.client[k].infoHash == x
    ensures k < |Apply(s, step, cfg).client| && EntryMove(s, step, cfg, x, s.client[k], Apply(s, step, cfg).client[k])
  {
  }

  predicate EntryMove(s: Sys, step: Step, cfg: Config, x: string, t: Snap, t': Snap) {
    if step == Touch(x) then t' == Touched(t, s.now)
    else if step == Tick then t' == Ticked(t, s.now, cfg)
    else if step == Resume(x) then t' == Resumed(t)
    else if step == BecomeReady(x) then t' == t.(ready := true)
    else t' == t || t' == t.(paused := true) || t' == Settled(t)
  }

  lemma {:induction false} RunsStayDistinct(s: Sys, steps: seq<Step>, cfg: Config)
    requires DistinctHashes(s.client) && Legal(s, steps, cfg)
    ensures DistinctHashes(Exec(s, steps, cfg).client)
    decreases |steps|
  {
    if steps != [] {
      StepKeepsDistinct(s, steps[0], cfg);
      RunsStayDistinct(Apply(s, steps[0], cfg), steps[1..], cfg);
    }
  }

  /** What one step does to the torrent `x`, unless it adds it. */
  lemma TorrentMoves(s: Sys, step: Step, cfg: Config, x: string)
    requires DistinctHashes(s.client) && Enabled(s, step) && step != Add(x)
    ensures var s' := Apply(s, step, cfg);
            && (Place(s'.client, x).Some? ==>
                  && Place(s.client, x).Some? && Place(s'.client, x).value <= Place(s.client, x).value
                  && EntryMove(s, step, cfg, x, Get(s.client, x), Get(s'.client, x)))
            && (Place(s.client, x).Some? && !Moves(step) ==> Place(s'.client, x) == Place(s.client, x))
  {
    match step
    case Add(h) => PlacesAppended(s.client, Added(h), x);
    case OtherDestroy(h) => PlacesRemoved(s.client, h, x);
    case SweepDestroy(w) => PlacesRemoved(s.client, s.sweeps[w].victim.value, x);
    case _ =>
      UpdatesKeepHashes(s, step, cfg);
      SamePlaces(s.client, Apply(s, step, cfg).client, x);
      if Place(s.client, x).Some? {
        EntryMoves(s, step, cfg, x, Place(s.client, x).value);
      }
  }

  predicate IdlePast(t: Snap, now: int, cfg: Config) {
    IdleFor(t, now, cfg.pauseAfter) && IdleFor(t, now, cfg.stopAfter)
  }

  /** Whether the torrent `x` is ready, and its last read at least both thresholds before `end`, going by the
      events of a run: an add forgets both. */
  predicate IdleByEvents(s: Sys, steps: seq<Step>, cfg: Config, x: string, end: int, ready: bool, stale: bool)
    requires Legal(s, steps, cfg)
    decreases |steps|
  {
    if steps == [] then ready && stale
    else
      var s' := Apply(s, steps[0], cfg);
      if steps[0] == Add(x) then IdleByEvents(s', steps[1..], cfg, x, end, false, false)
      else if steps[0] == BecomeReady(x) then IdleByEvents(s', steps[1..], cfg, x, end, true, stale)
      else if steps[0] == Touch(x) then
        IdleByEvents(s', steps[1..], cfg, x, end, ready, end - s.now >= cfg.pauseAfter && end - s.now >= cfg.stopAfter)
      else IdleByEvents(s', steps[1..], cfg, x, end, ready, stale)
  }

  /** Nothing but those three events moves readiness or the date of the last read. */
  lemma EventMoves(s: Sys, step: Step, cfg: Config, x: string)
    requires DistinctHashes(s.client) && Enabled(s, step) && Place(Apply(s, step, cfg).client, x).Some?
    ensures var t' := Get(Apply(s, step, cfg).client, x);
            if step == Add(x) then t' == Added(x)
            else
              && Place(s.client, x).Some?
              && t'.ready == (Get(s.client, x).ready || step == BecomeReady(x))
              && t'.lastRead == if step == Touch(x) then Some(s.now) else Get(s.client, x).lastRead
  {
    hide Apply, Enabled, DistinctHashes, Place;
    if step == Add(x) {
      AddPuts(s, cfg, x);
    } else {
      TorrentMoves(s, step, cfg, x);
    }
  }

  lemma AddPuts(s: Sys, cfg: Config, x: string)
    requires Enabled(s, Add(x))
    ensures Place(Apply(s, Add(x), cfg).client, x) == Some(|s.client|)
    ensures Get(Apply(s, Add(x), cfg).client, x) == Added(x)
  {
    assert Apply(s, Add(x), cfg).client[|s.client|] == Added(x);
  }

  lemma {:induction false} IdleByEventsIff(
      s: Sys, steps: seq<Step>, cfg: Config, x: string, ready: bool, stale: bool)
    requires DistinctHashes(s.client) && Legal(s, steps, cfg) && Place(Exec(s, steps, cfg).client, x).Some?
    requires Place(s.client, x).Some? ==>
               ready == Get(s.client, x).ready && stale == IdlePast(Get(s.client, x), Exec(s, steps, cfg).now, cfg)
    ensures var end := Exec(s, steps, cfg);
            Expired(Get(end.client, x), end.now, cfg) <==> IdleByEvents(s, steps, cfg, x, end.now, ready, stale)
    decreases |steps|
  {
    if steps != [] {
      var step, s' := steps[0], Apply(s, steps[0], cfg);
      var end := Exec(s', steps[1..], cfg).now;
      StepKeepsDistinct(s, step, cfg);
      if Place(s'.client, x).Some? {
        EventMoves(s, step, cfg, x);
      }
      hide Apply, Enabled, DistinctHashes, Place;
      if step == Add(x) {
        IdleByEventsIff(s', steps[1..], cfg, x, false, false);
      } else if step == BecomeReady(x) {
        IdleByEventsIff(s', steps[1..], cfg, x, true, stale);
      } else if step == Touch(x) {
        IdleByEventsIff(s', steps[1..], cfg, x, ready, end - s.now >= cfg.pauseAfter && end - s.now >= cfg.stopAfter);
      } else {
        IdleByEventsIff(s', steps[1..], cfg, x, ready, stale);
      }
    }
  }

  lemma {:induction false} TimePasses(s: Sys, steps: seq<Step>, cfg: Config)
    requires Legal(s, steps, cfg)
    ensures s.now <= Exec(s, steps, cfg).now
    decreases |steps|
  {
    if steps != [] {
      TimePasses(Apply(s, steps[0], cfg), steps[1..], cfg);
    }
  }

  /** In every run: a torrent that a sweep has chosen is idle past both thresholds when its destroy comes if and
      only if its last event since the choice, if any, lies that long back, and, in case it has been removed and
      added anew meanwhile, it has become ready and been read since. The destroy does not look again. */
  lemma DestroyedIdleIff(start: int, before: seq<Step>, sweep: nat, after: seq<Step>, cfg: Config, x: string)
    requires Legal(Start(start), before, cfg) && Chooses(Exec(Start(start), before, cfg), sweep, x)
    requires var chosen := Apply(Exec(Start(start), before, cfg), SweepVisit(sweep), cfg);
             && Legal(chosen, after, cfg) && Enabled(Exec(chosen, after, cfg), SweepDestroy(sweep))
             && Exec(chosen, after, cfg).sweeps[sweep].victim == Some(x)
    ensures var chosen := Apply(Exec(Start(start), before, cfg), SweepVisit(sweep), cfg);
            var end := Exec(chosen, after, cfg);
            Expired(Get(end.client, x), end.now, cfg) <==> IdleByEvents(chosen, after, cfg, x, end.now, true, true)
  {
    var s := Exec(Start(start), before, cfg);
    var chosen := Apply(s, SweepVisit(sweep), cfg);
    RunsStayHonest(Start(start), before, cfg);
    RunsStayDistinct(Start(start), before, cfg);
    StepKeepsDistinct(s, SweepVisit(sweep), cfg);
    var i := s.sweeps[sweep].next;
    assert chosen.client[i] == s.client[i] && Expired(s.client[i], s.now, cfg);
    assert Place(chosen.client, x) == Some(i);
    TimePasses(chosen, after, cfg);
    IdleByEventsIff(chosen, after, cfg, x, true, true);
  }

  /** Add, become ready, read, idle past both thresholds, be marked, and be chosen by a sweep. */
  function ChoosingRun(cfg: Config, x: string): seq<Step>
    requires cfg.pauseAfter >= 0 && cfg.stopAfter >= 0
  {
    [Add(x), BecomeReady(x), Touch(x), Wait(cfg.pauseAfter + cfg.stopAfter), Tick, SweepBegin(0), SweepVisit(0)]
  }

  function ChosenState(cfg: Config, x: string): Sys {
    Sys(cfg.pauseAfter + cfg.stopAfter, [Snap(x, true, false, Stopping, Some(0))], map[0 := Cursor(1, Some(x))])
  }

  lemma ChoosingRuns(cfg: Config, x: string, more: seq<Step>, end: Sys)
    requires cfg.pauseAfter >= 0 && cfg.stopAfter >= 0
    requires Legal(ChosenState(cfg, x), more, cfg) && Exec(ChosenState(cfg, x), more, cfg) == end
    ensures Legal(Start(0), ChoosingRun(cfg, x) + more, cfg)
    ensures Exec(Start(0), ChoosingRun(cfg, x) + more, cfg) == end
  {
    var steps := ChoosingRun(cfg, x) + more;
    var idle := cfg.pauseAfter + cfg.stopAfter;
    var s1 := Sys(0, [Added(x)], map[]);
    var s2 := Sys(0, [Snap(x, true, false, Na, None)], map[]);
    var s3 := Sys(0, [Snap(x, true, false, Running, Some(0))], map[]);
    var s4 := s3.(now := idle);
    var s5 := Sys(idle, [Snap(x, true, false, Stopping, Some(0))], map[]);
    var s6 := s5.(sweeps := map[0 := Cursor(0, None)]);
    assert steps[7..] == more;
    Unroll(s6, steps, 6, ChosenState(cfg, x), end, cfg);
    Unroll(s5, steps, 5, s6, end, cfg);
    assert TickAll(s4.client, idle, cfg) == s5.client;
    Unroll(s4, steps, 4, s5, end, cfg);
    Unroll(s3, steps, 3, s4, end, cfg);
    Unroll(s2, steps, 2, s3, end, cfg);
    Unroll(s1, steps, 1, s2, end, cfg);
    Unroll(Start(0), steps, 0, s1, end, cfg);
    assert steps[0..] == steps;
  }

  lemma Unroll(s: Sys, steps: seq<Step>, k: nat, t: Sys, end: Sys, cfg: Config)
    requires k < |steps| && Enabled(s, steps[k]) && Apply(s, steps[k], cfg) == t
    requires Legal(t, steps[k + 1..], cfg) && Exec(t, steps[k + 1..], cfg) == end
    ensures Legal(s, steps[k..], cfg) && Exec(s, steps[k..], cfg) == end
  {
    assert steps[k..][1..] == steps[k + 1..];
  }

  /** A read that lands between the choice and the destroy does not save the torrent: for every pair of
      thresholds there is a run after which a torrent read this very moment is about to be destroyed. */
  lemma ReadBeforeDestroyIsLost(cfg: Config, x: string)
    requires cfg.pauseAfter >= 0 && cfg.stopAfter >= 0
    ensures var steps := ChoosingRun(cfg, x) + [Touch(x)];
            && Legal(Start(0), steps, cfg)
            && var s := Exec(Start(0), steps, cfg);
               Enabled(s, SweepDestroy(0)) && s.client == [Snap(x, true, false, Running, Some(s.now))]
  {
    var s := ChosenState(cfg, x);
    var end := s.(client := [Snap(x, true, false, Running, Some(s.now))]);
    assert Apply(s, Touch(x), cfg) == end && [Touch(x)][1..] == [];
    assert Exec(s, [Touch(x)], cfg) == end;
    ChoosingRuns(cfg, x, [Touch(x)], end);
  }

  /** Nor does it matter whether it is the same torrent: one removed by another destroy and started anew is
      destroyed for its predecessor's idleness, before it is even ready. */
  lemma NewcomerIsDestroyed(cfg: Config, x: string)
    requires cfg.pauseAfter >= 0 && cfg.stopAfter >= 0
    ensures var steps := ChoosingRun(cfg, x) + [OtherDestroy(x), Add(x)];
            && Legal(Start(0), steps, cfg)
            && var s := Exec(Start(0), steps, cfg);
               Enabled(s, SweepDestroy(0)) && s.client == [Added(x)]
  {
    var s, more := ChosenState(cfg, x), [OtherDestroy(x), Add(x)];
    var s1, end := s.(client := []), s.(client := [Added(x)]);
    assert more[1..] == [Add(x)] && more[1..][1..] == [];
    assert Apply(s, more[0], cfg) == s1 && Apply(s1, Add(x), cfg) == end;
    assert Exec(s1, more[1..], cfg) == end;
    ChoosingRuns(cfg, x, more, end);
  }

  // --- Idle torrents do get removed ---

  /** Nothing happens to `x` but ticks, sweeps and moves of the array; a destroy of it may come from elsewhere,
      but none that a sweep tries is rejected, and it is not added anew. */
  predicate Quiet(s: Sys, step: Step, x: string) {
    && step != Touch(x) && step != Resume(x) && step != Add(x)
    && !(step.SweepFail? && step.sweep in s.sweeps && s.sweeps[step.sweep].victim == Some(x))
  }

  predicate QuietRun(s: Sys, steps: seq<Step>, cfg: Config, x: string)
    requires Legal(s, steps, cfg)
    decreases |steps|
  {
    steps == [] || (Quiet(s, steps[0], x) && QuietRun(Apply(s, steps[0], cfg), steps[1..], cfg, x))
  }

  /** Gone, or stopping for good. */
  predicate Doomed(s: Sys, cfg: Config, x: string) {
    Place(s.client, x).Some? ==>
      Get(s.client, x).status == Stopping && Expired(Get(s.client, x), s.now, cfg)
  }

  lemma DoomedStays(s: Sys, step: Step, cfg: Config, x: string)
    requires DistinctHashes(s.client) && Enabled(s, step) && Quiet(s, step, x) && Doomed(s, cfg, x)
    ensures Doomed(Apply(s, step, cfg), cfg, x)
  {
    TorrentMoves(s, step, cfg, x);
    if Place(s.client, x).Some? {
      StaysExpired(s, step, cfg, x, Get(s.client, x));
    }
    hide Apply, Enabled, Place;
  }

  lemma StaysExpired(s: Sys, step: Step, cfg: Config, x: string, t: Snap)
    requires Enabled(s, step) && Quiet(s, step, x) && t.status == Stopping && Expired(t, s.now, cfg)
    ensures Apply(s, step, cfg).now >= s.now
    ensures forall t' :: EntryMove(s, step, cfg, x, t, t') ==>
              t'.status == Stopping && Expired(t', Apply(s, step, cfg).now, cfg)
  {
  }

  lemma TickDooms(s: Sys, cfg: Config, x: string)
    requires DistinctHashes(s.client)
    requires Place(s.client, x).Some? ==> Expired(Get(s.client, x), s.now, cfg)
    ensures Doomed(Apply(s, Tick, cfg), cfg, x)
  {
    TorrentMoves(s, Tick, cfg, x);
  }

  predicate AtMost(s: Sys, x: string, bound: int) {
    Place(s.client, x).Some? ==> Place(s.client, x).value <= bound
  }

  /** While the sweep runs, `x` has left place `bound`, or is still ahead of the iterator, or is about to be
      destroyed. */
  predicate Ahead(s: Sys, x: string, sweep: nat, bound: int) {
    Place(s.client, x).Some? ==>
      || Place(s.client, x).value < bound
      || (Place(s.client, x).value == bound && sweep in s.sweeps
          && (s.sweeps[sweep].next <= bound || s.sweeps[sweep].victim == Some(x)))
  }

  lemma AheadStays(s: Sys, step: Step, cfg: Config, x: string, sweep: nat, bound: int)
    requires DistinctHashes(s.client) && Enabled(s, step) && Quiet(s, step, x) && Doomed(s, cfg, x)
    requires Ahead(s, x, sweep, bound) && step != SweepEnd(sweep)
    ensures Ahead(Apply(s, step, cfg), x, sweep, bound)
  {
    TorrentMoves(s, step, cfg, x);
  }

  lemma SweepPassed(s: Sys, cfg: Config, x: string, sweep: nat, bound: int)
    requires Enabled(s, SweepEnd(sweep)) && Ahead(s, x, sweep, bound)
    ensures AtMost(Apply(s, SweepEnd(sweep), cfg), x, bound - 1)
  {
  }

  /** The longest chain of whole sweeps that lie in a run one after another; `current` is the one being waited
      for. Each sweep that begins may be the next of the chain or not, such as one that hangs. */
  function Passes(steps: seq<Step>, current: Option<nat>): nat {
    if steps == [] then 0
    else if current.None? && steps[0].SweepBegin? then
      Max(Passes(steps[1..], Some(steps[0].sweep)), Passes(steps[1..], None))
    else if current.Some? && steps[0] == SweepEnd(current.value) then 1 + Passes(steps[1..], None)
    else Passes(steps[1..], current)
  }

  function Max(a: nat, b: nat): nat {
    if a < b then b else a
  }

  lemma {:induction false} PassesClear(
      s: Sys, steps: seq<Step>, cfg: Config, x: string, current: Option<nat>, bound: int)
    requires DistinctHashes(s.client) && Legal(s, steps, cfg) && QuietRun(s, steps, cfg, x) && Doomed(s, cfg, x)
    requires current.None? ==> AtMost(s, x, bound)
    requires current.Some? ==> Ahead(s, x, current.value, bound)
    requires Passes(steps, current) > bound
    ensures Place(Exec(s, steps, cfg).client, x) == None
    decreases |steps|
  {
    if steps == [] {
      assert bound < 0;
    } else {
      var step, s' := steps[0], Apply(s, steps[0], cfg);
      StepKeepsDistinct(s, step, cfg);
      DoomedStays(s, step, cfg, x);
      TorrentMoves(s, step, cfg, x);
      hide Doomed, Quiet, DistinctHashes;
      if current.None? && step.SweepBegin? && Passes(steps[1..], Some(step.sweep)) > bound {
        PassesClear(s', steps[1..], cfg, x, Some(step.sweep), bound);
      } else if current.Some? && step == SweepEnd(current.value) {
        SweepPassed(s, cfg, x, current.value, bound);
        PassesClear(s', steps[1..], cfg, x, None, bound - 1);
      } else {
        if current.Some? {
          AheadStays(s, step, cfg, x, current.value, bound);
        }
        PassesClear(s', steps[1..], cfg, x, current, bound);
      }
    }
  }

  /** The whole sweeps after the first tick at which `x` is idle past both thresholds. */
  function PassesOnceIdle(s: Sys, steps: seq<Step>, cfg: Config, x: string): nat
    requires Legal(s, steps, cfg)
    decreases |steps|
  {
    if steps == [] then 0
    else if steps[0] == Tick && Place(s.client, x).Some? && Expired(Get(s.client, x), s.now, cfg) then
      Passes(steps[1..], None)
    else PassesOnceIdle(Apply(s, steps[0], cfg), steps[1..], cfg, x)
  }

  lemma {:induction false} PassesOnceIdleClear(s: Sys, steps: seq<Step>, cfg: Config, x: string, bound: nat)
    requires DistinctHashes(s.client) && Legal(s, steps, cfg) && QuietRun(s, steps, cfg, x)
    requires AtMost(s, x, bound) && PassesOnceIdle(s, steps, cfg, x) > bound
    ensures Place(Exec(s, steps, cfg).client, x) == None
    decreases |steps|
  {
    if steps != [] {
      var step, s' := steps[0], Apply(s, steps[0], cfg);
      StepKeepsDistinct(s, step, cfg);
      TorrentMoves(s, step, cfg, x);
      if step == Tick && Place(s.client, x).Some? && Expired(Get(s.client, x), s.now, cfg) {
        TickDooms(s, cfg, x);
        PassesClear(s', steps[1..], cfg, x, None, bound);
      } else {
        PassesOnceIdleClear(s', steps[1..], cfg, x, bound);
      }
    }
  }

  /** In every run from an empty client: a torrent with no event on it any more is gone after at most as many
      whole sweeps, one after another, as its place in the client counted from 1, once a tick has found it idle
      past both thresholds, whichever is the larger. Events, adds, destroys, ticks and further sweeps, some of
      which may hang, may come between any two awaits, also within those sweeps. */
  lemma IdleTorrentIsRemoved(start: int, before: seq<Step>, after: seq<Step>, cfg: Config, x: string)
    requires Legal(Start(start), before, cfg)
    requires var s := Exec(Start(start), before, cfg);
             && Place(s.client, x).Some? && Legal(s, after, cfg) && QuietRun(s, after, cfg, x)
             && PassesOnceIdle(s, after, cfg, x) > Place(s.client, x).value
    ensures Place(Exec(Exec(Start(start), before, cfg), after, cfg).client, x) == None
  {
    RunsStayDistinct(Start(start), before, cfg);
    var s := Exec(Start(start), before, cfg);
    PassesOnceIdleClear(s, after, cfg, x, Place(s.client, x).value);
  }

  // --- A sweep that nothing interrupts ---

  /** The steps of sweep 0 from index `i` on, with every destroy successful. */
  function AloneSteps(client: seq<Snap>, i: nat): seq<Step>
    decreases |client| - i
  {
    if i >= |client| then [SweepEnd(0)]
    else if client[i].status == Stopping then
      [SweepVisit(0), SweepDestroy(0)] + AloneSteps(client[..i] + client[i + 1..], i + 1)
    else [SweepVisit(0)] + AloneSteps(client[i := Settled(client[i])], i + 1)
  }

  /** Sweep 0 alone, at index `i`. */
  function Alone(now: int, client: seq<Snap>, i: nat): Sys {
    Sys(now, client, map[0 := Cursor(i, None)])
  }

  lemma AloneDestroys(now: int, client: seq<Snap>, i: nat, cfg: Config)
    requires DistinctHashes(client) && i < |client| && client[i].status == Stopping
    ensures var rest := client[..i] + client[i + 1..];
            && DistinctHashes(rest) && Enabled(Alone(now, client, i), SweepVisit(0))
            && var visited := Apply(Alone(now, client, i), SweepVisit(0), cfg);
               Enabled(visited, SweepDestroy(0)) && Apply(visited, SweepDestroy(0), cfg) == Alone(now, rest, i + 1)
  {
    var x := client[i].infoHash;
    assert client[i := client[i]] == client;
    assert Place(client, x) == Some(i);
    PlacesRemoved(client, x, x);
  }

  lemma AlonePasses(now: int, client: seq<Snap>, i: nat, cfg: Config)
    requires DistinctHashes(client) && i < |client| && client[i].status != Stopping
    ensures var s := Alone(now, client, i);
            && DistinctHashes(client[i := Settled(client[i])]) && Enabled(s, SweepVisit(0))
            && Apply(s, SweepVisit(0), cfg) == Alone(now, client[i := Settled(client[i])], i + 1)
  {
  }

  /** Taken alone, the steps of one sweep come to what `PauseOrStopTorrents` does. */
  lemma {:induction false} SweepAlone(now: int, client: seq<Snap>, i: nat, cfg: Config)
    requires DistinctHashes(client)
    ensures Legal(Alone(now, client, i), AloneSteps(client, i), cfg)
    ensures Exec(Alone(now, client, i), AloneSteps(client, i), cfg) == Sys(now, SweepFrom(client, i, {}), map[])
    decreases |client| - i
  {
    var s, steps, end := Alone(now, client, i), AloneSteps(client, i), Sys(now, SweepFrom(client, i, {}), map[]);
    assert steps[0..] == steps;
    if i >= |client| {
      assert Apply(s, SweepEnd(0), cfg) == end;
      assert steps[1..] == [];
    } else {
      SweepRound(client, i, {});
      hide Apply, Enabled, SweepFrom, Sweep, Alone, Legal, Exec;
      if client[i].status == Stopping {
        var rest := client[..i] + client[i + 1..];
        AloneDestroys(now, client, i, cfg);
        SweepAlone(now, rest, i + 1, cfg);
        assert steps[2..] == AloneSteps(rest, i + 1);
        var visited := Apply(s, SweepVisit(0), cfg);
        Unroll(visited, steps, 1, Alone(now, rest, i + 1), end, cfg);
        Unroll(s, steps, 0, visited, end, cfg);
      } else {
        var settled := client[i := Settled(client[i])];
        AlonePasses(now, client, i, cfg);
        SweepAlone(now, settled, i + 1, cfg);
        assert steps[1..] == AloneSteps(settled, i + 1);
        Unroll(s, steps, 0, Alone(now, settled, i + 1), end, cfg);
      }
    }
  }

  // --- Nobody is ever paused ---

  predicate NonePaused(s: Sys) {
    forall k :: 0 <= k < |s.client| ==> !s.client[k].paused
  }

  /** Since the sweep's pause() is commented out, no torrent is paused in any run in which webtorrent
      does not pause one by itself, so `resumeTorrent` never finds anything to resume and changes nothing. */
  lemma {:induction false} NothingToResume(s: Sys, steps: seq<Step>, cfg: Config)
    requires Legal(s, steps, cfg) && NonePaused(s)
    requires forall k :: 0 <= k < |steps| ==> !steps[k].ForeignPause?
    ensures var end := Exec(s, steps, cfg);
            && NonePaused(end)
            && forall x :: Enabled(end, Resume(x)) ==> Apply(end, Resume(x), cfg) == end
    decreases |steps|
  {
    if steps != [] {
      assert !steps[0].ForeignPause?;
      assert NonePaused(Apply(s, steps[0], cfg));
      NothingToResume(Apply(s, steps[0], cfg), steps[1..], cfg);
    }
  }
}
