/** How fast sweeps that nothing interrupts clear stopping torrents, alone and with ticks in between. */
module Sweeps {
  import opened Wrappers
  import opened Lifecycle

  // --- Nothing else changes: the backlog halves ---

  function StopCount(s: seq<Snap>): nat {
    if s == [] then 0 else (if s[0].status == Stopping then 1 else 0) + StopCount(s[1..])
  }

  /** Stopping entries that a sweep never looks at, because their predecessor was destroyed. */
  function SkippedStops(s: seq<Snap>): nat {
    if |s| < 2 then 0
    else if s[0].status == Stopping then (if s[1].status == Stopping then 1 else 0) + SkippedStops(s[2..])
    else SkippedStops(s[1..])
  }

  lemma StopCountCons(x: Snap, s: seq<Snap>)
    ensures StopCount([x] + s) == (if x.status == Stopping then 1 else 0) + StopCount(s)
  {
    assert ([x] + s)[1..] == s;
  }

  /** With every destroy successful: what is left stopping was skipped, each destroyed entry hides at
      most one other, and the sweep removes nothing but stopping entries. */
  lemma {:induction false} SweepAccounts(s: seq<Snap>)
    ensures StopCount(Sweep(s, {})) == SkippedStops(s)
    ensures |s| - |Sweep(s, {})| == StopCount(s) - SkippedStops(s)
    ensures SkippedStops(s) <= |s| - |Sweep(s, {})|
  {
    if s != [] {
      if s[0].status == Stopping {
        if |s| > 1 {
          SweepAccounts(s[2..]);
          StopCountCons(s[1], Sweep(s[2..], {}));
          assert s[1..][1..] == s[2..];
        }
      } else {
        SweepAccounts(s[1..]);
        StopCountCons(Settled(s[0]), Sweep(s[1..], {}));
      }
    }
  }

  /** One pass leaves at most half of the stopping torrents. */
  lemma SweepHalves(s: seq<Snap>)
    ensures StopCount(Sweep(s, {})) <= StopCount(s) / 2
  {
    SweepAccounts(s);
  }

  /** When every torrent is stopping, it leaves exactly half of them. */
  lemma {:induction false} HalvingIsTight(s: seq<Snap>)
    requires forall k :: 0 <= k < |s| ==> s[k].status == Stopping
    ensures StopCount(s) == |s| && StopCount(Sweep(s, {})) == |Sweep(s, {})| == |s| / 2
  {
    if |s| > 1 {
      HalvingIsTight(s[2..]);
      StopCountCons(s[1], Sweep(s[2..], {}));
      assert s[1..][1..] == s[2..];
    } else if |s| == 1 {
      assert s[1..] == [];
    }
  }

  function Sweeps(s: seq<Snap>, passes: nat): seq<Snap>
    decreases passes
  {
    if passes == 0 then s else Sweeps(Sweep(s, {}), passes - 1)
  }

  /** The number of binary digits of `n`: floor(log2 n) + 1, and 0 for 0. */
  function Bits(n: nat): nat {
    if n == 0 then 0 else 1 + Bits(n / 2)
  }

  lemma {:induction false} BitsMonotone(m: nat, n: nat)
    requires m <= n
    ensures Bits(m) <= Bits(n)
  {
    if m > 0 {
      BitsMonotone(m / 2, n / 2);
    }
  }

  lemma {:induction false} SweepsClear(s: seq<Snap>, passes: nat)
    requires passes >= Bits(StopCount(s))
    ensures StopCount(Sweeps(s, passes)) == 0
    decreases passes
  {
    if passes > 0 {
      SweepHalves(s);
      BitsMonotone(StopCount(Sweep(s, {})), StopCount(s) / 2);
      SweepsClear(Sweep(s, {}), passes - 1);
    }
  }

  /** The torrents a sweep leaves alone, in order. */
  function NotStopping(s: seq<Snap>): seq<string> {
    if s == [] then [] else (if s[0].status == Stopping then [] else [s[0].infoHash]) + NotStopping(s[1..])
  }

  lemma NotStoppingCons(x: Snap, s: seq<Snap>)
    ensures NotStopping([x] + s) == (if x.status == Stopping then [] else [x.infoHash]) + NotStopping(s)
  {
    assert ([x] + s)[1..] == s;
  }

  /** Whichever destroys fail, no torrent that is not stopping is lost or moved past another. */
  lemma {:induction false} SweepSparesTheRest(s: seq<Snap>, broken: set<string>)
    ensures NotStopping(Sweep(s, broken)) == NotStopping(s)
  {
    if s != [] {
      if s[0].status == Stopping && s[0].infoHash !in broken {
        if |s| > 1 {
          SweepSparesTheRest(s[2..], broken);
          NotStoppingCons(s[1], Sweep(s[2..], broken));
          assert s[1..][1..] == s[2..];
        }
      } else {
        SweepSparesTheRest(s[1..], broken);
        NotStoppingCons(Settled(s[0]), Sweep(s[1..], broken));
      }
    }
  }

  // --- What becomes of each torrent ---

  /** Whether the sweep looks at entry `k`: unless it destroys the entry before, which it then looked at. */
  predicate Looked(s: seq<Snap>, broken: set<string>, k: nat)
    requires k <= |s|
  {
    k == 0 || !(Looked(s, broken, k - 1) && s[k - 1].status == Stopping && s[k - 1].infoHash !in broken)
  }

  lemma {:induction false} LookedTail(s: seq<Snap>, broken: set<string>, n: nat, k: nat)
    requires n <= |s| && Looked(s, broken, n) && k <= |s| - n
    ensures Looked(s, broken, n + k) == Looked(s[n..], broken, k)
    decreases k
  {
    if k > 0 {
      LookedTail(s, broken, n, k - 1);
    }
  }

  /** An entry the sweep looks at is destroyed if it is stopping and its destroy succeeds, and becomes paused if it
      is pausing; one it does not look at, and any other, stays as it is. */
  lemma {:induction false} SweepEntry(s: seq<Snap>, broken: set<string>, k: nat)
    requires DistinctHashes(s) && k < |s|
    ensures var t := s[k];
            if Looked(s, broken, k) && t.status == Stopping && t.infoHash !in broken then
              forall j :: 0 <= j < |Sweep(s, broken)| ==> Sweep(s, broken)[j].infoHash != t.infoHash
            else
              Snap(t.infoHash, t.ready, t.paused,
                   if Looked(s, broken, k) && t.status == Pausing then Paused else t.status, t.lastRead)
              in Sweep(s, broken)
    decreases |s|
  {
    var n := if s[0].status == Stopping && s[0].infoHash !in broken then 2 else 1;
    if k >= n {
      LookedTail(s, broken, n, k - n);
      SweepEntry(s[n..], broken, k - n);
    } else if k == 0 && n == 2 && |s| > 1 {
      assert Sweep(s, broken) == [s[1]] + Sweep(s[2..], broken);
      SweepKeepsOut(s[2..], broken, s[0].infoHash);
    } else if k == 1 {
      assert Looked(s, broken, 0);
    }
  }

  lemma {:induction false} SweepKeepsOut(s: seq<Snap>, broken: set<string>, x: string)
    requires forall k :: 0 <= k < |s| ==> s[k].infoHash != x
    ensures forall k :: 0 <= k < |Sweep(s, broken)| ==> Sweep(s, broken)[k].infoHash != x
    decreases |s|
  {
    if s != [] {
      if s[0].status == Stopping && s[0].infoHash !in broken {
        if |s| > 1 { SweepKeepsOut(s[2..], broken, x); }
      } else {
        SweepKeepsOut(s[1..], broken, x);
      }
    }
  }

  // --- Ticks between the sweeps defeat the halving ---

  /** Rounds of one tick and one sweep, one time unit apart, with no event and no failure. */
  function TickSweep(s: seq<Snap>, now: int, rounds: nat, cfg: Config): seq<Snap>
    decreases rounds
  {
    if rounds == 0 then s else TickSweep(Sweep(TickAll(s, now, cfg), {}), now + 1, rounds - 1, cfg)
  }

  /** The `i`-th torrent of a client whose last reads lie one time unit apart, latest first. */
  function Staggered(n: nat, i: nat): Snap {
    Snap(seq(i, _ => 't'), true, false, Running, Some(n - i))
  }

  function StaggeredClient(n: nat, m: nat): seq<Snap> {
    seq(m, i requires 0 <= i < m => Staggered(n, i))
  }

  /** The torrent read first, at time 0. */
  function Longest(status: Status): Snap {
    Snap("x", true, false, status, Some(0))
  }

  lemma {:induction false} SweepPassesSettled(s: seq<Snap>, t: seq<Snap>)
    requires forall k :: 0 <= k < |s| ==> s[k].status !in {Stopping, Pausing}
    ensures Sweep(s + t, {}) == s + Sweep(t, {})
  {
    if s == [] {
      assert s + t == t;
    } else {
      var st := s + t;
      assert st[0] == s[0] && st[1..] == s[1..] + t;
      assert Sweep(st, {}) == [s[0]] + Sweep(st[1..], {});
      SweepPassesSettled(s[1..], t);
      assert s == [s[0]] + s[1..];
    }
  }

  /** Each round the torrent in front of "x" expires, is destroyed and hides "x" from the sweep. */
  lemma StaggeredRound(n: nat, m: nat, after: nat, status: Status, maxReady: int)
    requires 0 < m <= n
    ensures var cfg := Config(after, after, maxReady);
            Sweep(TickAll(StaggeredClient(n, m) + [Longest(status)], after + n - m + 1, cfg), {})
            == StaggeredClient(n, m - 1) + [Longest(Stopping)]
  {
    var cfg, now := Config(after, after, maxReady), after + n - m + 1;
    var client := StaggeredClient(n, m) + [Longest(status)];
    var front, tail := StaggeredClient(n, m - 1), [Staggered(n, m - 1).(status := Stopping), Longest(Stopping)];
    var ticked := TickAll(client, now, cfg);
    assert |ticked| == |front + tail|;
    forall k | 0 <= k < |ticked| ensures ticked[k] == (front + tail)[k] {
      assert ticked[k] == Ticked(client[k], now, cfg);
    }
    assert ticked == front + tail;
    SweepPassesSettled(front, tail);
    assert tail[2..] == [];
    assert Sweep(tail, {}) == [Longest(Stopping)];
  }

  /** For every n: of n + 1 torrents all idle past both thresholds when their turn comes, the one idle
      longest survives n rounds of tick and sweep. So Bits(n + 1) sweeps do not suffice, and n + 1 do. */
  lemma {:induction false} LinearlyManySweeps(n: nat, m: nat, after: nat, status: Status, maxReady: int)
    requires m <= n && (m > 0 || status == Stopping)
    ensures TickSweep(StaggeredClient(n, m) + [Longest(status)], after + n - m + 1, m, Config(after, after, maxReady))
            == [Longest(Stopping)]
    decreases m
  {
    if m > 0 {
      StaggeredRound(n, m, after, status, maxReady);
      LinearlyManySweeps(n, m - 1, after, Stopping, maxReady);
    } else {
      assert StaggeredClient(n, 0) == [];
    }
  }
}
