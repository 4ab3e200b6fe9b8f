/** Torrent statuses in WebTorrentService: what one event, one tick and one sweep do to them. */
module Lifecycle {
  import opened Wrappers

  datatype Status = Na | Running | Pausing | Paused | Stopping

  /** The fields of a torrent in the client; `lastRead` is None until the first open or read event. */
  datatype Snap = Snap(infoHash: string, ready: bool, paused: bool, status: Status, lastRead: Option<int>)

  datatype Config = Config(pauseAfter: int, stopAfter: int, maxReady: int)

  /** A torrent as `client.add` leaves it. */
  function Added(hash: string): Snap {
    Snap(hash, false, false, Na, None)
  }

  /** Whether `now - lastReadDate >= ms`; with an undefined date the comparison is with NaN, so false. */
  predicate IdleFor(s: Snap, now: int, ms: int) {
    s.lastRead.Some? && now - s.lastRead.value >= ms
  }

  /** Idle past both thresholds. */
  predicate Expired(s: Snap, now: int, cfg: Config) {
    s.ready && IdleFor(s, now, cfg.pauseAfter) && IdleFor(s, now, cfg.stopAfter)
  }

  // --- One torrent ---

  /** After an open or read event. */
  function Touched(s: Snap, now: int): Snap {
    s.(lastRead := Some(now), status := Running)
  }

  /** After `resumeTorrent`. */
  function Resumed(s: Snap): Snap {
    if s.ready && s.paused then s.(paused := false, status := Running) else s
  }

  /** After a tick, as a table of idle times: below the pause threshold Running, past both Stopping,
      between them Pausing, or Paused if it was. Without a recorded read nothing changes. */
  function Ticked(s: Snap, now: int, cfg: Config): Snap {
    if !s.ready || s.lastRead == None then s
    else if !IdleFor(s, now, cfg.pauseAfter) then s.(status := Running)
    else if IdleFor(s, now, cfg.stopAfter) then s.(status := Stopping)
    else s.(status := if s.status == Paused then Paused else Pausing)
  }

  /** What a sweep does to an entry it visits and does not destroy. */
  function Settled(s: Snap): Snap {
    if s.status == Pausing then s.(status := Paused) else s
  }

  // --- The whole client ---

  function TickAll(s: seq<Snap>, now: int, cfg: Config): (r: seq<Snap>)
    ensures |r| == |s| && forall k :: 0 <= k < |s| ==> r[k] == Ticked(s[k], now, cfg)
  {
    if s == [] then [] else [Ticked(s[0], now, cfg)] + TickAll(s[1..], now, cfg)
  }

  /** A sweep over the live array: destroying an entry moves the next one into its place, where the
      iterator has already been. `broken` holds the torrents whose destroy fails; they stay. */
  function Sweep(s: seq<Snap>, broken: set<string>): seq<Snap> {
    if s == [] then []
    else if s[0].status == Stopping && s[0].infoHash !in broken then
      if |s| == 1 then [] else [s[1]] + Sweep(s[2..], broken)
    else [Settled(s[0])] + Sweep(s[1..], broken)
  }

  predicate DistinctHashes(s: seq<Snap>) {
    forall i, j :: 0 <= i < j < |s| ==> s[i].infoHash != s[j].infoHash
  }

  class StreamarrFsTorrent {
    const infoHash: string
    var ready: bool
    var paused: bool
    var status: Status
    var lastReadDate: Option<int>

    constructor (infoHash: string)
      ensures this.infoHash == infoHash && View() == Added(infoHash)
    {
      this.infoHash, ready, paused, status, lastReadDate := infoHash, false, false, Na, None;
    }

    function View(): Snap
      reads this
    {
      Snap(infoHash, ready, paused, status, lastReadDate)
    }
  }

  class WebTorrentService {
    var torrents: seq<StreamarrFsTorrent>
    const cfg: Config

    constructor (cfg: Config)
      ensures this.cfg == cfg && torrents == [] && Valid()
    {
      this.cfg, torrents := cfg, [];
    }

    /** The client refuses a second torrent with the same info hash. */
    ghost predicate Valid()
      reads this
    {
      && (forall i, j :: 0 <= i < j < |torrents| ==> torrents[i] != torrents[j])
      && (forall i, j :: 0 <= i < j < |torrents| ==> torrents[i].infoHash != torrents[j].infoHash)
    }

    function Views(): (s: seq<Snap>)
      reads this, torrents
      ensures |s| == |torrents| && forall k :: 0 <= k < |s| ==> s[k] == torrents[k].View()
    {
      seq(|torrents|, k requires 0 <= k < |torrents| reads this, torrents => torrents[k].View())
    }

    /** `client.get`: the index of the torrent with `hash`. */
    method Get(hash: string) returns (r: Option<nat>)
      ensures r.Some? ==> r.value < |torrents| && torrents[r.value].infoHash == hash
      ensures r.None? ==> forall k :: 0 <= k < |torrents| ==> torrents[k].infoHash != hash
    {
      var k := 0;
      while k < |torrents|
        invariant 0 <= k <= |torrents|
        invariant forall j :: 0 <= j < k ==> torrents[j].infoHash != hash
      {
        if torrents[k].infoHash == hash {
          return Some(k);
        }
        k := k + 1;
      }
      r := None;
    }

    /** The open and read handlers, up to the reader count that only the open handler keeps. */
    method HandleTorrentRead(hash: string, now: int)
      requires Valid()
      modifies torrents
      ensures |Views()| == |old(Views())|
      ensures forall k :: 0 <= k < |torrents| ==>
                Views()[k] == if torrents[k].infoHash == hash then Touched(old(Views())[k], now) else old(Views())[k]
    {
      var found := Get(hash);
      if found.Some? {
        var torrent := torrents[found.value];
        torrent.lastReadDate := Some(now);
        torrent.status := Running;
      }
    }

    method ResumeTorrent(hash: string) returns (resumed: Option<StreamarrFsTorrent>)
      requires Valid()
      modifies torrents
      ensures |Views()| == |old(Views())|
      ensures forall k :: 0 <= k < |torrents| ==>
                Views()[k] == if torrents[k].infoHash == hash then Resumed(old(Views())[k]) else old(Views())[k]
      ensures resumed.Some? <==>
                exists k :: 0 <= k < |torrents| && torrents[k].infoHash == hash
                            && old(torrents[k].ready && torrents[k].paused)
      ensures resumed.Some? ==> resumed.value in torrents && resumed.value.infoHash == hash
                                && resumed.value.ready && !resumed.value.paused
    {
      resumed := None;
      var found := Get(hash);
      if found.Some? {
        var torrent := torrents[found.value];
        if torrent.ready && torrent.paused {
          torrent.paused := false;
          torrent.status := Running;
          resumed := Some(torrent);
        }
      }
    }

    method HasReachedMaxConcurrentReadyTorrents() returns (reached: bool)
      ensures reached <==> |set k: nat | k < |torrents| && torrents[k].ready| >= cfg.maxReady
    {
      var readyTorrents := 0;
      var k := 0;
      while k < |torrents|
        invariant 0 <= k <= |torrents|
        invariant readyTorrents == |set j: nat | j < k && torrents[j].ready|
      {
        ghost var before := set j: nat | j < k && torrents[j].ready;
        ghost var after := set j: nat | j < k + 1 && torrents[j].ready;
        assert after == if torrents[k].ready then before + {k} else before;
        if torrents[k].ready {
          readyTorrents := readyTorrents + 1;
        }
        k := k + 1;
      }
      assert (set j: nat | j < k && torrents[j].ready) == set k: nat | k < |torrents| && torrents[k].ready;
      reached := readyTorrents >= cfg.maxReady;
    }

    /** The three tests of `updateTorrentStatus`, in order, on every torrent. */
    method UpdateTorrentStatus(now: int)
      requires Valid()
      modifies torrents
      ensures Views() == TickAll(old(Views()), now, cfg)
    {
      var k := 0;
      while k < |torrents|
        invariant 0 <= k <= |torrents|
        invariant forall j :: 0 <= j < |torrents| ==>
                    torrents[j].View() ==
                    if j < k then Ticked(old(torrents[j].View()), now, cfg) else old(torrents[j].View())
      {
        var torrent := torrents[k];
        assert torrent.View() == old(torrents[k].View());
        if torrent.ready && torrent.status != Paused && IdleFor(torrent.View(), now, cfg.pauseAfter) {
          torrent.status := Pausing;
        }
        if torrent.ready && torrent.status != Stopping && IdleFor(torrent.View(), now, cfg.stopAfter) {
          torrent.status := Stopping;
        }
        if torrent.ready && torrent.lastReadDate.Some? && now - torrent.lastReadDate.value < cfg.pauseAfter {
          torrent.status := Running;
        }
        k := k + 1;
      }
      assert Views() == TickAll(old(Views()), now, cfg);
    }

    /** Destroys the torrent with `hash`, which must be in the client; on failure it stays. */
    method StopTorrentWithInfoHash(hash: string, broken: set<string>) returns (ok: bool)
      requires Valid() && exists k :: 0 <= k < |torrents| && torrents[k].infoHash == hash
      modifies this`torrents
      ensures Valid() && ok == (hash !in broken)
      ensures forall k :: 0 <= k < |old(torrents)| && old(torrents)[k].infoHash == hash ==>
                torrents == if ok then old(torrents)[..k] + old(torrents)[k + 1..] else old(torrents)
    {
      var found := Get(hash);
      ok := hash !in broken;
      if ok {
        torrents := torrents[..found.value] + torrents[found.value + 1..];
      }
    }

    /** The first half of a round: a pausing torrent becomes paused. */
    method Settle(i: nat)
      requires Valid() && i < |torrents|
      modifies torrents[i]
      ensures Views() == old(Views())[i := Settled(old(Views())[i])]
    {
      var torrent := torrents[i];
      if torrent.status == Pausing {
        torrent.status := Paused;
      }
    }

    /** The second half: a stopping torrent is destroyed. */
    method StopIfStopping(i: nat, broken: set<string>)
      requires Valid() && i < |torrents|
      modifies this`torrents
      ensures Valid()
      ensures torrents == if old(torrents[i].status) == Stopping && old(torrents[i]).infoHash !in broken
                          then old(torrents)[..i] + old(torrents)[i + 1..] else old(torrents)
    {
      if torrents[i].status == Stopping {
        var _ := StopTorrentWithInfoHash(torrents[i].infoHash, broken);
      }
    }

    lemma ViewsWithout(ts: seq<StreamarrFsTorrent>, views: seq<Snap>, i: nat)
      requires i < |ts| && torrents == ts[..i] + ts[i + 1..]
      requires |views| == |ts| && forall k :: 0 <= k < |ts| ==> views[k] == ts[k].View()
      ensures Views() == views[..i] + views[i + 1..]
    {
      forall k | 0 <= k < |torrents| ensures Views()[k] == (views[..i] + views[i + 1..])[k] {
        assert torrents[k] == if k < i then ts[k] else ts[k + 1];
      }
    }

    /** One round of the sweep, at index `i` of the array as it is now. */
    method Visit(i: nat, broken: set<string>)
      requires Valid() && i < |torrents|
      modifies this`torrents, torrents[i]
      ensures Valid() && forall t :: t in torrents ==> t in old(torrents)
      ensures Views() == Visited(old(Views()), i, broken)
    {
      Settle(i);
      ghost var ts, views := torrents, Views();
      StopIfStopping(i, broken);
      if torrents != ts {
        ViewsWithout(ts, views, i);
      }
    }

    /** The live-array loop of `pauseOrStopTorrents`, with nothing else happening meanwhile. */
    method PauseOrStopTorrents(broken: set<string>)
      requires Valid()
      modifies this`torrents, torrents
      ensures Valid() && Views() == Sweep(old(Views()), broken)
    {
      var i := 0;
      while i < |torrents|
        invariant Valid() && forall t :: t in torrents ==> t in old(torrents)
        invariant SweepFrom(Views(), i, broken) == Sweep(old(Views()), broken)
        decreases |torrents| - i
      {
        SweepRound(Views(), i, broken);
        assert torrents[i] in torrents;
        Visit(i, broken);
        i := i + 1;
      }
    }
  }

  /** The array after one round of the sweep at index `i`. */
  function Visited(s: seq<Snap>, i: nat, broken: set<string>): seq<Snap>
    requires i < |s|
  {
    if s[i].status == Stopping && s[i].infoHash !in broken then s[..i] + s[i + 1..] else s[i := Settled(s[i])]
  }

  /** What is left of the sweep when the iterator stands at `i`; it may stand past the end. */
  function SweepFrom(s: seq<Snap>, i: nat, broken: set<string>): seq<Snap> {
    if i < |s| then s[..i] + Sweep(s[i..], broken) else s
  }

  lemma SweepRound(s: seq<Snap>, i: nat, broken: set<string>)
    requires i < |s|
    ensures SweepFrom(Visited(s, i, broken), i + 1, broken) == SweepFrom(s, i, broken)
  {
    if s[i].status == Stopping && s[i].infoHash !in broken {
      SweepDestroys(s, i, broken);
    } else {
      SweepPasses(s, i, broken);
    }
  }

  lemma SweepDestroys(s: seq<Snap>, i: nat, broken: set<string>)
    requires i < |s| && s[i].status == Stopping && s[i].infoHash !in broken
    ensures SweepFrom(s[..i] + s[i + 1..], i + 1, broken) == SweepFrom(s, i, broken)
  {
    var s', tail := s[..i] + s[i + 1..], s[i..];
    if |tail| > 1 {
      assert s'[..i + 1] == s[..i] + [tail[1]];
      assert s'[i + 1..] == tail[2..];
      assert Sweep(tail, broken) == [tail[1]] + Sweep(tail[2..], broken);
    } else {
      assert Sweep(tail, broken) == [];
      assert s' == s[..i];
    }
  }

  lemma SweepPasses(s: seq<Snap>, i: nat, broken: set<string>)
    requires i < |s| && !(s[i].status == Stopping && s[i].infoHash !in broken)
    ensures SweepFrom(s[i := Settled(s[i])], i + 1, broken) == SweepFrom(s, i, broken)
  {
    var s', tail := s[i := Settled(s[i])], s[i..];
    assert Sweep(tail, broken) == [Settled(s[i])] + Sweep(tail[1..], broken);
    assert s'[..i + 1] == s[..i] + [Settled(s[i])];
    assert s'[i + 1..] == tail[1..];
    if i + 1 == |s| {
      assert s' == s[..i] + [Settled(s[i])];
    }
  }
}
