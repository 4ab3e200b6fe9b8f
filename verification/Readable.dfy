/** `makeTorrentReadable`, with arbitrary interference at every await. */
module Readable {
  import opened Wrappers

  /** What a lookup in the client shows; `id` tells a torrent from a later one with the same hash. */
  datatype Torrent = Torrent(id: nat, ready: bool, paused: bool)

  /** What `client.add` with a timeout comes to. The callback fires when the torrent is ready. */
  datatype StartOutcome = Started(torrent: Torrent) | TimedOut | StartFailed

  /** A torrent; `null`, which `read` reports as EBUSY; an exception, reported as EIO; or never an answer. */
  datatype Outcome = Usable(torrent: Torrent) | Busy | Threw | Hangs

  /** The n-th lookup of one call, counted from 0: any answer at all, since torrents may be added,
      become ready, be paused or destroyed between any two. */
  type Lookups = nat -> Option<Torrent>

  predicate ReadyAt(looks: Lookups, k: nat) {
    looks(k).Some? && looks(k).value.ready
  }

  /** `resumeTorrent` acts on a torrent that is ready and paused. */
  predicate Resumable(t: Option<Torrent>) {
    t.Some? && t.value.ready && t.value.paused
  }

  predicate ReadyUnpaused(t: Option<Torrent>) {
    t.Some? && t.value.ready && !t.value.paused
  }

  /** `pWaitFor`: the first of at most `polls` lookups from `k` on that shows a ready torrent; None when
      one of them shows no torrent (the poll throws) or none is ready in time. */
  function FirstReady(looks: Lookups, k: nat, polls: nat): (r: Option<nat>)
    ensures r.Some? <==>
              exists j :: k <= j < k + polls && ReadyAt(looks, j) && forall i :: k <= i < j ==> looks(i).Some?
    ensures r.Some? ==> k <= r.value < k + polls && ReadyAt(looks, r.value)
    decreases polls
  {
    if polls == 0 || looks(k).None? then None
    else if looks(k).value.ready then
      assert ReadyAt(looks, k);
      Some(k)
    else
      var r := FirstReady(looks, k + 1, polls - 1);
      if r.Some? then
        assert ReadyAt(looks, r.value);
        r
      else r
  }

  /** The call as a decision on its lookups: 0 and 1 look for a usable and a resumable torrent, 2 decides
      between starting (3, and 4 on a timeout) and polling (from 3 on, and one more after success). */
  function Decide(looks: Lookups, visible: bool, start: StartOutcome, stopFails: bool, polls: nat): Outcome {
    if Resumable(looks(1)) then Usable(looks(1).value.(paused := false))
    else if looks(2).None? then
      if !visible then Threw
      else if Resumable(looks(3)) then Usable(looks(3).value)
      else if looks(3).Some? then Busy
      else
        match start
        case Started(t) => Usable(t)
        case TimedOut => if looks(4).None? then Hangs else if stopFails then Threw else Busy
        case StartFailed => Threw
    else if !looks(2).value.ready then
      match FirstReady(looks, 3, polls)
      case None => Busy
      case Some(j) => if looks(j + 1).Some? then Usable(looks(j + 1).value) else Busy
    else if ReadyUnpaused(looks(0)) then Usable(looks(0).value)
    else Busy
  }

  /** `startTorrentWithTimeout`, its lookups being 3 and 4. */
  method StartTorrentWithTimeout(looks: Lookups, start: StartOutcome, stopFails: bool)
    returns (torrent: Option<Torrent>, failure: Option<Outcome>)
    ensures failure == if looks(3).Some? || start.Started? then None
                       else if start.TimedOut? && looks(4).None? then Some(Hangs)
                       else if start.StartFailed? || stopFails then Some(Threw)
                       else None
    ensures torrent == if Resumable(looks(3)) then looks(3)
                       else if looks(3).None? && start.Started? then Some(start.torrent)
                       else None
  {
    torrent, failure := None, None;
    var inClient := looks(3);
    if inClient.Some? && inClient.value.ready && inClient.value.paused {
      return inClient, None;
    }
    if inClient.None? {
      match start {
        case Started(t) => torrent := Some(t);
        case StartFailed => failure := Some(Threw);
        case TimedOut =>
          if looks(4).None? {
            failure := Some(Hangs);
          } else if stopFails {
            failure := Some(Threw);
          }
      }
    }
  }

  /** The `pWaitFor` loop, polling from lookup 3 on; None where it times out or the poll throws. */
  method WaitForReady(looks: Lookups, polls: nat) returns (polled: Option<nat>)
    ensures polled == FirstReady(looks, 3, polls)
  {
    var k := 3;
    while k < 3 + polls
      invariant 3 <= k <= 3 + polls
      invariant FirstReady(looks, 3, polls) == FirstReady(looks, k, 3 + polls - k)
    {
      var polledTorrent := looks(k);
      if polledTorrent.None? {
        return None;
      }
      if polledTorrent.value.ready {
        return Some(k);
      }
      k := k + 1;
    }
    polled := None;
  }

  /** The call as written, reassigning `readableTorrent` on the way. */
  method MakeTorrentReadable(looks: Lookups, visible: bool, start: StartOutcome, stopFails: bool, polls: nat)
    returns (outcome: Outcome)
    ensures outcome == Decide(looks, visible, start, stopFails, polls)
  {
    var readableTorrent: Option<Torrent> := None;

    var readyTorrent := looks(0);
    if readyTorrent.Some? && readyTorrent.value.ready && !readyTorrent.value.paused {
      readableTorrent := readyTorrent;
    }

    var resumedTorrent := if Resumable(looks(1)) then Some(looks(1).value.(paused := false)) else None;
    if resumedTorrent.Some? {
      readableTorrent := resumedTorrent;
    }

    if resumedTorrent.None? {
      var torrentInClient := looks(2);
      if torrentInClient.None? {
        if !visible {
          return Threw;
        }
        var startedTorrent, failure := StartTorrentWithTimeout(looks, start, stopFails);
        if failure.Some? {
          return failure.value;
        }
        readableTorrent := startedTorrent;
      }
      if torrentInClient.Some? && !torrentInClient.value.ready {
        var polled := WaitForReady(looks, polls);
        if polled.None? {
          return Busy;
        }
        readableTorrent := looks(polled.value + 1);
      }
    }

    if readableTorrent.None? {
      return Busy;
    }
    outcome := Usable(readableTorrent.value);
  }

  // --- Every answer ---

  /** Lookup `j` is the poll that ends the wait: the first to show a ready torrent, none before it failing. */
  predicate EndsWait(looks: Lookups, polls: nat, j: nat) {
    && 3 <= j < 3 + polls && ReadyAt(looks, j)
    && forall i :: 3 <= i < j ==> looks(i).Some? && !looks(i).value.ready
  }

  /** Every answer, for all lookups whatever: read off the lookups, the row's visibility and the start.
      - the second lookup shows a torrent to resume: that torrent, unpaused;
      - otherwise, with the third showing none: an exception if the row is hidden; else, if the fourth shows one,
        that one if it can be resumed, and null if not; else what the start comes to, a start in time giving its
        torrent, a failed one an exception, and a timeout null, unless its torrent cannot be stopped, which is an
        exception, or is gone, which never ends;
      - otherwise, with the third showing one that is not ready: what the lookup after the end of the wait shows,
        and null if the wait does not end or that shows nothing;
      - otherwise what the first lookup showed, if that was ready and unpaused, and null if not. */
  lemma AnswerIff(looks: Lookups, visible: bool, start: StartOutcome, stopFails: bool, polls: nat)
    ensures var r := Decide(looks, visible, start, stopFails, polls);
            var noResume := !Resumable(looks(1));
            var starting := noResume && looks(2) == None && visible && looks(3) == None;
            var waiting := noResume && looks(2).Some? && !looks(2).value.ready;
            && (r == Threw <==>
                  && noResume && looks(2) == None
                  && (!visible || (looks(3) == None && (start == StartFailed
                                     || (start == TimedOut && looks(4).Some? && stopFails)))))
            && (r == Hangs <==> starting && start == TimedOut && looks(4) == None)
            && (r == Busy <==>
                  || (noResume && looks(2) == None && visible && looks(3).Some? && !Resumable(looks(3)))
                  || (starting && start == TimedOut && looks(4).Some? && !stopFails)
                  || (waiting && forall j: nat :: EndsWait(looks, polls, j) ==> looks(j + 1) == None)
                  || (noResume && looks(2).Some? && looks(2).value.ready && !ReadyUnpaused(looks(0))))
            && forall t :: r == Usable(t) <==>
                 || (Resumable(looks(1)) && t == Torrent(looks(1).value.id, true, false))
                 || (noResume && looks(2) == None && visible && Resumable(looks(3)) && looks(3) == Some(t))
                 || (starting && start == Started(t))
                 || (waiting && exists j: nat :: EndsWait(looks, polls, j) && looks(j + 1) == Some(t))
                 || (noResume && looks(2).Some? && looks(2).value.ready && ReadyUnpaused(looks(0))
                     && looks(0) == Some(t))
  {
    WaitEnds(looks, polls);
  }

  /** The wait ends where `FirstReady` says, if anywhere. */
  lemma WaitEnds(looks: Lookups, polls: nat)
    ensures forall j: nat :: EndsWait(looks, polls, j) <==> FirstReady(looks, 3, polls) == Some(j)
  {
    forall j: nat ensures EndsWait(looks, polls, j) <==> FirstReady(looks, 3, polls) == Some(j) {
      if EndsWait(looks, polls, j) {
        FirstReadyIsFirst(looks, 3, polls, j);
      }
      if FirstReady(looks, 3, polls) == Some(j) {
        FirstReadySkips(looks, 3, polls);
      }
    }
  }

  // --- Soundness ---

  /** Whatever happens between the awaits, a non-null answer means that a torrent with this hash was seen
      ready during the call: by one of its lookups, or by the start it waited for. */
  lemma UsableWasSeenReady(looks: Lookups, visible: bool, start: StartOutcome, stopFails: bool, polls: nat)
    requires start.Started? ==> start.torrent.ready
    requires Decide(looks, visible, start, stopFails, polls).Usable?
    ensures (exists k: nat :: k < 3 + polls + 1 && ReadyAt(looks, k))
            || (looks(3).None? && start.Started?
                && Decide(looks, visible, start, stopFails, polls) == Usable(start.torrent))
  {
    if Resumable(looks(1)) {
      assert ReadyAt(looks, 1);
    } else if looks(2).None? && looks(3).Some? {
      assert ReadyAt(looks, 3);
    } else if looks(2).Some? && !looks(2).value.ready {
      var j := FirstReady(looks, 3, polls);
      assert ReadyAt(looks, j.value);
    } else if looks(2).Some? {
      assert ReadyAt(looks, 0);
    }
  }

  lemma {:induction false} FirstReadyIsFirst(looks: Lookups, k: nat, polls: nat, j: nat)
    requires k <= j < k + polls && ReadyAt(looks, j)
    requires forall i :: k <= i < j ==> looks(i).Some? && !looks(i).value.ready
    ensures FirstReady(looks, k, polls) == Some(j)
    decreases polls
  {
    if k < j {
      FirstReadyIsFirst(looks, k + 1, polls - 1, j);
    }
  }

  lemma {:induction false} FirstReadySkips(looks: Lookups, k: nat, polls: nat)
    requires FirstReady(looks, k, polls).Some?
    ensures forall i :: k <= i < FirstReady(looks, k, polls).value ==> looks(i).Some? && !looks(i).value.ready
    decreases polls
  {
    if !looks(k).value.ready {
      FirstReadySkips(looks, k + 1, polls - 1);
    }
  }

  /** The torrent returned need not be ready itself: exactly when no torrent was there to resume, the client
      had one that was not ready, and right after the poll that ended the wait the next lookup already shows
      another under the same hash, not ready. */
  lemma UsableIsReadyUnlessReplaced(looks: Lookups, visible: bool, start: StartOutcome, stopFails: bool, polls: nat)
    requires start.Started? ==> start.torrent.ready
    requires Decide(looks, visible, start, stopFails, polls).Usable?
    ensures !Decide(looks, visible, start, stopFails, polls).torrent.ready <==>
            && !Resumable(looks(1)) && looks(2).Some? && !looks(2).value.ready
            && exists j: nat :: EndsWait(looks, polls, j) && looks(j + 1).Some? && !looks(j + 1).value.ready
  {
    if !Resumable(looks(1)) && looks(2).Some? && !looks(2).value.ready {
      WaitEnds(looks, polls);
      assert EndsWait(looks, polls, FirstReady(looks, 3, polls).value);
    }
  }

  // --- Without interference ---

  /** Nothing else touches the torrent: it is the same at every lookup, except that it may become ready, at
      lookup `from`. */
  predicate OnlyBecomesReady(looks: Lookups, t: Torrent, from: nat, upTo: nat) {
    forall k :: 0 <= k <= upTo ==> looks(k) == Some(t.(ready := k >= from))
  }

  /** A torrent in the client is returned exactly when it is ready from the start, or by the second lookup if
      it is paused and so gets resumed, or becomes ready while being polled. Becoming ready in between is
      missed: the read is told EBUSY although the torrent is ready. A paused one that becomes ready while
      being polled is returned still paused. */
  lemma AloneInClient(
      looks: Lookups, t: Torrent, from: nat, visible: bool, start: StartOutcome, stopFails: bool, polls: nat)
    requires OnlyBecomesReady(looks, t, from, 3 + polls)
    ensures Decide(looks, visible, start, stopFails, polls) ==
            if from == 0 || (t.paused && from == 1) then Usable(t.(ready := true, paused := false))
            else if 3 <= from < 3 + polls then Usable(t.(ready := true))
            else Busy
  {
    assert looks(0) == Some(t.(ready := 0 >= from));
    assert looks(1) == Some(t.(ready := 1 >= from));
    assert looks(2) == Some(t.(ready := 2 >= from));
    if 3 <= from < 3 + polls {
      forall i | 3 <= i <= from + 1 ensures looks(i) == Some(t.(ready := i >= from)) {}
      FirstReadyIsFirst(looks, 3, polls, from);
    } else if from >= 3 {
      forall j | 3 <= j < 3 + polls ensures !ReadyAt(looks, j) {
        assert looks(j) == Some(t.(ready := j >= from));
      }
    }
  }

  /** A ready but paused torrent is resumed; an absent one is started if the torrent is visible. */
  lemma AloneOtherwise(looks: Lookups, visible: bool, start: StartOutcome, stopFails: bool, polls: nat)
    requires forall k :: 0 <= k <= 4 ==> looks(k) == looks(0)
    requires start.Started? ==> start.torrent.ready && !start.torrent.paused
    ensures var r := Decide(looks, visible, start, stopFails, polls);
            && (Resumable(looks(0)) ==> r == Usable(looks(0).value.(paused := false)))
            && (looks(0).None? ==>
                  if visible && start.Started? then r == Usable(start.torrent) else !r.Usable?)
  {
    assert looks(1) == looks(0) && looks(2) == looks(0) && looks(3) == looks(0);
  }
}
