/** The limit on ready torrents, with any number of reads in flight. */
module Admission {
  import Wrappers

  /** Info hashes are only compared here, so any endless supply of names stands for them. */
  type Hash = nat

  /** Where a read is in its guard: it found its torrent absent and has yet to count the ready ones, or it
      is past the guard, in `makeTorrentReadable` or later. A read that found its torrent in the client
      counts nothing. */
  datatype Progress = Checking(hash: Hash) | Passed(hash: Hash)

  /** `client` says of each torrent whether it is ready. */
  datatype Sys = Sys(client: map<Hash, bool>, inFlight: map<nat, Progress>)

  datatype Step =
    | LookUp(read: nat, hash: Hash)   // the awaited isTorrentInClient
    | Count(read: nat)                  // hasReachedMaxConcurrentReadyTorrents, for an absent torrent
    | StartTorrent(read: nat)           // client.add, from makeTorrentReadable
    | Finish(read: nat)
    | BecomeReady(hash: Hash)
    | Destroy(hash: Hash)

  function Ready(s: Sys): set<Hash> {
    set h | h in s.client && s.client[h]
  }

  /** The torrents with a read past the guard. */
  function InFlight(s: Sys): set<Hash> {
    set r | r in s.inFlight && s.inFlight[r].Passed? :: s.inFlight[r].hash
  }

  /** The torrents that are in the client or may be started by a read past the guard. */
  function Occupied(s: Sys): set<Hash> {
    s.client.Keys + InFlight(s)
  }

  /** Those of them that are not ready. */
  function Pending(s: Sys): set<Hash> {
    Occupied(s) - Ready(s)
  }

  predicate HasReachedMax(s: Sys, max: nat) {
    |Ready(s)| >= max
  }

  predicate Enabled(s: Sys, step: Step) {
    match step
    case LookUp(r, _) => r !in s.inFlight
    case Count(r) => r in s.inFlight && s.inFlight[r].Checking?
    case StartTorrent(r) => r in s.inFlight && s.inFlight[r].Passed? && s.inFlight[r].hash !in s.client
    case Finish(r) => r in s.inFlight
    case BecomeReady(h) => h in s.client
    case Destroy(h) => h in s.client
  }

  function Apply(s: Sys, step: Step, max: nat): Sys
    requires Enabled(s, step)
  {
    match step
    case LookUp(r, h) => s.(inFlight := s.inFlight[r := if h in s.client then Passed(h) else Checking(h)])
    case Count(r) =>
      s.(inFlight := if HasReachedMax(s, max) then s.inFlight - {r} else s.inFlight[r := Passed(s.inFlight[r].hash)])
    case StartTorrent(r) => s.(client := s.client[s.inFlight[r].hash := false])
    case Finish(r) => s.(inFlight := s.inFlight - {r})
    case BecomeReady(h) => s.(client := s.client[h := true])
    case Destroy(h) => s.(client := s.client - {h})
  }

  const EMPTY := Sys(map[], map[])

  /** The steps of a run from the empty system, last step outermost. */
  datatype Trace = Begin | Then(before: Trace, step: Step)

  /** The state a legal trace ends in; a step that is not enabled changes nothing. */
  function End(trace: Trace, max: nat): Sys {
    match trace
    case Begin => EMPTY
    case Then(before, step) =>
      var s := End(before, max);
      if Enabled(s, step) then Apply(s, step, max) else s
  }

  /** A legal run that never has more than `k` torrents pending. */
  predicate Run(trace: Trace, max: nat, k: nat) {
    && |Pending(End(trace, max))| <= k
    && match trace
       case Begin => true
       case Then(before, step) => Run(before, max, k) && Enabled(End(before, max), step)
  }

  // --- Whom the guard turns away ---

  predicate LegalTrace(trace: Trace, max: nat) {
    match trace
    case Begin => true
    case Then(before, step) => LegalTrace(before, max) && Enabled(End(before, max), step)
  }

  /** The last time the read looked its torrent up, that was not in the client. */
  predicate FoundAbsent(trace: Trace, max: nat, read: nat) {
    match trace
    case Begin => false
    case Then(before, step) =>
      if step.LookUp? && step.read == read then step.hash !in End(before, max).client
      else FoundAbsent(before, max, read)
  }

  /** The step takes the read out of flight without being its own end. */
  predicate TurnedAway(before: Trace, step: Step, max: nat, read: nat) {
    && read in End(before, max).inFlight && read !in End(Then(before, step), max).inFlight
    && step != Finish(read)
  }

  lemma {:induction false} CheckingFoundAbsent(trace: Trace, max: nat, read: nat)
    requires LegalTrace(trace, max)
    ensures var s := End(trace, max);
            read in s.inFlight && s.inFlight[read].Checking? ==> FoundAbsent(trace, max, read)
  {
    match trace
    case Begin =>
    case Then(before, step) => CheckingFoundAbsent(before, max, read);
  }

  /** In every run from the empty system: a read is turned away if and only if its torrent was absent when it
      looked it up and at least `max` torrents are ready when it counts them. Otherwise the count lets it pass,
      for the torrent it wants. */
  lemma TurnedAwayIff(before: Trace, step: Step, max: nat, read: nat)
    requires LegalTrace(Then(before, step), max)
    ensures var s := End(before, max);
            && (TurnedAway(before, step, max, read) <==>
                  && step == Count(read) && FoundAbsent(before, max, read)
                  && |set h | h in s.client && s.client[h]| >= max)
            && (step == Count(read) && !TurnedAway(before, step, max, read) ==>
                  End(Then(before, step), max).inFlight
                  == s.inFlight[read := Passed(s.inFlight[read].hash)])
  {
    CheckingFoundAbsent(before, max, read);
    var s := End(before, max);
    assert Ready(s) == set h | h in s.client && s.client[h];
  }

  /** The read has looked its torrent `hash` up, found it in the client, and not ended since. */
  predicate FoundPresent(trace: Trace, max: nat, read: nat, hash: Hash) {
    match trace
    case Begin => false
    case Then(before, step) =>
      if step.LookUp? && step.read == read then step.hash == hash && hash in End(before, max).client
      else step != Finish(read) && FoundPresent(before, max, read, hash)
  }

  /** So a read of a torrent in the client is past the guard until its own end, however many torrents are ready,
      and whatever happens to that torrent meanwhile. */
  lemma {:induction false} PresentIsNeverTurnedAway(trace: Trace, max: nat, read: nat, hash: Hash)
    requires LegalTrace(trace, max) && FoundPresent(trace, max, read, hash)
    ensures read in End(trace, max).inFlight && End(trace, max).inFlight[read] == Passed(hash)
  {
    var Then(before, step) := trace;
    if !(step.LookUp? && step.read == read) {
      PresentIsNeverTurnedAway(before, max, read, hash);
    }
  }

  // --- The bound ---

  lemma OccupiedSplits(s: Sys)
    ensures |Occupied(s)| == |Ready(s)| + |Pending(s)|
  {
    assert Ready(s) <= s.client.Keys;
    assert Occupied(s) == Ready(s) + Pending(s);
  }

  /** Only a count that lets a read pass can occupy a further torrent. */
  lemma OnlyCountAdmits(s: Sys, step: Step, max: nat)
    requires Enabled(s, step) && !(step.Count? && !HasReachedMax(s, max))
    ensures Occupied(Apply(s, step, max)) <= Occupied(s)
  {
    var s' := Apply(s, step, max);
    forall r | r in s'.inFlight && s'.inFlight[r].Passed? ensures s'.inFlight[r].hash in Occupied(s) {
      if r in s.inFlight && s.inFlight[r] == s'.inFlight[r] {
        assert s.inFlight[r].hash in InFlight(s);
      }
    }
    if step.StartTorrent? {
      assert s.inFlight[step.read].hash in InFlight(s);
    }
  }

  lemma StepKeepsBound(s: Sys, step: Step, max: nat, k: nat)
    requires Enabled(s, step) && |Occupied(s)| <= max - 1 + k && |Pending(Apply(s, step, max))| <= k
    ensures |Occupied(Apply(s, step, max))| <= max - 1 + k
  {
    var s' := Apply(s, step, max);
    OccupiedSplits(s');
    if step.Count? && !HasReachedMax(s, max) {
      assert Ready(s') == Ready(s);
    } else {
      OnlyCountAdmits(s, step, max);
      Wrappers.SubsetCard(Occupied(s'), Occupied(s));
    }
  }

  /** In every interleaving that keeps at most k torrents pending, ready and pending ones together stay
      below max + k. Serialised starts (k = 1) therefore respect the documented limit. */
  lemma {:induction false} AdmissionBound(trace: Trace, max: nat, k: nat)
    requires max >= 1 && k >= 1 && Run(trace, max, k)
    ensures var s := End(trace, max);
            && |Ready(s)| + |Pending(s)| <= max - 1 + k
            && (k == 1 ==> |Ready(s)| <= max)
  {
    OccupiedSplits(End(trace, max));
    match trace {
      case Begin =>
        assert Occupied(EMPTY) == {};
      case Then(before, step) =>
        AdmissionBound(before, max, k);
        OccupiedSplits(End(before, max));
        StepKeepsBound(End(before, max), step, max, k);
    }
  }

  // --- The bound is reached ---

  function Names(n: nat): (names: set<Hash>)
    ensures |names| == n
    ensures forall h :: h in names <==> 0 <= h < n
  {
    if n == 0 then {} else Names(n - 1) + {n - 1}
  }

  /** The first `n` torrents are in the client, the first `r` of them ready, and each has a read past the guard. */
  function Stage(n: nat, r: nat): Sys {
    Sys(map h | h in Names(n) :: h < r, map i | i in Names(n) :: Passed(i))
  }

  lemma StageCounts(n: nat, r: nat)
    requires r <= n
    ensures Ready(Stage(n, r)) == Names(r) && Occupied(Stage(n, r)) == Names(n)
    ensures |Ready(Stage(n, r))| == r && |Pending(Stage(n, r))| == n - r
  {
    var s := Stage(n, r);
    assert Ready(s) == Names(r);
    assert Occupied(s) == Names(n);
    OccupiedSplits(s);
  }

  /** The stage with one more read: it has found torrent `n` absent, and then is past the guard. */
  function StageChecking(n: nat, r: nat): Sys {
    Stage(n, r).(inFlight := Stage(n, r).inFlight[n := Checking(n)])
  }

  function StagePassed(n: nat, r: nat): Sys {
    Stage(n, r).(inFlight := Stage(n, r).inFlight[n := Passed(n)])
  }

  lemma StageCheckingCounts(n: nat, r: nat)
    requires r <= n
    ensures |Ready(StageChecking(n, r))| == r && |Pending(StageChecking(n, r))| == n - r
  {
    StageCounts(n, r);
    var s, s' := Stage(n, r), StageChecking(n, r);
    forall i | i in s.inFlight ensures s.inFlight[i].hash in InFlight(s') {
      assert s'.inFlight[i] == s.inFlight[i];
    }
    assert InFlight(s') == InFlight(s);
    assert Ready(s') == Ready(s);
  }

  lemma StagePassedCounts(n: nat, r: nat)
    requires r <= n
    ensures |Pending(StagePassed(n, r))| == n + 1 - r
  {
    StageCounts(n, r);
    var s' := StagePassed(n, r);
    assert Ready(s') == Ready(Stage(n, r));
    StagePassedOccupies(n, r);
    OccupiedSplits(s');
  }

  lemma StagePassedOccupies(n: nat, r: nat)
    ensures Occupied(StagePassed(n, r)) == Names(n + 1)
  {
    var s' := StagePassed(n, r);
    assert s'.inFlight[n].hash == n;
    forall h | h in InFlight(s') ensures h in Names(n + 1) {
      var i :| i in s'.inFlight && s'.inFlight[i].Passed? && s'.inFlight[i].hash == h;
    }
    forall h | h in Names(n + 1) ensures h in Occupied(s') {
      if h == n { assert n in InFlight(s'); } else { assert h in s'.client; }
    }
  }

  lemma Extend(trace: Trace, s: Sys, step: Step, t: Sys, max: nat, k: nat) returns (longer: Trace)
    requires Reaches(trace, s, max, k)
    requires Enabled(s, step) && Apply(s, step, max) == t && |Pending(t)| <= k
    ensures Reaches(longer, t, max, k)
  {
    longer := Then(trace, step);
  }

  lemma LookUpStep(n: nat, r: nat, max: nat)
    ensures Enabled(Stage(n, r), LookUp(n, n)) && Apply(Stage(n, r), LookUp(n, n), max) == StageChecking(n, r)
  {
  }

  lemma CountStep(n: nat, r: nat, max: nat)
    requires r <= n && r < max
    ensures Enabled(StageChecking(n, r), Count(n)) && Apply(StageChecking(n, r), Count(n), max) == StagePassed(n, r)
  {
    hide Ready;
    StageCheckingCounts(n, r);
  }

  lemma StartStep(n: nat, r: nat, max: nat)
    requires r <= n
    ensures Enabled(StagePassed(n, r), StartTorrent(n))
    ensures Apply(StagePassed(n, r), StartTorrent(n), max) == Stage(n + 1, r)
  {
  }

  ghost predicate Reaches(trace: Trace, t: Sys, max: nat, k: nat) {
    Run(trace, max, k) && End(trace, max) == t
  }

  /** While fewer than `max` are ready, one more read passes the guard and starts its torrent. */
  lemma Admit(trace: Trace, n: nat, r: nat, max: nat, k: nat) returns (longer: Trace)
    requires r <= n && r < max && n - r < k && Reaches(trace, Stage(n, r), max, k)
    ensures Reaches(longer, Stage(n + 1, r), max, k)
  {
    hide Reaches;
    LookUpStep(n, r, max);
    CountStep(n, r, max);
    StartStep(n, r, max);
    StageCheckingCounts(n, r);
    StagePassedCounts(n, r);
    StageCounts(n + 1, r);
    longer := Extend(trace, Stage(n, r), LookUp(n, n), StageChecking(n, r), max, k);
    longer := Extend(longer, StageChecking(n, r), Count(n), StagePassed(n, r), max, k);
    longer := Extend(longer, StagePassed(n, r), StartTorrent(n), Stage(n + 1, r), max, k);
  }

  lemma ReadyStep(n: nat, r: nat, max: nat)
    requires r < n
    ensures Enabled(Stage(n, r), BecomeReady(r)) && Apply(Stage(n, r), BecomeReady(r), max) == Stage(n, r + 1)
  {
  }

  lemma MakeReady(trace: Trace, n: nat, r: nat, max: nat, k: nat) returns (longer: Trace)
    requires r < n && n - r <= k && Reaches(trace, Stage(n, r), max, k)
    ensures Reaches(longer, Stage(n, r + 1), max, k)
  {
    hide Reaches;
    ReadyStep(n, r, max);
    StageCounts(n, r + 1);
    longer := Extend(trace, Stage(n, r), BecomeReady(r), Stage(n, r + 1), max, k);
  }

  lemma BeginReaches(max: nat, k: nat) returns (trace: Trace)
    ensures Reaches(trace, Stage(0, 0), max, k)
  {
    StageCounts(0, 0);
    assert Stage(0, 0) == EMPTY;
    trace := Begin;
  }

  /** One at a time, up to max - 1 ready torrents. */
  lemma {:induction false} FillSerially(n: nat, max: nat, k: nat) returns (trace: Trace)
    requires n < max && k >= 1
    ensures Reaches(trace, Stage(n, n), max, k)
  {
    hide Reaches;
    if n == 0 {
      trace := BeginReaches(max, k);
    } else {
      trace := FillSerially(n - 1, max, k);
      trace := Admit(trace, n - 1, n - 1, max, k);
      trace := MakeReady(trace, n, n - 1, max, k);
    }
  }

  /** On top of those, `j` reads past the guard together. */
  lemma {:induction false} AdmitTogether(j: nat, max: nat, k: nat) returns (trace: Trace)
    requires max >= 1 && j <= k && k >= 1
    ensures Reaches(trace, Stage(max - 1 + j, max - 1), max, k)
  {
    hide Reaches;
    if j == 0 {
      trace := FillSerially(max - 1, max, k);
    } else {
      trace := AdmitTogether(j - 1, max, k);
      trace := Admit(trace, max - 1 + j - 1, max - 1, max, k);
    }
  }

  lemma {:induction false} ReadyTogether(j: nat, max: nat, k: nat) returns (trace: Trace)
    requires max >= 1 && j <= k && k >= 1
    ensures Reaches(trace, Stage(max - 1 + k, max - 1 + j), max, k)
  {
    hide Reaches;
    if j == 0 {
      trace := AdmitTogether(k, max, k);
    } else {
      trace := ReadyTogether(j - 1, max, k);
      trace := MakeReady(trace, max - 1 + k, max - 1 + j - 1, max, k);
    }
  }

  /** For every limit and every k some run, never with more than k torrents pending, ends with
      max - 1 + k ready: with k = 2 the documented limit is exceeded, and the bound above is exact. */
  lemma BoundIsReached(max: nat, k: nat)
    requires max >= 1 && k >= 1
    ensures exists trace :: FillsUp(trace, max, k)
  {
    hide *;
    var trace := ReadyTogether(k, max, k);
    StageFillsUp(trace, max, k);
  }

  /** A run, never with more than `k` torrents pending, that ends with max - 1 + k ready. */
  ghost predicate FillsUp(trace: Trace, max: nat, k: nat) {
    Run(trace, max, k) && |Ready(End(trace, max))| == max - 1 + k
  }

  lemma StageFillsUp(trace: Trace, max: nat, k: nat)
    requires max >= 1 && Reaches(trace, Stage(max - 1 + k, max - 1 + k), max, k)
    ensures FillsUp(trace, max, k)
  {
    hide Run, End, Ready, Stage, Pending;
    StageCounts(max - 1 + k, max - 1 + k);
  }
}
