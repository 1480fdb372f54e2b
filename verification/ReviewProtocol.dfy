/**
 The review workflow as a step machine over shared artifacts: any number of runs,
 each with sequential attempts, racing for the same review identity.
 */
module ReviewProtocol {
  import opened Options
  import opened ReviewGuard

  datatype Phase = Started | Listed | Reading | Passed | Uploaded | Ended

  datatype Live = Live(packet: Packet, phase: Phase)

  /** What an attempt's packet listing was complete for, when the attempt began to read. */
  datatype Snapshot = Snapshot(packet: Packet, listed: set<Packet>)

  datatype State = State(
    live: map<nat, Live>,
    packets: set<Packet>,
    results: set<Attempt>,
    snapshots: set<Snapshot>,
    passed: set<Packet>)

  /** The two listings and the job inventory an attempt's guard works on. */
  datatype Listings = Listings(packets: seq<Artifact>, results: seq<Artifact>, jobs: JobReader)

  datatype Event =
    | StartAttempt(run: nat, identity: string)
    | ListPacket(run: nat)
    | BeginReading(run: nat)
    | RunGuard(run: nat, listings: Listings)
    | UploadReview(run: nat)
    | EndAttempt(run: nat)

  ghost predicate ListsName(listing: seq<Artifact>, name: string) {
    exists k :: 0 <= k < |listing| && listing[k].Artifact? && listing[k].name == name
  }

  ghost predicate ListsPacket(listing: seq<Artifact>, p: Packet) {
    ValidPacket(p) && ListsName(listing, PacketName(p))
  }

  ghost predicate ListsResult(listing: seq<Artifact>, a: Attempt) {
    ValidAttempt(a) && ListsName(listing, ResultName(a))
  }

  /**
   Complete listings: every packet listed when reading began, and every terminal
   review of the attempt's own run; whatever else they hold, they may hold.
   */
  ghost predicate Complete(l: Listings, snapshot: Snapshot, results: set<Attempt>) {
    && (forall p :: p in snapshot.listed ==> ListsPacket(l.packets, p))
    && (forall a :: a in results && a.run == snapshot.packet.attempt.run ==> ListsResult(l.results, a))
  }

  predicate InPhase(s: State, run: nat, phase: Phase) {
    run in s.live && s.live[run].phase == phase
  }

  function Move(s: State, run: nat, phase: Phase): State
    requires run in s.live
  {
    s.(live := s.live[run := s.live[run].(phase := phase)])
  }

  /** Attempts of a run are sequential: the next one starts only after the last has ended. */
  function NextAttempt(s: State, run: nat, identity: string): Packet {
    Packet(identity, Attempt(run, if run in s.live then s.live[run].packet.attempt.number + 1 else 1))
  }

  ghost predicate Enabled(s: State, e: Event) {
    match e
    case StartAttempt(run, identity) =>
      run >= 1 && ValidPacket(NextAttempt(s, run, identity)) && (run in s.live ==> s.live[run].phase.Ended?)
    case ListPacket(run) => InPhase(s, run, Started)
    case BeginReading(run) => InPhase(s, run, Listed)
    case RunGuard(run, listings) =>
      InPhase(s, run, Reading)
      && exists t :: t in s.snapshots && t.packet == s.live[run].packet && Complete(listings, t, s.results)
    case UploadReview(run) => InPhase(s, run, Passed)
    case EndAttempt(run) => run in s.live
  }

  ghost function Step(s: State, e: Event): State
    requires Enabled(s, e)
  {
    match e
    case StartAttempt(run, identity) => s.(live := s.live[run := Live(NextAttempt(s, run, identity), Started)])
    case ListPacket(run) => Move(s, run, Listed).(packets := s.packets + {s.live[run].packet})
    case BeginReading(run) =>
      Move(s, run, Reading).(snapshots := s.snapshots + {Snapshot(s.live[run].packet, s.packets)})
    case RunGuard(run, l) =>
      var packet := s.live[run].packet;
      if Retryable(packet.identity, packet.attempt, l.packets, l.results, l.jobs)
      then Move(s, run, Passed).(passed := s.passed + {packet})
      else Move(s, run, Ended)
    case UploadReview(run) => Move(s, run, Uploaded).(results := s.results + {s.live[run].packet.attempt})
    case EndAttempt(run) => Move(s, run, Ended)
  }

  const EMPTY := State(map[], {}, {}, {}, {})

  /** A history of enabled steps, from the first state to the last. */
  ghost predicate Reachable(states: seq<State>, events: seq<Event>) {
    && |states| == |events| + 1 && states[0] == EMPTY
    && forall k :: 0 <= k < |events| ==> Enabled(states[k], events[k]) && states[k + 1] == Step(states[k], events[k])
  }

  // ---- What every reachable state satisfies ----

  ghost predicate LiveOk(s: State, run: nat)
    requires run in s.live
  {
    var l := s.live[run];
    && ValidPacket(l.packet) && l.packet.attempt.run == run
    && (!l.phase.Started? && !l.phase.Ended? ==> l.packet in s.packets)
    && (l.phase.Started? || l.phase.Listed? ==> forall t :: t in s.snapshots ==> t.packet.attempt != l.packet.attempt)
    && (l.phase.Started? ==> forall p :: p in s.packets ==> p.attempt != l.packet.attempt)
    && (l.phase.Passed? ==> l.packet in s.passed && forall a :: a in s.results ==> a.run != run)
  }

  /** Nothing recorded runs ahead of the run's current attempt. */
  ghost predicate Known(s: State, a: Attempt) {
    a.run in s.live && a.number <= s.live[a.run].packet.attempt.number
  }

  ghost predicate SnapshotOk(s: State, t: Snapshot) {
    t.packet in t.listed && t.listed <= s.packets && Known(s, t.packet.attempt)
  }

  /** Of two readers, at least one was already listed when the other began to read. */
  ghost predicate OneSeesTheOther(t: Snapshot, u: Snapshot) {
    t.packet in u.listed || u.packet in t.listed
  }

  /** A passed packet read a snapshot that holds no packet of its identity from another run. */
  ghost predicate PassedOk(s: State, p: Packet) {
    exists t :: t in s.snapshots && t.packet == p
                && forall q :: q in t.listed && q.identity == p.identity ==> q.attempt.run == p.attempt.run
  }

  ghost predicate ResultOk(s: State, a: Attempt) {
    && ValidAttempt(a) && Known(s, a)
    && (exists p :: p in s.passed && p.attempt == a)
    && (forall p :: p in s.passed && p.attempt.run == a.run ==> p.attempt.number <= a.number)
    && (forall b :: b in s.results && b.run == a.run ==> b == a)
    && !s.live[a.run].phase.Passed?
  }

  ghost predicate Inv(s: State) {
    && (forall run :: run in s.live ==> LiveOk(s, run))
    && (forall p :: p in s.packets ==> ValidPacket(p) && Known(s, p.attempt))
    && (forall t :: t in s.snapshots ==> SnapshotOk(s, t))
    && (forall t, u :: t in s.snapshots && u in s.snapshots ==> OneSeesTheOther(t, u))
    && (forall t, u :: t in s.snapshots && u in s.snapshots && t.packet.attempt == u.packet.attempt ==> t == u)
    && (forall p :: p in s.passed ==> PassedOk(s, p))
    && (forall a :: a in s.results ==> ResultOk(s, a))
  }

  lemma StartKeeps(s: State, run: nat, identity: string)
    requires Inv(s) && Enabled(s, StartAttempt(run, identity))
    ensures Inv(Step(s, StartAttempt(run, identity)))
  {
    var t := Step(s, StartAttempt(run, identity));
    var fresh_ := NextAttempt(s, run, identity).attempt;
    forall a | Known(s, a) ensures Known(t, a) && a != fresh_ {}
    forall a | a in t.results ensures ResultOk(t, a) { assert ResultOk(s, a); }
    forall p | p in t.passed ensures PassedOk(t, p) { assert PassedOk(s, p); }
    forall x | x in t.snapshots ensures SnapshotOk(t, x) { assert SnapshotOk(s, x); }
    forall r | r in t.live ensures LiveOk(t, r) {
      if r != run { assert LiveOk(s, r); }
      else { forall x | x in s.snapshots ensures x.packet.attempt != fresh_ { assert SnapshotOk(s, x); } }
    }
  }

  lemma ListKeeps(s: State, run: nat)
    requires Inv(s) && Enabled(s, ListPacket(run))
    ensures Inv(Step(s, ListPacket(run)))
  {
    var t := Step(s, ListPacket(run));
    assert LiveOk(s, run);
    forall a | Known(s, a) ensures Known(t, a) {}
    forall a | a in t.results ensures ResultOk(t, a) { assert ResultOk(s, a); }
    forall p | p in t.passed ensures PassedOk(t, p) { assert PassedOk(s, p); }
    forall x | x in t.snapshots ensures SnapshotOk(t, x) { assert SnapshotOk(s, x); }
    forall r | r in t.live ensures LiveOk(t, r) { assert LiveOk(s, r); }
  }

  /** The new reader's snapshot holds every earlier reader's packet. */
  lemma ReadKeeps(s: State, run: nat)
    requires Inv(s) && Enabled(s, BeginReading(run))
    ensures Inv(Step(s, BeginReading(run)))
  {
    var t := Step(s, BeginReading(run));
    var mine := Snapshot(s.live[run].packet, s.packets);
    assert LiveOk(s, run);
    forall a | Known(s, a) ensures Known(t, a) {}
    forall a | a in t.results ensures ResultOk(t, a) { assert ResultOk(s, a); }
    forall p | p in t.passed ensures PassedOk(t, p) {
      assert PassedOk(s, p);
    }
    forall x | x in t.snapshots ensures SnapshotOk(t, x) && OneSeesTheOther(x, mine) {
      if x in s.snapshots { assert SnapshotOk(s, x); }
    }
    forall x, y | x in t.snapshots && y in t.snapshots ensures OneSeesTheOther(x, y) {
      assert OneSeesTheOther(x, mine) && OneSeesTheOther(y, mine);
    }
    forall r | r in t.live ensures LiveOk(t, r) { assert LiveOk(s, r); }
  }

  lemma EndKeeps(s: State, run: nat)
    requires Inv(s) && run in s.live
    ensures Inv(Move(s, run, Ended))
  {
    var t := Move(s, run, Ended);
    forall a | Known(s, a) ensures Known(t, a) {}
    forall a | a in t.results ensures ResultOk(t, a) { assert ResultOk(s, a); }
    forall p | p in t.passed ensures PassedOk(t, p) { assert PassedOk(s, p); }
    forall x | x in t.snapshots ensures SnapshotOk(t, x) { assert SnapshotOk(s, x); }
    forall r | r in t.live ensures LiveOk(t, r) { assert LiveOk(s, r); }
  }

  /** A passing guard has seen no foreign packet of its identity and no terminal review of its run. */
  lemma PassingMeans(s: State, run: nat, l: Listings, t: Snapshot)
    requires run in s.live && t.packet == s.live[run].packet && Complete(l, t, s.results)
    requires Retryable(t.packet.identity, t.packet.attempt, l.packets, l.results, l.jobs)
    ensures forall q :: q in t.listed && q.identity == t.packet.identity ==> q.attempt.run == t.packet.attempt.run
    ensures forall a :: a in s.results ==> a.run != t.packet.attempt.run
  {
    forall q | q in t.listed && q.identity == t.packet.identity ensures q.attempt.run == t.packet.attempt.run {
      assert ListsPacket(l.packets, q);
      var k :| 0 <= k < |l.packets| && l.packets[k].Artifact? && l.packets[k].name == PacketName(q);
      PacketRoundTrip(q);
      assert PacketOf(t.packet.identity, l.packets[k]) == Some(q.attempt);
    }
    forall a | a in s.results ensures a.run != t.packet.attempt.run {
      if a.run == t.packet.attempt.run {
        ListedResultIsSeen(l.results, a);
      }
    }
  }

  lemma ListedResultIsSeen(results: seq<Artifact>, a: Attempt)
    requires ListsResult(results, a)
    ensures exists k :: 0 <= k < |results| && ResultOf(results[k]).Some?
  {
    var k :| 0 <= k < |results| && results[k].Artifact? && results[k].name == ResultName(a);
    ResultRoundTrip(a);
    assert ResultOf(results[k]).Some?;
  }

  lemma PassKeeps(s: State, run: nat, t: Snapshot)
    requires Inv(s) && InPhase(s, run, Reading) && t in s.snapshots && t.packet == s.live[run].packet
    requires forall q :: q in t.listed && q.identity == t.packet.identity ==> q.attempt.run == t.packet.attempt.run
    requires forall a :: a in s.results ==> a.run != run
    ensures Inv(Move(s, run, Passed).(passed := s.passed + {t.packet}))
  {
    var u := Move(s, run, Passed).(passed := s.passed + {t.packet});
    assert LiveOk(s, run);
    forall a | Known(s, a) ensures Known(u, a) {}
    forall a | a in u.results ensures ResultOk(u, a) { assert ResultOk(s, a); }
    forall p | p in u.passed ensures PassedOk(u, p) {
      if p in s.passed { assert PassedOk(s, p); }
    }
    forall x | x in u.snapshots ensures SnapshotOk(u, x) { assert SnapshotOk(s, x); }
    forall r | r in u.live ensures LiveOk(u, r) { assert LiveOk(s, r); }
  }

  lemma GuardKeeps(s: State, run: nat, l: Listings)
    requires Inv(s) && Enabled(s, RunGuard(run, l))
    ensures Inv(Step(s, RunGuard(run, l)))
  {
    var t :| t in s.snapshots && t.packet == s.live[run].packet && Complete(l, t, s.results);
    assert LiveOk(s, run);
    if Retryable(t.packet.identity, t.packet.attempt, l.packets, l.results, l.jobs) {
      PassingMeans(s, run, l, t);
      PassKeeps(s, run, t);
    } else {
      EndKeeps(s, run);
    }
  }

  lemma UploadKeeps(s: State, run: nat)
    requires Inv(s) && Enabled(s, UploadReview(run))
    ensures Inv(Step(s, UploadReview(run)))
  {
    var t := Step(s, UploadReview(run));
    var mine := s.live[run].packet.attempt;
    assert LiveOk(s, run);
    forall a | Known(s, a) ensures Known(t, a) {}
    forall p | p in t.passed ensures PassedOk(t, p) && Known(t, p.attempt) {
      assert PassedOk(s, p);
      var x :| x in s.snapshots && x.packet == p;
      assert SnapshotOk(s, x);
    }
    forall a | a in t.results ensures ResultOk(t, a) {
      if a != mine { assert ResultOk(s, a); }
    }
    forall x | x in t.snapshots ensures SnapshotOk(t, x) { assert SnapshotOk(s, x); }
    forall r | r in t.live ensures LiveOk(t, r) { assert LiveOk(s, r); }
  }

  lemma StepKeeps(s: State, e: Event)
    requires Inv(s) && Enabled(s, e)
    ensures Inv(Step(s, e))
  {
    match e
    case StartAttempt(run, identity) => StartKeeps(s, run, identity);
    case ListPacket(run) => ListKeeps(s, run);
    case BeginReading(run) => ReadKeeps(s, run);
    case RunGuard(run, l) => GuardKeeps(s, run, l);
    case UploadReview(run) => UploadKeeps(s, run);
    case EndAttempt(run) => EndKeeps(s, run);
  }

  lemma {:induction false} ReachableKeeps(states: seq<State>, events: seq<Event>, n: nat)
    requires Reachable(states, events) && n <= |events|
    ensures Inv(states[n])
  {
    if n > 0 {
      ReachableKeeps(states, events, n - 1);
      assert Enabled(states[n - 1], events[n - 1]) && states[n - 1 + 1] == Step(states[n - 1], events[n - 1]);
      StepKeeps(states[n - 1], events[n - 1]);
    }
  }

  // ---- The main results ----

  /** However runs race, at most one run ever passes the guard for an identity. */
  lemma AtMostOneRunPasses(states: seq<State>, events: seq<Event>, p: Packet, q: Packet)
    requires Reachable(states, events)
    requires p in states[|states| - 1].passed && q in states[|states| - 1].passed && p.identity == q.identity
    ensures p.attempt.run == q.attempt.run
  {
    ReachableKeeps(states, events, |events|);
    var s := states[|states| - 1];
    assert PassedOk(s, p) && PassedOk(s, q);
    var t :| t in s.snapshots && t.packet == p
             && forall r :: r in t.listed && r.identity == p.identity ==> r.attempt.run == p.attempt.run;
    var u :| u in s.snapshots && u.packet == q
             && forall r :: r in u.listed && r.identity == q.identity ==> r.attempt.run == q.attempt.run;
    assert OneSeesTheOther(t, u);
  }

  /** Every terminal review comes from a passed attempt, and an identity has at most one. */
  lemma AtMostOneTerminalReview(states: seq<State>, events: seq<Event>, p: Packet, q: Packet)
    requires Reachable(states, events)
    requires var s := states[|states| - 1];
             p in s.passed && q in s.passed && p.identity == q.identity
             && p.attempt in s.results && q.attempt in s.results
    ensures p == q
  {
    ReachableKeeps(states, events, |events|);
    AtMostOneRunPasses(states, events, p, q);
    assert ResultOk(states[|states| - 1], p.attempt);
  }

  /** A terminal review closes its run: no later attempt of it passes. */
  lemma TerminalReviewIsFinal(states: seq<State>, events: seq<Event>, a: Attempt, p: Packet)
    requires Reachable(states, events)
    requires a in states[|states| - 1].results
    ensures exists q :: q in states[|states| - 1].passed && q.attempt == a
    ensures p in states[|states| - 1].passed && p.attempt.run == a.run ==> p.attempt.number <= a.number
  {
    ReachableKeeps(states, events, |events|);
    assert ResultOk(states[|states| - 1], a);
  }

  // ---- A review does happen ----

  /** A listing with just the attempt's own packet, and no terminal review. */
  function OwnListing(p: Packet): Listings
    requires ValidPacket(p)
  {
    Listings([Artifact(PacketName(p), Some(false), Some(p.attempt.run))], [], _ => None)
  }

  lemma OwnListingPasses(p: Packet)
    requires ValidPacket(p)
    ensures var l := OwnListing(p);
            && Retryable(p.identity, p.attempt, l.packets, l.results, l.jobs)
            && Complete(l, Snapshot(p, {p}), {})
  {
    PacketRoundTrip(p);
    var l := OwnListing(p);
    assert PacketOf(p.identity, l.packets[0]) == Some(p.attempt);
    assert ListsName(l.packets, PacketName(p)) by {
      assert l.packets[0].Artifact? && l.packets[0].name == PacketName(p);
    }
  }

  /** The state of a lone first attempt, before it has passed. */
  function Lone(p: Packet, phase: Phase, listed: set<Packet>, snapshots: set<Snapshot>): State {
    State(map[p.attempt.run := Live(p, phase)], listed, {}, snapshots, {})
  }

  lemma LoneBegins(p: Packet)
    requires ValidPacket(p) && p.attempt.number == 1
    ensures Enabled(EMPTY, StartAttempt(p.attempt.run, p.identity))
    ensures Step(EMPTY, StartAttempt(p.attempt.run, p.identity)) == Lone(p, Started, {}, {})
    ensures Step(Lone(p, Started, {}, {}), ListPacket(p.attempt.run)) == Lone(p, Listed, {p}, {})
    ensures Step(Lone(p, Listed, {p}, {}), BeginReading(p.attempt.run)) == Lone(p, Reading, {p}, {Snapshot(p, {p})})
  {
  }

  lemma LoneEnds(p: Packet)
    requires ValidPacket(p)
    ensures var s := Lone(p, Reading, {p}, {Snapshot(p, {p})});
            && Enabled(s, RunGuard(p.attempt.run, OwnListing(p)))
            && var t := Step(s, RunGuard(p.attempt.run, OwnListing(p)));
               && Enabled(t, UploadReview(p.attempt.run))
               && var u := Step(t, UploadReview(p.attempt.run)); u.results == {p.attempt} && u.passed == {p}
  {
    OwnListingPasses(p);
    assert Snapshot(p, {p}) in Lone(p, Reading, {p}, {Snapshot(p, {p})}).snapshots;
  }

  /** Alone, the first attempt of a run lists its packet, passes the guard and leaves its terminal review. */
  lemma OneReviewHappens(p: Packet) returns (states: seq<State>, events: seq<Event>)
    requires ValidPacket(p) && p.attempt.number == 1
    ensures Reachable(states, events)
    ensures states[|events|].results == {p.attempt} && states[|events|].passed == {p}
  {
    LoneBegins(p);
    LoneEnds(p);
    var run := p.attempt.run;
    var s := Lone(p, Reading, {p}, {Snapshot(p, {p})});
    var t := Step(s, RunGuard(run, OwnListing(p)));
    states := [EMPTY, Lone(p, Started, {}, {}), Lone(p, Listed, {p}, {}), s, t, Step(t, UploadReview(run))];
    events := [StartAttempt(run, p.identity), ListPacket(run), BeginReading(run), RunGuard(run, OwnListing(p)),
               UploadReview(run)];
  }
}
