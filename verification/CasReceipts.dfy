/**
 What stands behind a client of the compare-and-swap machine: which reads it made before it
 sent its mutation and before it returned a receipt.
 */
module CasReceipts {
  import opened CasMachine

  /** The machine before event j. */
  function Before(w: Rules, ref: Oid, requests: seq<Request>, events: seq<Event>, j: nat): State
    requires j <= |events|
  {
    Run(w, Start(ref, requests), events[..j])
  }

  /** Event j is the client's first read: as the expected login, of its repository, with the ref at the expected id. */
  ghost predicate SawExpected(
    w: Rules, ref: Oid, requests: seq<Request>, events: seq<Event>, i: nat, repositoryId: string, j: nat)
  {
    && i < |requests| && j < |events| && events[j].ReadBefore? && events[j].client == i
    && events[j].repositoryId == repositoryId && w.sameLogin(events[j].login, requests[i].login)
    && Before(w, ref, requests, events, j).ref == requests[i].expected
  }

  /** Event k is the read after the mutation: as the same login, of the same repository, with the ref at the new id. */
  ghost predicate SawAfter(
    w: Rules, ref: Oid, requests: seq<Request>, events: seq<Event>, i: nat, repositoryId: string, k: nat)
  {
    && i < |requests| && k < |events| && events[k].ReadAfter? && events[k].client == i
    && events[k].repositoryId == repositoryId && w.sameLogin(events[k].login, requests[i].login)
    && Before(w, ref, requests, events, k).ref == requests[i].after
  }

  /** Event k is the server's word to the client that its mutation was applied. */
  ghost predicate HeardApplied(w: Rules, ref: Oid, requests: seq<Request>, events: seq<Event>, i: nat, k: nat) {
    && k < |events| && events[k] == Hear(i)
    && var s := Before(w, ref, requests, events, k); i in s.replies && s.replies[i]
  }

  /** The reads that the client's phase stands for, in this order. */
  ghost predicate Backed(w: Rules, ref: Oid, requests: seq<Request>, events: seq<Event>, i: nat, phase: Phase) {
    match phase
    case Idle => true
    case Failed => true
    case Planned => i < |requests| && w.allowed(requests[i])
    case SawBefore(id) => exists j: nat :: SawExpected(w, ref, requests, events, i, id, j)
    case Sent(id) => SentAfterRead(w, ref, requests, events, i, id, |events|)
    case Acknowledged(id) => HeardAfterRead(w, ref, requests, events, i, id, |events|)
    case ReadBack => Confirmed(w, ref, requests, events, i)
    case Done => Confirmed(w, ref, requests, events, i)
  }

  ghost predicate SendsAt(events: seq<Event>, i: nat, k: nat) {
    k < |events| && events[k] == Send(i)
  }

  /** Before event n the client read the expected id and then sent its mutation. */
  ghost predicate SentAfterRead(
    w: Rules, ref: Oid, requests: seq<Request>, events: seq<Event>, i: nat, id: string, n: nat)
  {
    exists j: nat, k: nat ::
      j < k < n && SawExpected(w, ref, requests, events, i, id, j) && SendsAt(events, i, k)
  }

  ghost predicate HeardAfterRead(
    w: Rules, ref: Oid, requests: seq<Request>, events: seq<Event>, i: nat, id: string, n: nat)
  {
    exists l: nat :: l < n && HeardApplied(w, ref, requests, events, i, l)
                && SentAfterRead(w, ref, requests, events, i, id, l)
  }

  /** It read the expected id, sent its mutation, heard it was applied, and read the new id in the same repository. */
  ghost predicate Confirmed(w: Rules, ref: Oid, requests: seq<Request>, events: seq<Event>, i: nat) {
    exists id, m: nat :: SawAfter(w, ref, requests, events, i, id, m)
                    && HeardAfterRead(w, ref, requests, events, i, id, m)
  }

  /** One more event changes nothing about the events before it. */
  lemma FactsStay(w: Rules, ref: Oid, requests: seq<Request>, events: seq<Event>, e: Event, i: nat, id: string, j: nat)
    requires j < |events|
    ensures SawExpected(w, ref, requests, events, i, id, j) <==>
            SawExpected(w, ref, requests, events + [e], i, id, j)
    ensures SawAfter(w, ref, requests, events, i, id, j) <==> SawAfter(w, ref, requests, events + [e], i, id, j)
    ensures HeardApplied(w, ref, requests, events, i, j) <==> HeardApplied(w, ref, requests, events + [e], i, j)
    ensures SendsAt(events, i, j) <==> SendsAt(events + [e], i, j)
  {
    assert (events + [e])[..j] == events[..j] && (events + [e])[j] == events[j];
  }

  lemma SentStays(
    w: Rules, ref: Oid, requests: seq<Request>, events: seq<Event>, e: Event, i: nat, id: string, n: nat, m: nat)
    requires SentAfterRead(w, ref, requests, events, i, id, n) && n <= m
    ensures SentAfterRead(w, ref, requests, events + [e], i, id, m)
  {
    var j: nat, k: nat :|
      j < k < n && SawExpected(w, ref, requests, events, i, id, j) && SendsAt(events, i, k);
    FactsStay(w, ref, requests, events, e, i, id, j);
    FactsStay(w, ref, requests, events, e, i, id, k);
  }

  lemma HeardStays(
    w: Rules, ref: Oid, requests: seq<Request>, events: seq<Event>, e: Event, i: nat, id: string, n: nat, m: nat)
    requires HeardAfterRead(w, ref, requests, events, i, id, n) && n <= m
    ensures HeardAfterRead(w, ref, requests, events + [e], i, id, m)
  {
    var l: nat :| l < n && HeardApplied(w, ref, requests, events, i, l)
                  && SentAfterRead(w, ref, requests, events, i, id, l);
    FactsStay(w, ref, requests, events, e, i, id, l);
    SentStays(w, ref, requests, events, e, i, id, l, l);
  }

  lemma ConfirmedStays(w: Rules, ref: Oid, requests: seq<Request>, events: seq<Event>, e: Event, i: nat)
    requires Confirmed(w, ref, requests, events, i)
    ensures Confirmed(w, ref, requests, events + [e], i)
  {
    var id, m: nat :| SawAfter(w, ref, requests, events, i, id, m)
                      && HeardAfterRead(w, ref, requests, events, i, id, m);
    FactsStay(w, ref, requests, events, e, i, id, m);
    HeardStays(w, ref, requests, events, e, i, id, m, m);
  }

  /** What stood behind a phase still does after one more event. */
  lemma StillBacked(w: Rules, ref: Oid, requests: seq<Request>, events: seq<Event>, e: Event, i: nat, phase: Phase)
    requires Backed(w, ref, requests, events, i, phase)
    ensures Backed(w, ref, requests, events + [e], i, phase)
  {
    match phase
    case SawBefore(id) =>
      var j: nat :| SawExpected(w, ref, requests, events, i, id, j);
      FactsStay(w, ref, requests, events, e, i, id, j);
    case Sent(id) => SentStays(w, ref, requests, events, e, i, id, |events|, |events| + 1);
    case Acknowledged(id) => HeardStays(w, ref, requests, events, e, i, id, |events|, |events| + 1);
    case ReadBack => ConfirmedStays(w, ref, requests, events, e, i);
    case Done => ConfirmedStays(w, ref, requests, events, e, i);
    case _ =>
  }

  /** The event that brings a client into its phase adds what the phase stands for. */
  lemma NewlyBacked(w: Rules, ref: Oid, requests: seq<Request>, events: seq<Event>, e: Event, i: nat)
    requires i < |requests| && |Run(w, Start(ref, requests), events).clients| == |requests|
    requires var c := Run(w, Start(ref, requests), events).clients[i];
             c.request == requests[i] && Backed(w, ref, requests, events, i, c.phase)
    requires !e.ForeignWrite? && e.client == i
    ensures var t := Step(w, Run(w, Start(ref, requests), events), e);
            i < |t.clients| && Backed(w, ref, requests, events + [e], i, t.clients[i].phase)
  {
    var s := Run(w, Start(ref, requests), events);
    var t, longer, n := Step(w, s, e), events + [e], |events|;
    var phase := s.clients[i].phase;
    StillBacked(w, ref, requests, events, e, i, phase);
    assert longer[..n] == events && longer[n] == e && Before(w, ref, requests, longer, n) == s;
    if t.clients[i].phase != phase {
      match e
      case ReadBefore(_, login, id) =>
        if t.clients[i].phase.SawBefore? { assert SawExpected(w, ref, requests, longer, i, id, n); }
      case Send(_) =>
        var id := phase.repositoryId;
        var j: nat :| SawExpected(w, ref, requests, events, i, id, j);
        FactsStay(w, ref, requests, events, e, i, id, j);
        assert SendsAt(longer, i, n);
      case Hear(_) =>
        if t.clients[i].phase.Acknowledged? {
          assert HeardApplied(w, ref, requests, longer, i, n);
          SentStays(w, ref, requests, events, e, i, phase.repositoryId, n, n);
        }
      case ReadAfter(_, login, id) =>
        if t.clients[i].phase.ReadBack? {
          assert SawAfter(w, ref, requests, longer, i, id, n);
          HeardStays(w, ref, requests, events, e, i, id, n, n);
        }
      case _ =>
    }
  }

  /** In every run each client's phase is backed by the reads it stands for. */
  lemma {:induction false} PhasesAreBacked(w: Rules, ref: Oid, requests: seq<Request>, events: seq<Event>, i: nat)
    requires i < |requests|
    ensures var s := Run(w, Start(ref, requests), events);
            i < |s.clients| && Backed(w, ref, requests, events, i, s.clients[i].phase)
  {
    RunFixesRequests(w, ref, requests, events);
    if events != [] {
      var front, e := events[..|events| - 1], events[|events| - 1];
      var s := Run(w, Start(ref, requests), front);
      assert events == front + [e];
      RunFixesRequests(w, ref, requests, front);
      PhasesAreBacked(w, ref, requests, front, i);
      if !e.ForeignWrite? && e.client == i {
        NewlyBacked(w, ref, requests, front, e, i);
      } else {
        StillBacked(w, ref, requests, front, e, i, s.clients[i].phase);
        assert Step(w, s, e).clients[i] == s.clients[i];
      }
    }
  }

  /**
   A client that finished read the ref at the expected id, sent its
   mutation after that, heard that it was applied, and then read the new id, both reads as the
   expected login and of one repository.
   */
  lemma ReceiptIsReadBack(w: Rules, ref: Oid, requests: seq<Request>, events: seq<Event>, i: nat)
    requires i < |requests| && i < |Run(w, Start(ref, requests), events).clients|
    requires Run(w, Start(ref, requests), events).clients[i].phase.Done?
    ensures Confirmed(w, ref, requests, events, i)
  {
    PhasesAreBacked(w, ref, requests, events, i);
  }

  lemma EndStays(w: Rules, s: State, e: Event, i: nat)
    requires i < |s.clients| && (s.clients[i].phase.Done? || s.clients[i].phase.Failed?)
    ensures i < |Step(w, s, e).clients| && Step(w, s, e).clients[i].phase == s.clients[i].phase
  {
  }

  /** A client that finished, or failed, stays so whatever else happens. */
  lemma {:induction false} EndsStay(
    w: Rules, ref: Oid, requests: seq<Request>, events: seq<Event>, more: seq<Event>, i: nat)
    requires i < |requests| && i < |Run(w, Start(ref, requests), events).clients|
    requires var phase := Run(w, Start(ref, requests), events).clients[i].phase; phase.Done? || phase.Failed?
    ensures var s := Run(w, Start(ref, requests), events + more);
            i < |s.clients| && s.clients[i].phase == Run(w, Start(ref, requests), events).clients[i].phase
    decreases |more|
  {
    if more == [] {
      assert events + more == events;
    } else {
      var front, e := more[..|more| - 1], more[|more| - 1];
      EndsStay(w, ref, requests, events, front, i);
      assert events + more == (events + front) + [e];
      RunAppend(w, Start(ref, requests), events + front, e);
      EndStays(w, Run(w, Start(ref, requests), events + front), e, i);
    }
  }
}
