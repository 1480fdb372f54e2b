/**
 The compare-and-swap protocol on one ref: clients that each run one transaction, a
 server that compares and swaps atomically, and other writers that may step between any
 two calls. What a client checks before it starts is a parameter.
 */
module CasMachine {
  /** A commit id; 0 stands for the all-zero id of an absent ref. */
  type Oid = nat

  datatype Request = Request(
    repository: string, refName: string, expected: Oid, after: Oid, login: string, optIn: bool)

  /** Which requests a client goes ahead with, and when two logins are the same. */
  datatype Rules = Rules(allowed: Request -> bool, sameLogin: (string, string) -> bool)

  // ---- Clients, the server and their steps ----

  datatype Phase =
    | Idle
    | Planned
    | SawBefore(repositoryId: string)
    | Sent(repositoryId: string)
    | Acknowledged(repositoryId: string)
    | ReadBack
    | Done
    | Failed

  datatype Client = Client(request: Request, phase: Phase)

  datatype Update = Update(client: nat, before: Oid, after: Oid)

  datatype State = State(
    ref: Oid,
    clients: seq<Client>,
    inFlight: set<nat>,
    replies: map<nat, bool>,
    log: seq<Update>)

  datatype Event =
    | Prepare(client: nat)
    | ReadBefore(client: nat, login: string, repositoryId: string)
    | Send(client: nat)
    | Serve(client: nat)
    | Refuse(client: nat)
    | Hear(client: nat)
    | LoseContact(client: nat)
    | ReadAfter(client: nat, login: string, repositoryId: string)
    | CheckPayload(client: nat)
    | ForeignWrite(oid: Oid)

  function Enter(s: State, i: nat, phase: Phase): State
    requires i < |s.clients|
  {
    s.(clients := s.clients[i := s.clients[i].(phase := phase)])
  }

  /** One step; an event that is not enabled changes nothing. */
  function Step(w: Rules, s: State, e: Event): State {
    match e
    case ForeignWrite(oid) => s.(ref := oid)
    case Prepare(i) =>
      if i < |s.clients| && s.clients[i].phase.Idle? then
        var r := s.clients[i].request;
        Enter(s, i, if w.allowed(r) then Planned else Failed)
      else s
    case ReadBefore(i, login, repositoryId) =>
      if i < |s.clients| && s.clients[i].phase.Planned? then
        var r := s.clients[i].request;
        Enter(s, i, if w.sameLogin(login, r.login) && s.ref == r.expected then SawBefore(repositoryId) else Failed)
      else s
    case Send(i) =>
      if i < |s.clients| && s.clients[i].phase.SawBefore? then
        Enter(s, i, Sent(s.clients[i].phase.repositoryId)).(inFlight := s.inFlight + {i})
      else s
    case Serve(i) =>
      if i < |s.clients| && i in s.inFlight then
        var r := s.clients[i].request;
        if s.ref == r.expected
        then s.(ref := r.after, inFlight := s.inFlight - {i}, replies := s.replies[i := true],
                log := s.log + [Update(i, r.expected, r.after)])
        else s.(inFlight := s.inFlight - {i}, replies := s.replies[i := false])
      else s
    case Refuse(i) =>
      if i in s.inFlight then s.(inFlight := s.inFlight - {i}, replies := s.replies[i := false]) else s
    case Hear(i) =>
      if i < |s.clients| && s.clients[i].phase.Sent? && i in s.replies then
        Enter(s, i, if s.replies[i] then Acknowledged(s.clients[i].phase.repositoryId) else Failed)
      else s
    case LoseContact(i) =>
      if i < |s.clients| && !s.clients[i].phase.Done? then Enter(s, i, Failed) else s
    case ReadAfter(i, login, repositoryId) =>
      if i < |s.clients| && s.clients[i].phase.Acknowledged? then
        var r := s.clients[i].request;
        Enter(s, i, if w.sameLogin(login, r.login) && repositoryId == s.clients[i].phase.repositoryId
                       && s.ref == r.after
                    then ReadBack else Failed)
      else s
    case CheckPayload(i) =>
      if i < |s.clients| && s.clients[i].phase.ReadBack? then Enter(s, i, Done) else s
  }

  function Run(w: Rules, s: State, events: seq<Event>): State {
    if events == [] then s
    else Step(w, Run(w, s, events[..|events| - 1]), events[|events| - 1])
  }

  function Start(ref: Oid, requests: seq<Request>): State {
    State(ref, seq(|requests|, i requires 0 <= i < |requests| => Client(requests[i], Idle)), {}, map[], [])
  }

  predicate NoForeignWrite(events: seq<Event>) {
    forall k :: 0 <= k < |events| ==> !events[k].ForeignWrite?
  }

  // ---- What every run keeps ----

  ghost predicate InLog(s: State, i: nat) {
    exists k :: 0 <= k < |s.log| && s.log[k].client == i
  }

  /** The last id of the chain that starts at `first`. */
  function LastOid(first: Oid, log: seq<Update>): Oid {
    if log == [] then first else log[|log| - 1].after
  }

  /** Each update starts from the id the one before it installed. */
  ghost predicate Chain(first: Oid, log: seq<Update>) {
    forall k :: 0 <= k < |log| ==> log[k].before == LastOid(first, log[..k])
  }

  ghost predicate Authorized(w: Rules, s: State, i: nat) {
    i < |s.clients| && w.allowed(s.clients[i].request)
  }

  ghost predicate Early(phase: Phase) {
    phase.Idle? || phase.Planned? || phase.SawBefore?
  }

  /** How far a client's own knowledge and the server's log can differ. */
  ghost predicate ClientOk(w: Rules, s: State, i: nat)
    requires i < |s.clients|
  {
    var phase := s.clients[i].phase;
    && (Early(phase) ==> i !in s.inFlight && i !in s.replies && !InLog(s, i))
    && (!phase.Idle? && !phase.Failed? ==> Authorized(w, s, i))
    && (i in s.inFlight ==> Authorized(w, s, i) && i !in s.replies && !InLog(s, i))
    && (i in s.replies && s.replies[i] ==> InLog(s, i))
    && (InLog(s, i) ==> i in s.replies)
    && (phase.Acknowledged? || phase.ReadBack? || phase.Done? ==> InLog(s, i))
  }

  ghost predicate LogOk(w: Rules, s: State) {
    && (forall k :: 0 <= k < |s.log| ==>
          var u := s.log[k];
          Authorized(w, s, u.client)
          && u.before == s.clients[u.client].request.expected && u.after == s.clients[u.client].request.after)
    && (forall j, k :: 0 <= j < k < |s.log| ==> s.log[j].client != s.log[k].client)
  }

  ghost predicate Inv(w: Rules, s: State) {
    LogOk(w, s) && forall i :: 0 <= i < |s.clients| ==> ClientOk(w, s, i)
  }

  /** A phase change that the client's knowledge supports keeps the invariant. */
  lemma EnterKeeps(w: Rules, s: State, i: nat, phase: Phase)
    requires Inv(w, s) && i < |s.clients|
    requires Early(phase) ==> Early(s.clients[i].phase)
    requires !phase.Idle? && !phase.Failed? ==> Authorized(w, s, i)
    requires phase.Acknowledged? || phase.ReadBack? || phase.Done? ==> InLog(s, i)
    ensures Inv(w, Enter(s, i, phase))
  {
    var t := Enter(s, i, phase);
    assert forall j :: 0 <= j < |s.clients| ==> t.clients[j].request == s.clients[j].request;
    forall j | 0 <= j < |t.clients| ensures ClientOk(w, t, j) {
      assert ClientOk(w, s, j);
      assert InLog(t, j) <==> InLog(s, j);
    }
  }

  lemma ServeKeeps(w: Rules, s: State, i: nat)
    requires Inv(w, s) && i < |s.clients| && i in s.inFlight
    ensures Inv(w, Step(w, s, Serve(i)))
  {
    var t := Step(w, s, Serve(i));
    assert ClientOk(w, s, i);
    forall j | 0 <= j < |t.clients| ensures ClientOk(w, t, j) {
      assert ClientOk(w, s, j);
      if |t.log| > |s.log| {
        assert t.log[|s.log|].client == i;
        if InLog(s, j) {
          var k :| 0 <= k < |s.log| && s.log[k].client == j;
          assert t.log[k].client == j;
        }
        if InLog(t, j) && j != i {
          var k :| 0 <= k < |t.log| && t.log[k].client == j;
          assert s.log[k].client == j;
        }
      }
    }
    forall k | 0 <= k < |s.log| ensures s.log[k].client != i {
      if s.log[k].client == i { assert InLog(s, i); }
    }
  }

  lemma RefuseKeeps(w: Rules, s: State, i: nat)
    requires Inv(w, s) && i in s.inFlight
    ensures Inv(w, Step(w, s, Refuse(i)))
  {
    var t := Step(w, s, Refuse(i));
    forall j | 0 <= j < |t.clients| ensures ClientOk(w, t, j) {
      assert ClientOk(w, s, j);
      assert InLog(t, j) <==> InLog(s, j);
    }
  }

  lemma SendKeeps(w: Rules, s: State, i: nat)
    requires Inv(w, s) && i < |s.clients| && s.clients[i].phase.SawBefore?
    ensures Inv(w, Step(w, s, Send(i)))
  {
    assert ClientOk(w, s, i);
    var mid := Enter(s, i, Sent(s.clients[i].phase.repositoryId));
    EnterKeeps(w, s, i, Sent(s.clients[i].phase.repositoryId));
    var t := Step(w, s, Send(i));
    assert !InLog(s, i) && i !in s.replies;
    assert InLog(mid, i) <==> InLog(s, i);
    forall j | 0 <= j < |t.clients| ensures ClientOk(w, t, j) {
      assert ClientOk(w, mid, j);
      assert InLog(t, j) <==> InLog(mid, j);
    }
  }

  lemma StepKeeps(w: Rules, s: State, e: Event)
    requires Inv(w, s)
    ensures Inv(w, Step(w, s, e))
  {
    match e
    case ForeignWrite(oid) =>
      var t := s.(ref := oid);
      forall j | 0 <= j < |t.clients| ensures ClientOk(w, t, j) {
        assert ClientOk(w, s, j);
        assert InLog(t, j) <==> InLog(s, j);
      }
    case Serve(i) => if i < |s.clients| && i in s.inFlight { ServeKeeps(w, s, i); }
    case Refuse(i) => if i in s.inFlight { RefuseKeeps(w, s, i); }
    case Send(i) => if i < |s.clients| && s.clients[i].phase.SawBefore? { SendKeeps(w, s, i); }
    case _ =>
      var i := e.client;
      if i < |s.clients| && Step(w, s, e) != s {
        assert ClientOk(w, s, i);
        EnterKeeps(w, s, i, Step(w, s, e).clients[i].phase);
        assert Step(w, s, e) == Enter(s, i, Step(w, s, e).clients[i].phase);
      }
  }

  lemma {:induction false} RunKeeps(w: Rules, ref: Oid, requests: seq<Request>, events: seq<Event>)
    ensures Inv(w, Run(w, Start(ref, requests), events))
  {
    if events == [] {
      var s := Start(ref, requests);
      forall i | 0 <= i < |s.clients| ensures ClientOk(w, s, i) {
        assert !InLog(s, i);
      }
    } else {
      RunKeeps(w, ref, requests, events[..|events| - 1]);
      StepKeeps(w, Run(w, Start(ref, requests), events[..|events| - 1]), events[|events| - 1]);
    }
  }

  lemma StepKeepsChain(w: Rules, first: Oid, s: State, e: Event)
    requires Chain(first, s.log) && s.ref == LastOid(first, s.log) && !e.ForeignWrite?
    ensures var t := Step(w, s, e); Chain(first, t.log) && t.ref == LastOid(first, t.log)
  {
    var t := Step(w, s, e);
    if t.log != s.log {
      forall k | 0 <= k < |t.log| ensures t.log[k].before == LastOid(first, t.log[..k]) {
        assert t.log[..k] == s.log[..k];
        if k == |s.log| { assert s.log[..k] == s.log; }
      }
    }
  }

  lemma RequestsFixed(w: Rules, s: State, e: Event)
    ensures |Step(w, s, e).clients| == |s.clients|
    ensures forall i :: 0 <= i < |s.clients| ==> Step(w, s, e).clients[i].request == s.clients[i].request
  {
  }

  lemma {:induction false} RunFixesRequests(w: Rules, ref: Oid, requests: seq<Request>, events: seq<Event>)
    ensures var s := Run(w, Start(ref, requests), events);
            |s.clients| == |requests| && forall i :: 0 <= i < |requests| ==> s.clients[i].request == requests[i]
  {
    if events != [] {
      RunFixesRequests(w, ref, requests, events[..|events| - 1]);
      RequestsFixed(w, Run(w, Start(ref, requests), events[..|events| - 1]), events[|events| - 1]);
    }
  }

  // ---- Chains and receipts ----

  /** Without other writers the applied updates form one chain that ends at the ref. */
  lemma {:induction false} UpdatesFormAChain(w: Rules, ref: Oid, requests: seq<Request>, events: seq<Event>)
    requires NoForeignWrite(events)
    ensures var s := Run(w, Start(ref, requests), events); Chain(ref, s.log) && s.ref == LastOid(ref, s.log)
  {
    if events != [] {
      UpdatesFormAChain(w, ref, requests, events[..|events| - 1]);
      StepKeepsChain(w, ref, Run(w, Start(ref, requests), events[..|events| - 1]), events[|events| - 1]);
    }
  }

  /** A client that returns a receipt has its own transition in the log, exactly once. */
  lemma ReceiptIsInTheChain(w: Rules, ref: Oid, requests: seq<Request>, events: seq<Event>, i: nat)
    requires i < |requests| && i < |Run(w, Start(ref, requests), events).clients|
    requires Run(w, Start(ref, requests), events).clients[i].phase.Done?
    ensures var log := Run(w, Start(ref, requests), events).log;
            exists k :: 0 <= k < |log| && log[k] == Update(i, requests[i].expected, requests[i].after)
                        && forall j :: 0 <= j < |log| && log[j].client == i ==> j == k
  {
    RunKeeps(w, ref, requests, events);
    RunFixesRequests(w, ref, requests, events);
    var s := Run(w, Start(ref, requests), events);
    assert ClientOk(w, s, i);
    var k :| 0 <= k < |s.log| && s.log[k].client == i;
    assert s.log[k] == Update(i, requests[i].expected, requests[i].after);
  }

  // ---- A client alone ----

  lemma RunAppend(w: Rules, s: State, events: seq<Event>, e: Event)
    ensures Run(w, s, events + [e]) == Step(w, Run(w, s, events), e)
  {
    assert (events + [e])[..|events|] == events;
  }

  /** A single client that has not been answered yet. */
  function Alone(r: Request, phase: Phase): State {
    State(r.expected, [Client(r, phase)], if phase.Sent? then {0} else {}, map[], [])
  }

  lemma AloneSteps(w: Rules, r: Request, repositoryId: string)
    requires w.allowed(r) && w.sameLogin(r.login, r.login)
    ensures Start(r.expected, [r]) == Alone(r, Idle)
    ensures Step(w, Alone(r, Idle), Prepare(0)) == Alone(r, Planned)
    ensures Step(w, Alone(r, Planned), ReadBefore(0, r.login, repositoryId)) == Alone(r, SawBefore(repositoryId))
    ensures Step(w, Alone(r, SawBefore(repositoryId)), Send(0)) == Alone(r, Sent(repositoryId))
  {
  }

  /** A client alone gets as far as sending its mutation. */
  lemma GetsToSend(w: Rules, r: Request, repositoryId: string) returns (events: seq<Event>)
    requires w.allowed(r) && w.sameLogin(r.login, r.login)
    ensures Run(w, Start(r.expected, [r]), events) == Alone(r, Sent(repositoryId))
    ensures NoForeignWrite(events)
  {
    AloneSteps(w, r, repositoryId);
    var e1, e2, e3 := Prepare(0), ReadBefore(0, r.login, repositoryId), Send(0);
    var s0 := Start(r.expected, [r]);
    assert Run(w, s0, []) == s0;
    RunAppend(w, s0, [], e1);
    RunAppend(w, s0, [] + [e1], e2);
    RunAppend(w, s0, [] + [e1] + [e2], e3);
    events := [] + [e1] + [e2] + [e3];
  }

  /** The client sends its mutation and then loses contact. */
  lemma SendAndLose(w: Rules, r: Request, repositoryId: string, served: bool) returns (events: seq<Event>)
    requires w.allowed(r) && w.sameLogin(r.login, r.login)
    ensures var s := Run(w, Start(r.expected, [r]), events);
            && s.clients == [Client(r, Failed)]
            && s.ref == (if served then r.after else r.expected)
            && s.log == (if served then [Update(0, r.expected, r.after)] else [])
    ensures NoForeignWrite(events)
  {
    events := GetsToSend(w, r, repositoryId);
    if served {
      RunAppend(w, Start(r.expected, [r]), events, Serve(0));
      events := events + [Serve(0)];
    }
    RunAppend(w, Start(r.expected, [r]), events, LoseContact(0));
    events := events + [LoseContact(0)];
  }

  /** As above, and then the ref is written to `observed` by someone else unless it is already there. */
  lemma SendLoseAndRewrite(w: Rules, r: Request, repositoryId: string, observed: Oid, served: bool)
    returns (events: seq<Event>)
    requires w.allowed(r) && w.sameLogin(r.login, r.login)
    ensures var s := Run(w, Start(r.expected, [r]), events);
            && s.clients == [Client(r, Failed)] && s.ref == observed
            && s.log == (if served then [Update(0, r.expected, r.after)] else [])
    ensures observed == (if served then r.after else r.expected) ==> NoForeignWrite(events)
  {
    events := SendAndLose(w, r, repositoryId, served);
    if observed != if served then r.after else r.expected {
      RunAppend(w, Start(r.expected, [r]), events, ForeignWrite(observed));
      events := events + [ForeignWrite(observed)];
    }
  }
}
