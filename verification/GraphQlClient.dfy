/**
 The bound GraphQL transport: reads of one ref, and at most one exact mutation.

 Every caller's state change happens inside one of two sections guarded by the
 client's lock, so an interleaving of callers is a sequence of such sections.
 */
module GraphQlClient {
  import opened Options
  import opened Text

  /** What the client is bound to when it is built. */
  datatype Binding = Binding(
    refName: string, expectedOid: string, afterOid: string, login: string, mutationEnabled: bool)

  /** A decoded answer to the ref read; the absent ref has the all-zero id. */
  datatype ReadReply = Malformed | Reply(login: string, repositoryId: string, oid: string)

  datatype RefUpdate = RefUpdate(name: string, beforeOid: string, afterOid: string, force: bool)

  datatype Variables =
    | Input(repositoryId: string, mutationId: string, updates: seq<RefUpdate>)
    | OtherShape

  /** The two fields the lock guards. */
  datatype Guarded = Guarded(repositoryId: Option<string>, attempted: bool)

  function Prefix(oid: string): string {
    if |oid| <= 12 then oid else oid[..12]
  }

  function ExactCas(b: Binding, repositoryId: string): Variables {
    Input(repositoryId, "coordination-cas:" + Prefix(b.expectedOid) + ":" + Prefix(b.afterOid),
          [RefUpdate(b.refName, b.expectedOid, b.afterOid, false)])
  }

  // ---- The two guarded sections ----

  predicate ReadAccepted(b: Binding, g: Guarded, reply: ReadReply) {
    && reply.Reply? && Fold(reply.login) == Fold(b.login)
    && (g.repositoryId.Some? ==> reply.repositoryId == g.repositoryId.value)
    && (b.mutationEnabled ==> reply.oid == if g.attempted then b.afterOid else b.expectedOid)
  }

  function AfterRead(b: Binding, g: Guarded, reply: ReadReply): Guarded {
    if ReadAccepted(b, g, reply) then g.(repositoryId := Some(reply.repositoryId)) else g
  }

  predicate MutationAccepted(b: Binding, g: Guarded, variables: Variables) {
    && b.mutationEnabled && !g.attempted && g.repositoryId.Some?
    && variables == ExactCas(b, g.repositoryId.value)
  }

  function AfterMutation(b: Binding, g: Guarded, variables: Variables): Guarded {
    if MutationAccepted(b, g, variables) then g.(attempted := true) else g
  }

  class GitHubGraphQLHttpApi {
    const binding: Binding
    var repositoryId: Option<string>
    var mutationAttempted: bool

    function State(): Guarded
      reads this
    {
      Guarded(repositoryId, mutationAttempted)
    }

    constructor (b: Binding)
      ensures binding == b && State() == Guarded(None, false)
    {
      binding := b;
      repositoryId := None;
      mutationAttempted := false;
    }

    /** After a read: check the answer against the binding and pin the repository. */
    method RequireReadback(reply: ReadReply) returns (ok: bool)
      modifies this
      ensures State() == AfterRead(binding, old(State()), reply)
      ensures ok == ReadAccepted(binding, old(State()), reply)
    {
      if reply.Malformed? {
        return false;
      }
      if Fold(reply.login) != Fold(binding.login) {
        return false;
      }
      if repositoryId.Some? && reply.repositoryId != repositoryId.value {
        return false;
      }
      if binding.mutationEnabled {
        var wanted := if mutationAttempted then binding.afterOid else binding.expectedOid;
        if reply.oid != wanted {
          return false;
        }
      }
      repositoryId := Some(reply.repositoryId);
      return true;
    }

    /** Before a mutation is sent: allow the one exact update, and note the attempt first. */
    method RequireMutation(variables: Variables) returns (ok: bool)
      modifies this
      ensures State() == AfterMutation(binding, old(State()), variables)
      ensures ok == MutationAccepted(binding, old(State()), variables)
    {
      if !binding.mutationEnabled || mutationAttempted || repositoryId.None? {
        return false;
      }
      var mutationId := "coordination-cas:" + Prefix(binding.expectedOid) + ":" + Prefix(binding.afterOid);
      if !variables.Input? || variables.repositoryId != repositoryId.value || variables.mutationId != mutationId
         || |variables.updates| != 1
      {
        return false;
      }
      var update := variables.updates[0];
      if update.name != binding.refName || update.beforeOid != binding.expectedOid
         || update.afterOid != binding.afterOid || update.force
      {
        return false;
      }
      mutationAttempted := true;
      return true;
    }
  }

  // ---- Interleavings of any number of callers ----

  datatype Section = ReadSection(reply: ReadReply) | MutationSection(variables: Variables)

  function Next(b: Binding, g: Guarded, s: Section): Guarded {
    match s
    case ReadSection(reply) => AfterRead(b, g, reply)
    case MutationSection(variables) => AfterMutation(b, g, variables)
  }

  /** The guarded fields before section n of an interleaving. */
  function Before(b: Binding, sections: seq<Section>, n: nat): Guarded
    requires n <= |sections|
  {
    if n == 0 then Guarded(None, false) else Next(b, Before(b, sections, n - 1), sections[n - 1])
  }

  /** Section k lets a mutation out to the network. */
  predicate Sends(b: Binding, sections: seq<Section>, k: nat) {
    k < |sections| && sections[k].MutationSection?
    && MutationAccepted(b, Before(b, sections, k), sections[k].variables)
  }

  predicate Reads(b: Binding, sections: seq<Section>, k: nat) {
    k < |sections| && sections[k].ReadSection? && ReadAccepted(b, Before(b, sections, k), sections[k].reply)
  }

  lemma {:induction false} AttemptedMeansSent(b: Binding, sections: seq<Section>, n: nat)
    requires n <= |sections|
    ensures Before(b, sections, n).attempted <==> exists k :: 0 <= k < n && Sends(b, sections, k)
  {
    if n > 0 {
      AttemptedMeansSent(b, sections, n - 1);
      if Sends(b, sections, n - 1) {
        assert Before(b, sections, n).attempted;
      } else {
        assert Before(b, sections, n).attempted == Before(b, sections, n - 1).attempted;
      }
    }
  }

  /** A pinned repository was pinned by an accepted read, and every accepted read agrees. */
  lemma {:induction false} PinnedByARead(b: Binding, sections: seq<Section>, n: nat)
    requires n <= |sections|
    ensures var pinned := Before(b, sections, n).repositoryId;
            && (pinned.Some? <==> exists k :: 0 <= k < n && Reads(b, sections, k))
            && forall k :: 0 <= k < n && Reads(b, sections, k) ==> Some(sections[k].reply.repositoryId) == pinned
  {
    if n > 0 {
      PinnedByARead(b, sections, n - 1);
      if Reads(b, sections, n - 1) {
        assert Before(b, sections, n).repositoryId == Some(sections[n - 1].reply.repositoryId);
      } else {
        assert Before(b, sections, n).repositoryId == Before(b, sections, n - 1).repositoryId;
      }
    }
  }

  /** However callers interleave, at most one section sends a mutation. */
  lemma AtMostOneMutation(b: Binding, sections: seq<Section>, j: nat, k: nat)
    requires Sends(b, sections, j) && Sends(b, sections, k)
    ensures j == k
  {
    AttemptedMeansSent(b, sections, j);
    AttemptedMeansSent(b, sections, k);
  }

  /**
   The mutation is the exact update of the bound ref in one repository, and every
   read accepted before it, of which there is one, saw the expected id there.
   */
  lemma MutationFollowsARead(b: Binding, sections: seq<Section>, k: nat)
    requires Sends(b, sections, k)
    ensures exists i :: 0 <= i < k && Reads(b, sections, i)
    ensures forall i :: 0 <= i < k && Reads(b, sections, i) ==>
              && sections[i].reply.oid == b.expectedOid
              && UpdatesOnce(sections[k].variables, b.refName, sections[i].reply.oid, b.afterOid,
                             sections[i].reply.repositoryId)
  {
    PinnedByARead(b, sections, k);
    ExactCasUpdatesOnce(b, Before(b, sections, k).repositoryId.value, sections[k].variables);
    forall i | 0 <= i < k && Reads(b, sections, i) ensures sections[i].reply.oid == b.expectedOid {
      NotYetAttempted(b, sections, i, k);
    }
  }

  /** The first characters of an id, twelve at most. */
  ghost predicate Shortens(oid: string, short: string) {
    short <= oid && |short| == if |oid| < 12 then |oid| else 12
  }

  /** One unforced update of this ref from one id to the other, in this repository, under the id the two make up. */
  ghost predicate UpdatesOnce(v: Variables, refName: string, before: string, after: string, repositoryId: string) {
    && v.Input? && v.repositoryId == repositoryId && |v.updates| == 1
    && v.updates[0].name == refName && v.updates[0].beforeOid == before && v.updates[0].afterOid == after
    && !v.updates[0].force
    && exists s, t :: Shortens(before, s) && Shortens(after, t) && v.mutationId == "coordination-cas:" + s + ":" + t
  }

  lemma ShortensOnce(oid: string, short: string)
    ensures Shortens(oid, short) <==> short == Prefix(oid)
  {
  }

  lemma ExactCasUpdatesOnce(b: Binding, repositoryId: string, v: Variables)
    ensures v == ExactCas(b, repositoryId) <==> UpdatesOnce(v, b.refName, b.expectedOid, b.afterOid, repositoryId)
  {
    ShortensOnce(b.expectedOid, Prefix(b.expectedOid));
    ShortensOnce(b.afterOid, Prefix(b.afterOid));
    if UpdatesOnce(v, b.refName, b.expectedOid, b.afterOid, repositoryId) {
      var s, t :| Shortens(b.expectedOid, s) && Shortens(b.afterOid, t)
                  && v.mutationId == "coordination-cas:" + s + ":" + t;
      ShortensOnce(b.expectedOid, s);
      ShortensOnce(b.afterOid, t);
      assert v.updates == [v.updates[0]];
    }
  }

  /**
   A mutation goes out exactly when the client may mutate, a read was accepted, none went out
   before, and it updates the bound ref once: from the id that every accepted read saw to the
   bound new one, in the repository that every accepted read saw.
   */
  lemma SendsExactlyWhen(b: Binding, sections: seq<Section>, k: nat)
    requires k < |sections| && sections[k].MutationSection?
    ensures Sends(b, sections, k) <==>
            && b.mutationEnabled && (forall j :: 0 <= j < k ==> !Sends(b, sections, j))
            && (exists i :: 0 <= i < k && Reads(b, sections, i))
            && forall i :: 0 <= i < k && Reads(b, sections, i) ==>
                 UpdatesOnce(sections[k].variables, b.refName, sections[i].reply.oid, b.afterOid,
                             sections[i].reply.repositoryId)
    ensures Sends(b, sections, k) ==>
              UpdatesOnce(sections[k].variables, b.refName, b.expectedOid, b.afterOid,
                          Before(b, sections, k).repositoryId.value)
  {
    var v, g := sections[k].variables, Before(b, sections, k);
    AttemptedMeansSent(b, sections, k);
    PinnedByARead(b, sections, k);
    if g.repositoryId.Some? { ExactCasUpdatesOnce(b, g.repositoryId.value, v); }
    if b.mutationEnabled && !g.attempted {
      forall i | 0 <= i < k && Reads(b, sections, i) ensures sections[i].reply.oid == b.expectedOid {
        NotYetAttempted(b, sections, i, k);
      }
    }
  }

  lemma {:induction false} NotYetAttempted(b: Binding, sections: seq<Section>, i: nat, k: nat)
    requires i <= k <= |sections| && !Before(b, sections, k).attempted
    ensures !Before(b, sections, i).attempted
    decreases k
  {
    if i < k { NotYetAttempted(b, sections, i, k - 1); }
  }

  /** After the mutation, an accepted read has seen the after id in the same repository. */
  lemma ReadsAfterTheMutation(b: Binding, sections: seq<Section>, k: nat, i: nat)
    requires Sends(b, sections, k) && k < i && Reads(b, sections, i)
    ensures sections[i].reply.oid == b.afterOid
    ensures UpdatesOnce(sections[k].variables, b.refName, b.expectedOid, sections[i].reply.oid,
                        sections[i].reply.repositoryId)
  {
    AttemptedMeansSent(b, sections, i);
    ExactCasUpdatesOnce(b, sections[i].reply.repositoryId, sections[k].variables);
    PinnedByARead(b, sections, k);
    PinnedByARead(b, sections, i);
    var j :| 0 <= j < k && Reads(b, sections, j);
    assert Some(sections[j].reply.repositoryId) == Before(b, sections, i).repositoryId;
  }
}
