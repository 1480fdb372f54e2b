/**
 Batched retirement of merged branches: plan, re-authorise every batch against a
 fresh inventory, delete it with one atomic push under exact SHA leases, read back.
 */
module BranchRetirement {
  import opened Branches
  import opened Options
  import opened Text

  datatype Action = Keep | Delete

  datatype Decision = Decision(branch: Branch, action: Action)

  // ---- The planner ----

  const PRESERVED_PREFIXES := [
    "provenance/", "research/", "infra/", "seal/", "freeze/", "run/",
    "evidence/", "study/", "archive/", "release/", "artifact/"]
  const M1_SOURCE_REF_PREFIX := "fix/m1-"
  const M1_ADDITIONAL_SOURCE_REFS := {"fix/windows-job-child-pid-marker-20261105"}

  predicate Reserved(name: string) {
    exists p :: p in PRESERVED_PREFIXES && StartsWith(name, p)
  }

  /** Names no retirement touches: research and provenance, and the M1 sources. */
  predicate Preserved(name: string) {
    Reserved(name) || StartsWith(name, M1_SOURCE_REF_PREFIX) || name in M1_ADDITIONAL_SOURCE_REFS
  }

  /** Everything one planning call looks at besides the branches. */
  datatype Evidence = Evidence(
    defaultBranch: string,
    openRefs: seq<OpenPullRequest>,
    running: set<string>,
    mainHistory: set<Sha>,
    merged: set<Tip>,
    preserved: string -> bool)

  /** The planner's chain of reasons to keep, read as one condition to delete. */
  predicate Retirable(e: Evidence, b: Branch) {
    && b.name != e.defaultBranch && !b.isProtected
    && b.name !in OpenNames(e.openRefs) && b.name !in e.running
    && !e.preserved(b.name)
    && b.sha in e.mainHistory && Tip(b.name, b.sha) in e.merged
  }

  /** An inventory, keyed by name. */
  type Inventory = map<string, Branch>

  predicate WellFormed(inventory: Inventory, defaultBranch: string) {
    && (forall n :: n in inventory ==> inventory[n].name == n && n != "" && IsHex(inventory[n].sha, 40))
    && defaultBranch in inventory
  }

  /** The branches a plan over the inventory deletes; Raised on a malformed inventory. */
  function PlanMergedRetirement(inventory: Inventory, e: Evidence): Result<set<Branch>> {
    if !WellFormed(inventory, e.defaultBranch) || e.mainHistory == {} then Raised
    else Ok(set n | n in inventory && Retirable(e, inventory[n]) :: inventory[n])
  }

  // ---- History ----

  /** The live refs of the repository: branch name to tip. */
  type Refs = map<string, Sha>

  ghost predicate Reachable(h: History, refs: Refs, c: Sha) {
    exists n :: n in refs && c in h(refs[n])
  }

  /** Every commit reachable before is reachable after. */
  ghost predicate Retains(h: History, before: Refs, after: Refs) {
    forall c {:trigger Reachable(h, before, c)} :: Reachable(h, before, c) ==> Reachable(h, after, c)
  }

  lemma RetainsTransitively(h: History, a: Refs, b: Refs, c: Refs)
    requires Retains(h, a, b) && Retains(h, b, c)
    ensures Retains(h, a, c)
  {
  }

  function Without(refs: Refs, names: set<string>): Refs {
    map n | n in refs && n !in names :: refs[n]
  }

  /** What a leased deletion may remove without losing a commit. */
  ghost predicate Covered(h: History, refs: Refs, main: string, names: set<string>) {
    main in refs && main !in names
    && forall n :: n in names && n in refs ==> refs[n] in h(refs[main])
  }

  lemma DeletionConserves(h: History, refs: Refs, main: string, names: set<string>)
    requires IsHistory(h) && Covered(h, refs, main, names)
    ensures forall c :: Reachable(h, refs, c) <==> Reachable(h, Without(refs, names), c)
  {
    var left := Without(refs, names);
    forall c | Reachable(h, refs, c) ensures Reachable(h, left, c) {
      var n :| n in refs && c in h(refs[n]);
      if n in names {
        assert h(refs[n]) <= h(refs[main]);
        assert left[main] == refs[main];
      } else {
        assert left[n] == refs[n];
      }
    }
    forall c | Reachable(h, left, c) ensures Reachable(h, refs, c) {
      var n :| n in left && c in h(left[n]);
      assert refs[n] == left[n];
    }
  }

  // ---- The remote repository and its other users ----

  /** What a push meets on its way: it may not arrive, or its answer may be lost. */
  datatype Transport = Delivered | AnswerLost | Undelivered

  /**
   Everything outside the tool, as functions of time: other users change the refs
   before every call, and every inventory is whatever the service answers.
   */
  datatype Outside = Outside(
    others: (nat, Refs) -> Refs,
    branches: nat -> Result<Inventory>,
    openRefs: nat -> Result<seq<OpenPullRequest>>,
    running: nat -> Result<set<string>>,
    mergedSources: nat -> Result<set<Tip>>,
    transport: nat -> Transport)

  /** Other users only fast-forward main. */
  ghost predicate FastForwardsMain(o: Outside, h: History, main: string) {
    forall t, refs {:trigger o.others(t, refs)} ::
      main in refs ==> main in o.others(t, refs) && h(refs[main]) <= h(o.others(t, refs)[main])
  }

  /** Other users never lose a commit themselves. */
  ghost predicate OthersConserve(o: Outside, h: History) {
    forall t, refs :: Retains(h, refs, o.others(t, refs))
  }

  /** What a batch was authorised by: three answers of the service, and when each was given. */
  datatype Authorization = Authorization(
    inventory: Inventory, evidence: Evidence, listedAt: nat, refsAt: nat, runningAt: nat)

  /** One batch that the server applied: what authorised it, the refs it met there, and when. */
  datatype Push = Push(batch: seq<Branch>, auth: Authorization, met: Refs, at: nat)

  /** The pushes with the one that may have been made since. */
  function Extended(pushes: seq<Push>, push: Option<Push>): seq<Push> {
    if push.Some? then pushes + [push.value] else pushes
  }

  /** Every branch of the batch still has the tip it was leased at. */
  predicate LeasesHold(refs: Refs, batch: seq<Branch>) {
    forall b :: b in batch ==> b.name in refs && refs[b.name] == b.sha
  }

  function NamesOf(batch: seq<Branch>): set<string> {
    set b | b in batch :: b.name
  }

  class Remote {
    const outside: Outside
    var time: nat
    var refs: Refs
    ghost var pushes: seq<Push>

    constructor (o: Outside, r: Refs)
      ensures outside == o && refs == r && time == 0 && pushes == []
    {
      outside := o;
      refs := r;
      time := 0;
      pushes := [];
    }

    /** Any call: the other users move first. */
    method Tick() returns (now: nat)
      modifies this`time, this`refs
      ensures now == old(time) && time == old(time) + 1
      ensures refs == outside.others(old(time), old(refs))
    {
      now := time;
      refs := outside.others(time, refs);
      time := time + 1;
    }

    /**
     One atomic push: every lease still holds at the server, or nothing changes. The
     caller learns success only if the push arrived and its answer came back.
     */
    method DeleteBranchesWithLeases(batch: seq<Branch>, ghost auth: Authorization)
      returns (ok: bool, ghost push: Option<Push>)
      modifies this
      ensures time == old(time) + 1
      ensures pushes == Extended(old(pushes), push)
      ensures var met := outside.others(old(time), old(refs));
              if push.None? then refs == met && !ok
              else
                && push.value == Push(batch, auth, met, old(time))
                && LeasesHold(met, batch) && refs == Without(met, NamesOf(batch))
    {
      var now := Tick();
      push := None;
      if outside.transport(now).Undelivered? || exists b :: b in batch && (b.name !in refs || refs[b.name] != b.sha) {
        return false, None;
      }
      push := Some(Push(batch, auth, refs, now));
      pushes := pushes + [push.value];
      refs := Without(refs, NamesOf(batch));
      ok := outside.transport(now).Delivered?;
    }
  }

  // ---- The retirement loop ----

  /** The queue cut into batches. */
  function Batches(queue: seq<Branch>, size: nat): seq<seq<Branch>>
    requires size >= 1
    decreases |queue|
  {
    if queue == [] then []
    else if |queue| <= size then [queue]
    else [queue[..size]] + Batches(queue[size..], size)
  }

  /** The batch was, in the inventory that authorised it, a set of deletions of a fresh plan. */
  ghost predicate Authorized(batch: seq<Branch>, auth: Authorization) {
    var plan := PlanMergedRetirement(auth.inventory, auth.evidence);
    plan.Ok? && forall b :: b in batch ==> b in plan.value
  }

  /** What a run holds fixed: main as planned against, its history, the merged sources, the names left alone. */
  datatype Grounds = Grounds(main: Branch, mainHistory: set<Sha>, merged: set<Tip>, preserved: string -> bool)

  /** The authorisation is what the service answered, in this order, from `since` on and before `until`. */
  ghost predicate AnsweredBetween(o: Outside, auth: Authorization, since: nat, until: nat) {
    && since <= auth.listedAt < auth.refsAt < auth.runningAt < until
    && o.branches(auth.listedAt) == Ok(auth.inventory)
    && o.openRefs(auth.refsAt) == Ok(auth.evidence.openRefs)
    && o.running(auth.runningAt) == Ok(auth.evidence.running)
  }

  /** It was judged on the run's own grounds, with main where it was planned against. */
  ghost predicate OnGrounds(g: Grounds, auth: Authorization) {
    && auth.evidence.defaultBranch == g.main.name && auth.evidence.mainHistory == g.mainHistory
    && auth.evidence.merged == g.merged && auth.evidence.preserved == g.preserved
    && g.main.name in auth.inventory && auth.inventory[g.main.name] == g.main
  }

  /** The push was authorised by answers given for it: after `since` and before it was made. */
  ghost predicate Reauthorized(o: Outside, g: Grounds, p: Push, since: nat) {
    AnsweredBetween(o, p.auth, since, p.at) && OnGrounds(g, p.auth) && Authorized(p.batch, p.auth)
  }

  /** The inventory a push should leave: the one that authorised it, without the batch. */
  function Left(p: Push): Inventory {
    InventoryWithout(p.auth.inventory, NamesOf(p.batch))
  }

  function InventoryWithout(inventory: Inventory, names: set<string>): Inventory {
    map n | n in inventory && n !in names :: inventory[n]
  }

  function InventoryAfter(initial: Inventory, pushes: seq<Push>): Inventory {
    if pushes == [] then initial else Left(pushes[|pushes| - 1])
  }

  function TimeAfter(since: nat, pushes: seq<Push>): nat {
    if pushes == [] then since else pushes[|pushes| - 1].at + 1
  }

  /**
   Each push was authorised anew, by answers given after the push before it, in exactly
   the inventory that push should have left.
   */
  ghost predicate EachReauthorized(o: Outside, g: Grounds, initial: Inventory, since: nat, pushes: seq<Push>) {
    forall k :: 0 <= k < |pushes| ==> ReauthorizedAt(o, g, initial, since, pushes, k)
  }

  ghost predicate ReauthorizedAt(o: Outside, g: Grounds, initial: Inventory, since: nat, pushes: seq<Push>, k: nat)
    requires k < |pushes|
  {
    && Reauthorized(o, g, pushes[k], TimeAfter(since, pushes[..k]))
    && pushes[k].auth.inventory == InventoryAfter(initial, pushes[..k])
  }

  lemma OneMoreReauthorized(
    o: Outside, g: Grounds, initial: Inventory, since: nat, before: seq<Push>, push: Option<Push>, now: nat)
    requires EachReauthorized(o, g, initial, since, before) && TimeAfter(since, before) <= now
    requires push.Some? ==>
               Reauthorized(o, g, push.value, now) && push.value.auth.inventory == InventoryAfter(initial, before)
    ensures EachReauthorized(o, g, initial, since, Extended(before, push))
  {
    var after := Extended(before, push);
    forall k | 0 <= k < |after| ensures ReauthorizedAt(o, g, initial, since, after, k) {
      if k < |before| {
        assert ReauthorizedAt(o, g, initial, since, before, k);
        assert after[..k] == before[..k];
      } else {
        assert after[..k] == before;
      }
    }
  }

  function PlannedDeletions(decisions: seq<Decision>): seq<Branch> {
    if decisions == [] then []
    else
      var rest := PlannedDeletions(decisions[1..]);
      if decisions[0].action.Delete? then [decisions[0].branch] + rest else rest
  }

  function Take<T>(s: seq<T>, n: nat): seq<T> {
    if |s| <= n then s else s[..n]
  }

  function ByName(decisions: seq<Decision>): Inventory {
    if decisions == [] then map[]
    else
      var last := decisions[|decisions| - 1].branch;
      ByName(decisions[..|decisions| - 1])[last.name := last]
  }

  /** What has been pushed so far: whole batches, in queue order. */
  ghost predicate PushedBatches(pushes: seq<Push>, batches: seq<seq<Branch>>) {
    && |pushes| <= |batches|
    && forall k :: 0 <= k < |pushes| ==> pushes[k].batch == batches[k]
  }

  /** No push lost a commit: what was reachable when it arrived is reachable without its refs. */
  ghost predicate Conserving(h: History, p: Push) {
    forall c {:trigger Reachable(h, p.met, c)} ::
      Reachable(h, p.met, c) <==> Reachable(h, Without(p.met, NamesOf(p.batch)), c)
  }

  /** Main still carries the history the run was planned against. */
  ghost predicate MainCarries(h: History, refs: Refs, main: string, planned: Sha) {
    main in refs && h(planned) <= h(refs[main])
  }

  /** The assumptions about history and other users under which retirement is judged. */
  ghost predicate FairWorld(o: Outside, h: History, main: string) {
    IsHistory(h) && FastForwardsMain(o, h, main)
  }

  /** The arguments the source insists on before the first call. */
  predicate ValidCall(
    repository: string, decisions: seq<Decision>, defaultBranch: string, expectedMain: Sha,
    mainHistory: set<Sha>, maxDeletes: int, batchSize: int)
  {
    && repository == "shuntatsu/trade_rl" && defaultBranch == "main"
    && IsHex(expectedMain, 40) && 1 <= maxDeletes <= 100 && 1 <= batchSize <= 20
    && expectedMain in mainHistory
    && |ByName(decisions)| == |decisions|
    && defaultBranch in ByName(decisions) && ByName(decisions)[defaultBranch].sha == expectedMain
    && forall b :: b in PlannedDeletions(decisions) ==> b.sha in mainHistory
  }

  /** While calls are made, main only moves forward and others lose nothing they would not lose. */
  ghost predicate Waited(o: Outside, h: History, before: Refs, after: Refs, main: string, planned: Sha) {
    && MainCarries(h, after, main, planned)
    && (OthersConserve(o, h) ==> Retains(h, before, after))
  }

  lemma WaitOnce(o: Outside, h: History, before: Refs, now: Refs, t: nat, main: string, planned: Sha)
    requires FairWorld(o, h, main) && Waited(o, h, before, now, main, planned)
    ensures Waited(o, h, before, o.others(t, now), main, planned)
  {
    if OthersConserve(o, h) { RetainsTransitively(h, before, now, o.others(t, now)); }
  }

  lemma WaitedTwice(o: Outside, h: History, a: Refs, b: Refs, c: Refs, main: string, planned: Sha)
    requires Waited(o, h, a, b, main, planned) && Waited(o, h, b, c, main, planned)
    ensures Waited(o, h, a, c, main, planned)
  {
    if OthersConserve(o, h) { RetainsTransitively(h, a, b, c); }
  }

  /** A delivered or undelivered push of an authorised batch is waiting of the same kind. */
  lemma PushWaits(
    o: Outside, h: History, before: Refs, met: Refs, after: Refs, batch: seq<Branch>, auth: Authorization, g: Grounds,
    at: nat)
    requires IsHistory(h) && g.mainHistory <= h(g.main.sha) && OnGrounds(g, auth) && Authorized(batch, auth)
    requires Waited(o, h, before, met, g.main.name, g.main.sha)
    requires after == met
             || (after == Without(met, NamesOf(batch)) && LeasesHold(met, batch))
    ensures Waited(o, h, before, after, g.main.name, g.main.sha)
    ensures LeasesHold(met, batch) ==> Conserving(h, Push(batch, auth, met, at))
  {
    BatchIsCovered(h, met, batch, auth, g.main.sha, at);
    if after != met && OthersConserve(o, h) { RetainsTransitively(h, before, met, after); }
  }

  /** What the batch is pushed on: the answers given since then, before now. */
  ghost predicate Fresh(
    o: Outside, g: Grounds, batch: seq<Branch>, inventory: Inventory, since: nat, now: nat, auth: Authorization)
  {
    AnsweredBetween(o, auth, since, now) && OnGrounds(g, auth) && Authorized(batch, auth) && auth.inventory == inventory
  }

  /** Fresh inventory, pull requests and workflow runs, and a fresh plan that must contain the batch. */
  method Reauthorize(api: Remote, expected: Inventory, g: Grounds, batch: seq<Branch>, ghost h: History)
    returns (auth: Option<Authorization>)
    requires FairWorld(api.outside, h, g.main.name) && MainCarries(h, api.refs, g.main.name, g.main.sha)
    modifies api`time, api`refs
    ensures Waited(api.outside, h, old(api.refs), api.refs, g.main.name, g.main.sha) && old(api.time) < api.time
    ensures auth.Some? ==> Fresh(api.outside, g, batch, expected, old(api.time), api.time, auth.value)
  {
    WaitOnce(api.outside, h, api.refs, api.refs, api.time, g.main.name, g.main.sha);
    var listedAt := api.Tick();
    var listed := api.outside.branches(listedAt);
    if listed.Raised? || listed.value != expected || g.main.name !in expected || expected[g.main.name] != g.main {
      return None;
    }
    WaitOnce(api.outside, h, old(api.refs), api.refs, api.time, g.main.name, g.main.sha);
    var refsAt := api.Tick();
    var openRefs := api.outside.openRefs(refsAt);
    if openRefs.Raised? {
      return None;
    }
    WaitOnce(api.outside, h, old(api.refs), api.refs, api.time, g.main.name, g.main.sha);
    var runningAt := api.Tick();
    var running := api.outside.running(runningAt);
    if running.Raised? {
      return None;
    }
    var evidence := Evidence(g.main.name, openRefs.value, running.value, g.mainHistory, g.merged, g.preserved);
    var replan := PlanMergedRetirement(listed.value, evidence);
    if replan.Raised? || exists b :: b in batch && b !in replan.value {
      return None;
    }
    return Some(Authorization(listed.value, evidence, listedAt, refsAt, runningAt));
  }

  /** What the service lists at that time. */
  ghost predicate Listed(o: Outside, at: nat, inventory: Inventory) {
    o.branches(at).Ok? && o.branches(at).value == inventory
  }

  /** A successful round ends with the service listing what the push should have left. */
  ghost predicate Confirmed(o: Outside, r: Result<Inventory>, push: Option<Push>) {
    r.Ok? ==> push.Some? && r.value == Left(push.value) && Listed(o, push.value.at + 1, r.value)
  }

  /** The read-back: the service must list exactly what the push should have left. */
  method ListAgain(api: Remote, wanted: Inventory, g: Grounds, ghost push: Push, ghost h: History, ghost before: Refs)
    returns (r: Result<Inventory>)
    requires FairWorld(api.outside, h, g.main.name) && wanted == Left(push) && api.time == push.at + 1
    requires Waited(api.outside, h, before, api.refs, g.main.name, g.main.sha)
    modifies api`time, api`refs
    ensures Waited(api.outside, h, before, api.refs, g.main.name, g.main.sha)
    ensures old(api.time) < api.time && Confirmed(api.outside, r, Some(push))
  {
    WaitOnce(api.outside, h, before, api.refs, api.time, g.main.name, g.main.sha);
    var now := api.Tick();
    r := api.outside.branches(now);
    if r.Ok? && r.value != wanted {
      r := Raised;
    }
  }

  /** A push of this batch, authorised anew since then in this inventory, that lost no commit. */
  ghost predicate Made(
    o: Outside, g: Grounds, h: History, batch: seq<Branch>, inventory: Inventory, since: nat, p: Push)
  {
    && p.batch == batch && Conserving(h, p)
    && Reauthorized(o, g, p, since) && p.auth.inventory == inventory
  }

  /** The leased push of a freshly authorised batch. */
  method PushBatch(
    api: Remote, g: Grounds, batch: seq<Branch>, ghost auth: Authorization, ghost since: nat, ghost h: History,
    ghost before: Refs)
    returns (ok: bool, ghost push: Option<Push>)
    requires FairWorld(api.outside, h, g.main.name) && g.mainHistory <= h(g.main.sha)
    requires Waited(api.outside, h, before, api.refs, g.main.name, g.main.sha)
    requires Fresh(api.outside, g, batch, auth.inventory, since, api.time, auth)
    modifies api
    ensures Waited(api.outside, h, before, api.refs, g.main.name, g.main.sha)
    ensures api.pushes == Extended(old(api.pushes), push) && api.time == old(api.time) + 1
    ensures push.Some? ==> Made(api.outside, g, h, batch, auth.inventory, since, push.value)
    ensures push.Some? ==> push.value.auth == auth && push.value.at == old(api.time)
    ensures ok ==> push.Some?
  {
    ghost var met := api.outside.others(api.time, api.refs);
    WaitOnce(api.outside, h, before, api.refs, api.time, g.main.name, g.main.sha);
    ok, push := api.DeleteBranchesWithLeases(batch, auth);
    PushWaits(api.outside, h, before, met, api.refs, batch, auth, g, old(api.time));
  }

  /** One round of the loop: fresh inventory, fresh plan, leased push, read-back. */
  method RetireBatch(
    api: Remote, expected: Inventory, g: Grounds, batch: seq<Branch>, ghost h: History)
    returns (r: Result<Inventory>, ghost push: Option<Push>)
    requires FairWorld(api.outside, h, g.main.name) && g.mainHistory <= h(g.main.sha)
    requires MainCarries(h, api.refs, g.main.name, g.main.sha)
    modifies api
    ensures Waited(api.outside, h, old(api.refs), api.refs, g.main.name, g.main.sha)
    ensures api.pushes == Extended(old(api.pushes), push) && old(api.time) < api.time
    ensures push.Some? ==>
              Made(api.outside, g, h, batch, expected, old(api.time), push.value) && push.value.at < api.time
    ensures Confirmed(api.outside, r, push)
  {
    push := None;
    var auth := Reauthorize(api, expected, g, batch, h);
    if auth.None? {
      return Raised, None;
    }
    var ok;
    ok, push := PushBatch(api, g, batch, auth.value, old(api.time), h, old(api.refs));
    if !ok {
      return Raised, push;
    }
    r := ListAgain(api, InventoryWithout(auth.value.inventory, NamesOf(batch)), g, push.value, h, old(api.refs));
  }

  /** An authorised batch whose leases held is covered by main, so its removal conserves. */
  lemma BatchIsCovered(
    h: History, met: Refs, batch: seq<Branch>, auth: Authorization, planned: Sha, at: nat)
    requires IsHistory(h) && MainCarries(h, met, auth.evidence.defaultBranch, planned)
    requires auth.evidence.mainHistory <= h(planned) && Authorized(batch, auth)
    ensures LeasesHold(met, batch) ==>
              && Conserving(h, Push(batch, auth, met, at))
              && MainCarries(h, Without(met, NamesOf(batch)), auth.evidence.defaultBranch, planned)
              && Retains(h, met, Without(met, NamesOf(batch)))
  {
    if LeasesHold(met, batch) {
      var names, main := NamesOf(batch), auth.evidence.defaultBranch;
      var plan := PlanMergedRetirement(auth.inventory, auth.evidence).value;
      forall n | n in names && n in met ensures met[n] in h(met[main]) {
        var b :| b in batch && b.name == n;
        assert b in plan;
      }
      assert main !in names by {
        forall b | b in batch ensures b.name != main { assert b in plan; }
      }
      DeletionConserves(h, met, main, names);
    }
  }

  lemma {:induction false} BatchesDrop(queue: seq<Branch>, size: nat)
    requires size >= 1 && queue != []
    ensures Batches(queue, size) == [Take(queue, size)] + Batches(queue[|Take(queue, size)|..], size)
  {
    if |queue| <= size {
      assert queue[|queue|..] == [];
      assert [queue] + [] == [queue];
    }
  }

  function Names(queue: seq<Branch>): seq<string> {
    seq(|queue|, i requires 0 <= i < |queue| => queue[i].name)
  }

  /** The pushes so far and the queue left make up the planned batches. */
  ghost predicate Progress(pushes: seq<Push>, planned: seq<Branch>, queue: seq<Branch>, size: nat)
    requires size >= 1
  {
    Batches(planned, size) == Pushed(pushes) + Batches(queue, size)
  }

  ghost predicate AllSound(h: History, pushes: seq<Push>) {
    forall k :: 0 <= k < |pushes| ==> Conserving(h, pushes[k])
  }

  /** What a run leaves at the server, however it ends. */
  ghost predicate WholeBatches(h: History, pushes: seq<Push>, planned: seq<Branch>, size: nat)
    requires size >= 1
  {
    PushedBatches(pushes, Batches(planned, size)) && AllSound(h, pushes)
  }

  lemma RoundAdvances(
    h: History, before: seq<Push>, push: Option<Push>, planned: seq<Branch>, queue: seq<Branch>, size: nat)
    requires size >= 1 && queue != [] && Progress(before, planned, queue, size) && AllSound(h, before)
    requires push.Some? ==> push.value.batch == Take(queue, size) && Conserving(h, push.value)
    ensures WholeBatches(h, Extended(before, push), planned, size)
    ensures push.Some? ==> Progress(Extended(before, push), planned, queue[|Take(queue, size)|..], size)
  {
    BatchesDrop(queue, size);
    var batch, rest := Take(queue, size), Batches(queue[|Take(queue, size)|..], size);
    assert Batches(queue, size) == [batch] + rest;
    if push.Some? {
      PushedOneMore(before, push.value);
      assert Pushed(before) + ([batch] + rest) == (Pushed(before) + [batch]) + rest;
      PushedAgrees(before + [push.value], Batches(planned, size), rest);
    } else {
      PushedAgrees(before, Batches(planned, size), [batch] + rest);
    }
  }

  lemma PushedOneMore(before: seq<Push>, p: Push)
    ensures Pushed(before + [p]) == Pushed(before) + [p.batch]
  {
  }

  lemma PushedAgrees(pushes: seq<Push>, batches: seq<seq<Branch>>, rest: seq<seq<Branch>>)
    requires batches == Pushed(pushes) + rest
    ensures PushedBatches(pushes, batches)
  {
    forall k | 0 <= k < |pushes| ensures pushes[k].batch == batches[k] {
      assert Pushed(pushes)[k] == pushes[k].batch;
    }
  }

  /** Where the loop stands between two rounds. */
  ghost predicate Between(
    o: Outside, g: Grounds, initial: Inventory, since: nat, h: History, planned: seq<Branch>, queue: seq<Branch>,
    size: nat, pushes: seq<Push>, now: nat)
    requires size >= 1
  {
    && Progress(pushes, planned, queue, size) && AllSound(h, pushes)
    && EachReauthorized(o, g, initial, since, pushes) && TimeAfter(since, pushes) <= now
  }

  /** In the call after the last push the service listed exactly the inventory it should have left. */
  ghost predicate ReadBack(o: Outside, initial: Inventory, pushes: seq<Push>) {
    pushes != [] && Listed(o, pushes[|pushes| - 1].at + 1, InventoryAfter(initial, pushes))
  }

  /** What a round leaves behind, given the one push it may have made. */
  lemma RoundKeeps(
    o: Outside, g: Grounds, initial: Inventory, since: nat, h: History, planned: seq<Branch>, queue: seq<Branch>,
    size: nat, before: seq<Push>, was: nat, push: Option<Push>, now: nat)
    requires size >= 1 && queue != [] && Between(o, g, initial, since, h, planned, queue, size, before, was)
    requires was <= now
    requires push.Some? ==>
               push.value.at < now && Made(o, g, h, Take(queue, size), InventoryAfter(initial, before), was, push.value)
    ensures WholeBatches(h, Extended(before, push), planned, size)
    ensures EachReauthorized(o, g, initial, since, Extended(before, push))
    ensures push.Some? ==>
              var after := Extended(before, push);
              && Between(o, g, initial, since, h, planned, queue[|Take(queue, size)|..], size, after, now)
              && InventoryAfter(initial, after) == Left(push.value)
              && (Listed(o, push.value.at + 1, Left(push.value)) ==> ReadBack(o, initial, after))
  {
    RoundAdvances(h, before, push, planned, queue, size);
    OneMoreReauthorized(o, g, initial, since, before, push, was);
    if push.Some? { LastPush(before, push.value, initial, since); }
  }

  lemma LastPush(before: seq<Push>, p: Push, initial: Inventory, since: nat)
    ensures var after := Extended(before, Some(p));
            after[|after| - 1] == p && InventoryAfter(initial, after) == Left(p) && TimeAfter(since, after) == p.at + 1
  {
  }

  /** One round of the loop: the pushes stay whole batches of the queue, one more of them on success. */
  method RetireRound(
    api: Remote, expected: Inventory, g: Grounds, planned: seq<Branch>, queue: seq<Branch>, batchSize: nat,
    ghost h: History, ghost initial: Inventory, ghost since: nat)
    returns (r: Result<Inventory>)
    requires FairWorld(api.outside, h, g.main.name) && g.mainHistory <= h(g.main.sha)
    requires MainCarries(h, api.refs, g.main.name, g.main.sha) && batchSize >= 1 && queue != []
    requires Between(api.outside, g, initial, since, h, planned, queue, batchSize, api.pushes, api.time)
    requires expected == InventoryAfter(initial, api.pushes)
    modifies api
    ensures Waited(api.outside, h, old(api.refs), api.refs, g.main.name, g.main.sha)
    ensures WholeBatches(h, api.pushes, planned, batchSize)
    ensures EachReauthorized(api.outside, g, initial, since, api.pushes)
    ensures r.Ok? ==>
              && Between(api.outside, g, initial, since, h, planned, queue[|Take(queue, batchSize)|..], batchSize,
                         api.pushes, api.time)
              && r.value == InventoryAfter(initial, api.pushes) && ReadBack(api.outside, initial, api.pushes)
  {
    ghost var before, was := api.pushes, api.time;
    ghost var push;
    r, push := RetireBatch(api, expected, g, Take(queue, batchSize), h);
    RoundKeeps(api.outside, g, initial, since, h, planned, queue, batchSize, before, was, push, api.time);
  }

  /** The loop: one batch per round until the queue is empty or a round raises. */
  method RetireQueue(
    api: Remote, initial: Inventory, g: Grounds, planned: seq<Branch>, batchSize: nat, ghost h: History)
    returns (r: Result<seq<string>>)
    requires FairWorld(api.outside, h, g.main.name) && g.mainHistory <= h(g.main.sha)
    requires MainCarries(h, api.refs, g.main.name, g.main.sha)
    requires api.pushes == [] && batchSize >= 1
    modifies api
    ensures WholeBatches(h, api.pushes, planned, batchSize)
    ensures EachReauthorized(api.outside, g, initial, old(api.time), api.pushes)
    ensures r.Ok? ==>
              && |api.pushes| == |Batches(planned, batchSize)| && r.value == Names(planned)
              && (planned != [] ==> api.pushes != [] && ReadBack(api.outside, initial, api.pushes))
    ensures OthersConserve(api.outside, h) ==> Retains(h, old(api.refs), api.refs)
  {
    var queue, expected := planned, initial;
    var deleted: seq<string> := [];
    ghost var since := api.time;
    while queue != []
      invariant deleted + Names(queue) == Names(planned)
      invariant Between(api.outside, g, initial, since, h, planned, queue, batchSize, api.pushes, api.time)
      invariant expected == InventoryAfter(initial, api.pushes)
      invariant api.pushes != [] ==> ReadBack(api.outside, initial, api.pushes)
      invariant Waited(api.outside, h, old(api.refs), api.refs, g.main.name, g.main.sha)
      decreases |queue|
    {
      ghost var before := api.refs;
      var batch := Take(queue, batchSize);
      var after := RetireRound(api, expected, g, planned, queue, batchSize, h, initial, since);
      WaitedTwice(api.outside, h, old(api.refs), before, api.refs, g.main.name, g.main.sha);
      if after.Raised? {
        return Raised;
      }
      expected := after.value;
      Dequeue(deleted, queue, batchSize);
      deleted := deleted + Names(batch);
      queue := queue[|batch|..];
    }
    Drained(h, api.pushes, planned, batchSize);
    assert deleted == deleted + Names([]);
    return Ok(deleted);
  }

  lemma Dequeue(deleted: seq<string>, queue: seq<Branch>, size: nat)
    requires size >= 1 && queue != []
    ensures var batch := Take(queue, size);
            && 1 <= |batch| <= |queue|
            && (deleted + Names(batch)) + Names(queue[|batch|..]) == deleted + Names(queue)
  {
  }

  lemma Drained(h: History, pushes: seq<Push>, planned: seq<Branch>, size: nat)
    requires size >= 1 && Progress(pushes, planned, [], size) && AllSound(h, pushes)
    ensures WholeBatches(h, pushes, planned, size)
    ensures |pushes| == |Batches(planned, size)|
  {
    assert Pushed(pushes) + [] == Pushed(pushes);
    forall k | 0 <= k < |pushes| ensures pushes[k].batch == Batches(planned, size)[k] {
      assert Pushed(pushes)[k] == pushes[k].batch;
    }
  }

  /**
   Deletes the first planned retirements, batch by batch. Whatever the service and
   the other users do, the pushes applied so far are whole batches of the queue in
   order, each authorised by the answers read for it, and no commit is lost.
   */
  method ApplyMergedRetirement(
    api: Remote, repository: string, decisions: seq<Decision>, defaultBranch: string, expectedMain: Sha,
    mainHistory: set<Sha>, maxDeletes: int, batchSize: int, ghost h: History)
    returns (r: Result<seq<string>>)
    requires FairWorld(api.outside, h, defaultBranch) && mainHistory <= h(expectedMain)
    requires MainCarries(h, api.refs, defaultBranch, expectedMain)
    requires api.pushes == []
    modifies api
    ensures !ValidCall(repository, decisions, defaultBranch, expectedMain, mainHistory, maxDeletes, batchSize) ==>
              r.Raised? && api.refs == old(api.refs) && api.pushes == []
    ensures ValidCall(repository, decisions, defaultBranch, expectedMain, mainHistory, maxDeletes, batchSize) ==>
              var planned := Take(PlannedDeletions(decisions), maxDeletes);
              && WholeBatches(h, api.pushes, planned, batchSize)
              && (r.Ok? ==> |api.pushes| == |Batches(planned, batchSize)| && r.value == Names(planned))
    ensures api.pushes != [] ==>
              var initial, sources := ByName(decisions), api.outside.mergedSources(old(api.time));
              && sources.Ok?
              && EachReauthorized(
                   api.outside, Grounds(initial[defaultBranch], mainHistory, sources.value, Preserved),
                   initial, old(api.time) + 1, api.pushes)
              && (r.Ok? ==> ReadBack(api.outside, initial, api.pushes))
    ensures OthersConserve(api.outside, h) ==> Retains(h, old(api.refs), api.refs)
  {
    if repository != "shuntatsu/trade_rl" || defaultBranch != "main" {
      return Raised;
    }
    if !IsHex(expectedMain, 40) || maxDeletes < 1 || maxDeletes > 100 || batchSize < 1 || batchSize > 20
       || expectedMain !in mainHistory
    {
      return Raised;
    }
    var expected := ByName(decisions);
    if |expected| != |decisions| || defaultBranch !in expected || expected[defaultBranch].sha != expectedMain {
      return Raised;
    }
    var queue := PlannedDeletions(decisions);
    if exists b :: b in queue && b.sha !in mainHistory {
      return Raised;
    }
    KeptByName(decisions, defaultBranch);
    var planned := Take(queue, maxDeletes);
    if planned == [] {
      return Ok([]);
    }
    var now := api.Tick();
    var sources := api.outside.mergedSources(now);
    if sources.Raised? {
      return Raised;
    }
    var g := Grounds(expected[defaultBranch], mainHistory, sources.value, Preserved);
    r := RetireQueue(api, expected, g, planned, batchSize, h);
  }

  lemma {:induction false} KeptByName(decisions: seq<Decision>, name: string)
    ensures name in ByName(decisions) <==> exists d :: d in decisions && d.branch.name == name
    ensures name in ByName(decisions) ==>
              ByName(decisions)[name].name == name && exists d :: d in decisions && d.branch == ByName(decisions)[name]
  {
    if decisions != [] {
      var front, last := decisions[..|decisions| - 1], decisions[|decisions| - 1];
      KeptByName(front, name);
      assert forall d :: d in decisions <==> d in front || d == last;
    }
  }

  function Pushed(pushes: seq<Push>): seq<seq<Branch>> {
    seq(|pushes|, k requires 0 <= k < |pushes| => pushes[k].batch)
  }

  /** The batches put end to end are the queue, so nothing is skipped or repeated. */
  lemma {:induction false} BatchesCover(queue: seq<Branch>, size: nat)
    requires size >= 1
    ensures Concat(Batches(queue, size)) == queue
    ensures forall k :: 0 <= k < |Batches(queue, size)| ==> 1 <= |Batches(queue, size)[k]| <= size
    decreases |queue|
  {
    if queue == [] {
    } else if |queue| <= size {
      assert Concat([queue]) == queue + Concat([]);
    } else {
      BatchesCover(queue[size..], size);
      assert queue == queue[..size] + queue[size..];
    }
  }

  function Concat(batches: seq<seq<Branch>>): seq<Branch> {
    if batches == [] then [] else batches[0] + Concat(batches[1..])
  }
}
