/**
 The disposable registry transaction over the compare-and-swap protocol: its fences, the
 plan it derives from two commits, and the read-only inspection after an interruption.
 */
module RegistryCas {
  import opened CasMachine
  import opened Options
  import opened Text

  // ---- Objects and requests ----

  const ZERO_OID: Oid := 0

  datatype Registry = Registry(repository: string, tasks: map<string, string>)

  /**
   Immutable commits with their parsed registry, the transition planner and the
   digest; the last two are not part of the modelled files.
   */
  datatype World = World(
    objects: map<Oid, Registry>,
    transition: (Registry, string, string) -> Option<Registry>,
    digest: Registry -> string)

  const REF_PREFIX := "refs/heads/coordination/"
  const PRODUCTION := "shuntatsu/trade_rl"
  const DISPOSABLE_SUFFIX := "-coordination-disposable"

  predicate IsAlphanumeric(c: char) {
    'a' <= c <= 'z' || 'A' <= c <= 'Z' || '0' <= c <= '9'
  }

  predicate ValidName(name: string) {
    && name != "" && IsAlphanumeric(name[0])
    && forall k :: 0 <= k < |name| ==> IsAlphanumeric(name[k]) || name[k] in {'_', '.', '-'}
  }

  /** Owner and name, joined by one slash. */
  predicate ValidRepository(repository: string) {
    var n := IndexOf(repository, '/');
    n < |repository| && ValidName(repository[..n]) && ValidName(repository[n + 1..])
  }

  predicate ValidLogin(login: string) {
    && 1 <= |login| <= 40 && IsAlphanumeric(login[0]) && IsAlphanumeric(login[|login| - 1])
    && forall k :: 0 <= k < |login| ==> IsAlphanumeric(login[k]) || login[k] == '-'
  }

  /** A ref inside the coordination namespace, in the form the client accepts. */
  predicate ValidRef(refName: string) {
    && REF_PREFIX < refName && refName[|refName| - 1] != '/'
    && (forall k :: 0 <= k < |refName| ==> !IsSpace(refName[k]))
    && (forall k :: 0 < k < |refName| && refName[k] == refName[k - 1] ==> refName[k] != '.' && refName[k] != '/')
  }

  /** The fences every entry point applies before its first network call. */
  predicate Validated(r: Request) {
    && ValidRepository(r.repository) && Fold(r.repository) != Fold(PRODUCTION)
    && EndsWith(Fold(r.repository), DISPOSABLE_SUFFIX)
    && ValidRef(r.refName) && ValidLogin(r.login)
    && r.expected != r.after && r.after != ZERO_OID
    && r.optIn
  }

  /** The registry at a commit; an absent ref stands for the empty registry. */
  function RegistryAt(w: World, repository: string, oid: Oid): Option<Registry> {
    if oid == ZERO_OID then Some(Registry(repository, map[]))
    else if oid in w.objects then Some(w.objects[oid])
    else None
  }

  function Modified(before: Registry, after: Registry): set<string> {
    set t | t in after.tasks && (t !in before.tasks || before.tasks[t] != after.tasks[t])
  }

  datatype Plan = Plan(task: string, beforeDigest: string, after: Registry, afterDigest: string)

  /** The plan derived from the two commits, or None where the derivation raises. */
  function PreparePlan(w: World, r: Request): Option<Plan> {
    var before, after := RegistryAt(w, r.repository, r.expected), RegistryAt(w, r.repository, r.after);
    if r.after !in w.objects || before.None? then None
    else if before.value.repository != r.repository || after.value.repository != r.repository then None
    else if !(before.value.tasks.Keys <= after.value.tasks.Keys) then None
    else if |Modified(before.value, after.value)| != 1 then None
    else
      var task := Only(Modified(before.value, after.value));
      if w.transition(before.value, task, after.value.tasks[task]) == Some(after.value)
      then Some(Plan(task, w.digest(before.value), after.value, w.digest(after.value)))
      else None
  }

  function Only<T>(s: set<T>): (x: T)
    requires |s| == 1
    ensures s == {x}
  {
    OneElement(s);
    var x :| x in s;
    x
  }

  lemma OneElement<T>(s: set<T>)
    requires |s| == 1
    ensures exists x :: x in s
    ensures forall x, y :: x in s && y in s ==> x == y
  {
    var x :| x in s;
    assert |s - {x}| == 0;
    assert s == {x} + (s - {x});
  }

  /** Exactly one Task entry is new or different, and none is missing. */
  ghost predicate OneTaskChanged(before: Registry, after: Registry) {
    && before.tasks.Keys <= after.tasks.Keys
    && exists t :: t in after.tasks && (t !in before.tasks || before.tasks[t] != after.tasks[t])
                   && forall u :: u in after.tasks && u != t ==> u in before.tasks && before.tasks[u] == after.tasks[u]
  }

  lemma PlannedChangesOneTask(w: World, r: Request)
    requires PreparePlan(w, r).Some?
    ensures RegistryAt(w, r.repository, r.expected).Some? && RegistryAt(w, r.repository, r.after).Some?
    ensures OneTaskChanged(RegistryAt(w, r.repository, r.expected).value, RegistryAt(w, r.repository, r.after).value)
  {
    var before, after := RegistryAt(w, r.repository, r.expected).value, RegistryAt(w, r.repository, r.after).value;
    var t := Only(Modified(before, after));
    assert t in Modified(before, after);
    forall u | u in after.tasks && u != t ensures u in before.tasks && before.tasks[u] == after.tasks[u] {
      assert u !in Modified(before, after);
    }
  }

  /** The registry read at a commit: an absent ref stands for an empty one, anything else must be known. */
  ghost predicate ReadAs(w: World, repository: string, oid: Oid, registry: Registry) {
    if oid == 0 then registry.repository == repository && registry.tasks == map[]
    else oid in w.objects && registry == w.objects[oid]
  }

  lemma ReadsRegistry(w: World, repository: string, oid: Oid, registry: Registry)
    ensures RegistryAt(w, repository, oid) == Some(registry) <==> ReadAs(w, repository, oid, registry)
  {
  }

  /**
   There is a plan exactly when both registries can be read and belong to the repository, one
   entry differs, and the planner would turn the first registry into the second by that entry.
   */
  lemma PlansExactly(w: World, r: Request)
    ensures PreparePlan(w, r).Some? <==>
            r.after in w.objects
            && exists before, after, task ::
                 && ReadAs(w, r.repository, r.expected, before) && ReadAs(w, r.repository, r.after, after)
                 && before.repository == r.repository && after.repository == r.repository
                 && OneTaskChanged(before, after) && Changes(before, after, task)
                 && w.transition(before, task, after.tasks[task]) == Some(after)
  {
    if PreparePlan(w, r).Some? {
      var before, after := RegistryAt(w, r.repository, r.expected).value, RegistryAt(w, r.repository, r.after).value;
      ReadsRegistry(w, r.repository, r.expected, before);
      ReadsRegistry(w, r.repository, r.after, after);
      PlannedChangesOneTask(w, r);
      var task := Only(Modified(before, after));
      assert task in Modified(before, after) && Changes(before, after, task);
    }
    if before, after, task :|
      && ReadAs(w, r.repository, r.expected, before) && ReadAs(w, r.repository, r.after, after)
      && before.repository == r.repository && after.repository == r.repository
      && OneTaskChanged(before, after) && Changes(before, after, task)
      && w.transition(before, task, after.tasks[task]) == Some(after)
      && r.after in w.objects
    {
      ReadsRegistry(w, r.repository, r.expected, before);
      ReadsRegistry(w, r.repository, r.after, after);
      OnlyChange(before, after, task);
    }
  }

  ghost predicate Changes(before: Registry, after: Registry, task: string) {
    task in after.tasks && (task !in before.tasks || before.tasks[task] != after.tasks[task])
  }

  lemma OnlyChange(before: Registry, after: Registry, task: string)
    requires OneTaskChanged(before, after) && Changes(before, after, task)
    ensures Modified(before, after) == {task} && Only({task}) == task
  {
    forall t | t in Modified(before, after) ensures t == task {
      assert Changes(before, after, t);
    }
    assert task in Modified(before, after);
  }

  ghost predicate AsciiAlnum(c: char) {
    'a' <= c <= 'z' || 'A' <= c <= 'Z' || '0' <= c <= '9'
  }

  /** The name of an owner or a repository. */
  ghost predicate IsName(name: string) {
    && name != "" && AsciiAlnum(name[0])
    && forall k :: 0 <= k < |name| ==> AsciiAlnum(name[k]) || name[k] == '_' || name[k] == '.' || name[k] == '-'
  }

  ghost predicate OwnerAndName(repository: string, owner: string, name: string) {
    repository == owner + "/" + name && IsName(owner) && IsName(name)
  }

  lemma RepositoriesExactly(repository: string)
    ensures ValidRepository(repository) <==> exists owner, name :: OwnerAndName(repository, owner, name)
  {
    var n := IndexOf(repository, '/');
    if ValidRepository(repository) {
      assert repository == repository[..n] + "/" + repository[n + 1..];
      assert OwnerAndName(repository, repository[..n], repository[n + 1..]);
    }
    if owner, name :| OwnerAndName(repository, owner, name) {
      IndexInJoined(owner, name, '/');
      assert owner + ['/'] + name == repository;
      assert IndexOf(owner, '/') == |owner|;
      assert repository[..n] == owner && repository[n + 1..] == name;
    }
  }

  /** Inside the coordination namespace, without white space, doubled dots or slashes, or a slash at the end. */
  ghost predicate IsCoordinationRef(refName: string) {
    && "refs/heads/coordination/" < refName && refName[|refName| - 1] != '/'
    && (forall k :: 0 <= k < |refName| ==> !IsSpace(refName[k]))
    && (forall j, k :: 0 <= j < k < |refName| && k == j + 1 ==>
          !(refName[j] == '.' && refName[k] == '.') && !(refName[j] == '/' && refName[k] == '/'))
  }

  lemma RefsExactly(refName: string)
    ensures ValidRef(refName) <==> IsCoordinationRef(refName)
  {
    if IsCoordinationRef(refName) {
      forall k | 0 < k < |refName| && refName[k] == refName[k - 1] ensures refName[k] != '.' && refName[k] != '/' {
        assert 0 <= k - 1 < k < |refName|;
      }
    }
  }

  ghost predicate IsLogin(login: string) {
    && 1 <= |login| <= 40 && login[0] != '-' && login[|login| - 1] != '-'
    && forall k :: 0 <= k < |login| ==> AsciiAlnum(login[k]) || login[k] == '-'
  }

  /**
   A request passes the fences exactly when its repository is a well-formed disposable one, never
   the production one, its ref and login are well formed, its ids differ, and the caller opted in.
   */
  lemma FencesExactly(r: Request)
    ensures Validated(r) <==>
            && (exists owner, name :: OwnerAndName(r.repository, owner, name))
            && Fold(r.repository) != Fold("shuntatsu/trade_rl")
            && (exists stem :: Fold(r.repository) == stem + "-coordination-disposable")
            && IsCoordinationRef(r.refName) && IsLogin(r.login)
            && r.expected != r.after && r.after != 0 && r.optIn
  {
    RepositoriesExactly(r.repository);
    RefsExactly(r.refName);
    EndsInSuffix(Fold(r.repository), DISPOSABLE_SUFFIX);
    assert ValidLogin(r.login) <==> IsLogin(r.login);
  }

  lemma EndsInSuffix(s: string, suffix: string)
    ensures EndsWith(s, suffix) <==> exists stem :: s == stem + suffix
  {
    if EndsWith(s, suffix) { assert s == s[..|s| - |suffix|] + suffix; }
  }

  /** A client of this transaction goes ahead when its fences and its plan hold. */
  function RulesOf(w: World): Rules {
    Rules(r => Validated(r) && PreparePlan(w, r).Some?, (a, b) => Fold(a) == Fold(b))
  }

  // ---- The main results ----

  /** Every applied update changes exactly one Task entry, even beside other writers. */
  lemma EachUpdateChangesOneTask(
    w: World, repository: string, ref: Oid, requests: seq<Request>, events: seq<Event>, k: nat)
    requires forall i :: 0 <= i < |requests| ==> requests[i].repository == repository
    requires k < |Run(RulesOf(w), Start(ref, requests), events).log|
    ensures var u := Run(RulesOf(w), Start(ref, requests), events).log[k];
            var before, after := RegistryAt(w, repository, u.before), RegistryAt(w, repository, u.after);
            before.Some? && after.Some? && OneTaskChanged(before.value, after.value)
  {
    RunKeeps(RulesOf(w), ref, requests, events);
    RunFixesRequests(RulesOf(w), ref, requests, events);
    var s := Run(RulesOf(w), Start(ref, requests), events);
    PlannedChangesOneTask(w, s.clients[s.log[k].client].request);
  }

  /** The entry ids known at a version of the ref. */
  function TasksAt(w: World, repository: string, oid: Oid): set<string> {
    var registry := RegistryAt(w, repository, oid);
    if registry.Some? then registry.value.tasks.Keys else {}
  }

  lemma TasksAreRead(w: World, repository: string, oid: Oid, task: string)
    ensures task in TasksAt(w, repository, oid) <==>
            exists registry :: ReadAs(w, repository, oid, registry) && task in registry.tasks
  {
    forall registry
      ensures RegistryAt(w, repository, oid) == Some(registry) <==> ReadAs(w, repository, oid, registry)
    {
      ReadsRegistry(w, repository, oid, registry);
    }
  }

  /** Version k of the ref: the id before the k-th applied update. */
  function Version(first: Oid, log: seq<Update>, k: nat): Oid
    requires k <= |log|
  {
    LastOid(first, log[..k])
  }

  lemma {:induction false} NoTaskIsLost(
    w: World, repository: string, ref: Oid, requests: seq<Request>, events: seq<Event>, j: nat, k: nat)
    requires forall i :: 0 <= i < |requests| ==> requests[i].repository == repository
    requires NoForeignWrite(events)
    requires j <= k <= |Run(RulesOf(w), Start(ref, requests), events).log|
    ensures var log := Run(RulesOf(w), Start(ref, requests), events).log;
            TasksAt(w, repository, Version(ref, log, j)) <= TasksAt(w, repository, Version(ref, log, k))
    decreases k
  {
    if j < k {
      NoTaskIsLost(w, repository, ref, requests, events, j, k - 1);
      UpdatesFormAChain(RulesOf(w), ref, requests, events);
      EachUpdateChangesOneTask(w, repository, ref, requests, events, k - 1);
    }
  }

  // ---- Inspection after an interruption ----

  datatype Snapshot = Snapshot(login: string, repositoryId: string, oid: Oid)

  datatype Observation = AfterObserved | BeforeObserved | Conflicting(oid: Oid)

  /** The read-only inspection: two equal snapshots around a re-derived plan. */
  function Inspect(w: World, r: Request, first: Snapshot, second: Snapshot): Result<Observation> {
    if !Validated(r) || Fold(first.login) != Fold(r.login) || PreparePlan(w, r).None? || first != second then Raised
    else if second.oid == r.after then Ok(AfterObserved)
    else if second.oid == r.expected then Ok(BeforeObserved)
    else Ok(Conflicting(second.oid))
  }

  /**
   Whatever id an inspection observes, two histories explain it that look the same
   to the client: in one its own mutation was applied, in the other it was not.
   The after id needs no foreign writer in the first, the before id none in the second.
   */
  lemma InspectionNeverAttributes(w: World, r: Request, repositoryId: string, observed: Oid)
    returns (mine: seq<Event>, foreign: seq<Event>)
    requires Validated(r) && PreparePlan(w, r).Some?
    ensures var s, t := Run(RulesOf(w), Start(r.expected, [r]), mine), Run(RulesOf(w), Start(r.expected, [r]), foreign);
            && s.clients == t.clients && s.ref == t.ref == observed
            && s.log == [Update(0, r.expected, r.after)] && t.log == []
    ensures Inspect(w, r, Snapshot(r.login, repositoryId, observed), Snapshot(r.login, repositoryId, observed))
         == Ok(if observed == r.after then AfterObserved
               else if observed == r.expected then BeforeObserved
               else Conflicting(observed))
    ensures observed == r.after ==> NoForeignWrite(mine)
    ensures observed == r.expected ==> NoForeignWrite(foreign)
  {
    mine := SendLoseAndRewrite(RulesOf(w), r, repositoryId, observed, true);
    foreign := SendLoseAndRewrite(RulesOf(w), r, repositoryId, observed, false);
    InspectReports(w, r, repositoryId, observed);
  }

  /** It raises unless its fences, its login and its plan hold and both snapshots agree; then the id decides. */
  lemma InspectsExactly(w: World, r: Request, first: Snapshot, second: Snapshot)
    ensures Inspect(w, r, first, second).Ok? <==>
            Validated(r) && PreparePlan(w, r).Some? && first == second && Fold(second.login) == Fold(r.login)
    ensures Inspect(w, r, first, second) == Ok(AfterObserved) ==> first.oid == r.after
    ensures Inspect(w, r, first, second) == Ok(BeforeObserved) ==> first.oid == r.expected
    ensures forall oid :: Inspect(w, r, first, second) == Ok(Conflicting(oid)) ==>
              first.oid == oid != r.after && oid != r.expected
  {
  }

  lemma InspectReports(w: World, r: Request, repositoryId: string, observed: Oid)
    requires Validated(r) && PreparePlan(w, r).Some?
    ensures Inspect(w, r, Snapshot(r.login, repositoryId, observed), Snapshot(r.login, repositoryId, observed))
         == Ok(if observed == r.after then AfterObserved
               else if observed == r.expected then BeforeObserved
               else Conflicting(observed))
  {
  }
}
