/**
 What retirement may delete, said in the fields of a branch and of the service's answers
 alone: of the plan, of the queue, and of every push a run makes.
 */
module RetirementRules {
  import opened Branches
  import opened Options
  import opened Text
  import opened BranchRetirement

  /** An open pull request is from or onto a branch of this name. */
  ghost predicate InOpenPullRequest(refs: seq<OpenPullRequest>, name: string) {
    exists r :: r in refs && (r.base.name == name || (r.head.Some? && r.head.value.name == name))
  }

  /** Namespaces of research and provenance, and the sources kept for the M1 handoff. */
  ghost predicate IsReserved(name: string) {
    || "provenance/" <= name || "research/" <= name || "infra/" <= name || "seal/" <= name
    || "freeze/" <= name || "run/" <= name || "evidence/" <= name || "study/" <= name
    || "archive/" <= name || "release/" <= name || "artifact/" <= name
    || "fix/m1-" <= name || name == "fix/windows-job-child-pid-marker-20261105"
  }

  lemma PreservedNames(name: string)
    ensures Preserved(name) <==> IsReserved(name)
  {
    var prefixes := PRESERVED_PREFIXES;
    assert |prefixes| == 11;
    assert prefixes[0] == "provenance/" && prefixes[1] == "research/" && prefixes[2] == "infra/"
           && prefixes[3] == "seal/" && prefixes[4] == "freeze/" && prefixes[5] == "run/"
           && prefixes[6] == "evidence/" && prefixes[7] == "study/" && prefixes[8] == "archive/"
           && prefixes[9] == "release/" && prefixes[10] == "artifact/";
    forall k | 0 <= k < 11 && prefixes[k] <= name ensures Reserved(name) {
      assert prefixes[k] in prefixes && StartsWith(name, prefixes[k]);
    }
    if Reserved(name) {
      var k :| 0 <= k < 11 && StartsWith(name, prefixes[k]);
    }
  }

  lemma OpenNamesAreOpen(refs: seq<OpenPullRequest>, name: string)
    ensures name in OpenNames(refs) <==> InOpenPullRequest(refs, name)
  {
  }

  /** The branch is nobody's any more: not main, protected, open, running or kept, and merged into main. */
  ghost predicate Spent(e: Evidence, b: Branch) {
    && b.name != e.defaultBranch && !b.isProtected
    && !InOpenPullRequest(e.openRefs, b.name) && b.name !in e.running && !IsReserved(b.name)
    && b.sha in e.mainHistory && Tip(b.name, b.sha) in e.merged
  }

  /**
   The plan raises exactly on a nameless branch, one listed under another name, a tip that
   is no commit id, a missing default branch or an empty history.
   */
  lemma PlanRaises(inventory: Inventory, e: Evidence)
    ensures PlanMergedRetirement(inventory, e).Raised? <==>
            || e.defaultBranch !in inventory || e.mainHistory == {}
            || exists n :: n in inventory
                           && (n == "" || inventory[n].name != n || !IsHex(inventory[n].sha, 40))
  {
  }

  /** Otherwise it deletes exactly the listed branches that are spent. */
  lemma PlanDeletesTheSpent(inventory: Inventory, e: Evidence, b: Branch)
    requires PlanMergedRetirement(inventory, e).Ok? && e.preserved == Preserved
    ensures b in PlanMergedRetirement(inventory, e).value <==>
            b.name in inventory && inventory[b.name] == b && Spent(e, b)
  {
    PreservedNames(b.name);
    OpenNamesAreOpen(e.openRefs, b.name);
  }

  /** What the service lists once this push has been made: all it listed before, less the batch. */
  ghost predicate LessTheBatch(before: Inventory, batch: seq<Branch>, after: Inventory) {
    && (forall n :: n in after <==> n in before && forall b :: b in batch ==> b.name != n)
    && (forall n :: n in after ==> after[n] == before[n])
  }

  lemma LeftIsLessTheBatch(p: Push)
    ensures LessTheBatch(p.auth.inventory, p.batch, Left(p))
  {
  }

  /** The refs at the server after a push: those it met, less the batch. */
  lemma RefsWithoutTheBatch(met: Refs, batch: seq<Branch>)
    ensures var left := Without(met, NamesOf(batch));
            && (forall n :: n in left <==> n in met && forall b :: b in batch ==> b.name != n)
            && (forall n :: n in left ==> left[n] == met[n])
  {
  }

  /**
   Every branch of every push was spent by what the service answered for that push: it was
   listed with this tip, in no open pull request, in no running workflow, and so on. Main was
   then where the run was planned, and the inventory what the push before should have left.
   */
  lemma OnlySpentBranchesArePushed(
    o: Outside, g: Grounds, initial: Inventory, since: nat, pushes: seq<Push>, k: nat, b: Branch)
    requires EachReauthorized(o, g, initial, since, pushes) && g.preserved == Preserved
    requires k < |pushes| && b in pushes[k].batch
    ensures var auth := pushes[k].auth;
            && (if k == 0 then since <= auth.listedAt else pushes[k - 1].at < auth.listedAt)
            && auth.listedAt < auth.refsAt < auth.runningAt < pushes[k].at
            && o.branches(auth.listedAt) == Ok(auth.inventory)
            && o.openRefs(auth.refsAt) == Ok(auth.evidence.openRefs)
            && o.running(auth.runningAt) == Ok(auth.evidence.running)
            && (if k == 0 then auth.inventory == initial
                else LessTheBatch(pushes[k - 1].auth.inventory, pushes[k - 1].batch, auth.inventory))
            && g.main.name in auth.inventory && auth.inventory[g.main.name] == g.main
            && b.name in auth.inventory && auth.inventory[b.name] == b
            && b.name != g.main.name && !b.isProtected
            && !InOpenPullRequest(auth.evidence.openRefs, b.name) && b.name !in auth.evidence.running
            && !IsReserved(b.name) && b.sha in g.mainHistory && Tip(b.name, b.sha) in g.merged
  {
    assert ReauthorizedAt(o, g, initial, since, pushes, k);
    PlanDeletesTheSpent(pushes[k].auth.inventory, pushes[k].auth.evidence, b);
    if k > 0 {
      assert pushes[..k] != [] && pushes[..k][k - 1] == pushes[k - 1];
      LeftIsLessTheBatch(pushes[k - 1]);
    }
  }

  /** Planned branches with pairwise distinct names are what the inventory to expect is made of. */
  lemma ExpectedInventory(decisions: seq<Decision>, d: Decision)
    requires |ByName(decisions)| == |decisions| && d in decisions
    ensures d.branch.name in ByName(decisions) && ByName(decisions)[d.branch.name] == d.branch
    ensures forall e :: e in decisions && e.branch.name == d.branch.name ==> e.branch == d.branch
  {
    var k :| 0 <= k < |decisions| && decisions[k] == d;
    ByNameAt(decisions, k);
    forall e | e in decisions && e.branch.name == d.branch.name ensures e.branch == d.branch {
      var j :| 0 <= j < |decisions| && decisions[j] == e;
      ByNameAt(decisions, j);
    }
  }

  lemma {:induction false} ByNameSize(decisions: seq<Decision>)
    ensures |ByName(decisions)| <= |decisions|
  {
    if decisions != [] { ByNameSize(decisions[..|decisions| - 1]); }
  }

  lemma {:induction false} ByNameAt(decisions: seq<Decision>, k: nat)
    requires |ByName(decisions)| == |decisions| && k < |decisions|
    ensures var b := decisions[k].branch; b.name in ByName(decisions) && ByName(decisions)[b.name] == b
  {
    var front, last := decisions[..|decisions| - 1], decisions[|decisions| - 1].branch;
    ByNameSize(front);
    assert last.name !in ByName(front) && |ByName(front)| == |front|;
    if k < |front| { ByNameAt(front, k); }
  }

  /** The queue holds the branches decided to be deleted, all of them and in the order of the decisions. */
  lemma {:induction false} QueueIsTheDeletions(before: seq<Decision>, d: Decision, after: seq<Decision>)
    ensures PlannedDeletions([]) == []
    ensures PlannedDeletions(before + [d] + after)
         == PlannedDeletions(before) + (if d.action.Delete? then [d.branch] else []) + PlannedDeletions(after)
  {
    if before == [] {
      assert ([] + [d] + after)[1..] == after;
    } else {
      QueueIsTheDeletions(before[1..], d, after);
      assert (before + [d] + after)[1..] == before[1..] + [d] + after;
    }
  }
}
