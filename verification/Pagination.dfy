/**
 Bounded paging over a listing that may change, or lie, between two pages.
 */
module Pagination {
  import opened Options
  import opened Sequences
  import opened Sorting

  const PAGE_SIZE: nat := 100

  /** An entry of a page: rejected by its field checks, or taken with its id. */
  datatype Row<+T> = Invalid | Item(id: int, body: T)

  /** One response: not of the expected shape, or a claimed total and some rows. */
  datatype Response<+T> = Malformed | Page(total: int, rows: seq<Row<T>>)

  /** The answers to one pass over the pages: each page is asked for once. */
  type Server<!T> = nat -> Response<T>

  datatype Outcome<+T> = Done(items: seq<T>) | Changed | Failed

  function PageCount(total: nat): nat {
    if total == 0 then 1 else (total + PAGE_SIZE - 1) / PAGE_SIZE
  }

  /** How many rows page p of a listing has. */
  function Length(total: nat, p: nat): int
    requires p >= 1
  {
    var remaining := total - PAGE_SIZE * (p - 1);
    if remaining < PAGE_SIZE then remaining else PAGE_SIZE
  }

  /** The rows of the first n pages. */
  function Collected<T>(server: Server<T>, n: nat): seq<Row<T>> {
    if n == 0 then [] else Collected(server, n - 1) + if server(n).Page? then server(n).rows else []
  }

  ghost predicate AllItems<T>(rows: seq<Row<T>>) {
    forall k :: 0 <= k < |rows| ==> rows[k].Item?
  }

  ghost predicate DistinctRows<T>(rows: seq<Row<T>>) {
    forall i, j :: 0 <= i < j < |rows| && rows[i].Item? && rows[j].Item? ==> rows[i].id != rows[j].id
  }

  predicate Opens<T>(server: Server<T>, lowest: nat, highest: nat) {
    server(1).Page? && lowest <= server(1).total <= highest
  }

  /** Page p repeats the first page's total and has just the rows that leaves for it. */
  predicate Fits<T>(server: Server<T>, p: nat)
    requires p >= 1 && server(1).Page? && server(1).total >= 0
  {
    && server(p).Page? && server(p).total == server(1).total
    && |server(p).rows| == Length(server(1).total, p)
  }

  /** Nothing is wrong with the first n pages. */
  ghost predicate GoodUpTo<T>(server: Server<T>, lowest: nat, highest: nat, n: nat) {
    && (n >= 1 ==> Opens(server, lowest, highest))
    && (forall p :: 1 <= p <= n ==> Fits(server, p))
    && AllItems(Collected(server, n)) && DistinctRows(Collected(server, n))
  }

  /** The whole listing is there: as many pages as its total takes. */
  ghost predicate Complete<T>(server: Server<T>, lowest: nat, highest: nat) {
    Opens(server, lowest, highest) && GoodUpTo(server, lowest, highest, PageCount(server(1).total))
  }

  /** Page p is well formed, but its total or its number of rows does not go with what came before. */
  predicate Drifts<T>(server: Server<T>, lowest: nat, highest: nat, p: nat)
    requires p >= 1
  {
    && Opens(server, lowest, highest)
    && server(p).Page? && lowest <= server(p).total <= highest && !Fits(server, p)
  }

  ghost predicate DriftFound<T>(server: Server<T>, lowest: nat, highest: nat) {
    exists p :: 1 <= p <= highest + 1 && GoodUpTo(server, lowest, highest, p - 1) && Drifts(server, lowest, highest, p)
                && (p > 1 ==> PAGE_SIZE * (p - 1) < server(1).total)
  }

  lemma {:induction false} CollectedSize<T>(server: Server<T>, n: nat)
    requires n >= 1 ==> server(1).Page? && server(1).total >= 0
    requires forall p :: 1 <= p <= n ==> Fits(server, p)
    ensures n >= 1 && PAGE_SIZE * (n - 1) <= server(1).total ==>
              |Collected(server, n)| == PAGE_SIZE * (n - 1) + Length(server(1).total, n)
  {
    if n > 1 && PAGE_SIZE * (n - 1) <= server(1).total {
      CollectedSize(server, n - 1);
      assert Fits(server, n);
    } else if n == 1 {
      assert Fits(server, 1);
      assert Collected(server, 0) == [];
    }
  }

  lemma {:induction false} CollectedPrefix<T>(server: Server<T>, m: nat, n: nat)
    requires m <= n
    ensures Collected(server, m) <= Collected(server, n)
  {
    if m < n { CollectedPrefix(server, m, n - 1); }
  }

  lemma GoodEarlier<T>(server: Server<T>, lowest: nat, highest: nat, m: nat, n: nat)
    requires m <= n && GoodUpTo(server, lowest, highest, n)
    ensures GoodUpTo(server, lowest, highest, m)
  {
    CollectedPrefix(server, m, n);
    var shorter, longer := Collected(server, m), Collected(server, n);
    assert shorter == longer[..|shorter|];
  }

  /** Still within the pages a listing takes. */
  predicate WithinPages<T>(server: Server<T>, p: nat)
    requires p >= 1
  {
    p > 1 ==> server(1).Page? && PAGE_SIZE * (p - 1) < server(1).total
  }

  lemma PagesNeeded(total: nat, p: nat)
    requires p >= 1
    ensures p <= PageCount(total) <==> p == 1 || PAGE_SIZE * (p - 1) < total
    ensures p <= PageCount(total) ==> (PAGE_SIZE * (p - 1) + Length(total, p) == total <==> p == PageCount(total))
  {
  }

  /** Past the first bad page nothing counts as a drift, and before it nothing drifts. */
  lemma DriftIsThere<T>(server: Server<T>, lowest: nat, highest: nat, p: nat, q: nat)
    requires p >= 1 && GoodUpTo(server, lowest, highest, p - 1) && !GoodUpTo(server, lowest, highest, p)
    requires q >= 1 && GoodUpTo(server, lowest, highest, q - 1) && Drifts(server, lowest, highest, q)
    ensures q == p
  {
    if q > p { GoodEarlier(server, lowest, highest, p, q - 1); }
  }

  lemma BadPageIsIncomplete<T>(server: Server<T>, lowest: nat, highest: nat, p: nat)
    requires p >= 1 && WithinPages(server, p) && !GoodUpTo(server, lowest, highest, p)
    ensures !Complete(server, lowest, highest)
  {
    if Complete(server, lowest, highest) {
      PagesNeeded(server(1).total, p);
      GoodEarlier(server, lowest, highest, p, PageCount(server(1).total));
    }
  }

  /** The first bad page decides: a drift there is the only drift, anything else is a failure. */
  lemma FirstBadPage<T>(server: Server<T>, lowest: nat, highest: nat, p: nat)
    requires p >= 1 && GoodUpTo(server, lowest, highest, p - 1) && WithinPages(server, p)
    requires !GoodUpTo(server, lowest, highest, p)
    ensures !Complete(server, lowest, highest)
    ensures DriftFound(server, lowest, highest) <==> Drifts(server, lowest, highest, p)
  {
    BadPageIsIncomplete(server, lowest, highest, p);
    if DriftFound(server, lowest, highest) {
      var q :| 1 <= q <= highest + 1 && GoodUpTo(server, lowest, highest, q - 1) && Drifts(server, lowest, highest, q)
               && (q > 1 ==> PAGE_SIZE * (q - 1) < server(1).total);
      DriftIsThere(server, lowest, highest, p, q);
    }
    if Drifts(server, lowest, highest, p) {
      assert p <= highest + 1;
    }
  }

  lemma CompleteHasNoDrift<T>(server: Server<T>, lowest: nat, highest: nat)
    requires Complete(server, lowest, highest)
    ensures !DriftFound(server, lowest, highest)
  {
    if DriftFound(server, lowest, highest) {
      var q :| 1 <= q <= highest + 1 && GoodUpTo(server, lowest, highest, q - 1) && Drifts(server, lowest, highest, q)
               && (q > 1 ==> PAGE_SIZE * (q - 1) < server(1).total);
      PagesNeeded(server(1).total, q);
    }
  }

  ghost predicate Ids<T>(rows: seq<Row<T>>, seen: set<int>) {
    && (forall k :: 0 <= k < |rows| && rows[k].Item? ==> rows[k].id in seen)
    && (forall id :: id in seen ==> HasId(rows, id))
  }

  ghost predicate HasId<T>(rows: seq<Row<T>>, id: int) {
    exists k :: 0 <= k < |rows| && rows[k].Item? && rows[k].id == id
  }

  lemma OneMoreId<T>(rows: seq<Row<T>>, seen: set<int>, row: Row<T>)
    requires Ids(rows, seen) && AllItems(rows) && DistinctRows(rows) && row.Item? && row.id !in seen
    ensures Ids(rows + [row], seen + {row.id}) && AllItems(rows + [row]) && DistinctRows(rows + [row])
  {
    var all := rows + [row];
    forall id | id in seen + {row.id} ensures HasId(all, id) {
      if id in seen {
        assert HasId(rows, id);
        var k :| 0 <= k < |rows| && rows[k].Item? && rows[k].id == id;
        assert all[k].Item? && all[k].id == id;
      } else {
        assert all[|rows|].Item? && all[|rows|].id == id;
      }
    }
  }

  /** The rows of one page, after those taken before. */
  method TakeRows<T(==)>(rows: seq<Row<T>>, before: seq<Row<T>>, seen: set<int>)
    returns (ok: bool, items: seq<Row<T>>, seen': set<int>)
    requires Ids(before, seen) && AllItems(before) && DistinctRows(before)
    ensures ok <==> AllItems(before + rows) && DistinctRows(before + rows)
    ensures ok ==> items == before + rows && Ids(items, seen')
  {
    items, seen' := before, seen;
    ghost var whole := before + rows;
    for k := 0 to |rows|
      invariant items == whole[..|before| + k]
      invariant Ids(items, seen') && AllItems(items) && DistinctRows(items)
    {
      var row := rows[k];
      assert whole[|before| + k] == row && whole[..|before| + k + 1] == items + [row];
      if row.Invalid? {
        return false, [], {};
      }
      if row.id in seen' {
        assert HasId(items, row.id);
        return false, [], {};
      }
      OneMoreId(items, seen', row);
      items := items + [row];
      seen' := seen' + {row.id};
    }
    assert whole[..|before| + |rows|] == whole;
    ok := true;
  }

  /**
   The paging loop against any server, even one whose pages contradict each other: it ends,
   and tells a complete listing from one that drifted and from one that is malformed.
   */
  method ReadPages<T(==)>(server: Server<T>, lowest: nat, highest: nat) returns (r: Outcome<Row<T>>, pages: nat)
    ensures r.Done? <==> Complete(server, lowest, highest)
    ensures r.Done? ==> pages == PageCount(server(1).total) && r.items == Collected(server, pages)
    ensures r.Changed? <==> DriftFound(server, lowest, highest)
    ensures 1 <= pages <= PageCount(highest)
  {
    var items: seq<Row<T>>, seen: set<int> := [], {};
    var expected: Option<nat> := None;
    pages := 1;
    assert Collected(server, 0) == [];
    while true
      invariant pages >= 1 && GoodUpTo(server, lowest, highest, pages - 1) && WithinPages(server, pages)
      invariant items == Collected(server, pages - 1) && Ids(items, seen)
      invariant expected == if pages == 1 then None else Some(server(1).total)
      invariant |items| == PAGE_SIZE * (pages - 1)
      decreases if expected.None? then highest + 1 else expected.value - |items|
    {
      PagesNeeded(highest, pages);
      var raw := server(pages);
      if raw.Malformed? || !(lowest <= raw.total <= highest) {
        NotGood(server, lowest, highest, pages);
        FirstBadPage(server, lowest, highest, pages);
        return Failed, pages;
      }
      if expected.None? {
        expected := Some(raw.total);
      }
      var remaining := raw.total - |items|;
      if raw.total != expected.value || |raw.rows| != (if remaining < PAGE_SIZE then remaining else PAGE_SIZE) {
        NotGood(server, lowest, highest, pages);
        FirstBadPage(server, lowest, highest, pages);
        return Changed, pages;
      }
      assert Fits(server, pages);
      assert Collected(server, pages) == items + raw.rows;
      var ok, taken, seen' := TakeRows(raw.rows, items, seen);
      if !ok {
        FirstBadPage(server, lowest, highest, pages);
        return Failed, pages;
      }
      PagesNeeded(server(1).total, pages);
      if |taken| == raw.total {
        CompleteHasNoDrift(server, lowest, highest);
        return Done(taken), pages;
      }
      items, seen := taken, seen';
      pages := pages + 1;
    }
  }

  lemma NotGood<T>(server: Server<T>, lowest: nat, highest: nat, p: nat)
    requires p >= 1
    requires server(p).Malformed? || !(lowest <= server(p).total <= highest) || Drifts(server, lowest, highest, p)
    ensures !GoodUpTo(server, lowest, highest, p)
  {
    assert GoodUpTo(server, lowest, highest, p) ==> Opens(server, lowest, highest) && Fits(server, p);
  }

  /** What is returned has exactly the claimed number of entries, with pairwise distinct ids. */
  lemma CompleteMeaning<T>(server: Server<T>, lowest: nat, highest: nat)
    requires Complete(server, lowest, highest)
    ensures var items := Collected(server, PageCount(server(1).total));
            lowest <= |items| == server(1).total <= highest && AllItems(items) && DistinctRows(items)
  {
    var total := server(1).total;
    PagesNeeded(total, PageCount(total));
    CollectedSize(server, PageCount(total));
  }

  // ---- Against a listing that stays the same ----

  function Least(a: int, b: int): int {
    if a < b then a else b
  }

  /** The server of one fixed listing, cut into pages. */
  function Serving<T>(listing: seq<Row<T>>): Server<T> {
    (p: nat) => Page(|listing|, PageOf(listing, p))
  }

  function PageOf<T>(listing: seq<Row<T>>, p: nat): seq<Row<T>> {
    if p == 0 || PAGE_SIZE * (p - 1) >= |listing| then []
    else listing[PAGE_SIZE * (p - 1)..Least(PAGE_SIZE * p, |listing|)]
  }

  lemma PageExtends<T>(listing: seq<Row<T>>, n: nat)
    requires n >= 1
    ensures listing[..Least(PAGE_SIZE * (n - 1), |listing|)] + PageOf(listing, n)
            == listing[..Least(PAGE_SIZE * n, |listing|)]
  {
  }

  lemma {:induction false} ServedPages<T>(listing: seq<Row<T>>, n: nat)
    ensures Collected(Serving(listing), n) == listing[..Least(PAGE_SIZE * n, |listing|)]
  {
    if n > 0 {
      ServedPages(listing, n - 1);
      PageExtends(listing, n);
      assert Serving(listing)(n) == Page(|listing|, PageOf(listing, n));
    }
  }

  /** Reading an unchanging listing of distinct entries succeeds and yields exactly that listing. */
  lemma UnchangingListingIsRead<T>(listing: seq<Row<T>>, lowest: nat, highest: nat)
    requires lowest <= |listing| <= highest && AllItems(listing) && DistinctRows(listing)
    ensures Complete(Serving(listing), lowest, highest)
    ensures Collected(Serving(listing), PageCount(|listing|)) == listing
  {
    var server, n := Serving(listing), PageCount(|listing|);
    ServedPages(listing, n);
    PagesNeeded(|listing|, n);
    assert listing[..|listing|] == listing;
    assert server(1).total == |listing|;
    forall p | 1 <= p <= n ensures Fits(server, p) {
      PagesNeeded(|listing|, p);
      assert server(p).rows == PageOf(listing, p);
    }
  }

  // ---- Artifacts of one run ----

  const MAX_ARTIFACTS: nat := 10_000
  const MAX_JOBS: nat := 10_000
  const MAX_RUNS: nat := 999

  predicate ById<T>(a: Row<T>, b: Row<T>) {
    a.Item? && b.Item? && a.id < b.id
  }

  method ScanArtifacts<T(==)>(server: Server<T>) returns (r: Result<seq<Row<T>>>, pages: nat)
    ensures r.Ok? <==> Complete(server, 0, MAX_ARTIFACTS)
    ensures r.Ok? ==> pages == PageCount(server(1).total) && r.value == SortBy(Collected(server, pages), ById)
  {
    var outcome;
    outcome, pages := ReadPages(server, 0, MAX_ARTIFACTS);
    r := if outcome.Done? then Ok(SortBy(outcome.items, ById)) else Raised;
  }

  /** What is read before and after the two scans: the run and its repository. */
  datatype Surroundings = Surroundings(run: string, repository: string)

  /** Two scans that must agree, inside two reads of the run that must agree. */
  method ObserveArtifacts<T(==)>(before: Surroundings, first: Server<T>, second: Server<T>, after: Surroundings)
    returns (r: Result<seq<Row<T>>>)
    ensures r.Ok? <==>
      && Complete(first, 0, MAX_ARTIFACTS) && Complete(second, 0, MAX_ARTIFACTS) && before == after
      && SortBy(Collected(first, PageCount(first(1).total)), ById)
         == SortBy(Collected(second, PageCount(second(1).total)), ById)
    ensures r.Ok? ==> r.value == SortBy(Collected(first, PageCount(first(1).total)), ById)
  {
    var one, n := ScanArtifacts(first);
    if one.Raised? {
      return Raised;
    }
    var two, m := ScanArtifacts(second);
    if two.Raised? || one.value != two.value || before != after {
      return Raised;
    }
    r := one;
  }

  /** The order by id, on whole lists of items. */
  predicate Earlier<T>(a: Row<T>, b: Row<T>) {
    (if a.Item? then a.id else 0) < (if b.Item? then b.id else 0)
  }

  lemma {:induction false} InsertByIdIsInsertEarlier<T>(x: Row<T>, s: seq<Row<T>>)
    requires x.Item? && AllItems(s)
    ensures Insert(x, s, ById) == Insert(x, s, Earlier) && AllItems(Insert(x, s, ById))
  {
    if s != [] {
      InsertByIdIsInsertEarlier(x, s[1..]);
    }
  }

  lemma {:induction false} SortByIdIsSortEarlier<T>(s: seq<Row<T>>)
    requires AllItems(s)
    ensures SortBy(s, ById) == SortBy(s, Earlier) && AllItems(SortBy(s, ById))
  {
    if s != [] {
      SortByIdIsSortEarlier(s[1..]);
      InsertByIdIsInsertEarlier(s[0], SortBy(s[1..], ById));
    }
  }

  ghost predicate Ascending<T>(rows: seq<Row<T>>) {
    AllItems(rows) && forall i, j :: 0 <= i < j < |rows| ==> rows[i].id < rows[j].id
  }

  /** Sorting entries with distinct ids: the same entries, strictly ascending. */
  lemma SortedById<T(!new)>(rows: seq<Row<T>>)
    requires AllItems(rows) && DistinctRows(rows)
    ensures Ascending(SortBy(rows, ById)) && multiset(SortBy(rows, ById)) == multiset(rows)
  {
    SortByIdIsSortEarlier(rows);
    SortByMeaning(rows, Earlier);
    var sorted := SortBy(rows, ById);
    forall i, j | 0 <= i < j < |sorted| ensures sorted[i].id < sorted[j].id {
      PairInOther(rows, sorted, i, j);
      assert !Earlier(sorted[j], sorted[i]);
    }
  }

  /** The two scans compare equal exactly when they saw the same entries, in whatever order. */
  lemma ScansAgreeExactlyOnContents<T(!new)>(a: seq<Row<T>>, b: seq<Row<T>>)
    requires AllItems(a) && DistinctRows(a) && AllItems(b) && DistinctRows(b)
    ensures SortBy(a, ById) == SortBy(b, ById) <==> multiset(a) == multiset(b)
  {
    SortedById(a);
    SortedById(b);
    if multiset(a) == multiset(b) {
      OrderedIsUnique(SortBy(a, ById), SortBy(b, ById), ById);
    }
  }

  // ---- Jobs of one attempt ----

  datatype Conclusion = NoConclusion | Success | Skipped | Neutral | Other

  datatype Job = Job(name: string, completed: bool, conclusion: Conclusion)

  /** The run as read, with its status and conclusion. */
  datatype Run = Run(identity: string, completed: bool, conclusion: Conclusion)

  predicate JobsFit(run: Run, jobs: seq<Row<Job>>) {
    && (run.completed ==> forall k :: 0 <= k < |jobs| && jobs[k].Item? ==> jobs[k].body.completed)
    && (run.completed && run.conclusion == Success ==>
          forall k :: 0 <= k < |jobs| && jobs[k].Item? ==> jobs[k].body.conclusion in {Success, Skipped, Neutral})
  }

  method ObserveWorkflowAttempt(before: Run, server: Server<Job>, after: Run) returns (r: Result<seq<Row<Job>>>)
    ensures r.Ok? <==> Complete(server, 1, MAX_JOBS) && before == after
                       && JobsFit(before, Collected(server, PageCount(server(1).total)))
    ensures r.Ok? ==> r.value == SortBy(Collected(server, PageCount(server(1).total)), ById)
  {
    var jobs, pages := ReadPages(server, 1, MAX_JOBS);
    if !jobs.Done? || after != before {
      return Raised;
    }
    if before.completed && exists k :: 0 <= k < |jobs.items| && jobs.items[k].Item? && !jobs.items[k].body.completed {
      return Raised;
    }
    if before.completed && before.conclusion == Success
       && exists k :: 0 <= k < |jobs.items| && jobs.items[k].Item?
                      && jobs.items[k].body.conclusion !in {Success, Skipped, Neutral}
    {
      return Raised;
    }
    return Ok(SortBy(jobs.items, ById));
  }

  // ---- Branches with unfinished workflow runs ----

  /** One pass over all statuses: for each, the pages of its runs, whose bodies are branch names. */
  type Roster = seq<Server<string>>

  function Branches(rows: seq<Row<string>>): set<string> {
    set k | 0 <= k < |rows| && rows[k].Item? :: rows[k].body
  }

  function RosterBranches(roster: Roster): set<string> {
    if roster == [] then {}
    else
      var last := roster[|roster| - 1];
      var total := if last(1).Page? && last(1).total >= 0 then last(1).total else 0;
      RosterBranches(roster[..|roster| - 1]) + Branches(Collected(last, PageCount(total)))
  }

  /** Some row of page p names this branch; the pages are those that the claimed total takes. */
  ghost predicate Names(server: Server<string>, p: nat, branch: string) {
    && server(1).Page? && server(p).Page? && p >= 1 && (p == 1 || 100 * (p - 1) < server(1).total)
    && exists row :: row in server(p).rows && row.Item? && row.body == branch
  }

  /** Some status lists a run of this branch on some page. */
  ghost predicate Unfinished(roster: Roster, branch: string) {
    exists server, p :: server in roster && Names(server, p, branch)
  }

  ghost predicate RosterComplete(roster: Roster) {
    forall s :: 0 <= s < |roster| ==> Complete(roster[s], 0, MAX_RUNS)
  }

  /** The first status that cannot be read drifted, so that the pass may be repeated. */
  ghost predicate RosterDrifted(roster: Roster) {
    exists s :: 0 <= s < |roster| && RosterComplete(roster[..s]) && DriftFound(roster[s], 0, MAX_RUNS)
  }

  lemma {:induction false} CollectedRows<T>(server: Server<T>, n: nat, row: Row<T>)
    ensures row in Collected(server, n) <==>
            exists p: nat :: 1 <= p <= n && server(p).Page? && row in server(p).rows
  {
    if n > 0 { CollectedRows(server, n - 1, row); }
  }

  lemma ListedBranches(server: Server<string>, branch: string)
    requires Complete(server, 0, MAX_RUNS)
    ensures branch in Branches(Collected(server, PageCount(server(1).total))) <==>
            exists p :: Names(server, p, branch)
  {
    var total := server(1).total;
    var rows := Collected(server, PageCount(total));
    if branch in Branches(rows) {
      var k :| 0 <= k < |rows| && rows[k].Item? && rows[k].body == branch;
      CollectedRows(server, PageCount(total), rows[k]);
      var p: nat :| 1 <= p <= PageCount(total) && server(p).Page? && rows[k] in server(p).rows;
      PagesNeeded(total, p);
      assert Names(server, p, branch);
    }
    if p :| Names(server, p, branch) {
      var row :| row in server(p).rows && row.Item? && row.body == branch;
      PagesNeeded(total, p);
      CollectedRows(server, PageCount(total), row);
      var k :| 0 <= k < |rows| && rows[k] == row;
    }
  }

  /** A complete roster holds exactly the branches that some row of some page of some status names. */
  lemma {:induction false} RosterNames(roster: Roster, branch: string)
    requires RosterComplete(roster)
    ensures branch in RosterBranches(roster) <==> Unfinished(roster, branch)
  {
    if roster != [] {
      var front, last := roster[..|roster| - 1], roster[|roster| - 1];
      RosterNames(front, branch);
      ListedBranches(last, branch);
      assert forall server :: server in roster <==> server in front || server == last;
    }
  }

  /** The rows of one complete listing, one after the other. */
  method AddBranches(rows: seq<Row<string>>, before: set<string>) returns (names: set<string>)
    requires AllItems(rows)
    ensures names == before + Branches(rows)
  {
    names := before;
    for k := 0 to |rows|
      invariant names == before + Branches(rows[..k])
    {
      assert rows[..k + 1] == rows[..k] + [rows[k]];
      names := names + {rows[k].body};
    }
    assert rows[..|rows|] == rows;
  }

  method ActiveBranchesOnce(roster: Roster) returns (r: Outcome<string>, names: set<string>)
    ensures r.Done? <==> RosterComplete(roster)
    ensures r.Done? ==> forall x :: x in names <==> Unfinished(roster, x)
    ensures r.Changed? <==> RosterDrifted(roster)
  {
    names := {};
    for s := 0 to |roster|
      invariant RosterComplete(roster[..s]) && names == RosterBranches(roster[..s])
    {
      assert roster[..s + 1][..s] == roster[..s] && roster[..s + 1] == roster[..s] + [roster[s]];
      var outcome, pages := ReadPages(roster[s], 0, MAX_RUNS);
      if !outcome.Done? {
        FirstUnread(roster, s);
        r := if outcome.Changed? then Changed else Failed;
        return;
      }
      names := AddBranches(outcome.items, names);
    }
    assert roster[..|roster|] == roster;
    NoDriftWhenComplete(roster);
    forall x ensures x in names <==> Unfinished(roster, x) { RosterNames(roster, x); }
    r := Done([]);
  }

  lemma FirstUnread(roster: Roster, s: nat)
    requires s < |roster| && RosterComplete(roster[..s]) && !Complete(roster[s], 0, MAX_RUNS)
    ensures !RosterComplete(roster)
    ensures RosterDrifted(roster) <==> DriftFound(roster[s], 0, MAX_RUNS)
  {
    if RosterDrifted(roster) {
      var t :| 0 <= t < |roster| && RosterComplete(roster[..t]) && DriftFound(roster[t], 0, MAX_RUNS);
      if t < s {
        assert roster[..s][t] == roster[t];
        CompleteHasNoDrift(roster[t], 0, MAX_RUNS);
      }
    }
  }

  lemma NoDriftWhenComplete(roster: Roster)
    requires RosterComplete(roster)
    ensures !RosterDrifted(roster)
  {
    forall s | 0 <= s < |roster| ensures !DriftFound(roster[s], 0, MAX_RUNS) {
      CompleteHasNoDrift(roster[s], 0, MAX_RUNS);
    }
  }

  /** The first pass that did not drift, if it comes within three. */
  ghost predicate Settles(passes: nat -> Roster, n: nat) {
    n < 3 && !RosterDrifted(passes(n)) && forall i :: 0 <= i < n ==> RosterDrifted(passes(i))
  }

  /** Three passes at most; only a whole pass is ever returned, never pages of two. */
  method ActiveWorkflowBranches(passes: nat -> Roster) returns (r: Result<set<string>>)
    ensures r.Ok? <==> exists n :: Settles(passes, n) && RosterComplete(passes(n))
    ensures r.Ok? ==>
              exists n :: Settles(passes, n) && RosterComplete(passes(n))
                          && forall x :: x in r.value <==> Unfinished(passes(n), x)
  {
    for attempt := 0 to 3
      invariant forall i :: 0 <= i < attempt ==> RosterDrifted(passes(i))
    {
      var outcome, names := ActiveBranchesOnce(passes(attempt));
      if !outcome.Changed? {
        assert Settles(passes, attempt);
        SettlesOnce(passes, attempt);
        return if outcome.Done? then Ok(names) else Raised;
      }
    }
    return Raised;
  }

  lemma SettlesOnce(passes: nat -> Roster, n: nat)
    requires Settles(passes, n)
    ensures forall m :: Settles(passes, m) ==> m == n
  {
  }
}
