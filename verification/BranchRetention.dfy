/**
 The read-only retention planner: the log of first observations, the anchors, and
 the decision which stale branch tips may go.
 */
module BranchRetention {
  import opened Branches
  import opened Options
  import opened Sequences
  import opened Text

  const RETENTION_BRANCH := "provenance/branch-retention"
  const RECORD_SEPARATOR := '\U{1E}'
  const FIELD_SEPARATOR := '\U{1F}'

  type Observations = map<Tip, int>

  // ---- One record ----

  function DropFirst(s: string, c: char): string {
    if s != "" && s[0] == c then DropFirst(s[1..], c) else s
  }

  function DropLast(s: string, c: char): string {
    if s != "" && s[|s| - 1] == c then DropLast(s[..|s| - 1], c) else s
  }

  predicate IsLineBreak(c: char) {
    c in {'\n', '\r', '\U{0B}', '\U{0C}', '\U{1C}', '\U{1D}', '\U{1E}', '\U{85}', '\U{2028}', '\U{2029}'}
  }

  function BreakAt(s: string): (n: nat)
    ensures n <= |s| && (n < |s| ==> IsLineBreak(s[n]))
  {
    if s == "" || IsLineBreak(s[0]) then 0 else 1 + BreakAt(s[1..])
  }

  function SplitLines(s: string): seq<string>
    decreases |s|
  {
    var n := BreakAt(s);
    if s == "" then []
    else if n == |s| then [s]
    else
      var skip := if s[n] == '\r' && n + 1 < |s| && s[n + 1] == '\n' then 2 else 1;
      [s[..n]] + SplitLines(s[n + skip..])
  }

  const TITLE_START := "Retain merged PR #"
  const TITLE_END := " exact source after verified normal integration"

  /** The one canonical title: a pull-request number without leading zeros in the middle. */
  predicate IsCanonicalTitle(title: string) {
    && |TITLE_START| + |TITLE_END| < |title| && TITLE_START <= title && EndsWith(title, TITLE_END)
    && var number := title[|TITLE_START|..|title| - |TITLE_END|];
       number[0] != '0' && forall k :: 0 <= k < |number| ==> '0' <= number[k] <= '9'
  }

  function MappingOf(line: string): Option<Tip> {
    var n := IndexOf(line, '\t');
    if n < |line| && n > 0 && IsHex(line[n + 1..], 40) then Some(Tip(line[..n], line[n + 1..])) else None
  }

  /** The one mapping among the lines; None when there is none, or more than one. */
  function SingleMapping(lines: seq<string>): Option<Tip> {
    var mappings := Filter(lines, line => MappingOf(line).Some?);
    if |mappings| == 1 then MappingOf(mappings[0]) else None
  }

  /** What one record contributes; Bad where the source raises. */
  datatype Parsed = Skip | Bad | Seen(tip: Tip, at: int)

  function Observation(at: int, message: string): Parsed {
    if !IsCanonicalTitle(Split(message, '\n')[0]) then Skip
    else
      var mapping := SingleMapping(SplitLines(message));
      if mapping.None? then Skip else Seen(mapping.value, at)
  }

  function ParseRecord(readInt: string -> Option<int>, raw: string): Parsed {
    var record := DropLast(DropFirst(raw, '\n'), '\n');
    var n := IndexOf(record, FIELD_SEPARATOR);
    if AllSpace(record) then Skip
    else if n == |record| then Bad
    else
      var timestamp, message := readInt(record[..n]), record[n + 1..];
      if timestamp.None? then Bad else Observation(timestamp.value, message)
  }

  // ---- The log ----

  function Observe(seen: Observations, tip: Tip, at: int): Observations {
    seen[tip := if tip in seen && seen[tip] < at then seen[tip] else at]
  }

  /** The fold over the parsed records; the loop below computes it. */
  function Collect(parsed: seq<Parsed>): Result<Observations> {
    if parsed == [] then Ok(map[])
    else
      var front, last := Collect(parsed[..|parsed| - 1]), parsed[|parsed| - 1];
      if front.Raised? || last.Bad? then Raised
      else if last.Skip? then front
      else Ok(Observe(front.value, last.tip, last.at))
  }

  function ParseAll(readInt: string -> Option<int>, records: seq<string>): seq<Parsed> {
    seq(|records|, k requires 0 <= k < |records| => ParseRecord(readInt, records[k]))
  }

  function ParseLog(readInt: string -> Option<int>, log: string): Result<Observations> {
    Collect(ParseAll(readInt, Split(log, RECORD_SEPARATOR)))
  }

  method ParseRetentionLog(readInt: string -> Option<int>, log: string) returns (r: Result<Observations>)
    ensures r == ParseLog(readInt, log)
  {
    var records := Split(log, RECORD_SEPARATOR);
    ghost var all := ParseAll(readInt, records);
    var observed: Observations := map[];
    for k := 0 to |records|
      invariant Collect(all[..k]) == Ok(observed)
    {
      CollectStep(all, k, observed);
      var parsed := ParseRecord(readInt, records[k]);
      if parsed.Bad? {
        return Raised;
      }
      if parsed.Seen? {
        var earlier := parsed.tip in observed && observed[parsed.tip] < parsed.at;
        observed := observed[parsed.tip := if earlier then observed[parsed.tip] else parsed.at];
      }
    }
    assert all[..|records|] == all;
    return Ok(observed);
  }

  /** One turn of the loop; a bad record decides the whole. */
  lemma CollectStep(parsed: seq<Parsed>, k: nat, observed: Observations)
    requires k < |parsed| && Collect(parsed[..k]) == Ok(observed)
    ensures parsed[k].Bad? ==> Collect(parsed).Raised?
    ensures parsed[k].Skip? ==> Collect(parsed[..k + 1]) == Ok(observed)
    ensures parsed[k].Seen? ==> Collect(parsed[..k + 1]) == Ok(Observe(observed, parsed[k].tip, parsed[k].at))
  {
    assert parsed[..k + 1][..k] == parsed[..k];
    if parsed[k].Bad? { RaisesFromHere(parsed, k + 1); }
  }

  lemma {:induction false} RaisesFromHere(parsed: seq<Parsed>, k: nat)
    requires k <= |parsed| && Collect(parsed[..k]).Raised?
    ensures Collect(parsed).Raised?
  {
    if k < |parsed| {
      var front := parsed[..|parsed| - 1];
      assert front[..k] == parsed[..k];
      RaisesFromHere(front, k);
    } else {
      assert parsed[..k] == parsed;
    }
  }

  // ---- What the log means, without the fold ----

  /** The map holds, for every observed tip and no other, its least observation time. */
  ghost predicate Earliest(parsed: seq<Parsed>, seen: Observations) {
    && (forall tip :: tip in seen ==> Seen(tip, seen[tip]) in parsed)
    && (forall tip, at :: Seen(tip, at) in parsed ==> tip in seen && seen[tip] <= at)
  }

  lemma {:induction false} CollectMeaning(parsed: seq<Parsed>)
    ensures Collect(parsed).Raised? <==> Bad in parsed
    ensures Collect(parsed).Ok? ==> Earliest(parsed, Collect(parsed).value)
  {
    if parsed != [] {
      var front, last := parsed[..|parsed| - 1], parsed[|parsed| - 1];
      CollectMeaning(front);
      assert parsed == front + [last];
    }
  }

  /** The two conditions leave no choice, and depend only on which records there are. */
  lemma EarliestIsUnique(a: seq<Parsed>, b: seq<Parsed>, m: Observations, n: Observations)
    requires forall p :: p in a <==> p in b
    requires Earliest(a, m) && Earliest(b, n)
    ensures m == n
  {
    forall tip | tip in m ensures tip in n && n[tip] <= m[tip] {
      assert Seen(tip, m[tip]) in b;
    }
    forall tip | tip in n ensures tip in m && m[tip] <= n[tip] {
      assert Seen(tip, n[tip]) in a;
    }
  }

  function Lesser(x: int, y: int): int {
    if x < y then x else y
  }

  /** Pointwise minimum of two observation maps. */
  function Merge(m: Observations, n: Observations): Observations {
    map tip | tip in m.Keys + n.Keys ::
      if tip !in n then m[tip] else if tip !in m then n[tip] else Lesser(m[tip], n[tip])
  }

  /** What two logs say together: the earlier time wins, and either malformed record raises. */
  function Joined(a: Result<Observations>, b: Result<Observations>): Result<Observations> {
    if a.Ok? && b.Ok? then Ok(Merge(a.value, b.value)) else Raised
  }

  lemma ParseAllConcat(readInt: string -> Option<int>, a: seq<string>, b: seq<string>)
    ensures ParseAll(readInt, a + b) == ParseAll(readInt, a) + ParseAll(readInt, b)
  {
    var whole, parts := ParseAll(readInt, a + b), ParseAll(readInt, a) + ParseAll(readInt, b);
    forall k | 0 <= k < |whole| ensures whole[k] == parts[k] {
      assert (a + b)[k] == if k < |a| then a[k] else b[k - |a|];
    }
  }

  /** Parsing two logs joined by the record separator merges what the two logs say. */
  lemma ParseIsHomomorphic(readInt: string -> Option<int>, a: string, b: string)
    ensures ParseLog(readInt, a + [RECORD_SEPARATOR] + b) == Joined(ParseLog(readInt, a), ParseLog(readInt, b))
  {
    SplitJoined(a, b, RECORD_SEPARATOR);
    var ra, rb := Split(a, RECORD_SEPARATOR), Split(b, RECORD_SEPARATOR);
    ParseAllConcat(readInt, ra, rb);
    CollectConcat(ParseAll(readInt, ra), ParseAll(readInt, rb));
  }

  lemma CollectConcat(a: seq<Parsed>, b: seq<Parsed>)
    ensures Collect(a + b) == Joined(Collect(a), Collect(b))
  {
    CollectMeaning(a);
    CollectMeaning(b);
    CollectMeaning(a + b);
    assert forall p :: p in a + b <==> p in a || p in b;
    if Bad !in a && Bad !in b {
      MergeIsEarliest(a, b, Collect(a).value, Collect(b).value);
      EarliestIsUnique(a + b, a + b, Collect(a + b).value, Merge(Collect(a).value, Collect(b).value));
    }
  }

  lemma MergeIsEarliest(a: seq<Parsed>, b: seq<Parsed>, m: Observations, n: Observations)
    requires Earliest(a, m) && Earliest(b, n)
    ensures Earliest(a + b, Merge(m, n))
  {
    var both := Merge(m, n);
    forall tip | tip in both ensures Seen(tip, both[tip]) in a + b {
      if tip in m && both[tip] == m[tip] {
        assert Seen(tip, m[tip]) in a;
      } else {
        assert Seen(tip, n[tip]) in b;
      }
    }
    forall tip, at | Seen(tip, at) in a + b ensures tip in both && both[tip] <= at {
      assert Seen(tip, at) in a || Seen(tip, at) in b;
    }
  }

  /** Neither the order nor the repetition of records matters. */
  lemma RecordOrderIsIrrelevant(readInt: string -> Option<int>, a: seq<string>, b: seq<string>)
    requires forall record :: record in a <==> record in b
    ensures Collect(ParseAll(readInt, a)) == Collect(ParseAll(readInt, b))
  {
    var pa, pb := ParseAll(readInt, a), ParseAll(readInt, b);
    SameParses(readInt, a, b);
    SameParses(readInt, b, a);
    CollectMeaning(pa);
    CollectMeaning(pb);
    if Bad !in pa {
      EarliestIsUnique(pa, pb, Collect(pa).value, Collect(pb).value);
    }
  }

  lemma SameParses(readInt: string -> Option<int>, a: seq<string>, b: seq<string>)
    requires forall record :: record in a ==> record in b
    ensures forall p :: p in ParseAll(readInt, a) ==> p in ParseAll(readInt, b)
  {
    var pa, pb := ParseAll(readInt, a), ParseAll(readInt, b);
    forall k | 0 <= k < |pa| ensures pa[k] in pb {
      assert a[k] in b;
      var j :| 0 <= j < |b| && b[j] == a[k];
      assert pb[j] == pa[k];
    }
  }

  // ---- The planner ----

  datatype Action = Keep | ArchiveKeep | Delete

  /** The roster a planning call sees. */
  datatype Roster = Roster(
    defaultBranch: string, openRefs: seq<OpenPullRequest>, running: set<string>)

  predicate IsAnchor(roster: Roster, b: Branch) {
    b.name == roster.defaultBranch || b.isProtected || b.name in OpenNames(roster.openRefs)
    || b.name in roster.running || b.name == RETENTION_BRANCH
  }

  function AnchorBranchNames(roster: Roster, branches: seq<Branch>): set<string> {
    set b | b in branches && IsAnchor(roster, b) :: b.name
  }

  /** Tips of the anchor branches and both ends of open pull requests; the source raises when there is none. */
  function AnchorCommits(roster: Roster, branches: seq<Branch>): set<Sha> {
    var names := AnchorBranchNames(roster, branches);
    (set b | b in branches && b.name in names :: b.sha)
    + (set r | r in roster.openRefs :: r.base.sha)
    + (set r | r in roster.openRefs && r.head.Some? :: r.head.value.sha)
  }

  function AnchorShas(roster: Roster, branches: seq<Branch>): Result<set<Sha>> {
    var shas := AnchorCommits(roster, branches);
    if shas == {} then Raised else Ok(shas)
  }

  function Decide(
    roster: Roster, reachable: set<string>, observed: Observations, now: int, grace: int, b: Branch): Action
  {
    if b.name == roster.defaultBranch then Keep
    else if b.isProtected then Keep
    else if b.name in OpenNames(roster.openRefs) then Keep
    else if b.name in roster.running then Keep
    else if b.name == RETENTION_BRANCH then Keep
    else if Tip(b.name, b.sha) !in observed then ArchiveKeep
    else if now - observed[Tip(b.name, b.sha)] < grace then Keep
    else if b.sha in reachable then Delete
    else Keep
  }

  /** The names a plan over the branches deletes. */
  function Deletions(
    roster: Roster, branches: seq<Branch>, reachable: set<string>, observed: Observations, now: int, grace: int)
    : set<string>
  {
    set b | b in branches && Decide(roster, reachable, observed, now, grace, b) == Delete :: b.name
  }

  /** One branch per name. */
  ghost predicate OnePerName(branches: seq<Branch>) {
    forall a, b :: a in branches && b in branches && a.name == b.name ==> a == b
  }

  /** With one branch per name, no anchor is deleted, and the deleted tips hang off the anchors. */
  lemma AnchorsAreKept(
    roster: Roster, branches: seq<Branch>, reachable: set<string>, observed: Observations, now: int, grace: int)
    requires OnePerName(branches)
    ensures Deletions(roster, branches, reachable, observed, now, grace) !! AnchorBranchNames(roster, branches)
    ensures forall b :: b in branches && b.name in Deletions(roster, branches, reachable, observed, now, grace) ==>
              b.sha in reachable
  {
    var deleted := Deletions(roster, branches, reachable, observed, now, grace);
    forall b | b in branches && b.name in deleted ensures b.sha in reachable && !IsAnchor(roster, b) {
      var d :| d in branches && Decide(roster, reachable, observed, now, grace, d) == Delete && d.name == b.name;
      assert d == b;
    }
  }

  /** The commits the anchor commits reach: what the plan takes as reachable. */
  function ReachableCommits(h: History, shas: set<Sha>): set<Sha> {
    set a, c | a in shas && c in h(a) :: c
  }

  ghost predicate AtPullRequest(h: History, refs: seq<OpenPullRequest>, c: Sha) {
    exists r :: r in refs && (c in h(r.base.sha) || (r.head.Some? && c in h(r.head.value.sha)))
  }

  /** What these branches, or the ends of the open pull requests, reach. */
  ghost predicate Held(h: History, refs: seq<OpenPullRequest>, branches: seq<Branch>, c: Sha) {
    (exists b :: b in branches && c in h(b.sha)) || AtPullRequest(h, refs, c)
  }

  function Remaining(branches: seq<Branch>, deleted: set<string>): (kept: seq<Branch>)
    ensures forall b :: b in kept <==> b in branches && b.name !in deleted
  {
    if branches == [] then []
    else
      var rest := Remaining(branches[1..], deleted);
      if branches[0].name in deleted then rest else [branches[0]] + rest
  }

  /** What a plan deletes that takes reachability from the anchors; nothing without an anchor. */
  function PlannedFor(h: History, roster: Roster, branches: seq<Branch>, round: Round): set<string> {
    var anchors := AnchorShas(roster, branches);
    if anchors.Raised? then {}
    else Deletions(roster, branches, ReachableCommits(h, anchors.value), round.observed, round.now, round.grace)
  }

  /** One cleanup: what its plan goes by, and which of the planned deletions are carried out. */
  datatype Round = Round(running: set<string>, observed: Observations, now: int, grace: int, reached: set<string>)

  /** The branches left once part of a plan has been carried out. */
  function AfterRound(h: History, roster: Roster, branches: seq<Branch>, round: Round): seq<Branch> {
    Remaining(branches, PlannedFor(h, roster.(running := round.running), branches, round) * round.reached)
  }

  /**
   A plan loses no commit, whichever of its deletions are carried out: branches and open
   pull requests reach exactly what they reached before.
   */
  lemma CleanupConserves(h: History, roster: Roster, branches: seq<Branch>, round: Round, c: Sha)
    requires IsHistory(h) && OnePerName(branches)
    ensures Held(h, roster.openRefs, AfterRound(h, roster, branches, round), c)
       <==> Held(h, roster.openRefs, branches, c)
  {
    var seen, left := roster.(running := round.running), AfterRound(h, roster, branches, round);
    if b :| b in branches && c in h(b.sha) && b !in left {
      var anchors := AnchorShas(seen, branches).value;
      var planned := PlannedFor(h, seen, branches, round);
      AnchorsAreKept(seen, branches, ReachableCommits(h, anchors), round.observed, round.now, round.grace);
      var a :| a in anchors && b.sha in h(a);
      assert h(b.sha) <= h(a);
      AnchorIsHeld(h, seen, branches, planned, a);
    }
  }

  /** An anchor commit is the tip of a branch that is kept, or an end of an open pull request. */
  lemma AnchorIsHeld(h: History, roster: Roster, branches: seq<Branch>, deleted: set<string>, a: Sha)
    requires AnchorShas(roster, branches).Ok? && a in AnchorShas(roster, branches).value
    requires deleted !! AnchorBranchNames(roster, branches)
    ensures || (exists b :: b in branches && b.name !in deleted && b.sha == a)
            || (exists r :: r in roster.openRefs && (r.base.sha == a || (r.head.Some? && r.head.value.sha == a)))
  {
  }

  function AfterRounds(h: History, roster: Roster, branches: seq<Branch>, rounds: seq<Round>): seq<Branch> {
    if rounds == [] then branches
    else AfterRound(h, roster, AfterRounds(h, roster, branches, rounds[..|rounds| - 1]), rounds[|rounds| - 1])
  }

  /**
   However often a plan is made and carried out in part, at whatever times, with whatever observations
   and running workflows: as long as the pull requests stay open no commit is lost.
   */
  lemma {:induction false} RepeatedCleanupConserves(
    h: History, roster: Roster, branches: seq<Branch>, rounds: seq<Round>, c: Sha)
    requires IsHistory(h) && OnePerName(branches)
    ensures OnePerName(AfterRounds(h, roster, branches, rounds))
    ensures Held(h, roster.openRefs, AfterRounds(h, roster, branches, rounds), c)
       <==> Held(h, roster.openRefs, branches, c)
  {
    if rounds != [] {
      var earlier := rounds[..|rounds| - 1];
      RepeatedCleanupConserves(h, roster, branches, earlier, c);
      CleanupConserves(h, roster, AfterRounds(h, roster, branches, earlier), rounds[|rounds| - 1], c);
    }
  }

  /** A deletable branch stays deletable while only time passes. */
  lemma DeletionIsMonotone(
    roster: Roster, branches: seq<Branch>, reachable: set<string>, observed: Observations,
    now: int, later: int, grace: int)
    requires now <= later
    ensures Deletions(roster, branches, reachable, observed, now, grace)
         <= Deletions(roster, branches, reachable, observed, later, grace)
  {
    forall name | name in Deletions(roster, branches, reachable, observed, now, grace)
      ensures name in Deletions(roster, branches, reachable, observed, later, grace)
    {
      var b :| b in branches && Decide(roster, reachable, observed, now, grace, b) == Delete && b.name == name;
      assert Decide(roster, reachable, observed, later, grace, b) == Delete;
    }
  }

  /** More log records never delay a deletion, if the first observation only gets earlier. */
  lemma MoreRecordsDeleteNoLater(
    roster: Roster, branches: seq<Branch>, reachable: set<string>, seen: Observations, more: Observations,
    now: int, grace: int)
    ensures Deletions(roster, branches, reachable, seen, now, grace)
         <= Deletions(roster, branches, reachable, Merge(seen, more), now, grace)
  {
    forall name | name in Deletions(roster, branches, reachable, seen, now, grace)
      ensures name in Deletions(roster, branches, reachable, Merge(seen, more), now, grace)
    {
      var b :| b in branches && Decide(roster, reachable, seen, now, grace, b) == Delete && b.name == name;
      assert Decide(roster, reachable, Merge(seen, more), now, grace, b) == Delete;
    }
  }
}
