/**
 What a retention record contributes and what a cleanup plan decides, said of the record's
 text and the branch's fields alone.
 */
module RetentionRecords {
  import opened Branches
  import opened Options
  import opened Sequences
  import opened Text
  import opened BranchRetention

  // ---- Lines ----

  ghost predicate NoBreak(line: string) {
    forall k :: 0 <= k < |line| ==>
      line[k] !in {'\n', '\r', '\U{0B}', '\U{0C}', '\U{1C}', '\U{1D}', '\U{1E}', '\U{85}', '\U{2028}', '\U{2029}'}
  }

  lemma {:induction false} BreakAfter(line: string, rest: string)
    requires NoBreak(line) && (rest == "" || IsLineBreak(rest[0]))
    ensures BreakAt(line + rest) == |line|
  {
    if line == "" {
      assert line + rest == rest;
    } else {
      assert (line + rest)[1..] == line[1..] + rest;
      BreakAfter(line[1..], rest);
    }
  }

  /** Text is cut at every line break, of which CR and LF together are one; a last line needs none. */
  lemma SplitsAtBreaks(line: string, c: char, rest: string)
    requires NoBreak(line)
    ensures SplitLines(line) == if line == "" then [] else [line]
    ensures !NoBreak([c]) && !(c == '\r' && "\n" <= rest) ==>
              SplitLines(line + [c] + rest) == [line] + SplitLines(rest)
    ensures SplitLines(line + "\r\n" + rest) == [line] + SplitLines(rest)
  {
    BreakAfter(line, "");
    assert line + "" == line;
    if !NoBreak([c]) {
      BreakAfter(line, [c] + rest);
      var s := line + [c] + rest;
      assert line + ([c] + rest) == s && s[..|line|] == line && s[|line| + 1..] == rest;
    }
    BreakAfter(line, "\r\n" + rest);
    var s := line + "\r\n" + rest;
    assert line + ("\r\n" + rest) == s && s[..|line|] == line && s[|line| + 2..] == rest;
  }

  // ---- One record ----

  ghost predicate Newlines(s: string) {
    forall k :: 0 <= k < |s| ==> s[k] == '\n'
  }

  /** The record without the newlines around it. */
  ghost predicate Stripped(raw: string, record: string) {
    && (exists a, b :: Newlines(a) && Newlines(b) && raw == a + record + b)
    && (record != "" ==> record[0] != '\n' && record[|record| - 1] != '\n')
  }

  lemma {:induction false} DropsFirst(s: string, c: char) returns (i: nat)
    ensures i <= |s| && s[i..] == DropFirst(s, c) && forall k :: 0 <= k < i ==> s[k] == c
    ensures DropFirst(s, c) != "" ==> DropFirst(s, c)[0] != c
  {
    i := 0;
    if s != "" && s[0] == c {
      var j := DropsFirst(s[1..], c);
      i := j + 1;
    }
  }

  lemma {:induction false} DropsLast(s: string, c: char)
    ensures DropLast(s, c) <= s && forall k :: |DropLast(s, c)| <= k < |s| ==> s[k] == c
    ensures DropLast(s, c) != "" ==> DropLast(s, c)[|DropLast(s, c)| - 1] != c
  {
    if s != "" && s[|s| - 1] == c { DropsLast(s[..|s| - 1], c); }
  }

  lemma StripsNewlines(raw: string)
    ensures Stripped(raw, DropLast(DropFirst(raw, '\n'), '\n'))
  {
    var i := DropsFirst(raw, '\n');
    var front := DropFirst(raw, '\n');
    var record := DropLast(front, '\n');
    DropsLast(front, '\n');
    var a, b := raw[..i], front[|record|..];
    assert Newlines(a) && Newlines(b) && front == record + b && raw == a + record + b;
  }

  /** A branch name, a tab and a full commit id. */
  ghost predicate MappingLine(line: string, tip: Tip) {
    && line == tip.name + "\t" + tip.sha && tip.name != "" && '\t' !in tip.name && |tip.sha| == 40
    && forall k :: 0 <= k < 40 ==> '0' <= tip.sha[k] <= '9' || 'a' <= tip.sha[k] <= 'f'
  }

  lemma MappingIsLine(line: string, tip: Tip)
    ensures MappingOf(line) == Some(tip) <==> MappingLine(line, tip)
  {
    var n := IndexOf(line, '\t');
    if MappingOf(line) == Some(tip) {
      assert line == line[..n] + "\t" + line[n + 1..];
    }
    if MappingLine(line, tip) {
      IndexInJoined(tip.name, tip.sha, '\t');
      assert tip.name + ['\t'] + tip.sha == line;
      assert IndexOf(tip.name, '\t') == |tip.name|;
      assert line[..n] == tip.name && line[n + 1..] == tip.sha;
    }
  }

  /** The one title a retention commit of a merged pull request has. */
  ghost predicate RetentionTitle(title: string) {
    exists number: string ::
      && number != "" && number[0] != '0' && (forall k :: 0 <= k < |number| ==> '0' <= number[k] <= '9')
      && title == "Retain merged PR #" + number + " exact source after verified normal integration"
  }

  lemma CanonicalTitles(title: string)
    ensures IsCanonicalTitle(title) <==> RetentionTitle(title)
  {
    if IsCanonicalTitle(title) {
      var number := title[|TITLE_START|..|title| - |TITLE_END|];
      assert title == TITLE_START + number + TITLE_END;
    }
    if RetentionTitle(title) {
      var number: string :| number != "" && number[0] != '0'
                            && (forall k :: 0 <= k < |number| ==> '0' <= number[k] <= '9')
                            && title == TITLE_START + number + TITLE_END;
      assert title[|TITLE_START|..|title| - |TITLE_END|] == number;
    }
  }

  /** Exactly one of the lines maps a branch to a commit, and it is this mapping. */
  ghost predicate OnlyMapping(lines: seq<string>, tip: Tip) {
    exists k :: MapsAt(lines, tip, k) && forall j, other :: MapsAt(lines, other, j) ==> j == k
  }

  ghost predicate MapsAt(lines: seq<string>, tip: Tip, k: int) {
    0 <= k < |lines| && MappingLine(lines[k], tip)
  }

  lemma OneMapping(lines: seq<string>, tip: Tip)
    ensures SingleMapping(lines) == Some(tip) <==> OnlyMapping(lines, tip)
  {
    var maps := line => MappingOf(line).Some?;
    FilterOne(lines, maps);
    forall k, other ensures MapsAt(lines, other, k) <==> 0 <= k < |lines| && MappingOf(lines[k]) == Some(other) {
      if 0 <= k < |lines| { MappingIsLine(lines[k], other); }
    }
    if OnlyMapping(lines, tip) {
      var k :| MapsAt(lines, tip, k) && forall j, other :: MapsAt(lines, other, j) ==> j == k;
      forall j | 0 <= j < |lines| && maps(lines[j]) ensures j == k {
        assert MapsAt(lines, MappingOf(lines[j]).value, j);
      }
      assert OnlyAt(lines, maps, k);
    }
    if SingleMapping(lines) == Some(tip) {
      var k :| OnlyAt(lines, maps, k);
      assert MapsAt(lines, tip, k);
    }
  }

  /** A first line: up to the first newline, or everything. */
  ghost predicate FirstLineOf(message: string, title: string) {
    title <= message && '\n' !in title && (|title| < |message| ==> message[|title|] == '\n')
  }

  /** A message is an observation exactly when its title is canonical and one line is a mapping. */
  lemma ObservationMeans(at: int, message: string, title: string, tip: Tip)
    requires title == Split(message, '\n')[0]
    ensures !Observation(at, message).Bad?
    ensures (exists then_ :: Observation(at, message) == Seen(tip, then_)) <==>
            RetentionTitle(title) && OnlyMapping(SplitLines(message), tip)
    ensures Observation(at, message).Seen? ==> Observation(at, message).at == at
  {
    CanonicalTitles(title);
    OneMapping(SplitLines(message), tip);
    if Observation(at, message).Seen? && Observation(at, message).tip == tip {
      assert Observation(at, message) == Seen(tip, at);
    }
  }

  lemma FirstOfSplit(message: string)
    ensures FirstLineOf(message, Split(message, '\n')[0])
  {
    var m := IndexOf(message, '\n');
    assert Split(message, '\n')[0] == message[..m];
  }

  /**
   A record is a time and a message. One that is not blank raises without a time that can be
   read; it is an observation exactly when its title is canonical and one line is a mapping.
   */
  lemma RecordMeans(readInt: string -> Option<int>, raw: string, tip: Tip, at: int)
    returns (record: string, time: string, message: string, title: string)
    ensures Stripped(raw, record)
    ensures '\U{1F}' in record ==> record == time + "\U{1F}" + message && '\U{1F}' !in time
    ensures FirstLineOf(message, title)
    ensures ParseRecord(readInt, raw).Bad? <==>
            !AllSpace(record) && ('\U{1F}' !in record || readInt(time).None?)
    ensures ParseRecord(readInt, raw) == Seen(tip, at) <==>
            && !AllSpace(record) && '\U{1F}' in record && readInt(time) == Some(at)
            && RetentionTitle(title) && OnlyMapping(SplitLines(message), tip)
  {
    StripsNewlines(raw);
    record := DropLast(DropFirst(raw, '\n'), '\n');
    var n := IndexOf(record, FIELD_SEPARATOR);
    time, message := record[..n], if n < |record| then record[n + 1..] else "";
    title := Split(message, '\n')[0];
    FirstOfSplit(message);
    if n < |record| { assert record == time + "\U{1F}" + message; }
    if readInt(time).Some? { ObservationMeans(readInt(time).value, message, title, tip); }
  }

  // ---- The plan ----

  /** The branch is in use, or keeps the log itself. */
  ghost predicate InUse(roster: Roster, b: Branch) {
    || b.name == roster.defaultBranch || b.isProtected || b.name in roster.running
    || b.name == "provenance/branch-retention"
    || exists r :: r in roster.openRefs
                   && (r.base.name == b.name || (r.head.Some? && r.head.value.name == b.name))
  }

  lemma AnchorsAreInUse(roster: Roster, b: Branch)
    ensures IsAnchor(roster, b) <==> InUse(roster, b)
  {
  }

  /**
   A branch is deleted exactly when it is not in use, its very tip was observed at least the
   grace period ago, and that tip is reachable; it is archived exactly when it is not in use
   and its tip was never observed.
   */
  lemma DecidesExactly(
    roster: Roster, reachable: set<string>, observed: Observations, now: int, grace: int, b: Branch)
    ensures Decide(roster, reachable, observed, now, grace, b) == Delete <==>
            && !InUse(roster, b) && Tip(b.name, b.sha) in observed
            && observed[Tip(b.name, b.sha)] + grace <= now && b.sha in reachable
    ensures Decide(roster, reachable, observed, now, grace, b) == ArchiveKeep <==>
            !InUse(roster, b) && Tip(b.name, b.sha) !in observed
  {
    AnchorsAreInUse(roster, b);
  }

  /** The anchors are the tips of branches in use and both ends of open pull requests. */
  lemma AnchorsAre(roster: Roster, branches: seq<Branch>, c: Sha)
    ensures c in AnchorCommits(roster, branches) <==>
            || (exists b, d :: b in branches && b.sha == c && d in branches && d.name == b.name && InUse(roster, d))
            || exists r :: r in roster.openRefs && (r.base.sha == c || (r.head.Some? && r.head.value.sha == c))
  {
    var names := AnchorBranchNames(roster, branches);
    forall n ensures n in names <==> exists d :: d in branches && d.name == n && InUse(roster, d) {
      forall d ensures IsAnchor(roster, d) <==> InUse(roster, d) { AnchorsAreInUse(roster, d); }
    }
  }

  lemma AnchorsRaise(roster: Roster, branches: seq<Branch>)
    ensures AnchorShas(roster, branches).Raised? <==> forall c :: c !in AnchorCommits(roster, branches)
    ensures AnchorShas(roster, branches).Ok? ==>
              AnchorShas(roster, branches).value == AnchorCommits(roster, branches)
  {
    if AnchorCommits(roster, branches) != {} {
      var c :| c in AnchorCommits(roster, branches);
    }
  }

  /**
   Carrying a plan out removes a branch exactly when its deletion was reached, it is not in use,
   its tip was observed at least the grace period ago, and an anchor commit reaches that tip.
   */
  lemma WhatARoundLeaves(h: History, roster: Roster, branches: seq<Branch>, round: Round, b: Branch)
    requires OnePerName(branches)
    ensures var seen := roster.(running := round.running);
            b in AfterRound(h, roster, branches, round) <==>
              b in branches
              && !(b.name in round.reached && !InUse(seen, b) && Tip(b.name, b.sha) in round.observed
                   && round.observed[Tip(b.name, b.sha)] + round.grace <= round.now
                   && exists a :: a in AnchorCommits(seen, branches) && b.sha in h(a))
  {
    var seen := roster.(running := round.running);
    AnchorsRaise(seen, branches);
    if AnchorShas(seen, branches).Ok? && b in branches {
      var reachable := ReachableCommits(h, AnchorCommits(seen, branches));
      DecidesExactly(seen, reachable, round.observed, round.now, round.grace, b);
      assert b.name in PlannedFor(h, seen, branches, round) <==>
             Decide(seen, reachable, round.observed, round.now, round.grace, b) == Delete;
    }
  }
}
