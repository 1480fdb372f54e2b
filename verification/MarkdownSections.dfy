/**
 Heading scan and section extraction of the guide's Markdown contract.

 Text is a sequence of characters whose only white space is space, tab, CR and
 LF; CR and CRLF are normalised to LF before anything else happens.
 */
module MarkdownSections {
  import opened Options
  import opened Text

  datatype Fence = Outside | Inside(mark: char, length: nat)

  datatype Title = Title(level: nat, text: string)

  datatype Heading = Heading(index: nat, level: nat, title: string)

  datatype Extraction = Section(text: string) | MissingHeading | DuplicateHeading

  predicate IsBlank(c: char) {
    c == ' ' || c == '\t' || c == '\n'
  }

  // ---- Characters, runs and trimming ----

  function RStrip(t: string): string {
    if t != "" && IsBlank(t[|t| - 1]) then RStrip(t[..|t| - 1]) else t
  }

  function LStrip(t: string): string {
    if t != "" && IsBlank(t[0]) then LStrip(t[1..]) else t
  }

  function Strip(t: string): string {
    RStrip(LStrip(t))
  }

  ghost predicate AllBlank(t: string) {
    forall k :: 0 <= k < |t| ==> IsBlank(t[k])
  }

  // ---- One line ----

  /** The opening run of a fence line: at least three backticks or tildes after blanks. */
  function FenceMarker(line: string): Option<(char, nat)> {
    var body := LStrip(line);
    if body == "" || body[0] !in {'`', '~'} then None
    else
      var n := RunLength(body, body[0]);
      if n >= 3 then Some((body[0], n)) else None
  }

  function Body(line: string): string {
    if line != "" && line[|line| - 1] == '\n' then line[..|line| - 1] else line
  }

  /** Drop a closing sequence of hashes, if blanks separate it from the title. */
  function DropClosingHashes(title: string): string {
    var stem := TrimHashes(title);
    if stem != "" && stem != title && IsBlank(stem[|stem| - 1]) then Strip(stem) else title
  }

  function TrimHashes(t: string): string {
    if t != "" && t[|t| - 1] == '#' then TrimHashes(t[..|t| - 1]) else t
  }

  function HeadingOfBody(body: string): Option<Title> {
    var level := RunLength(body, '#');
    var rest := body[level..];
    if 1 <= level <= 6 && |rest| >= 2 && IsBlank(rest[0])
    then Some(Title(level, DropClosingHashes(Strip(rest))))
    else None
  }

  function ParseHeading(line: string): Option<Title> {
    HeadingOfBody(Body(line))
  }

  function NextFence(fence: Fence, line: string): Fence {
    match FenceMarker(line)
    case None => fence
    case Some((mark, length)) =>
      match fence
      case Outside => Inside(mark, length)
      case Inside(m, n) => if mark == m && length >= n then Outside else fence
  }

  // ---- A whole text ----

  function LineLength(text: string): (n: nat)
    requires text != ""
    ensures 1 <= n <= |text|
    ensures forall k :: 0 <= k < n - 1 ==> text[k] != '\n'
    ensures n < |text| ==> text[n - 1] == '\n'
  {
    if text[0] == '\n' || |text| == 1 then 1 else 1 + LineLength(text[1..])
  }

  function Lines(text: string): seq<string> {
    if text == "" then []
    else
      var n := LineLength(text);
      [text[..n]] + Lines(text[n..])
  }

  function Concat(lines: seq<string>): string {
    if lines == [] then "" else lines[0] + Concat(lines[1..])
  }

  /** The fence state before line i. */
  function FenceAt(lines: seq<string>, i: nat): Fence
    requires i <= |lines|
  {
    if i == 0 then Outside else NextFence(FenceAt(lines, i - 1), lines[i - 1])
  }

  function HeadingAt(lines: seq<string>, i: nat): Option<Title>
    requires i < |lines|
  {
    if FenceMarker(lines[i]).Some? || FenceAt(lines, i).Inside? then None else ParseHeading(lines[i])
  }

  /** For every line, the heading it is, if it is one. */
  type Marks = seq<Option<Title>>

  function MarksOf(lines: seq<string>): (marks: Marks)
    ensures |marks| == |lines|
  {
    MarksBefore(lines, |lines|)
  }

  function MarksBefore(lines: seq<string>, n: nat): (marks: Marks)
    requires n <= |lines|
    ensures |marks| == n
  {
    if n == 0 then [] else MarksBefore(lines, n - 1) + [HeadingAt(lines, n - 1)]
  }

  lemma {:induction false} MarkOf(lines: seq<string>, n: nat, i: nat)
    requires i < n <= |lines|
    ensures MarksBefore(lines, n)[i] == HeadingAt(lines, i)
  {
    if i < n - 1 { MarkOf(lines, n - 1, i); }
  }

  /** The headings among the first n lines, in line order. */
  function HeadingList(marks: Marks, n: nat): seq<Heading>
    requires n <= |marks|
  {
    if n == 0 then []
    else if marks[n - 1].None? then HeadingList(marks, n - 1)
    else HeadingList(marks, n - 1) + [Heading(n - 1, marks[n - 1].value.level, marks[n - 1].value.text)]
  }

  function Titled(headings: seq<Heading>, title: string): seq<Heading> {
    if headings == [] then []
    else
      var earlier := Titled(headings[..|headings| - 1], title);
      var last := headings[|headings| - 1];
      if last.title == title then earlier + [last] else earlier
  }

  /** The first heading after line `start` that is not below `level`. */
  function FirstEnd(headings: seq<Heading>, start: nat, level: nat): Option<nat> {
    if headings == [] then None
    else
      var earlier := FirstEnd(headings[..|headings| - 1], start, level);
      var last := headings[|headings| - 1];
      if earlier.Some? then earlier
      else if last.index > start && last.level <= level then Some(last.index)
      else None
  }

  function ExtractFromLines(lines: seq<string>, heading: string): Extraction {
    var headings := HeadingList(MarksOf(lines), |lines|);
    var matches := Titled(headings, heading);
    if matches == [] then MissingHeading
    else if |matches| > 1 then DuplicateHeading
    else
      var start, end := matches[0].index, FirstEnd(headings, matches[0].index, matches[0].level);
      var stop := if end.Some? then end.value else |lines|;
      if start <= stop <= |lines| then Section(RStrip(Concat(lines[start..stop])) + "\n")
      else MissingHeading
  }

  function Extract(text: string, heading: string): Extraction {
    ExtractFromLines(Lines(NormalizeNewlines(text)), heading)
  }

  // ---- The source's loops ----

  method Headings(text: string) returns (lines: seq<string>, headings: seq<Heading>)
    ensures lines == Lines(NormalizeNewlines(text))
    ensures headings == HeadingList(MarksOf(lines), |lines|)
  {
    lines := Lines(NormalizeNewlines(text));
    headings := [];
    var fence := Outside;
    for index := 0 to |lines|
      invariant fence == FenceAt(lines, index)
      invariant headings == HeadingList(MarksOf(lines), index)
    {
      MarkOf(lines, |lines|, index);
      var line := lines[index];
      var marker := FenceMarker(line);
      if marker.Some? {
        if fence.Outside? {
          fence := Inside(marker.value.0, marker.value.1);
        } else if marker.value.0 == fence.mark && marker.value.1 >= fence.length {
          fence := Outside;
        }
      } else if fence.Outside? {
        var parsed := ParseHeading(line);
        if parsed.Some? {
          headings := headings + [Heading(index, parsed.value.level, parsed.value.text)];
        }
      }
    }
  }

  method ExtractMarkdownSection(text: string, heading: string) returns (r: Extraction)
    ensures r == Extract(text, heading)
  {
    var lines, headings := Headings(text);
    var matches := Titled(headings, heading);
    if matches == [] {
      return MissingHeading;
    }
    if |matches| > 1 {
      return DuplicateHeading;
    }
    var end := SectionStop(headings, matches[0].index, matches[0].level, |lines|);
    SingleMatch(MarksOf(lines), heading, |lines|, matches[0]);
    EndBounds(MarksOf(lines), matches[0].index, matches[0].level, |lines|);
    r := Section(RStrip(Concat(lines[matches[0].index..end])) + "\n");
  }

  method SectionStop(headings: seq<Heading>, start: nat, level: nat, default: nat) returns (end: nat)
    ensures end == var found := FirstEnd(headings, start, level);
                   if found.Some? then found.value else default
  {
    end := default;
    for k := 0 to |headings|
      invariant end == default && FirstEnd(headings[..k], start, level) == None
    {
      assert headings[..k + 1][..k] == headings[..k];
      if headings[k].index > start && headings[k].level <= level {
        end := headings[k].index;
        FirstEndStays(headings, k + 1, start, level);
        return;
      }
    }
    assert headings[..|headings|] == headings;
  }

  lemma {:induction false} FirstEndStays(headings: seq<Heading>, k: nat, start: nat, level: nat)
    requires k <= |headings| && FirstEnd(headings[..k], start, level).Some?
    ensures FirstEnd(headings, start, level) == FirstEnd(headings[..k], start, level)
  {
    if k < |headings| {
      var front := headings[..|headings| - 1];
      assert front[..k] == headings[..k];
      FirstEndStays(front, k, start, level);
    } else {
      assert headings[..k] == headings;
    }
  }

  // ---- The list functions in terms of single lines ----

  predicate IsMatch(marks: Marks, i: nat, heading: string) {
    i < |marks| && marks[i].Some? && marks[i].value.text == heading
  }

  lemma TitledAppend(headings: seq<Heading>, last: Heading, title: string)
    ensures Titled(headings + [last], title)
         == if last.title == title then Titled(headings, title) + [last] else Titled(headings, title)
  {
    assert (headings + [last])[..|headings|] == headings;
  }

  lemma FirstEndAppend(headings: seq<Heading>, last: Heading, start: nat, level: nat)
    ensures FirstEnd(headings + [last], start, level) ==
            if FirstEnd(headings, start, level).Some? then FirstEnd(headings, start, level)
            else if last.index > start && last.level <= level then Some(last.index) else None
  {
    assert (headings + [last])[..|headings|] == headings;
  }

  lemma {:induction false} NoMatch(marks: Marks, heading: string, n: nat)
    requires n <= |marks|
    ensures Titled(HeadingList(marks, n), heading) == []
       <==> forall i :: 0 <= i < n ==> !IsMatch(marks, i, heading)
  {
    if n > 0 {
      NoMatch(marks, heading, n - 1);
      if IsMatch(marks, n - 1, heading) {
        TitledHit(marks, heading, n);
      } else {
        TitledQuiet(marks, heading, n);
      }
    }
  }

  lemma TitledStep(marks: Marks, heading: string, n: nat)
    requires 0 < n <= |marks|
    ensures var before, after := Titled(HeadingList(marks, n - 1), heading), Titled(HeadingList(marks, n), heading);
            if IsMatch(marks, n - 1, heading)
            then after == before + [Heading(n - 1, marks[n - 1].value.level, heading)]
            else after == before
  {
    if marks[n - 1].Some? {
      var last := Heading(n - 1, marks[n - 1].value.level, marks[n - 1].value.text);
      TitledAppend(HeadingList(marks, n - 1), last, heading);
    }
  }

  lemma TitledQuiet(marks: Marks, heading: string, n: nat)
    requires 0 < n <= |marks| && !IsMatch(marks, n - 1, heading)
    ensures Titled(HeadingList(marks, n), heading) == Titled(HeadingList(marks, n - 1), heading)
  {
    TitledStep(marks, heading, n);
  }

  lemma TitledHit(marks: Marks, heading: string, n: nat)
    requires 0 < n <= |marks| && IsMatch(marks, n - 1, heading)
    ensures Titled(HeadingList(marks, n), heading)
            == Titled(HeadingList(marks, n - 1), heading) + [Heading(n - 1, marks[n - 1].value.level, heading)]
  {
    TitledStep(marks, heading, n);
  }

  /** The heading is the only match among the first n lines. */
  ghost predicate OnlyMatch(marks: Marks, heading: string, n: nat, only: Heading) {
    && only.index < n && IsMatch(marks, only.index, heading)
    && only.level == marks[only.index].value.level
    && forall i :: 0 <= i < n && IsMatch(marks, i, heading) ==> i == only.index
  }

  lemma LastOfOne<T>(front: seq<T>, last: T, only: T)
    requires front + [last] == [only]
    ensures front == [] && last == only
  {
    assert |front + [last]| == |front| + 1;
    assert (front + [last])[0] == last;
  }

  /** A single entry in the match list stands for the only matching line. */
  lemma {:induction false} SingleMatch(marks: Marks, heading: string, n: nat, only: Heading)
    requires n <= |marks| && Titled(HeadingList(marks, n), heading) == [only]
    ensures OnlyMatch(marks, heading, n, only)
  {
    if n == 0 {
      assert false;
    } else if IsMatch(marks, n - 1, heading) {
      TitledHit(marks, heading, n);
      LastOfOne(Titled(HeadingList(marks, n - 1), heading), Heading(n - 1, marks[n - 1].value.level, heading), only);
      NoMatch(marks, heading, n - 1);
    } else {
      TitledQuiet(marks, heading, n);
      SingleMatch(marks, heading, n - 1, only);
    }
  }

  lemma TitledFirst(marks: Marks, heading: string, n: nat)
    requires 0 < n <= |marks| && IsMatch(marks, n - 1, heading)
    requires Titled(HeadingList(marks, n - 1), heading) == []
    ensures Titled(HeadingList(marks, n), heading) == [Heading(n - 1, marks[n - 1].value.level, heading)]
  {
    TitledStep(marks, heading, n);
  }

  lemma {:induction false} UniqueMatch(marks: Marks, heading: string, s: nat, n: nat)
    requires s < n <= |marks| && IsMatch(marks, s, heading)
    requires forall i :: 0 <= i < n && IsMatch(marks, i, heading) ==> i == s
    ensures Titled(HeadingList(marks, n), heading) == [Heading(s, marks[s].value.level, heading)]
  {
    if s == n - 1 {
      NoMatch(marks, heading, n - 1);
      TitledFirst(marks, heading, n);
    } else {
      UniqueMatch(marks, heading, s, n - 1);
      TitledQuiet(marks, heading, n);
    }
  }

  /** No heading in from..to is at the given level or above. */
  ghost predicate Deeper(marks: Marks, from: nat, to: nat, level: nat) {
    to <= |marks| && forall j :: from <= j < to && marks[j].Some? ==> marks[j].value.level > level
  }

  /** What one more line does to the end found so far. */
  function NextEnd(earlier: Option<nat>, mark: Option<Title>, i: nat, start: nat, level: nat): Option<nat> {
    if earlier.None? && mark.Some? && i > start && mark.value.level <= level then Some(i) else earlier
  }

  lemma FirstEndStep(marks: Marks, start: nat, level: nat, n: nat)
    requires n < |marks|
    ensures FirstEnd(HeadingList(marks, n + 1), start, level)
         == NextEnd(FirstEnd(HeadingList(marks, n), start, level), marks[n], n, start, level)
  {
    var before := HeadingList(marks, n);
    if marks[n].None? {
      assert HeadingList(marks, n + 1) == before;
    } else {
      var last := Heading(n, marks[n].value.level, marks[n].value.text);
      assert HeadingList(marks, n + 1) == before + [last];
      FirstEndAppend(before, last, start, level);
    }
  }

  lemma {:induction false} EndBounds(marks: Marks, start: nat, level: nat, n: nat)
    requires n <= |marks|
    ensures EndsAt(marks, start, level, n, FirstEnd(HeadingList(marks, n), start, level))
  {
    if n > 0 {
      EndBounds(marks, start, level, n - 1);
      FirstEndStep(marks, start, level, n - 1);
      EndsAtStep(marks, start, level, n - 1, FirstEnd(HeadingList(marks, n - 1), start, level));
    }
  }

  lemma EndsAtStep(marks: Marks, start: nat, level: nat, n: nat, earlier: Option<nat>)
    requires n < |marks| && EndsAt(marks, start, level, n, earlier)
    ensures EndsAt(marks, start, level, n + 1, NextEnd(earlier, marks[n], n, start, level))
  {
  }

  ghost predicate EndsAt(marks: Marks, start: nat, level: nat, n: nat, end: Option<nat>)
    requires n <= |marks|
  {
    match end
    case None => Deeper(marks, start + 1, n, level)
    case Some(e) =>
      start < e < n && Deeper(marks, start + 1, e, level) && marks[e].Some? && marks[e].value.level <= level
  }

  // ---- Trimming and line structure ----

  lemma {:induction false} RStripPrefix(t: string)
    ensures RStrip(t) <= t && AllBlank(t[|RStrip(t)|..])
  {
    if t != "" && IsBlank(t[|t| - 1]) {
      var front, r := t[..|t| - 1], RStrip(t[..|t| - 1]);
      RStripPrefix(front);
      assert t[|r|..] == front[|r|..] + [t[|t| - 1]];
    } else {
      assert t[|t|..] == "";
    }
  }

  lemma {:induction false} RStripOfBlank(t: string)
    ensures AllBlank(t) <==> RStrip(t) == ""
  {
    if t != "" && IsBlank(t[|t| - 1]) {
      RStripOfBlank(t[..|t| - 1]);
      assert t == t[..|t| - 1] + [t[|t| - 1]];
    }
  }

  lemma {:induction false} RStripEnds(t: string)
    ensures RStrip(t) != "" ==> !IsBlank(RStrip(t)[|RStrip(t)| - 1])
  {
    if t != "" && IsBlank(t[|t| - 1]) {
      RStripEnds(t[..|t| - 1]);
    }
  }

  lemma RStripParts(t: string)
    ensures RStrip(t) <= t && AllBlank(t[|RStrip(t)|..])
    ensures AllBlank(t) <==> RStrip(t) == ""
    ensures RStrip(t) != "" ==> !IsBlank(RStrip(t)[|RStrip(t)| - 1])
  {
    RStripPrefix(t);
    RStripOfBlank(t);
    RStripEnds(t);
  }

  lemma {:induction false} RStripAppend(a: string, b: string)
    ensures RStrip(a + b) == if AllBlank(b) then RStrip(a) else a + RStrip(b)
  {
    if b == "" {
      assert a + b == a;
    } else {
      var front := b[..|b| - 1];
      assert (a + b)[..|a + b| - 1] == a + front;
      if IsBlank(b[|b| - 1]) {
        RStripAppend(a, front);
        assert b == front + [b[|b| - 1]];
      }
    }
  }

  lemma {:induction false} LStripAppend(p: string, w: string)
    ensures LStrip(p + w) == if AllBlank(p) then LStrip(w) else LStrip(p) + w
    ensures !AllBlank(p) ==> LStrip(p) != "" && !AllBlank(LStrip(p))
  {
    if p == "" {
      assert p + w == w;
    } else if IsBlank(p[0]) {
      assert (p + w)[1..] == p[1..] + w;
      LStripAppend(p[1..], w);
      assert p == [p[0]] + p[1..];
    } else {
      assert LStrip(p) == p && LStrip(p + w) == p + w;
    }
  }

  lemma {:induction false} LStripBlank(w: string)
    requires AllBlank(w)
    ensures LStrip(w) == ""
  {
    if w != "" { LStripBlank(w[1..]); }
  }

  lemma {:induction false} RunTail(p: string, w: string, c: char)
    requires AllBlank(w) && !IsBlank(c)
    ensures RunLength(p + w, c) == RunLength(p, c)
  {
    if p == "" {
      assert p + w == w;
    } else if p[0] == c {
      assert (p + w)[1..] == p[1..] + w;
      RunTail(p[1..], w, c);
    }
  }

  lemma FenceIgnoresTail(p: string, w: string)
    requires !AllBlank(p) && AllBlank(w)
    ensures FenceMarker(p + w) == FenceMarker(p)
  {
    LStripAppend(p, w);
    var body := LStrip(p);
    if body[0] in {'`', '~'} { RunTail(body, w, body[0]); }
  }

  /** Blanks after the last inked character change nothing but an empty title. */
  lemma HeadingIgnoresTail(p: string, w: string)
    requires p != "" && !IsBlank(p[|p| - 1]) && AllBlank(w)
    ensures HeadingOfBody(p + w) == HeadingOfBody(p)
         || (HeadingOfBody(p).None? && HeadingOfBody(p + w).Some? && HeadingOfBody(p + w).value.text == "")
    ensures HeadingOfBody(p).Some? ==> HeadingOfBody(p + w) == HeadingOfBody(p)
    ensures HeadingOfBody(p).Some? ==> HeadingOfBody(p).value.text != ""
  {
    RunTail(p, w, '#');
    var level := RunLength(p, '#');
    var q := p[level..];
    assert (p + w)[level..] == q + w;
    if q == "" {
      assert q + w == w;
      LStripBlank(w);
    } else {
      LStripAppend(q, w);
      assert q[|q| - 1] == p[|p| - 1];
      RStripAppend(LStrip(q), w);
      TitleNotEmpty(q);
    }
  }

  lemma TitleNotEmpty(q: string)
    requires !AllBlank(q)
    ensures Strip(q) != "" && DropClosingHashes(Strip(q)) != ""
  {
    LStripAppend(q, "");
    assert q + "" == q;
    var inner := LStrip(q);
    RStripParts(inner);
    LStripFirst(q);
    var title := Strip(q);
    assert title[0] == inner[0];
    TrimHashesPrefix(title);
    var stem := TrimHashes(title);
    if stem != "" {
      assert stem[0] == title[0];
      assert !AllBlank(stem);
      LStripAppend(stem, "");
      assert stem + "" == stem;
      RStripParts(LStrip(stem));
    }
  }

  lemma {:induction false} LStripFirst(t: string)
    ensures LStrip(t) != "" ==> !IsBlank(LStrip(t)[0])
  {
    if t != "" && IsBlank(t[0]) { LStripFirst(t[1..]); }
  }

  lemma {:induction false} TrimHashesPrefix(t: string)
    ensures TrimHashes(t) <= t
  {
    if t != "" && t[|t| - 1] == '#' { TrimHashesPrefix(t[..|t| - 1]); }
  }

  ghost predicate LineOk(line: string) {
    line != "" && forall k :: 0 <= k < |line| - 1 ==> line[k] != '\n'
  }

  ghost predicate Terminated(line: string) {
    LineOk(line) && line[|line| - 1] == '\n'
  }

  /** Every line but possibly the last one is closed by a line feed. */
  ghost predicate WellFormed(lines: seq<string>) {
    forall i :: 0 <= i < |lines| ==> LineOk(lines[i]) && (i < |lines| - 1 ==> Terminated(lines[i]))
  }

  lemma {:induction false} LinesWellFormed(text: string)
    ensures WellFormed(Lines(text))
  {
    if text != "" {
      var n := LineLength(text);
      LinesWellFormed(text[n..]);
      assert LineOk(text[..n]);
    }
  }

  lemma {:induction false} FirstLine(line: string, rest: string)
    requires LineOk(line) && (Terminated(line) || rest == "")
    ensures LineLength(line + rest) == |line|
  {
    if |line| > 1 {
      assert (line + rest)[1..] == line[1..] + rest;
      assert line[0] != '\n';
      FirstLine(line[1..], rest);
    }
  }

  /** Splitting what well-formed lines add up to gives the lines back. */
  lemma {:induction false} LinesOfConcat(lines: seq<string>)
    requires WellFormed(lines)
    ensures Lines(Concat(lines)) == lines
  {
    if lines != [] {
      var rest := lines[1..];
      forall i | 0 <= i < |rest| ensures LineOk(rest[i]) && (i < |rest| - 1 ==> Terminated(rest[i])) {
        assert rest[i] == lines[i + 1];
      }
      LinesOfConcat(rest);
      assert LineOk(lines[0]);
      if rest == [] { assert Concat(rest) == ""; } else { assert Terminated(lines[0]); }
      FirstLine(lines[0], Concat(rest));
      assert (lines[0] + Concat(rest))[..|lines[0]|] == lines[0];
      assert (lines[0] + Concat(rest))[|lines[0]|..] == Concat(rest);
    }
  }

  lemma {:induction false} ConcatAppend(front: seq<string>, last: string)
    ensures Concat(front + [last]) == Concat(front) + last
  {
    if front == [] {
      assert front + [last] == [last];
      assert Concat([last]) == last + Concat([]);
    } else {
      assert (front + [last])[1..] == front[1..] + [last];
      ConcatAppend(front[1..], last);
    }
  }

  // ---- What extraction keeps of a block of lines ----

  /** Drop trailing blank lines, strip the last inked line and close it. */
  function TrimLines(part: seq<string>): seq<string> {
    if part == [] then []
    else
      var front, last := part[..|part| - 1], part[|part| - 1];
      if RStrip(last) == "" then TrimLines(front) else front + [RStrip(last) + "\n"]
  }

  /** The block keeps its first n lines, then the stripped and closed next one. */
  ghost predicate TrimsTo(part: seq<string>, n: nat, trimmed: seq<string>) {
    n < |part| && |trimmed| == n + 1 && trimmed[..n] == part[..n]
    && trimmed[n] == RStrip(part[n]) + "\n" && RStrip(part[n]) != ""
  }

  /** What remains are the lines down to the last inked one, which is stripped and closed. */
  lemma {:induction false} TrimLinesShape(part: seq<string>)
    requires part != [] && RStrip(part[0]) != ""
    ensures TrimLines(part) != [] && TrimsTo(part, |TrimLines(part)| - 1, TrimLines(part))
  {
    var front, last := part[..|part| - 1], part[|part| - 1];
    if RStrip(last) == "" {
      TrimLinesShape(front);
      var n := |TrimLines(front)| - 1;
      assert front[..n] == part[..n];
    }
  }

  lemma {:induction false} TrimLinesText(part: seq<string>)
    requires part != [] && RStrip(part[0]) != ""
    ensures Concat(TrimLines(part)) == RStrip(Concat(part)) + "\n"
  {
    var front, last := part[..|part| - 1], part[|part| - 1];
    assert part == front + [last];
    ConcatAppend(front, last);
    RStripParts(last);
    RStripAppend(Concat(front), last);
    if RStrip(last) == "" {
      TrimLinesText(front);
    } else {
      ConcatAppend(front, RStrip(last) + "\n");
      assert Concat(front) + (RStrip(last) + "\n") == (Concat(front) + RStrip(last)) + "\n";
    }
  }

  lemma TrimmedWellFormed(part: seq<string>, n: nat, trimmed: seq<string>)
    requires WellFormed(part) && TrimsTo(part, n, trimmed)
    ensures WellFormed(trimmed)
  {
    StrippedLineOk(part[n]);
    forall i | 0 <= i < n ensures Terminated(trimmed[i]) {
      assert trimmed[i] == trimmed[..n][i] == part[..n][i] == part[i];
    }
  }

  lemma StrippedLineOk(line: string)
    requires LineOk(line) && RStrip(line) != ""
    ensures Terminated(RStrip(line) + "\n")
  {
    RStripParts(line);
    var p := RStrip(line);
    forall k | 0 <= k < |p| ensures p[k] != '\n' {
      assert p[k] == line[k];
      if k == |p| - 1 { assert !IsBlank(p[k]); }
    }
  }

  lemma StrippedLineFence(line: string)
    requires RStrip(line) != ""
    ensures FenceMarker(RStrip(line) + "\n") == FenceMarker(line)
  {
    RStripParts(line);
    var p := RStrip(line);
    assert line == p + line[|p|..];
    assert !AllBlank(p);
    FenceIgnoresTail(p, line[|p|..]);
    FenceIgnoresTail(p, "\n");
  }

  lemma BodyParts(line: string) returns (v: string)
    requires RStrip(line) != ""
    ensures Body(line) == RStrip(line) + v && AllBlank(v)
    ensures Body(RStrip(line) + "\n") == RStrip(line)
  {
    RStripParts(line);
    var p := RStrip(line);
    assert |p| <= |Body(line)| by {
      if |p| == |line| { assert p == line; }
    }
    v := Body(line)[|p|..];
    assert Body(line)[..|p|] == line[..|p|] == p;
    forall k | 0 <= k < |v| ensures IsBlank(v[k]) {
      assert v[k] == line[|p|..][k];
    }
    assert (p + "\n")[..|p|] == p;
  }

  /** What the heading scan reads off the stripped and closed line. */
  ghost predicate KeepsRole(before: Option<Title>, after: Option<Title>) {
    && (after.Some? ==> after == before && after.value.text != "")
    && (before.Some? && before.value.text != "" ==> after == before)
  }

  /** Stripping and closing a line keeps its role, except for a heading without a title. */
  lemma StrippedLineRole(line: string)
    requires RStrip(line) != ""
    ensures KeepsRole(ParseHeading(line), ParseHeading(RStrip(line) + "\n"))
  {
    RStripParts(line);
    var v := BodyParts(line);
    HeadingIgnoresTail(RStrip(line), v);
  }

  lemma {:induction false} FenceOfPrefix(lines: seq<string>, other: seq<string>, i: nat)
    requires i <= |lines| && i <= |other| && lines[..i] == other[..i]
    ensures FenceAt(lines, i) == FenceAt(other, i)
  {
    if i > 0 {
      assert lines[..i - 1] == lines[..i][..i - 1] == other[..i][..i - 1] == other[..i - 1];
      FenceOfPrefix(lines, other, i - 1);
      assert lines[i - 1] == lines[..i][i - 1] == other[..i][i - 1];
    }
  }

  /** Scanning a block that starts outside every fence sees what the whole scan saw. */
  lemma {:induction false} FenceOfBlock(lines: seq<string>, s: nat, e: nat, i: nat)
    requires s <= e <= |lines| && i <= e - s && FenceAt(lines, s) == Outside
    ensures FenceAt(lines[s..e], i) == FenceAt(lines, s + i)
  {
    if i > 0 { FenceOfBlock(lines, s, e, i - 1); }
  }

  lemma SliceWellFormed(lines: seq<string>, s: nat, e: nat)
    requires s <= e <= |lines| && WellFormed(lines)
    ensures WellFormed(lines[s..e])
  {
    var part := lines[s..e];
    forall i | 0 <= i < |part| ensures LineOk(part[i]) && (i < |part| - 1 ==> Terminated(part[i])) {
      assert part[i] == lines[s + i];
    }
  }

  /** Line by line, the trimmed block is read as it was read in place. */
  lemma TrimmedHeadingAt(lines: seq<string>, s: nat, e: nat, trimmed: seq<string>, n: nat, i: nat)
    requires s < e <= |lines| && FenceAt(lines, s) == Outside && TrimsTo(lines[s..e], n, trimmed) && i <= n
    ensures var marks, after := MarksOf(lines), MarksOf(trimmed);
            if i < n then after[i] == marks[s + i] else KeepsRole(marks[s + i], after[i])
  {
    var part := lines[s..e];
    MarkOf(lines, |lines|, s + i);
    MarkOf(trimmed, |trimmed|, i);
    assert trimmed[..i] == trimmed[..n][..i] == part[..n][..i] == part[..i];
    FenceOfPrefix(trimmed, part, i);
    FenceOfBlock(lines, s, e, i);
    assert part[i] == lines[s + i];
    if i == n {
      StrippedLineFence(part[i]);
      StrippedLineRole(part[i]);
    } else {
      assert trimmed[i] == trimmed[..n][i] == part[..n][i];
    }
  }

  /** The marks of the trimmed block against those of the lines it came from. */
  ghost predicate SameMarks(marks: Marks, s: nat, after: Marks) {
    && 1 <= |after| <= |marks| - s
    && (forall i :: 0 <= i < |after| - 1 ==> after[i] == marks[s + i])
    && KeepsRole(marks[s + |after| - 1], after[|after| - 1])
  }

  lemma TrimmedMarks(lines: seq<string>, s: nat, e: nat)
    requires s < e <= |lines| && FenceAt(lines, s) == Outside && RStrip(lines[s]) != ""
    ensures SameMarks(MarksOf(lines), s, MarksOf(TrimLines(lines[s..e])))
  {
    TrimLinesShape(lines[s..e]);
    MarksFrom(lines, s, e, TrimLines(lines[s..e]), |TrimLines(lines[s..e])| - 1);
  }

  lemma MarksFrom(lines: seq<string>, s: nat, e: nat, trimmed: seq<string>, n: nat)
    requires s < e <= |lines| && FenceAt(lines, s) == Outside && TrimsTo(lines[s..e], n, trimmed)
    ensures SameMarks(MarksOf(lines), s, MarksOf(trimmed))
  {
    var marks, after := MarksOf(lines), MarksOf(trimmed);
    forall i | 0 <= i < n ensures after[i] == marks[s + i] {
      TrimmedHeadingAt(lines, s, e, trimmed, n, i);
    }
    TrimmedHeadingAt(lines, s, e, trimmed, n, n);
  }

  // ---- Idempotence ----

  lemma {:induction false} ConcatNoReturn(lines: seq<string>)
    requires forall i :: 0 <= i < |lines| ==> NoReturn(lines[i])
    ensures NoReturn(Concat(lines))
  {
    if lines != [] { ConcatNoReturn(lines[1..]); }
  }

  lemma {:induction false} LinesNoReturn(text: string)
    requires NoReturn(text)
    ensures forall i :: 0 <= i < |Lines(text)| ==> NoReturn(Lines(text)[i])
  {
    if text != "" { LinesNoReturn(text[LineLength(text)..]); }
  }

  /** The lines a successful extraction took its section from. */
  lemma SectionBounds(lines: seq<string>, heading: string, section: string) returns (s: nat, e: nat)
    requires ExtractFromLines(lines, heading) == Section(section)
    ensures s < e <= |lines| && section == RStrip(Concat(lines[s..e])) + "\n"
    ensures IsMatch(MarksOf(lines), s, heading)
    ensures forall i :: 0 <= i < |lines| && IsMatch(MarksOf(lines), i, heading) ==> i == s
    ensures Deeper(MarksOf(lines), s + 1, e, MarksOf(lines)[s].value.level)
    ensures e < |lines| ==>
              MarksOf(lines)[e].Some? && MarksOf(lines)[e].value.level <= MarksOf(lines)[s].value.level
    ensures FenceAt(lines, s) == Outside && ParseHeading(lines[s]).Some?
  {
    var marks := MarksOf(lines);
    var only := Titled(HeadingList(marks, |lines|), heading)[0];
    SingleMatch(marks, heading, |lines|, only);
    EndBounds(marks, only.index, only.level, |lines|);
    var end := FirstEnd(HeadingList(marks, |lines|), only.index, only.level);
    s, e := only.index, if end.Some? then end.value else |lines|;
    MarkOf(lines, |lines|, s);
  }

  /** A unique heading on the first line, with only deeper headings below, takes all lines. */
  lemma WholeSection(lines: seq<string>, heading: string)
    requires lines != [] && IsMatch(MarksOf(lines), 0, heading)
    requires forall i :: 0 <= i < |lines| && IsMatch(MarksOf(lines), i, heading) ==> i == 0
    requires Deeper(MarksOf(lines), 1, |lines|, MarksOf(lines)[0].value.level)
    ensures ExtractFromLines(lines, heading) == Section(RStrip(Concat(lines)) + "\n")
  {
    var marks := MarksOf(lines);
    UniqueMatch(marks, heading, 0, |lines|);
    EndBounds(marks, 0, marks[0].value.level, |lines|);
    assert lines[0..|lines|] == lines;
  }

  lemma NoSection(lines: seq<string>, heading: string)
    requires forall i :: 0 <= i < |lines| ==> !IsMatch(MarksOf(lines), i, heading)
    ensures ExtractFromLines(lines, heading) == MissingHeading
  {
    NoMatch(MarksOf(lines), heading, |lines|);
  }

  /** When extraction fails: no line carries the heading, or at least two do. */
  lemma ExtractionOutcome(lines: seq<string>, heading: string)
    ensures ExtractFromLines(lines, heading) == MissingHeading
       <==> forall i :: 0 <= i < |lines| ==> !IsMatch(MarksOf(lines), i, heading)
    ensures ExtractFromLines(lines, heading) == DuplicateHeading
       <==> exists i, j :: 0 <= i < j < |lines|
                           && IsMatch(MarksOf(lines), i, heading) && IsMatch(MarksOf(lines), j, heading)
  {
    var marks := MarksOf(lines);
    var matches := Titled(HeadingList(marks, |lines|), heading);
    NoMatch(marks, heading, |lines|);
    if |matches| == 1 {
      SingleMatch(marks, heading, |lines|, matches[0]);
      EndBounds(marks, matches[0].index, matches[0].level, |lines|);
    } else if |matches| > 1 {
      var i :| 0 <= i < |lines| && IsMatch(marks, i, heading);
      if forall k :: 0 <= k < |lines| && IsMatch(marks, k, heading) ==> k == i {
        UniqueMatch(marks, heading, i, |lines|);
      }
    }
  }

  lemma HeadingIsInked(line: string)
    requires LineOk(line) && ParseHeading(line).Some?
    ensures RStrip(line) != ""
  {
    RStripParts(line);
    assert line[0] == '#';
  }

  /** The section's own lines, against the lines of the whole text. */
  lemma SectionInText(text: string, heading: string, section: string)
    returns (marks: Marks, s: nat, trimmed: seq<string>)
    requires Extract(text, heading) == Section(section)
    ensures WellFormed(trimmed) && section == Concat(trimmed) && NoReturn(section)
    ensures RStrip(section) + "\n" == section
    ensures SameMarks(marks, s, MarksOf(trimmed)) && IsMatch(marks, s, heading)
    ensures forall i :: 0 <= i < |marks| && IsMatch(marks, i, heading) ==> i == s
    ensures Deeper(marks, s + 1, s + |trimmed|, marks[s].value.level)
  {
    var normal := NormalizeNewlines(text);
    var lines := Lines(normal);
    var e;
    LinesWellFormed(normal);
    s, e := SectionBounds(lines, heading, section);
    marks := MarksOf(lines);
    SectionHasNoReturn(normal, text, s, e);
    HeadingIsInked(lines[s]);
    SliceWellFormed(lines, s, e);
    TrimLinesText(lines[s..e]);
    TrimLinesShape(lines[s..e]);
    trimmed := TrimLines(lines[s..e]);
    TrimmedWellFormed(lines[s..e], |trimmed| - 1, trimmed);
    TrimmedMarks(lines, s, e);
    ClosedTwice(Concat(lines[s..e]));
  }

  /** The section's own lines, and the one line that can match in them. */
  lemma SectionLines(text: string, heading: string, section: string) returns (trimmed: seq<string>)
    requires Extract(text, heading) == Section(section)
    ensures trimmed != [] && section == Concat(trimmed) && Lines(section) == trimmed
    ensures NormalizeNewlines(section) == section && RStrip(section) + "\n" == section
    ensures IsMatch(MarksOf(trimmed), 0, heading) <==> heading != "" || |trimmed| > 1
    ensures forall i :: 0 <= i < |trimmed| && IsMatch(MarksOf(trimmed), i, heading) ==> i == 0
    ensures IsMatch(MarksOf(trimmed), 0, heading) ==>
              Deeper(MarksOf(trimmed), 1, |trimmed|, MarksOf(trimmed)[0].value.level)
  {
    var marks, s;
    marks, s, trimmed := SectionInText(text, heading, section);
    NormalizeFixes(section);
    LinesOfConcat(trimmed);
    MarksOfSection(marks, s, MarksOf(trimmed), heading);
  }

  lemma ClosedTwice(t: string)
    ensures RStrip(RStrip(t) + "\n") + "\n" == RStrip(t) + "\n"
  {
    RStripAppend(RStrip(t), "\n");
    StripTwice(t);
  }

  /**
   Extracting the same heading from an extracted section gives the section back,
   for every heading except an untitled one that stands alone in its section: its
   blanks are stripped, and the bare hashes that remain are no heading any more.
   */
  lemma ExtractionIdempotent(text: string, heading: string, section: string)
    requires Extract(text, heading) == Section(section)
    ensures Extract(section, heading) ==
            if heading != "" || |Lines(section)| > 1 then Section(section) else MissingHeading
  {
    var trimmed := SectionLines(text, heading, section);
    if IsMatch(MarksOf(trimmed), 0, heading) {
      WholeSection(trimmed, heading);
    } else {
      NoSection(trimmed, heading);
    }
  }

  lemma BareHashesHaveNoTitle()
    ensures RStrip("#  ") == "#" && Strip("  ") == "" && FenceMarker("#  ").None?
    ensures ParseHeading("#  ") == Some(Title(1, ""))
  {
    var line := "#  ";
    assert line[..2] == "# " && line[..2][..1] == "#";
    assert RStrip(line) == RStrip(line[..2]) == RStrip("#") == "#";
    assert "  "[1..] == " " && " "[1..] == "";
    assert LStrip("  ") == LStrip(" ") == LStrip("") == "";
    assert line[1..] == "  " && RunLength(line, '#') == 1 + RunLength("  ", '#') == 1;
  }

  lemma OneLine(line: string)
    requires line != "" && LineLength(line) == |line|
    ensures Lines(line) == [line]
  {
    assert line[..|line|] == line && line[|line|..] == "";
    assert Lines("") == [];
  }

  lemma ShortLines()
    ensures Lines(NormalizeNewlines("#  ")) == ["#  "] && Lines("#\n") == ["#\n"]
  {
    NormalizeFixes("#  ");
    assert "#  "[1..] == "  " && "  "[1..] == " ";
    assert LineLength(" ") == 1 && LineLength("  ") == 2 && LineLength("#  ") == 3;
    OneLine("#  ");
    assert "#\n"[1..] == "\n" && LineLength("\n") == 1 && LineLength("#\n") == 2;
    OneLine("#\n");
  }

  /** Such a heading exists: it is extracted once, and not again from what was extracted. */
  lemma EmptyTitleIsLost()
    ensures Extract("#  ", "") == Section("#\n") && Extract("#\n", "") == MissingHeading
  {
    var line := "#  ";
    BareHashesHaveNoTitle();
    ShortLines();
    assert HeadingAt([line], 0) == Some(Title(1, ""));
    var marks := MarksOf([line]);
    MarkOf([line], 1, 0);
    WholeSection([line], "");
    assert Concat([line]) == line + Concat([]) == line;
    assert "#\n" == "#" + "\n";
    ExtractionIdempotent(line, "", "#\n");
  }

  /** On the marks alone: the section's heading stays the only match, above everything else. */
  lemma MarksOfSection(marks: Marks, s: nat, after: Marks, heading: string)
    requires SameMarks(marks, s, after) && IsMatch(marks, s, heading)
    requires forall i :: 0 <= i < |marks| && IsMatch(marks, i, heading) ==> i == s
    requires Deeper(marks, s + 1, s + |after|, marks[s].value.level)
    ensures IsMatch(after, 0, heading) <==> heading != "" || |after| > 1
    ensures forall i :: 0 <= i < |after| && IsMatch(after, i, heading) ==> i == 0
    ensures IsMatch(after, 0, heading) ==> Deeper(after, 1, |after|, after[0].value.level)
  {
    forall i | 0 <= i < |after| && IsMatch(after, i, heading) ensures i == 0 {
      assert after[i] == marks[s + i];
      assert IsMatch(marks, s + i, heading);
    }
    if IsMatch(after, 0, heading) {
      assert after[0] == marks[s];
      forall j | 1 <= j < |after| && after[j].Some? ensures after[j].value.level > after[0].value.level {
        assert after[j] == marks[s + j];
      }
    }
  }

  lemma SectionHasNoReturn(normal: string, text: string, s: nat, e: nat)
    requires normal == NormalizeNewlines(text) && s <= e <= |Lines(normal)|
    ensures NoReturn(RStrip(Concat(Lines(normal)[s..e])) + "\n")
  {
    NormalizedHasNoReturn(text);
    LinesNoReturn(normal);
    ConcatNoReturn(Lines(normal)[s..e]);
    RStripParts(Concat(Lines(normal)[s..e]));
  }

  lemma StripTwice(t: string)
    ensures RStrip(RStrip(t)) == RStrip(t)
  {
    RStripParts(t);
  }
}
