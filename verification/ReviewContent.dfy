/**
 The line scanner of review bodies: fences, HTML handling, the audit marker,
 dispositions and receipts.
 */
module ReviewContent {
  import opened Options
  import opened Text

  const REVIEW_MARKER := "<!-- independent-research-review-audit -->"
  const RECEIPT_FENCE := "independent-review-receipt"
  const HTML_LITERAL_NAMES := {"pre", "code", "script", "style", "textarea"}

  // ---- One line ----

  predicate Blank(c: char) {
    c == ' ' || c == '\t'
  }

  function LStrip(s: string): string {
    if s != "" && Blank(s[0]) then LStrip(s[1..]) else s
  }

  function RStrip(s: string): string {
    if s != "" && Blank(s[|s| - 1]) then RStrip(s[..|s| - 1]) else s
  }

  function Strip(s: string): string {
    RStrip(LStrip(s))
  }

  /** Width of the leading blanks with tab stops every four columns. */
  function Indentation(s: string, column: nat): nat {
    if s == "" || !Blank(s[0]) then column
    else if s[0] == ' ' then Indentation(s[1..], column + 1)
    else Indentation(s[1..], column + 4 - column % 4)
  }

  datatype Fence = Fence(mark: char, length: nat)

  /** At most three spaces, then a run of at least `least` backticks or tildes; and what follows. */
  function FenceRun(line: string, least: nat): Option<(Fence, string)> {
    var spaces := RunLength(line, ' ');
    var body := line[spaces..];
    if spaces > 3 || body == "" || body[0] !in {'`', '~'} then None
    else
      var n := RunLength(body, body[0]);
      if n >= least then Some((Fence(body[0], n), body[n..])) else None
  }

  function FenceOpen(line: string): Option<(Fence, string)> {
    FenceRun(line, 3)
  }

  /** A closing candidate: a run with nothing but blanks after it. */
  function FenceClose(line: string): Option<Fence> {
    var run := FenceRun(line, 1);
    if run.Some? && LStrip(run.value.1) == "" then Some(run.value.0) else None
  }

  predicate Closes(line: string, fence: Fence) {
    var run := FenceClose(line);
    run.Some? && run.value.mark == fence.mark && run.value.length >= fence.length
  }

  /** The text after the first occurrence of a string. */
  function AfterFirst(s: string, sub: string): Option<string> {
    if sub <= s then Some(s[|sub|..])
    else if s == "" then None
    else AfterFirst(s[1..], sub)
  }

  predicate Contains(s: string, sub: string) {
    AfterFirst(s, sub).Some?
  }

  datatype Tag = Tag(closing: bool, name: string)

  predicate IsLetter(c: char) {
    'a' <= c <= 'z' || 'A' <= c <= 'Z'
  }

  function NameRun(s: string): (n: nat)
    ensures n <= |s|
  {
    if s != "" && (IsLetter(s[0]) || '0' <= s[0] <= '9' || s[0] in {':', '-'}) then 1 + NameRun(s[1..]) else 0
  }

  /** The tag that starts at the front of s, if one does; markup declarations have no name. */
  function TagAt(s: string): Option<Tag> {
    if s == "" || s[0] != '<' then None
    else
      var closing := |s| > 1 && s[1] == '/';
      var rest := if closing then s[2..] else s[1..];
      var n := NameRun(rest);
      if n > 0 && IsLetter(rest[0]) && (n == |rest| || rest[n] in {' ', '\t', '>', '/'})
      then Some(Tag(closing, Fold(rest[..n])))
      else if |s| > 1 && s[1] in {'!', '?'} then Some(Tag(false, ""))
      else None
  }

  function Tags(s: string): seq<Tag> {
    if s == "" then []
    else if TagAt(s).Some? then [TagAt(s).value] + Tags(s[1..])
    else Tags(s[1..])
  }

  /** The stack of open literal tags after the tags of one line. */
  function TrackTags(stack: seq<string>, tags: seq<Tag>): seq<string>
    decreases |tags|
  {
    if tags == [] then stack
    else
      var t := tags[0];
      var next :=
        if t.name !in HTML_LITERAL_NAMES then stack
        else if !t.closing then stack + [t.name]
        else if stack != [] && stack[|stack| - 1] == t.name then stack[..|stack| - 1]
        else stack;
      TrackTags(next, tags[1..])
  }

  predicate AnyLiteral(tags: seq<Tag>) {
    exists t :: t in tags && t.name in HTML_LITERAL_NAMES
  }

  // ---- The scanner ----

  datatype Scan = Scan(
    lines: seq<string>,
    receipts: seq<string>,
    receipt: Option<seq<string>>,
    tags: seq<string>,
    inComment: bool,
    inOpaque: bool,
    unsupported: bool,
    fence: Option<Fence>)

  const INITIAL := Scan([], [], None, [], false, false, false, None)

  function ScanHtml(st: Scan, line: string, tags: seq<Tag>): Scan {
    var literal := st.tags != [] || AnyLiteral(tags);
    st.(unsupported := true, tags := TrackTags(st.tags, tags),
        inOpaque := if literal then st.inOpaque else StartsWith(LStrip(line), "<"))
  }

  /** A line outside every fence. */
  function ScanOutside(st: Scan, line: string): Scan {
    var opening := if st.tags == [] then FenceOpen(line) else None;
    if st.inComment then st.(inComment := !Contains(line, "-->"))
    else if st.inOpaque then st.(inOpaque := Strip(line) != "")
    else if Indentation(line, 0) >= 4 then st
    else if opening.Some? then
      st.(fence := Some(opening.value.0),
          receipt := if Strip(opening.value.1) == RECEIPT_FENCE then Some([]) else st.receipt)
    else if st.tags == [] && Strip(line) == REVIEW_MARKER then st.(lines := st.lines + [REVIEW_MARKER])
    else if Contains(line, "<!--") then
      st.(unsupported := true, inComment := !Contains(AfterFirst(line, "<!--").value, "-->"))
    else if st.tags != [] || Tags(line) != [] then ScanHtml(st, line, Tags(line))
    else st.(lines := st.lines + [Strip(line)])
  }

  /** A line inside a fence. */
  function ScanInside(st: Scan, line: string): Scan
    requires st.fence.Some?
  {
    if Closes(line, st.fence.value) then
      st.(fence := None, receipt := None,
          receipts := if st.receipt.Some? then st.receipts + [Join(st.receipt.value, '\n')] else st.receipts)
    else if st.receipt.Some? then st.(receipt := Some(st.receipt.value + [line]))
    else st
  }

  function ScanLine(st: Scan, line: string): Scan {
    if st.fence.None? then ScanOutside(st, line) else ScanInside(st, line)
  }

  function ScanAll(st: Scan, lines: seq<string>): Scan
    decreases |lines|
  {
    if lines == [] then st else ScanAll(ScanLine(st, lines[0]), lines[1..])
  }

  datatype Content = Content(lines: seq<string>, receipts: seq<string>)

  function Finish(st: Scan): Content {
    Content(st.lines, if st.fence.None? && !st.unsupported then st.receipts else [])
  }

  function BodyLines(body: string): seq<string> {
    Split(NormalizeNewlines(body), '\n')
  }

  function ContentOf(body: string): Content {
    Finish(ScanAll(INITIAL, BodyLines(body)))
  }

  /** The source's loop, with its scanner variables. */
  method ReviewContent(body: string) returns (lines: seq<string>, receipts: seq<string>)
    ensures Content(lines, receipts) == ContentOf(body)
  {
    lines, receipts := [], [];
    var receipt: Option<seq<string>> := None;
    var tags: seq<string> := [];
    var inComment, inOpaque, unsupported := false, false, false;
    var fence: Option<Fence> := None;
    var all := BodyLines(body);
    for k := 0 to |all|
      invariant ScanAll(Scan(lines, receipts, receipt, tags, inComment, inOpaque, unsupported, fence), all[k..])
             == ScanAll(INITIAL, all)
    {
      var line := all[k];
      assert all[k..][1..] == all[k + 1..];
      if fence.Some? {
        if Closes(line, fence.value) {
          if receipt.Some? {
            receipts := receipts + [Join(receipt.value, '\n')];
            receipt := None;
          }
          fence := None;
        } else if receipt.Some? {
          receipt := Some(receipt.value + [line]);
        }
        continue;
      }
      if inComment {
        inComment := !Contains(line, "-->");
        continue;
      }
      if inOpaque {
        inOpaque := Strip(line) != "";
        continue;
      }
      if Indentation(line, 0) >= 4 {
        continue;
      }
      var opening := if tags == [] then FenceOpen(line) else None;
      if opening.Some? {
        fence := Some(opening.value.0);
        if Strip(opening.value.1) == RECEIPT_FENCE {
          receipt := Some([]);
        }
        continue;
      }
      if tags == [] && Strip(line) == REVIEW_MARKER {
        lines := lines + [REVIEW_MARKER];
        continue;
      }
      if Contains(line, "<!--") {
        unsupported := true;
        inComment := !Contains(AfterFirst(line, "<!--").value, "-->");
        continue;
      }
      var found := Tags(line);
      if tags != [] || found != [] {
        unsupported := true;
        var literal := tags != [] || AnyLiteral(found);
        tags := TrackTags(tags, found);
        if !literal {
          inOpaque := StartsWith(LStrip(line), "<");
        }
        continue;
      }
      lines := lines + [Strip(line)];
    }
    assert all[|all|..] == [];
    if !(fence.None? && !unsupported) {
      receipts := [];
    }
  }

  // ---- Composition and closed blocks ----

  lemma {:induction false} ScanConcat(st: Scan, a: seq<string>, b: seq<string>)
    ensures ScanAll(st, a + b) == ScanAll(ScanAll(st, a), b)
    decreases |a|
  {
    if a == [] {
      assert a + b == b;
    } else {
      assert (a + b)[1..] == a[1..] + b;
      ScanConcat(ScanLine(st, a[0]), a[1..], b);
    }
  }

  /** The scanner is between blocks: no fence, comment, opaque HTML or literal tag is open. */
  predicate Neutral(st: Scan) {
    st.fence.None? && st.receipt.None? && !st.inComment && !st.inOpaque && st.tags == []
  }

  /** A fenced block that is no receipt, with its closing line. */
  predicate ClosedBlock(open: string, inner: seq<string>, close: string) {
    var opening := FenceOpen(open);
    && opening.Some? && Strip(opening.value.1) != RECEIPT_FENCE
    && (forall k :: 0 <= k < |inner| ==> !Closes(inner[k], opening.value.0))
    && Closes(close, opening.value.0)
  }

  lemma {:induction false} SkipsInner(st: Scan, inner: seq<string>)
    requires st.fence.Some? && st.receipt.None?
    requires forall k :: 0 <= k < |inner| ==> !Closes(inner[k], st.fence.value)
    ensures ScanAll(st, inner) == st
    decreases |inner|
  {
    if inner != [] {
      assert ScanLine(st, inner[0]) == st;
      SkipsInner(st, inner[1..]);
    }
  }

  lemma {:induction false} FewSpacesFewColumns(line: string, n: nat, column: nat)
    requires n == RunLength(line, ' ') && n < |line| && !Blank(line[n])
    ensures Indentation(line, column) == column + n
  {
    if n > 0 {
      FewSpacesFewColumns(line[1..], n - 1, column + 1);
    }
  }

  /** Whatever a closed block holds, the scanner leaves it as it entered. */
  lemma ClosedBlockIsInert(st: Scan, open: string, inner: seq<string>, close: string)
    requires Neutral(st) && ClosedBlock(open, inner, close)
    ensures ScanAll(st, [open] + inner + [close]) == st
  {
    var fence := FenceOpen(open).value.0;
    var spaces := RunLength(open, ' ');
    assert open[spaces..][0] == open[spaces];
    FewSpacesFewColumns(open, spaces, 0);
    var inside := st.(fence := Some(fence));
    assert ScanLine(st, open) == inside;
    SkipsInner(inside, inner);
    ScanConcat(st, [open] + inner, [close]);
    ScanConcat(st, [open], inner);
    assert ScanAll(st, [open]) == ScanAll(inside, []);
    assert ScanAll(inside, [close]) == ScanAll(ScanLine(inside, close), []);
  }

  /**
   A closed fenced block that is no receipt can be inserted wherever the scanner is
   neutral, without changing the lines or the receipts of the whole body.
   */
  lemma InsertedBlockChangesNothing(
    before: seq<string>, open: string, inner: seq<string>, close: string, after: seq<string>)
    requires Neutral(ScanAll(INITIAL, before)) && ClosedBlock(open, inner, close)
    ensures Finish(ScanAll(INITIAL, before + ([open] + inner + [close]) + after))
         == Finish(ScanAll(INITIAL, before + after))
  {
    var block := [open] + inner + [close];
    ScanConcat(INITIAL, before + block, after);
    ScanConcat(INITIAL, before, block);
    ClosedBlockIsInert(ScanAll(INITIAL, before), open, inner, close);
    ScanConcat(INITIAL, before, after);
  }
}
