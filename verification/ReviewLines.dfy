/**
 What the scanner of review bodies recognises in one line, as languages of strings: blanks,
 fences, comments and tags.
 */
module ReviewLines {
  import opened Options
  import opened Text
  import opened ReviewContent

  // ---- Blanks ----

  ghost predicate Blanks(s: string) {
    forall k :: 0 <= k < |s| ==> s[k] == ' ' || s[k] == '\t'
  }

  ghost predicate Inked(s: string) {
    s != "" ==> s[0] != ' ' && s[0] != '\t' && s[|s| - 1] != ' ' && s[|s| - 1] != '\t'
  }

  lemma {:induction false} LStripParts(s: string) returns (before: string)
    ensures Blanks(before) && s == before + LStrip(s)
    ensures LStrip(s) != "" ==> !Blanks([LStrip(s)[0]])
  {
    before := "";
    if s != "" && Blank(s[0]) {
      var rest := LStripParts(s[1..]);
      before := [s[0]] + rest;
    } else if s != "" {
      assert [s[0]][0] == s[0];
    }
  }

  lemma {:induction false} RStripParts(s: string) returns (after: string)
    ensures Blanks(after) && s == RStrip(s) + after
    ensures RStrip(s) != "" ==> !Blank(RStrip(s)[|RStrip(s)| - 1])
  {
    after := "";
    if s != "" && Blank(s[|s| - 1]) {
      var rest := RStripParts(s[..|s| - 1]);
      after := rest + [s[|s| - 1]];
    }
  }

  /** Stripping removes the blanks at both ends, and nothing else. */
  lemma StripsBlanks(s: string) returns (before: string, after: string)
    ensures Blanks(before) && Blanks(after) && Inked(Strip(s)) && s == before + Strip(s) + after
  {
    before := LStripParts(s);
    var middle := LStrip(s);
    after := RStripParts(middle);
    if Strip(s) != "" {
      assert middle[0] == Strip(s)[0] && [middle[0]][0] == middle[0];
    }
  }

  /** Columns of the indentation: a space is one, and it ends at the first other character. */
  lemma Columns(rest: string, column: nat)
    ensures rest == "" || (rest[0] != ' ' && rest[0] != '\t') ==> Indentation(rest, column) == column
    ensures Indentation(" " + rest, column) == Indentation(rest, column + 1)
  {
    assert (" " + rest)[1..] == rest;
  }

  /** A tab goes on to the next multiple of four. */
  lemma TabStops(rest: string, column: nat, stop: nat)
    requires column < stop <= column + 4 && stop % 4 == 0
    ensures Indentation("\t" + rest, column) == Indentation(rest, stop)
  {
    assert ("\t" + rest)[1..] == rest;
    assert column + 4 - column % 4 == stop;
  }

  // ---- Fences ----

  /** At most three spaces, n backticks or tildes, and a rest that does not go on with them. */
  ghost predicate FenceParts(line: string, spaces: nat, mark: char, n: nat, rest: string) {
    && line == Repeat(' ', spaces) + Repeat(mark, n) + rest && spaces <= 3 && n >= 1
    && (mark == '`' || mark == '~') && (rest != "" ==> rest[0] != mark)
  }

  lemma RunIsParts(line: string, least: nat, mark: char, n: nat, rest: string)
    requires least >= 1
    ensures FenceRun(line, least) == Some((Fence(mark, n), rest)) <==>
            n >= least && exists spaces :: FenceParts(line, spaces, mark, n, rest)
  {
    if FenceRun(line, least) == Some((Fence(mark, n), rest)) {
      PartsOfRun(line, least, mark, n, rest);
    }
    if n >= least && exists spaces :: FenceParts(line, spaces, mark, n, rest) {
      var spaces :| FenceParts(line, spaces, mark, n, rest);
      PartsMakeRun(line, least, spaces, mark, n, rest);
    }
  }

  lemma PartsOfRun(line: string, least: nat, mark: char, n: nat, rest: string)
    requires least >= 1 && FenceRun(line, least) == Some((Fence(mark, n), rest))
    ensures n >= least && FenceParts(line, RunLength(line, ' '), mark, n, rest)
  {
    var spaces := RunLength(line, ' ');
    var body := line[spaces..];
    RunInFront(line, ' ');
    RunInFront(body, mark);
    ConcatAssociates(Repeat(' ', spaces), Repeat(mark, n), rest);
  }

  lemma ConcatAssociates(a: string, b: string, c: string)
    ensures a + (b + c) == a + b + c
  {
    assert a + (b + c) == a + b + c;
  }

  lemma RunInFront(s: string, c: char)
    ensures s == Repeat(c, RunLength(s, c)) + s[RunLength(s, c)..]
    ensures RunLength(s, c) < |s| ==> s[RunLength(s, c)] != c
  {
    RunParts(s, c);
    assert s[..RunLength(s, c)] == Repeat(c, RunLength(s, c));
  }

  lemma PartsMakeRun(line: string, least: nat, spaces: nat, mark: char, n: nat, rest: string)
    requires FenceParts(line, spaces, mark, n, rest) && n >= least
    ensures FenceRun(line, least) == Some((Fence(mark, n), rest))
  {
    var body := Repeat(mark, n) + rest;
    assert line == Repeat(' ', spaces) + body && body[0] == mark;
    RunOfPrefix(Repeat(' ', spaces), body, ' ');
    assert line[spaces..] == body;
    RunOfPrefix(Repeat(mark, n), rest, mark);
    assert body[n..] == rest;
  }

  /** A fence opens with at least three marks, whatever follows them. */
  lemma FenceOpens(line: string, mark: char, n: nat, info: string)
    ensures FenceOpen(line) == Some((Fence(mark, n), info)) <==>
            n >= 3 && exists spaces :: FenceParts(line, spaces, mark, n, info)
  {
    RunIsParts(line, 3, mark, n, info);
  }

  /** It is closed by at least as many of the same marks, with nothing but blanks after them. */
  lemma FenceCloses(line: string, fence: Fence)
    ensures Closes(line, fence) <==>
            exists spaces, n, rest :: n >= fence.length && Blanks(rest) && FenceParts(line, spaces, fence.mark, n, rest)
  {
    if Closes(line, fence) {
      var run := FenceRun(line, 1).value;
      RunIsParts(line, 1, run.0.mark, run.0.length, run.1);
      var before := LStripParts(run.1);
      assert Blanks(run.1);
    }
    if spaces, n, rest :|
      n >= fence.length && Blanks(rest) && FenceParts(line, spaces, fence.mark, n, rest)
    {
      PartsMakeRun(line, 1, spaces, fence.mark, n, rest);
      BlankToNothing(rest);
    }
  }

  lemma {:induction false} BlankToNothing(s: string)
    requires Blanks(s)
    ensures LStrip(s) == ""
  {
    if s != "" { BlankToNothing(s[1..]); }
  }

  // ---- Comments ----

  ghost predicate OccursAt(s: string, sub: string, i: nat) {
    i + |sub| <= |s| && s[i..i + |sub|] == sub
  }

  lemma OccursInTail(s: string, sub: string, i: nat)
    requires s != ""
    ensures OccursAt(s[1..], sub, i) <==> OccursAt(s, sub, i + 1)
    ensures i + |sub| < |s| ==> s[1..][i + |sub|..] == s[i + 1 + |sub|..]
  {
    if i + |sub| < |s| { assert s[1..][i..i + |sub|] == s[i + 1..i + 1 + |sub|]; }
  }

  /** What follows the first occurrence; None when there is none. */
  lemma {:induction false} FollowsFirst(s: string, sub: string) returns (i: nat)
    requires sub != ""
    ensures AfterFirst(s, sub).None? ==> forall j: nat :: !OccursAt(s, sub, j)
    ensures AfterFirst(s, sub).Some? ==>
              && OccursAt(s, sub, i) && AfterFirst(s, sub).value == s[i + |sub|..]
              && forall j: nat :: j < i ==> !OccursAt(s, sub, j)
  {
    i := 0;
    if sub <= s {
      assert s[0..0 + |sub|] == sub;
    } else if s != "" {
      var later := FollowsFirst(s[1..], sub);
      forall j: nat | OccursAt(s, sub, j) ensures j > 0 && OccursAt(s[1..], sub, j - 1) {
        assert j > 0 by { assert s[0..0 + |sub|] == s[..|sub|] || |sub| > |s|; }
        OccursInTail(s, sub, j - 1);
      }
      i := later + 1;
      if AfterFirst(s, sub).Some? { OccursInTail(s, sub, later); }
    }
  }

  // ---- Tags ----

  ghost predicate NameChar(c: char) {
    'a' <= c <= 'z' || 'A' <= c <= 'Z' || '0' <= c <= '9' || c == ':' || c == '-'
  }

  /** A tag's text is `<`, a slash if it closes, a name that starts with a letter, and no more name. */
  ghost predicate TagText(s: string, closing: bool, name: string, rest: string) {
    && s == "<" + (if closing then "/" else "") + name + rest && name != ""
    && ('a' <= name[0] <= 'z' || 'A' <= name[0] <= 'Z') && (forall k :: 0 <= k < |name| ==> NameChar(name[k]))
    && (rest != "" ==> rest[0] == ' ' || rest[0] == '\t' || rest[0] == '>' || rest[0] == '/')
  }

  lemma {:induction false} NameRunParts(s: string)
    ensures forall k :: 0 <= k < NameRun(s) ==> NameChar(s[k])
    ensures NameRun(s) < |s| ==> !NameChar(s[NameRun(s)])
  {
    if s != "" && NameChar(s[0]) { NameRunParts(s[1..]); }
  }

  lemma {:induction false} NameRunOf(name: string, rest: string)
    requires forall k :: 0 <= k < |name| ==> NameChar(name[k])
    requires rest != "" ==> !NameChar(rest[0])
    ensures NameRun(name + rest) == |name|
  {
    if name == "" {
      assert name + rest == rest;
    } else {
      assert (name + rest)[1..] == name[1..] + rest;
      NameRunOf(name[1..], rest);
    }
  }

  lemma AfterOpening(s: string, closing: bool, name: string, rest: string)
    requires s == "<" + (if closing then "/" else "") + name + rest && name != ""
    ensures s[0] == '<' && |s| > 1
    ensures closing ==> s[1] == '/' && s[2..] == name + rest
    ensures !closing ==> s[1] == name[0] && s[1..] == name + rest
  {
    if closing {
      assert s == "</" + (name + rest);
    } else {
      assert s == "<" + (name + rest);
    }
  }

  lemma NameOfBody(name: string, rest: string)
    ensures (name + rest)[..|name|] == name && (name + rest)[|name|..] == rest
  {
  }

  /** A named tag starts at the front when its text does; its name is taken without case. */
  lemma NamedTag(s: string, closing: bool, name: string, rest: string)
    requires TagText(s, closing, name, rest)
    ensures TagAt(s) == Some(Tag(closing, Fold(name)))
  {
    AfterOpening(s, closing, name, rest);
    NameRunOf(name, rest);
    NameOfBody(name, rest);
  }

  lemma TagParts(s: string, closing: bool, n: nat)
    requires s != "" && s[0] == '<' && (closing ==> |s| > 1 && s[1] == '/')
    requires var body := if closing then s[2..] else s[1..];
             && n == NameRun(body) && n > 0 && IsLetter(body[0])
             && (n < |body| ==> body[n] in {' ', '\t', '>', '/'})
    ensures var body := if closing then s[2..] else s[1..]; TagText(s, closing, body[..n], body[n..])
  {
    var body := if closing then s[2..] else s[1..];
    var start := if closing then "</" else "<";
    NameRunParts(body);
    assert s == start + body;
    CutAfter(start, body, n);
  }

  lemma CutAfter(start: string, body: string, n: nat)
    requires n <= |body|
    ensures start + body[..n] + body[n..] == start + body
  {
  }

  /** Every tag found is the text of one, or such a declaration. */
  lemma TagIsThere(s: string) returns (name: string, rest: string)
    requires TagAt(s).Some?
    ensures || (TagText(s, TagAt(s).value.closing, name, rest) && TagAt(s).value.name == Fold(name))
            || (TagAt(s) == Some(Tag(false, "")) && |s| > 1 && s[0] == '<' && (s[1] == '!' || s[1] == '?'))
  {
    var closing := |s| > 1 && s[1] == '/';
    var body := if closing then s[2..] else s[1..];
    var n := NameRun(body);
    name, rest := body[..n], body[n..];
    if n > 0 && IsLetter(body[0]) && (n == |body| || body[n] in {' ', '\t', '>', '/'}) {
      TagParts(s, closing, n);
    }
  }

  /** Markup declarations and processing instructions count as tags without a name. */
  lemma UnnamedTag(s: string)
    requires "<!" <= s || "<?" <= s
    ensures TagAt(s) == Some(Tag(false, ""))
  {
    assert s[1] == '!' || s[1] == '?';
    assert s[1..][0] == s[1];
  }

  /** The tags of a line are those that start at some place of it. */
  lemma {:induction false} TagsOfLine(s: string, t: Tag)
    ensures t in Tags(s) <==> exists i :: 0 <= i < |s| && TagAt(s[i..]) == Some(t)
  {
    if s != "" {
      TagsOfLine(s[1..], t);
      assert s[0..] == s;
      forall i | 0 <= i < |s[1..]| ensures s[1..][i..] == s[i + 1..] {}
      if i :| 0 <= i < |s| && TagAt(s[i..]) == Some(t) && i > 0 {
        assert s[1..][i - 1..] == s[i..];
      }
    }
  }

  /** Literal tags are stacked: one that opens is pushed, one that closes pops its own kind only. */
  lemma TracksLiterals(stack: seq<string>, t: Tag, more: seq<Tag>)
    ensures var literal := t.name == "pre" || t.name == "code" || t.name == "script" || t.name == "style"
                           || t.name == "textarea";
            && (AnyLiteral([t] + more) <==> literal || AnyLiteral(more))
            && (literal && !t.closing ==> TrackTags(stack, [t] + more) == TrackTags(stack + [t.name], more))
            && (literal && t.closing ==> TrackTags(stack + [t.name], [t] + more) == TrackTags(stack, more))
            && ((!literal || (t.closing && (stack == [] || stack[|stack| - 1] != t.name))) ==>
                  TrackTags(stack, [t] + more) == TrackTags(stack, more))
    ensures TrackTags(stack, []) == stack && !AnyLiteral([])
  {
    assert ([t] + more)[1..] == more;
    assert (stack + [t.name])[..|stack|] == stack;
    assert forall u :: u in [t] + more <==> u == t || u in more;
  }
}
