/**
 What a heading line and a fence line look like, as languages of strings: the expressions
 the scan matches, without its order of trimming.
 */
module MarkdownLines {
  import opened Options
  import opened Text
  import opened MarkdownSections

  ghost predicate IsWhite(c: char) {
    c == ' ' || c == '\t' || c == '\n'
  }

  ghost predicate White(s: string) {
    forall k :: 0 <= k < |s| ==> IsWhite(s[k])
  }

  /** Nothing to strip at either end. */
  ghost predicate Trim(s: string) {
    s != "" ==> !IsWhite(s[0]) && !IsWhite(s[|s| - 1])
  }

  ghost predicate Only(s: string, c: char) {
    forall k :: 0 <= k < |s| ==> s[k] == c
  }

  lemma WhiteIsBlank(s: string)
    ensures White(s) <==> AllBlank(s)
  {
  }

  lemma StripOnly(before: string, core: string, after: string)
    requires White(before) && White(after) && Trim(core)
    ensures Strip(before + core + after) == core
  {
    WhiteIsBlank(before);
    WhiteIsBlank(after);
    assert before + core + after == before + (core + after);
    LStripAppend(before, core + after);
    if core == "" {
      assert core + after == after;
      LStripBlank(after);
    } else {
      assert !IsBlank(core[0]) && LStrip(core + after) == core + after;
      RStripAppend(core, after);
    }
  }

  lemma {:induction false} LStripParts(s: string) returns (before: string)
    ensures White(before) && s == before + LStrip(s)
    ensures LStrip(s) != "" ==> !IsWhite(LStrip(s)[0])
  {
    before := "";
    if s != "" && IsBlank(s[0]) {
      var rest := LStripParts(s[1..]);
      before := [s[0]] + rest;
    }
  }

  lemma StripParts(s: string) returns (before: string, after: string)
    ensures White(before) && White(after) && Trim(Strip(s)) && s == before + Strip(s) + after
  {
    before := LStripParts(s);
    var middle := LStrip(s);
    RStripParts(middle);
    after := middle[|Strip(s)|..];
    WhiteIsBlank(after);
  }

  // ---- Titles ----

  /** The text is a title, blanks and a closing run of hashes. */
  ghost predicate ClosesWith(text: string, title: string, gap: string, hashes: string) {
    && text == title + gap + hashes && title != "" && Trim(title)
    && gap != "" && White(gap) && hashes != "" && Only(hashes, '#')
  }

  ghost predicate Closed(text: string, title: string) {
    exists gap, hashes :: ClosesWith(text, title, gap, hashes)
  }

  /** A title loses its closing run of hashes, if blanks separate the two. */
  ghost predicate TitleOf(text: string, title: string) {
    Closed(text, title) || (title == text && forall other :: !Closed(text, other))
  }

  lemma {:induction false} TrimmedHashes(stem: string, hashes: string)
    requires Only(hashes, '#') && (stem == "" || stem[|stem| - 1] != '#')
    ensures TrimHashes(stem + hashes) == stem
  {
    var s := stem + hashes;
    if hashes == "" {
      assert s == stem;
    } else {
      assert s[..|s| - 1] == stem + hashes[..|hashes| - 1];
      TrimmedHashes(stem, hashes[..|hashes| - 1]);
    }
  }

  lemma {:induction false} HashParts(s: string) returns (hashes: string)
    ensures Only(hashes, '#') && s == TrimHashes(s) + hashes
    ensures TrimHashes(s) == "" || TrimHashes(s)[|TrimHashes(s)| - 1] != '#'
  {
    hashes := "";
    if s != "" && s[|s| - 1] == '#' {
      var fewer := HashParts(s[..|s| - 1]);
      hashes := fewer + "#";
    }
  }

  /** Dropping closing hashes yields the title of a text that has been stripped. */
  lemma DropsClosingHashes(text: string)
    requires Trim(text)
    ensures TitleOf(text, DropClosingHashes(text))
    ensures forall title :: Closed(text, title) ==> title == DropClosingHashes(text)
  {
    var stem := TrimHashes(text);
    var hashes := HashParts(text);
    forall title | Closed(text, title) ensures title == DropClosingHashes(text) {
      var gap, run :| ClosesWith(text, title, gap, run);
      TrimmedHashes(title + gap, run);
      assert "" + title + gap == title + gap;
      StripOnly("", title, gap);
    }
    if stem != "" && stem != text && IsBlank(stem[|stem| - 1]) {
      var before, gap := StripParts(stem);
      StemStartsInked(text, stem, before, Strip(stem), gap);
      assert ClosesWith(text, Strip(stem), gap, hashes);
    }
  }

  lemma StemStartsInked(text: string, stem: string, before: string, title: string, gap: string)
    requires Trim(text) && stem <= text && stem != "" && IsBlank(stem[|stem| - 1])
    requires stem == before + title + gap && White(before) && White(gap) && Trim(title)
    ensures before == "" && title != "" && gap != ""
  {
    assert text[0] == stem[0];
  }

  // ---- Heading lines ----

  /** One to six hashes, a blank, and more; what follows the hashes is stripped and is the title. */
  ghost predicate HeadingText(body: string, level: nat, title: string) {
    exists rest, before, text, after ::
      && body == Repeat('#', level) + rest && 1 <= level <= 6 && |rest| >= 2 && IsWhite(rest[0])
      && rest == before + text + after && White(before) && White(after) && Trim(text) && TitleOf(text, title)
  }

  /** A line is a heading exactly when, without its newline, it is such a text. */
  lemma HeadingExactly(line: string, level: nat, title: string)
    ensures ParseHeading(line) == Some(Title(level, title)) <==>
            HeadingText(if "" < line && line[|line| - 1] == '\n' then line[..|line| - 1] else line, level, title)
  {
    BodyIsHeading(Body(line), level, title);
  }

  lemma BodyIsHeading(body: string, level: nat, title: string)
    ensures HeadingOfBody(body) == Some(Title(level, title)) <==> HeadingText(body, level, title)
  {
    if HeadingOfBody(body) == Some(Title(level, title)) {
      var rest := body[level..];
      RunParts(body, '#');
      assert body[..level] == Repeat('#', level);
      assert body == Repeat('#', level) + rest;
      var before, after := StripParts(rest);
      DropsClosingHashes(Strip(rest));
      assert IsWhite(rest[0]);
    }
    if HeadingText(body, level, title) {
      var rest, before, text, after :|
        && body == Repeat('#', level) + rest && 1 <= level <= 6 && |rest| >= 2 && IsWhite(rest[0])
        && rest == before + text + after && White(before) && White(after) && Trim(text) && TitleOf(text, title);
      RunOfPrefix(Repeat('#', level), rest, '#');
      assert body[level..] == rest;
      StripOnly(before, text, after);
      DropsClosingHashes(text);
    }
  }

  // ---- Fence lines ----

  /** After blanks, a run of n equal backticks or tildes, at least three, and nothing more of it. */
  ghost predicate FenceParts(line: string, mark: char, n: nat, before: string, after: string) {
    && line == before + Repeat(mark, n) + after && White(before) && n >= 3
    && (mark == '`' || mark == '~') && (after != "" ==> after[0] != mark)
  }

  ghost predicate FenceLine(line: string, mark: char, n: nat) {
    exists before, after :: FenceParts(line, mark, n, before, after)
  }

  lemma FenceExactly(line: string, mark: char, n: nat)
    ensures FenceMarker(line) == Some((mark, n)) <==> FenceLine(line, mark, n)
  {
    if FenceMarker(line) == Some((mark, n)) {
      var before := LStripParts(line);
      var body := LStrip(line);
      RunParts(body, mark);
      assert body[..n] == Repeat(mark, n) && body == Repeat(mark, n) + body[n..];
      assert FenceParts(line, mark, n, before, body[n..]);
    }
    if FenceLine(line, mark, n) {
      var before, after :| FenceParts(line, mark, n, before, after);
      MarksFence(line, mark, n, before, after);
    }
  }

  lemma MarksFence(line: string, mark: char, n: nat, before: string, after: string)
    requires FenceParts(line, mark, n, before, after)
    ensures FenceMarker(line) == Some((mark, n))
  {
    var body := Repeat(mark, n) + after;
    assert line == before + body && body[0] == mark;
    WhiteIsBlank(before);
    LStripAppend(before, body);
    assert LStrip(body) == body;
    RunOfPrefix(Repeat(mark, n), after, mark);
  }
}
