/**
 Review receipts: which payloads are valid, how a receipt is printed into a review
 body, and how one is recognised again.
 */
module ReviewReceipt {
  import opened Options
  import opened Text
  import opened ReviewContent

  datatype Json =
    | Null
    | Bool(value: bool)
    | Number(number: int)
    | Text(text: string)
    | List(items: seq<Json>)
    | Object(fields: map<string, Json>)

  /** JSON text, canonical payload bytes and SHA-256 are not part of the model. */
  datatype Codec = Codec(
    dumps: Json -> string,
    loads: string -> Option<Json>,
    sha256: Json -> string)

  /** Dump and load are inverse, dumps stay on one line, and digests are 64 hex digits. */
  ghost predicate Faithful(codec: Codec) {
    && (forall j :: codec.loads(codec.dumps(j)) == Some(j))
    && (forall j :: '\n' !in codec.dumps(j) && '\r' !in codec.dumps(j))
    && (forall j: Json :: j.Object? ==> codec.dumps(j) != "" && codec.dumps(j)[0] == '{')
    && (forall j :: IsHex(codec.sha256(j), 64))
  }

  // ---- Payloads ----

  const SOFTWARE_FIELDS := {
    "schema", "head_sha", "publisher_user_id", "scope", "disposition",
    "reviewer_model_id", "review_result", "blocking_findings", "report"}
  const INDEPENDENT_FIELDS := {
    "schema", "head_sha", "publisher_user_id", "scope", "disposition",
    "implementation", "reviewer", "report"}
  const UNKNOWN_IDENTITIES := {
    "unknown", "notestablished", "unavailable", "none", "null", "pending", "na", "tbd"}

  predicate LowerAlnum(c: char) {
    'a' <= c <= 'z' || '0' <= c <= '9'
  }

  predicate Separator(c: char) {
    c in {'-', '.', '_'}
  }

  predicate ModelCharacters(s: string) {
    forall k :: 0 <= k < |s| ==> LowerAlnum(s[k]) || Separator(s[k])
  }

  predicate NoDoubleSeparator(s: string) {
    forall k :: 1 <= k < |s| ==> LowerAlnum(s[k - 1]) || LowerAlnum(s[k])
  }

  /** Lower-case alphanumeric groups joined by single separators. */
  predicate IsModelId(s: string) {
    && s != "" && LowerAlnum(s[0]) && LowerAlnum(s[|s| - 1])
    && ModelCharacters(s) && NoDoubleSeparator(s)
  }

  predicate IsTaskId(s: string) {
    && 1 <= |s| <= 256 && (LowerAlnum(s[0]) || s[0] == '/') && s[|s| - 1] != '/'
    && forall k :: 1 <= k < |s| ==> LowerAlnum(s[k]) || Separator(s[k]) || s[k] in {':', '/'}
  }

  function DropSeparators(s: string): string {
    if s == "" then ""
    else if Separator(s[0]) then DropSeparators(s[1..])
    else [s[0]] + DropSeparators(s[1..])
  }

  function TrimReport(s: string): string
    decreases |s|
  {
    if s == "" then ""
    else if IsSpace(s[0]) then TrimReport(s[1..])
    else if IsSpace(s[|s| - 1]) then TrimReport(s[..|s| - 1])
    else s
  }

  /** No control character other than tab and line feed. */
  predicate PlainReport(s: string) {
    forall k :: 0 <= k < |s| ==> s[k] in {'\t', '\n'} || (' ' <= s[k] && s[k] != '\U{7F}')
  }

  predicate HasText(record: map<string, Json>, field: string, text: string) {
    field in record && record[field] == Text(text)
  }

  predicate HasNumber(record: map<string, Json>, field: string, n: int) {
    field in record && record[field] == Number(n)
  }

  predicate HasReport(record: map<string, Json>, least: nat) {
    && "report" in record && record["report"].Text? && PlainReport(record["report"].text)
    && |TrimReport(record["report"].text)| >= least
  }

  /** What every accepted schema demands of the publisher, head and scope. */
  predicate Bound(record: map<string, Json>, head: string, publisher: int) {
    && HasText(record, "head_sha", head) && IsHex(head, 40)
    && HasNumber(record, "publisher_user_id", publisher) && publisher > 0
    && HasText(record, "scope", "software-only")
  }

  predicate ValidSoftwarePayload(record: map<string, Json>, head: string, publisher: int) {
    && record.Keys == SOFTWARE_FIELDS && Bound(record, head, publisher)
    && HasText(record, "disposition", "APPROVED") && HasText(record, "review_result", "PASS")
    && HasNumber(record, "blocking_findings", 0)
    && record["reviewer_model_id"].Text? && IsModelId(record["reviewer_model_id"].text)
    && DropSeparators(record["reviewer_model_id"].text) !in UNKNOWN_IDENTITIES
    && HasReport(record, 80)
  }

  datatype Identity = Identity(model: string, task: string)

  function IdentityOf(value: Json): Option<Identity> {
    if !value.Object? || value.fields.Keys != {"model_id", "task_id"} then None
    else
      var model, task := value.fields["model_id"], value.fields["task_id"];
      if !model.Text? || !IsModelId(model.text) || !task.Text? || !IsTaskId(task.text) then None
      else if DropSeparators(model.text) in UNKNOWN_IDENTITIES then None
      else if DropSeparators(task.text) in UNKNOWN_IDENTITIES then None
      else Some(Identity(DropSeparators(model.text), task.text))
  }

  /** No implementer shares the reviewer's model or task, and their tasks are distinct. */
  predicate IndependentOf(implementers: seq<Json>, reviewer: Identity, tasks: set<string>) {
    if implementers == [] then true
    else
      var identity := IdentityOf(implementers[0]);
      && identity.Some? && identity.value.model != reviewer.model && identity.value.task != reviewer.task
      && identity.value.task !in tasks
      && IndependentOf(implementers[1..], reviewer, tasks + {identity.value.task})
  }

  predicate ValidIndependentPayload(record: map<string, Json>, head: string, publisher: int) {
    && record.Keys == INDEPENDENT_FIELDS && Bound(record, head, publisher)
    && HasText(record, "schema", "independent_model_review_v1")
    && (HasText(record, "disposition", "APPROVED") || HasText(record, "disposition", "BLOCKED"))
    && HasReport(record, 1)
    && record["implementation"].List? && record["implementation"].items != []
    && var reviewer := IdentityOf(record["reviewer"]);
       reviewer.Some? && IndependentOf(record["implementation"].items, reviewer.value, {})
  }

  predicate ValidPayload(payload: Json, head: string, publisher: int) {
    if !payload.Object? then false
    else if HasText(payload.fields, "schema", "software_source_review_v1") then false
    else if HasText(payload.fields, "schema", "software_source_review_v2")
      then ValidSoftwarePayload(payload.fields, head, publisher)
    else ValidIndependentPayload(payload.fields, head, publisher)
  }

  // ---- Printing and recognising ----

  function Envelope(codec: Codec, payload: Json): Json {
    Object(map["payload" := payload, "sha256" := Text(codec.sha256(payload))])
  }

  /** The lines of a printed receipt. */
  function ReceiptLines(disposition: string, raw: string): seq<string> {
    [REVIEW_MARKER, "", "### Disposition: " + disposition, "", "```" + RECEIPT_FENCE, raw, "```"]
  }

  /** The printer; Raised where it refuses the payload. */
  function RenderReceipt(codec: Codec, payload: Json): Result<string> {
    if !payload.Object? || "head_sha" !in payload.fields || "publisher_user_id" !in payload.fields then Raised
    else
      var head, publisher := payload.fields["head_sha"], payload.fields["publisher_user_id"];
      if !head.Text? || !publisher.Number? || publisher.number <= 0 then Raised
      else if !ValidPayload(payload, head.text, publisher.number) then Raised
      else
        Ok(Join(ReceiptLines(payload.fields["disposition"].text, codec.dumps(Envelope(codec, payload))), '\n'))
  }

  /** A single receipt whose envelope is intact, valid for this head and publisher, and approving. */
  predicate ValidReceipt(codec: Codec, receipts: seq<string>, head: string, publisher: int) {
    if |receipts| != 1 then false
    else
      var envelope := codec.loads(receipts[0]);
      if envelope.None? || !envelope.value.Object? then false
      else if envelope.value.fields.Keys != {"payload", "sha256"} then false
      else
        var payload, digest := envelope.value.fields["payload"], envelope.value.fields["sha256"];
        && digest.Text? && IsHex(digest.text, 64)
        && ValidPayload(payload, head, publisher)
        && HasText(payload.fields, "disposition", "APPROVED")
        && codec.sha256(payload) == digest.text
  }

  // ---- The round trip ----

  lemma {:induction false} JoinNoReturn(lines: seq<string>)
    requires forall k :: 0 <= k < |lines| ==> '\r' !in lines[k]
    ensures '\r' !in Join(lines, '\n')
  {
    if |lines| > 1 { JoinNoReturn(lines[1..]); }
  }

  lemma {:induction false} NoAngleNoTags(s: string)
    requires '<' !in s
    ensures Tags(s) == [] && AfterFirst(s, "<!--").None?
  {
    if s != "" { NoAngleNoTags(s[1..]); }
  }

  lemma StripInked(line: string)
    requires line != "" && !Blank(line[0]) && !Blank(line[|line| - 1])
    ensures Strip(line) == line && Indentation(line, 0) == 0
  {
  }

  lemma NotAFence(line: string)
    requires line == "" || line[0] !in {' ', '`', '~'}
    ensures FenceOpen(line).None? && FenceClose(line).None?
  {
    assert RunLength(line, ' ') == 0 && line[0..] == line;
  }

  lemma EmptyLine(st: Scan)
    requires Neutral(st)
    ensures ScanLine(st, "") == st.(lines := st.lines + [""])
  {
    NotAFence("");
    NoAngleNoTags("");
    assert REVIEW_MARKER[0] == '<';
    assert Strip("") == "";
  }

  /** A line that starts with a hash and ends inked is appended as it is. */
  lemma PlainLine(st: Scan, line: string)
    requires Neutral(st) && '<' !in line
    requires line != "" && line[0] == '#' && !Blank(line[|line| - 1])
    ensures ScanLine(st, line) == st.(lines := st.lines + [line])
  {
    StripInked(line);
    NotAFence(line);
    NoAngleNoTags(line);
    assert REVIEW_MARKER[0] == '<';
  }

  lemma MarkerLine(st: Scan)
    requires Neutral(st)
    ensures ScanLine(st, REVIEW_MARKER) == st.(lines := st.lines + [REVIEW_MARKER])
  {
    assert REVIEW_MARKER[0] == '<' && REVIEW_MARKER[|REVIEW_MARKER| - 1] == '>';
    StripInked(REVIEW_MARKER);
    NotAFence(REVIEW_MARKER);
  }

  lemma TickLine(info: string)
    requires info == "" || info[0] != '`'
    ensures FenceRun("```" + info, 3) == FenceRun("```" + info, 1) == Some((Fence('`', 3), info))
  {
    var line := "```" + info;
    RunOfPrefix("", line, ' ');
    assert "" + line == line;
    RunOfPrefix("```", info, '`');
    assert line[0..] == line;
    assert line[3..] == info;
  }

  lemma OpenReceipt(st: Scan)
    requires Neutral(st)
    ensures ScanLine(st, "```" + RECEIPT_FENCE) == st.(fence := Some(Fence('`', 3)), receipt := Some([]))
  {
    TickLine(RECEIPT_FENCE);
    assert RECEIPT_FENCE[0] == 'i' && RECEIPT_FENCE[|RECEIPT_FENCE| - 1] == 't';
    StripInked(RECEIPT_FENCE);
    assert ("```" + RECEIPT_FENCE)[0] == '`';
    assert Indentation("```" + RECEIPT_FENCE, 0) == 0;
  }

  lemma FillAndCloseReceipt(st: Scan, raw: string)
    requires Neutral(st) && raw != "" && raw[0] == '{'
    ensures var open := st.(fence := Some(Fence('`', 3)), receipt := Some([]));
            ScanLine(ScanLine(open, raw), "```") == st.(receipts := st.receipts + [raw])
  {
    var open := st.(fence := Some(Fence('`', 3)), receipt := Some([]));
    NotAFence(raw);
    assert [] + [raw] == [raw];
    assert ScanLine(open, raw) == open.(receipt := Some([raw]));
    TickLine("");
    assert "```" + "" == "```";
    assert Join([raw], '\n') == raw;
  }

  /** Scanning the printed lines gives one marker, one disposition and the one receipt. */
  lemma ScanOfReceiptLines(disposition: string, raw: string)
    requires disposition == "APPROVED" || disposition == "BLOCKED"
    requires raw != "" && raw[0] == '{'
    ensures Finish(ScanAll(INITIAL, ReceiptLines(disposition, raw)))
         == Content([REVIEW_MARKER, "", "### Disposition: " + disposition, ""], [raw])
  {
    var title := "### Disposition: " + disposition;
    var s1 := INITIAL.(lines := [REVIEW_MARKER]);
    var s2 := INITIAL.(lines := [REVIEW_MARKER, ""]);
    var s3 := INITIAL.(lines := [REVIEW_MARKER, "", title]);
    var s4 := INITIAL.(lines := [REVIEW_MARKER, "", title, ""]);
    TitleIsPlain(disposition);
    MarkerLine(INITIAL);
    assert INITIAL.lines + [REVIEW_MARKER] == s1.lines;
    EmptyLine(s1);
    assert s1.lines + [""] == s2.lines;
    PlainLine(s2, title);
    assert s2.lines + [title] == s3.lines;
    EmptyLine(s3);
    assert s3.lines + [""] == s4.lines;
    OpenReceipt(s4);
    FillAndCloseReceipt(s4, raw);
    assert s4.receipts + [raw] == [raw];
    ScanSeven(INITIAL, REVIEW_MARKER, "", title, "", "```" + RECEIPT_FENCE, raw, "```");
  }

  lemma TitleIsPlain(disposition: string)
    requires disposition == "APPROVED" || disposition == "BLOCKED"
    ensures var title := "### Disposition: " + disposition;
            && '<' !in title && '\n' !in title && '\r' !in title
            && title[0] == '#' && title[|title| - 1] == 'D'
  {
  }

  lemma ScanCons(st: Scan, line: string, rest: seq<string>)
    ensures ScanAll(st, [line] + rest) == ScanAll(ScanLine(st, line), rest)
  {
    assert ([line] + rest)[1..] == rest;
  }

  lemma ScanSeven(st: Scan, a: string, b: string, c: string, d: string, e: string, f: string, g: string)
    ensures ScanAll(st, [a, b, c, d, e, f, g])
         == ScanLine(ScanLine(ScanLine(ScanLine(ScanLine(ScanLine(ScanLine(st, a), b), c), d), e), f), g)
  {
    var sa := ScanLine(st, a);
    var sb := ScanLine(sa, b);
    var sc := ScanLine(sb, c);
    var sd := ScanLine(sc, d);
    var se := ScanLine(sd, e);
    var sf := ScanLine(se, f);
    ScanCons(st, a, [b, c, d, e, f, g]);
    ScanCons(sa, b, [c, d, e, f, g]);
    ScanCons(sb, c, [d, e, f, g]);
    ScanCons(sc, d, [e, f, g]);
    ScanCons(sd, e, [f, g]);
    ScanCons(se, f, [g]);
    ScanCons(sf, g, []);
    assert [a] + [b, c, d, e, f, g] == [a, b, c, d, e, f, g];
    assert [b] + [c, d, e, f, g] == [b, c, d, e, f, g];
    assert [c] + [d, e, f, g] == [c, d, e, f, g];
    assert [d] + [e, f, g] == [d, e, f, g];
    assert [e] + [f, g] == [e, f, g];
    assert [f] + [g] == [f, g];
    assert [g] + [] == [g];
  }

  /**
   Printer and scanner undo each other: the scanned body of an accepted payload holds
   exactly the printed envelope, one marker and the payload's disposition.
   */
  lemma RenderThenScan(codec: Codec, payload: Json)
    requires Faithful(codec) && RenderReceipt(codec, payload).Ok?
    ensures ContentOf(RenderReceipt(codec, payload).value)
         == Content([REVIEW_MARKER, "", "### Disposition: " + payload.fields["disposition"].text, ""],
                    [codec.dumps(Envelope(codec, payload))])
  {
    var disposition, raw := payload.fields["disposition"].text, codec.dumps(Envelope(codec, payload));
    var lines := ReceiptLines(disposition, raw);
    assert disposition == "APPROVED" || disposition == "BLOCKED";
    NoBreaks(disposition, raw);
    forall k | 0 <= k < |lines| ensures '\n' !in lines[k] && '\r' !in lines[k] {
      assert lines[k] in lines;
    }
    JoinNoReturn(lines);
    NormalizeFixes(Join(lines, '\n'));
    SplitOfJoin(lines, '\n');
    ScanOfReceiptLines(disposition, raw);
  }

  predicate OneLine(s: string) {
    '\n' !in s && '\r' !in s
  }

  lemma MarkerIsOneLine()
    ensures OneLine(REVIEW_MARKER)
  {
  }

  lemma FencesAreOneLine()
    ensures OneLine("```") && OneLine("```" + RECEIPT_FENCE)
  {
    assert OneLine(RECEIPT_FENCE);
  }

  lemma SevenLines(a: string, b: string, c: string, d: string, e: string, f: string, g: string)
    requires OneLine(a) && OneLine(b) && OneLine(c) && OneLine(d) && OneLine(e) && OneLine(f) && OneLine(g)
    ensures forall line :: line in [a, b, c, d, e, f, g] ==> OneLine(line)
  {
  }

  lemma NoBreaks(disposition: string, raw: string)
    requires disposition == "APPROVED" || disposition == "BLOCKED"
    requires OneLine(raw)
    ensures forall line :: line in ReceiptLines(disposition, raw) ==> OneLine(line)
  {
    TitleIsPlain(disposition);
    MarkerIsOneLine();
    FencesAreOneLine();
    SevenLines(REVIEW_MARKER, "", "### Disposition: " + disposition, "", "```" + RECEIPT_FENCE, raw, "```");
  }

  /** The printed receipt of an approving payload is valid for its own head and publisher. */
  lemma RenderedReceiptIsValid(codec: Codec, payload: Json)
    requires Faithful(codec) && RenderReceipt(codec, payload).Ok?
    ensures ValidReceipt(codec, [codec.dumps(Envelope(codec, payload))],
                         payload.fields["head_sha"].text, payload.fields["publisher_user_id"].number)
       <==> payload.fields["disposition"].text == "APPROVED"
  {
    var envelope := Envelope(codec, payload);
    assert codec.loads(codec.dumps(envelope)) == Some(envelope);
  }
}
