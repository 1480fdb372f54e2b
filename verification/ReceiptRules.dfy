/**
 Which review payloads and receipts are valid, said in the fields of the record and the
 characters of its texts alone.
 */
module ReceiptRules {
  import opened Options
  import opened Text
  import opened ReviewContent
  import opened ReviewReceipt

  // ---- Names and reports ----

  ghost predicate Alnum(c: char) {
    'a' <= c <= 'z' || '0' <= c <= '9'
  }

  ghost predicate AllAlnum(s: string) {
    s != "" && forall k :: 0 <= k < |s| ==> Alnum(s[k])
  }

  ghost predicate Joiner(c: char) {
    c == '-' || c == '.' || c == '_'
  }

  /** Lower-case groups joined by single separators. */
  ghost predicate Groups(s: string)
    decreases |s|
  {
    AllAlnum(s) || exists n :: 0 < n < |s| && AllAlnum(s[..n]) && Joiner(s[n]) && Groups(s[n + 1..])
  }

  function AlnumRun(s: string): (n: nat)
    ensures n <= |s| && (forall k :: 0 <= k < n ==> LowerAlnum(s[k])) && (n < |s| ==> !LowerAlnum(s[n]))
  {
    if s != "" && LowerAlnum(s[0]) then 1 + AlnumRun(s[1..]) else 0
  }

  lemma RestOfModel(s: string, m: nat)
    requires m <= |s| && ModelCharacters(s) && NoDoubleSeparator(s)
    ensures ModelCharacters(s[m..]) && NoDoubleSeparator(s[m..])
  {
    var rest := s[m..];
    forall k | 0 <= k < |rest| ensures LowerAlnum(rest[k]) || Separator(rest[k]) {
      assert rest[k] == s[k + m];
    }
    forall k | 1 <= k < |rest| ensures LowerAlnum(rest[k - 1]) || LowerAlnum(rest[k]) {
      assert rest[k] == s[k + m] && rest[k - 1] == s[k + m - 1];
    }
  }

  lemma FrontIsGroup(s: string, n: nat)
    requires 0 < n <= |s| && forall k :: 0 <= k < n ==> LowerAlnum(s[k])
    ensures AllAlnum(s[..n])
  {
  }

  lemma EndsOfRest(s: string, m: nat)
    requires m < |s|
    ensures s[m..] != "" && s[m..][0] == s[m] && s[m..][|s[m..]| - 1] == s[|s| - 1]
  {
  }

  lemma RestIsModelId(s: string, n: nat)
    requires IsModelId(s) && n < |s| && (forall k :: 0 <= k < n ==> LowerAlnum(s[k])) && !LowerAlnum(s[n])
    ensures n > 0 && AllAlnum(s[..n]) && Joiner(s[n]) && n + 1 < |s| && IsModelId(s[n + 1..])
  {
    FrontIsGroup(s, n);
    assert n + 1 < |s|;
    assert LowerAlnum(s[n + 1 - 1]) || LowerAlnum(s[n + 1]);
    EndsOfRest(s, n + 1);
    RestOfModel(s, n + 1);
  }

  lemma {:induction false} GroupsOfModelId(s: string)
    requires IsModelId(s)
    ensures Groups(s)
    decreases |s|
  {
    var n := AlnumRun(s);
    if n < |s| {
      RestIsModelId(s, n);
      GroupsOfModelId(s[n + 1..]);
    } else {
      assert AllAlnum(s);
    }
  }

  lemma {:induction false} ModelIdOfGroups(s: string)
    requires Groups(s)
    ensures IsModelId(s)
    decreases |s|
  {
    if !AllAlnum(s) {
      var n :| 0 < n < |s| && AllAlnum(s[..n]) && Joiner(s[n]) && Groups(s[n + 1..]);
      ModelIdOfGroups(s[n + 1..]);
      GroupsJoin(s, n);
    }
  }

  lemma ModelIds(s: string)
    ensures IsModelId(s) <==> Groups(s)
  {
    if IsModelId(s) { GroupsOfModelId(s); }
    if Groups(s) { ModelIdOfGroups(s); }
  }

  lemma GroupsJoin(s: string, n: nat)
    requires 0 < n < |s| && AllAlnum(s[..n]) && Joiner(s[n]) && IsModelId(s[n + 1..])
    ensures IsModelId(s)
  {
    var rest := s[n + 1..];
    forall k | 0 <= k < n ensures LowerAlnum(s[k]) { assert s[..n][k] == s[k]; }
    forall k | n < k < |s| ensures s[k] == rest[k - n - 1] {}
    forall k | 1 <= k < |s| ensures LowerAlnum(s[k - 1]) || LowerAlnum(s[k]) {
      if k > n + 1 { assert LowerAlnum(rest[k - n - 1 - 1]) || LowerAlnum(rest[k - n - 1]); }
    }
  }

  /** One to 256 characters of a task path, not ending in a slash. */
  lemma TaskIds(s: string)
    ensures IsTaskId(s) <==>
            && 1 <= |s| <= 256 && (Alnum(s[0]) || s[0] == '/') && s[|s| - 1] != '/'
            && forall k :: 1 <= k < |s| ==>
                 Alnum(s[k]) || s[k] == '.' || s[k] == '_' || s[k] == ':' || s[k] == '/' || s[k] == '-'
  {
  }

  /** Names are compared without their separators. */
  lemma {:induction false} SeparatorsDrop(a: string, c: char, b: string)
    ensures DropSeparators("") == ""
    ensures DropSeparators(a + [c] + b) == DropSeparators(a) + (if Joiner(c) then "" else [c]) + DropSeparators(b)
  {
    if a == "" {
      assert ("" + [c] + b)[1..] == b;
    } else {
      assert (a + [c] + b)[1..] == a[1..] + [c] + b;
      SeparatorsDrop(a[1..], c, b);
    }
  }

  ghost predicate Pads(s: string, before: string, core: string, after: string) {
    AllSpace(before) && AllSpace(after) && s == before + core + after
  }

  lemma PadsFront(c: char, s: string, before: string, core: string, after: string)
    requires Pads(s, before, core, after) && IsSpace(c)
    ensures Pads([c] + s, [c] + before, core, after)
  {
  }

  lemma PadsBack(c: char, s: string, before: string, core: string, after: string)
    requires Pads(s, before, core, after) && IsSpace(c)
    ensures Pads(s + [c], before, core, after + [c])
  {
  }

  lemma TrimsFront(s: string)
    requires s != "" && IsSpace(s[0])
    ensures TrimReport(s) == TrimReport(s[1..]) && s == [s[0]] + s[1..]
  {
  }

  lemma TrimsBack(s: string)
    requires s != "" && !IsSpace(s[0]) && IsSpace(s[|s| - 1])
    ensures TrimReport(s) == TrimReport(s[..|s| - 1]) && s == s[..|s| - 1] + [s[|s| - 1]]
  {
  }

  /** White space around a report does not count. */
  lemma {:induction false} ReportsTrim(s: string) returns (before: string, core: string, after: string)
    ensures core == TrimReport(s) && Pads(s, before, core, after)
    ensures core != "" ==> !IsSpace(core[0]) && !IsSpace(core[|core| - 1])
    decreases |s|
  {
    if s == "" {
      before, core, after := "", "", "";
    } else if IsSpace(s[0]) {
      before, core, after := ReportsTrim(s[1..]);
      TrimsFront(s);
      PadsFront(s[0], s[1..], before, core, after);
      before := [s[0]] + before;
    } else if IsSpace(s[|s| - 1]) {
      before, core, after := ReportsTrim(s[..|s| - 1]);
      TrimsBack(s);
      PadsBack(s[|s| - 1], s[..|s| - 1], before, core, after);
      after := after + [s[|s| - 1]];
    } else {
      before, core, after := "", s, "";
    }
  }

  /** A report holds no control character but tab and line feed. */
  ghost predicate NoControl(s: string) {
    forall k :: 0 <= k < |s| ==> s[k] == '\t' || s[k] == '\n' || (s[k] >= ' ' && s[k] != '\U{7F}')
  }

  // ---- Payloads ----

  /** The fields common to both kinds of payload. */
  ghost predicate CommonFields(record: map<string, Json>, head: string, publisher: int, least: nat) {
    && "head_sha" in record && record["head_sha"] == Text(head) && IsHex(head, 40)
    && "publisher_user_id" in record && record["publisher_user_id"] == Number(publisher) && publisher >= 1
    && "scope" in record && record["scope"] == Text("software-only")
    && "report" in record && record["report"].Text? && NoControl(record["report"].text)
    && |TrimReport(record["report"].text)| >= least
  }

  lemma CommonIsBound(record: map<string, Json>, head: string, publisher: int, least: nat)
    ensures CommonFields(record, head, publisher, least) <==> Bound(record, head, publisher) && HasReport(record, least)
  {
    if "report" in record && record["report"].Text? {
      var report := record["report"].text;
      assert NoControl(report) <==> PlainReport(report);
    }
  }

  /** A software review: these fields and no others, approving, with a model that is known by name. */
  ghost predicate SoftwareFields(record: map<string, Json>, head: string, publisher: int) {
    && record.Keys == {"schema", "head_sha", "publisher_user_id", "scope", "disposition", "reviewer_model_id",
                       "review_result", "blocking_findings", "report"}
    && CommonFields(record, head, publisher, 80)
    && record["disposition"] == Text("APPROVED") && record["review_result"] == Text("PASS")
    && record["blocking_findings"] == Number(0)
    && record["reviewer_model_id"].Text? && Groups(record["reviewer_model_id"].text)
    && Known(DropSeparators(record["reviewer_model_id"].text))
  }

  ghost predicate Known(name: string) {
    && name != "unknown" && name != "notestablished" && name != "unavailable" && name != "none"
    && name != "null" && name != "pending" && name != "na" && name != "tbd"
  }

  lemma SoftwareExactly(record: map<string, Json>, head: string, publisher: int)
    ensures ValidSoftwarePayload(record, head, publisher) <==> SoftwareFields(record, head, publisher)
  {
    CommonIsBound(record, head, publisher, 80);
    if record.Keys == SOFTWARE_FIELDS && record["reviewer_model_id"].Text? {
      ModelIds(record["reviewer_model_id"].text);
    }
  }

  /** A model and a task that are both known by name; models are compared without separators. */
  ghost predicate IdentityFields(value: Json, identity: Identity) {
    && value.Object? && value.fields.Keys == {"model_id", "task_id"}
    && value.fields["model_id"].Text? && value.fields["task_id"].Text?
    && Groups(value.fields["model_id"].text) && IsTaskId(value.fields["task_id"].text)
    && identity.model == DropSeparators(value.fields["model_id"].text) && Known(identity.model)
    && identity.task == value.fields["task_id"].text && Known(DropSeparators(identity.task))
  }

  lemma IdentityExactly(value: Json, identity: Identity)
    ensures IdentityOf(value) == Some(identity) <==> IdentityFields(value, identity)
  {
    if value.Object? && value.fields.Keys == {"model_id", "task_id"} && value.fields["model_id"].Text? {
      ModelIds(value.fields["model_id"].text);
    }
  }

  /** Every implementer has an identity of another model and task than the reviewer, and no two share a task. */
  ghost predicate Independent(implementers: seq<Json>, reviewer: Identity) {
    && (forall k :: 0 <= k < |implementers| ==>
          && IdentityOf(implementers[k]).Some?
          && IdentityOf(implementers[k]).value.model != reviewer.model
          && IdentityOf(implementers[k]).value.task != reviewer.task)
    && (forall j, k :: 0 <= j < k < |implementers| ==>
          IdentityOf(implementers[j]).value.task != IdentityOf(implementers[k]).value.task)
  }

  lemma {:induction false} IndependenceInOneGo(implementers: seq<Json>, reviewer: Identity, tasks: set<string>)
    ensures IndependentOf(implementers, reviewer, tasks) <==>
            && Independent(implementers, reviewer)
            && forall k :: 0 <= k < |implementers| ==> IdentityOf(implementers[k]).value.task !in tasks
  {
    if implementers != [] && IdentityOf(implementers[0]).Some? {
      var rest := implementers[1..];
      IndependenceInOneGo(rest, reviewer, tasks + {IdentityOf(implementers[0]).value.task});
      assert forall k :: 0 <= k < |rest| ==> rest[k] == implementers[k + 1];
      assert forall k :: 0 < k < |implementers| ==> implementers[k] == rest[k - 1];
    }
  }

  /** An independent review: these fields and no others, deciding, with implementers other than the reviewer. */
  ghost predicate IndependentFields(record: map<string, Json>, head: string, publisher: int) {
    && record.Keys == {"schema", "head_sha", "publisher_user_id", "scope", "disposition", "implementation",
                       "reviewer", "report"}
    && CommonFields(record, head, publisher, 1) && record["schema"] == Text("independent_model_review_v1")
    && (record["disposition"] == Text("APPROVED") || record["disposition"] == Text("BLOCKED"))
    && record["implementation"].List? && |record["implementation"].items| >= 1
    && exists reviewer :: IdentityFields(record["reviewer"], reviewer)
                          && Independent(record["implementation"].items, reviewer)
  }

  lemma IndependentExactly(record: map<string, Json>, head: string, publisher: int)
    ensures ValidIndependentPayload(record, head, publisher) <==> IndependentFields(record, head, publisher)
  {
    CommonIsBound(record, head, publisher, 1);
    if record.Keys == INDEPENDENT_FIELDS {
      ReviewerIsIndependent(record);
    }
  }

  lemma ReviewerIsIndependent(record: map<string, Json>)
    requires record.Keys == INDEPENDENT_FIELDS
    ensures record["implementation"].List? ==>
              ((exists reviewer :: IdentityFields(record["reviewer"], reviewer)
                                   && Independent(record["implementation"].items, reviewer))
               <==> var reviewer := IdentityOf(record["reviewer"]);
                    reviewer.Some? && IndependentOf(record["implementation"].items, reviewer.value, {}))
  {
    if record["implementation"].List? {
      forall reviewer
        ensures IdentityFields(record["reviewer"], reviewer) <==> IdentityOf(record["reviewer"]) == Some(reviewer)
        ensures IndependentOf(record["implementation"].items, reviewer, {}) <==>
                Independent(record["implementation"].items, reviewer)
      {
        IdentityExactly(record["reviewer"], reviewer);
        IndependenceInOneGo(record["implementation"].items, reviewer, {});
      }
    }
  }

  /** The schema names the kind; the first software schema is never accepted, nor any other. */
  lemma PayloadsExactly(payload: Json, head: string, publisher: int)
    ensures ValidPayload(payload, head, publisher) <==>
            && payload.Object? && "schema" in payload.fields
            && if payload.fields["schema"] == Text("software_source_review_v2")
               then SoftwareFields(payload.fields, head, publisher)
               else IndependentFields(payload.fields, head, publisher)
  {
    if payload.Object? {
      SoftwareExactly(payload.fields, head, publisher);
      IndependentExactly(payload.fields, head, publisher);
    }
  }

  /** The text is an envelope of just this payload and this digest. */
  ghost predicate Wraps(codec: Codec, raw: string, payload: Json, digest: string) {
    codec.loads(raw) == Some(Object(map["payload" := payload, "sha256" := Text(digest)]))
  }

  lemma EnvelopeWraps(codec: Codec, raw: string, fields: map<string, Json>)
    requires codec.loads(raw) == Some(Object(fields)) && fields.Keys == {"payload", "sha256"}
    requires fields["sha256"].Text?
    ensures Wraps(codec, raw, fields["payload"], fields["sha256"].text)
  {
    assert fields == map["payload" := fields["payload"], "sha256" := Text(fields["sha256"].text)];
  }

  lemma WrapsEnvelope(codec: Codec, raw: string, payload: Json, digest: string)
    requires Wraps(codec, raw, payload, digest)
    ensures var envelope := codec.loads(raw);
            && envelope.Some? && envelope.value.Object? && envelope.value.fields.Keys == {"payload", "sha256"}
            && envelope.value.fields["payload"] == payload && envelope.value.fields["sha256"] == Text(digest)
  {
  }

  /** The payload is valid and approves, and this is its digest. */
  ghost predicate Attested(codec: Codec, payload: Json, digest: string, head: string, publisher: int) {
    && IsHex(digest, 64) && codec.sha256(payload) == digest
    && ValidPayload(payload, head, publisher) && payload.Object?
    && "disposition" in payload.fields && payload.fields["disposition"] == Text("APPROVED")
  }

  /** The one receipt of a body: an envelope of an approving valid payload and its own digest. */
  lemma ReceiptsExactly(codec: Codec, receipts: seq<string>, head: string, publisher: int)
    ensures ValidReceipt(codec, receipts, head, publisher) <==>
            |receipts| == 1 && exists payload, digest ::
                                 Wraps(codec, receipts[0], payload, digest)
                                 && Attested(codec, payload, digest, head, publisher)
  {
    if ValidReceipt(codec, receipts, head, publisher) {
      EnvelopeWraps(codec, receipts[0], codec.loads(receipts[0]).value.fields);
    }
    if |receipts| == 1 {
      forall payload, digest | Wraps(codec, receipts[0], payload, digest)
        ensures ValidReceipt(codec, receipts, head, publisher) <==>
                Attested(codec, payload, digest, head, publisher)
      {
        WrapsEnvelope(codec, receipts[0], payload, digest);
      }
    }
  }
}
