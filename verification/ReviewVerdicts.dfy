/**
 When reviews block or approve a pull request, said in the fields of the reviews and the
 lines of their bodies alone.
 */
module ReviewVerdicts {
  import opened Options
  import opened Sequences
  import opened Text
  import opened ReviewContent
  import opened ReviewReceipt
  import opened ReviewOutcome

  // ---- One review ----

  /** A review of this head by a known user, with an id. */
  ghost predicate OfHead(r: Review, head: string) {
    && r.Review? && r.commit == Some(head)
    && r.userId.Some? && r.userId.value > 0 && r.reviewId.Some? && r.reviewId.value > 0
  }

  /** Its body holds the review marker outside of code, comments and markup. */
  ghost predicate IsMarked(r: Review, head: string) {
    OfHead(r, head) && r.body.Some? && "<!-- independent-research-review-audit -->" in ContentOf(r.body.value).lines
  }

  /** It is submitted and marked, and one of its lines is the blocking disposition. */
  ghost predicate Objects(r: Review, head: string) {
    && IsMarked(r, head) && "### Disposition: BLOCKED" in ContentOf(r.body.value).lines
    && (r.state == "APPROVED" || r.state == "CHANGES_REQUESTED" || r.state == "COMMENTED")
  }

  /** Exactly one line is a disposition, and it is this one. */
  ghost predicate OnlyDisposition(lines: seq<string>, line: string) {
    exists k :: OnlyAt(lines, (l: string) => "### Disposition:" <= l, k) && lines[k] == line
  }

  /** One marker, one disposition, which approves, and a receipt valid for this head and reviewer. */
  ghost predicate Endorses(codec: Codec, r: Review, head: string) {
    && IsMarked(r, head) && (r.state == "APPROVED" || r.state == "COMMENTED")
    && var content := ContentOf(r.body.value);
       && multiset(content.lines)["<!-- independent-research-review-audit -->"] == 1
       && OnlyDisposition(content.lines, "### Disposition: APPROVED")
       && ValidReceipt(codec, content.receipts, head, r.userId.value)
  }

  // ---- The disposition lines of a body ----

  lemma DispositionLines(lines: seq<string>, line: string)
    requires "### Disposition:" <= line
    ensures line in Dispositions(lines) <==> line in lines
    ensures Dispositions(lines) == [line] <==> OnlyDisposition(lines, line)
  {
    var p, q := (l: string) => StartsWith(l, DISPOSITION_PREFIX), (l: string) => "### Disposition:" <= l;
    FilterMembers(lines, p, line);
    FilterOne(lines, p);
    assert forall k :: OnlyAt(lines, p, k) <==> OnlyAt(lines, q, k);
  }

  // ---- What the code notes of one review ----

  /** The note of a review holds its author, its id, whether it objects and whether it endorses. */
  lemma NoteMeans(codec: Codec, head: string, r: Review)
    ensures var n := NoteOf(codec, head, r);
            && (Counted(n) <==> OfHead(r, head)) && (n.Marked? <==> IsMarked(r, head))
            && (Counted(n) ==> n.reviewer == r.userId.value && n.id == r.reviewId.value)
            && (n.Marked? ==> (n.blocks <==> Objects(r, head)) && (n.approves <==> Endorses(codec, r, head)))
  {
    if IsMarked(r, head) {
      var lines := ContentOf(r.body.value).lines;
      assert "### Disposition:" <= "### Disposition: BLOCKED" && "### Disposition:" <= "### Disposition: APPROVED";
      DispositionLines(lines, BLOCKED_DISPOSITION);
      DispositionLines(lines, APPROVED_DISPOSITION);
    }
  }

  lemma NoteAt(codec: Codec, head: string, reviews: seq<Review>, r: Review) returns (k: nat)
    requires r in reviews
    ensures k < |reviews| && reviews[k] == r
    ensures NoteOf(codec, head, r) in NotesOf(codec, head, reviews)
  {
    k :| k < |reviews| && reviews[k] == r;
    assert NotesOf(codec, head, reviews)[k] == NoteOf(codec, head, r);
  }

  lemma ReviewOf(codec: Codec, head: string, reviews: seq<Review>, n: Note) returns (r: Review)
    requires n in NotesOf(codec, head, reviews)
    ensures r in reviews && n == NoteOf(codec, head, r)
  {
    var k :| 0 <= k < |reviews| && NotesOf(codec, head, reviews)[k] == n;
    r := reviews[k];
  }

  // ---- The outcome ----

  /** The pull request has this well-formed head and an author, and the reviews could be listed. */
  ghost predicate Ready(pull: Option<Pull>, reviews: Option<seq<Review>>, head: string) {
    && pull.Some? && reviews.Some? && IsHex(head, 40) && pull.value.headSha == Some(head)
    && pull.value.authorId.Some? && pull.value.authorId.value > 0
  }

  /** The outcome is BLOCKED exactly when some listed review objects, whatever else is listed. */
  lemma BlockedExactlyWhen(codec: Codec, pull: Option<Pull>, reviews: Option<seq<Review>>, head: string)
    ensures Resolve(codec, pull, reviews, head) == Blocked <==>
            Ready(pull, reviews, head) && exists r :: r in reviews.value && Objects(r, head)
  {
    if Ready(pull, reviews, head) {
      SomeObjection(codec, head, reviews.value);
    }
  }

  lemma SomeObjection(codec: Codec, head: string, reviews: seq<Review>)
    ensures AnyBlocks(NotesOf(codec, head, reviews)) <==> exists r :: r in reviews && Objects(r, head)
  {
    if r :| r in reviews && Objects(r, head) {
      var k := NoteAt(codec, head, reviews, r);
      NoteMeans(codec, head, r);
    }
    if n :| n in NotesOf(codec, head, reviews) && n.Marked? && n.blocks {
      var r := ReviewOf(codec, head, reviews, n);
      NoteMeans(codec, head, r);
    }
  }

  /** Two listed reviews of the head share an id. */
  ghost predicate SharedId(reviews: seq<Review>, head: string) {
    exists i, j :: 0 <= i < j < |reviews| && OfHead(reviews[i], head) && OfHead(reviews[j], head)
                   && reviews[i].reviewId == reviews[j].reviewId
  }

  /** An endorsement that no later marked review by its author follows. */
  ghost predicate StandingEndorsement(codec: Codec, reviews: seq<Review>, head: string, r: Review) {
    && r in reviews && Endorses(codec, r, head)
    && forall s :: s in reviews && IsMarked(s, head) && s.userId == r.userId ==>
         s.reviewId.value <= r.reviewId.value
  }

  /** It is APPROVED exactly when none objects, no id is shared, and some endorsement stands. */
  lemma ApprovedExactlyWhen(codec: Codec, pull: Option<Pull>, reviews: Option<seq<Review>>, head: string)
    ensures Resolve(codec, pull, reviews, head) == Approved <==>
            && Ready(pull, reviews, head) && (forall r :: r in reviews.value ==> !Objects(r, head))
            && !SharedId(reviews.value, head)
            && exists r :: StandingEndorsement(codec, reviews.value, head, r)
  {
    if Ready(pull, reviews, head) {
      SomeObjection(codec, head, reviews.value);
      SomeAmbiguity(codec, head, reviews.value);
      SomeEndorsement(codec, head, reviews.value);
    }
  }

  lemma SomeAmbiguity(codec: Codec, head: string, reviews: seq<Review>)
    ensures Ambiguous(NotesOf(codec, head, reviews)) <==> SharedId(reviews, head)
  {
    forall k | 0 <= k < |reviews|
      ensures Counted(NotesOf(codec, head, reviews)[k]) <==> OfHead(reviews[k], head)
      ensures OfHead(reviews[k], head) ==> NotesOf(codec, head, reviews)[k].id == reviews[k].reviewId.value
    {
      NoteMeans(codec, head, reviews[k]);
    }
  }

  lemma SomeEndorsement(codec: Codec, head: string, reviews: seq<Review>)
    ensures LatestApproves(NotesOf(codec, head, reviews)) <==>
            exists r :: StandingEndorsement(codec, reviews, head, r)
  {
    var notes := NotesOf(codec, head, reviews);
    if n :| Latest(notes, n) && n.approves {
      var r := ReviewOf(codec, head, reviews, n);
      NoteMeans(codec, head, r);
      forall s | s in reviews && IsMarked(s, head) && s.userId == r.userId
        ensures s.reviewId.value <= r.reviewId.value
      {
        var k := NoteAt(codec, head, reviews, s);
        NoteMeans(codec, head, s);
      }
      assert StandingEndorsement(codec, reviews, head, r);
    }
    if r :| StandingEndorsement(codec, reviews, head, r) {
      var k := NoteAt(codec, head, reviews, r);
      NoteMeans(codec, head, r);
      var n := NoteOf(codec, head, r);
      forall m | m in notes && m.Marked? && m.reviewer == n.reviewer ensures m.id <= n.id {
        var s := ReviewOf(codec, head, reviews, m);
        NoteMeans(codec, head, s);
      }
      assert Latest(notes, n);
    }
  }

  // ---- From a payload to a block ----

  lemma BlockingLines(lines: seq<string>)
    requires lines == [REVIEW_MARKER, "", "### Disposition: " + "BLOCKED", ""]
    ensures "<!-- independent-research-review-audit -->" in lines && "### Disposition: BLOCKED" in lines
  {
    assert lines[0] in lines && lines[2] in lines;
    assert "### Disposition: " + "BLOCKED" == "### Disposition: BLOCKED";
  }

  /** A blocking payload, printed and submitted by anyone at the head, blocks whatever else is listed. */
  lemma PostedBlockBlocks(codec: Codec, payload: Json, pull: Pull, reviews: seq<Review>, r: Review, head: string)
    requires Faithful(codec) && RenderReceipt(codec, payload).Ok?
    requires payload.fields["disposition"].text == "BLOCKED"
    requires r in reviews && OfHead(r, head) && r.body == Some(RenderReceipt(codec, payload).value)
    requires r.state == "APPROVED" || r.state == "CHANGES_REQUESTED" || r.state == "COMMENTED"
    requires IsHex(head, 40) && pull.headSha == Some(head) && pull.authorId.Some? && pull.authorId.value > 0
    ensures Resolve(codec, Some(pull), Some(reviews), head) == Blocked
  {
    RenderThenScan(codec, payload);
    BlockingLines(ContentOf(r.body.value).lines);
    assert Objects(r, head);
    BlockedExactlyWhen(codec, Some(pull), Some(reviews), head);
  }
}
