/**
 Reducing the exact-head reviews of a pull request to one outcome.
 */
module ReviewOutcome {
  import opened Options
  import opened Sequences
  import opened Text
  import opened ReviewContent
  import opened ReviewReceipt

  datatype Outcome = Approved | Blocked | Pending

  /** A pull request's head and author; None where a field is missing or malformed. */
  datatype Pull = Pull(headSha: Option<string>, authorId: Option<int>)

  /** A submitted review; a state that is not text reads as the empty string. */
  datatype Review =
    | Review(commit: Option<string>, userId: Option<int>, reviewId: Option<int>, body: Option<string>, state: string)
    | NotAMapping

  const APPROVED_DISPOSITION := "### Disposition: APPROVED"
  const BLOCKED_DISPOSITION := "### Disposition: BLOCKED"
  const DISPOSITION_PREFIX := "### Disposition:"

  predicate Positive(id: Option<int>) {
    id.Some? && id.value > 0
  }

  function Dispositions(lines: seq<string>): seq<string> {
    Filter(lines, line => StartsWith(line, DISPOSITION_PREFIX))
  }

  function Count(lines: seq<string>, line: string): nat {
    multiset(lines)[line]
  }

  /** What one review says: nothing that counts, an id only, or a marked verdict. */
  datatype Note =
    | Ignored
    | Unmarked(reviewer: int, id: int)
    | Marked(reviewer: int, id: int, blocks: bool, approves: bool)

  predicate Counted(n: Note) {
    !n.Ignored?
  }

  function NoteOf(codec: Codec, head: string, r: Review): Note {
    if r.NotAMapping? || r.commit != Some(head) then Ignored
    else if !Positive(r.userId) || !Positive(r.reviewId) then Ignored
    else if r.body.None? then Unmarked(r.userId.value, r.reviewId.value)
    else
      var content := ContentOf(r.body.value);
      if REVIEW_MARKER !in content.lines then Unmarked(r.userId.value, r.reviewId.value)
      else
        var dispositions := Dispositions(content.lines);
        Marked(r.userId.value, r.reviewId.value,
               BLOCKED_DISPOSITION in dispositions && r.state in {"APPROVED", "CHANGES_REQUESTED", "COMMENTED"},
               Count(content.lines, REVIEW_MARKER) == 1
               && dispositions == [APPROVED_DISPOSITION]
               && r.state in {"APPROVED", "COMMENTED"}
               && ValidReceipt(codec, content.receipts, head, r.userId.value))
  }

  function NotesOf(codec: Codec, head: string, reviews: seq<Review>): seq<Note> {
    seq(|reviews|, k requires 0 <= k < |reviews| => NoteOf(codec, head, reviews[k]))
  }

  // ---- The outcome as conditions on the notes ----

  ghost predicate AnyBlocks(notes: seq<Note>) {
    exists n :: n in notes && n.Marked? && n.blocks
  }

  ghost predicate Ambiguous(notes: seq<Note>) {
    exists i, j :: 0 <= i < j < |notes| && Counted(notes[i]) && Counted(notes[j]) && notes[i].id == notes[j].id
  }

  /** A marked note with the highest id among its reviewer's marked notes. */
  ghost predicate Latest(notes: seq<Note>, n: Note) {
    && n in notes && n.Marked?
    && forall m :: m in notes && m.Marked? && m.reviewer == n.reviewer ==> m.id <= n.id
  }

  ghost predicate LatestApproves(notes: seq<Note>) {
    exists n :: Latest(notes, n) && n.approves
  }

  ghost function OutcomeOf(notes: seq<Note>): Outcome {
    if AnyBlocks(notes) then Blocked
    else if !Ambiguous(notes) && LatestApproves(notes) then Approved
    else Pending
  }

  predicate Evaluable(pull: Option<Pull>, reviews: Option<seq<Review>>, head: string) {
    && pull.Some? && IsHex(head, 40) && pull.value.headSha == Some(head)
    && Positive(pull.value.authorId) && reviews.Some?
  }

  ghost function Resolve(codec: Codec, pull: Option<Pull>, reviews: Option<seq<Review>>, head: string): Outcome {
    if Evaluable(pull, reviews, head) then OutcomeOf(NotesOf(codec, head, reviews.value)) else Pending
  }

  // ---- The source's loop ----

  datatype Verdict = Verdict(id: int, approved: bool)

  /** The dictionary of latest verdicts after the notes seen so far. */
  ghost predicate Tracks(notes: seq<Note>, latest: map<int, Verdict>) {
    && (forall r :: r in latest ==> Recorded(notes, r, latest[r]))
    && (forall n :: n in notes && n.Marked? ==> n.reviewer in latest && n.id <= latest[n.reviewer].id)
  }

  ghost predicate Recorded(notes: seq<Note>, r: int, v: Verdict) {
    exists n :: n in notes && n.Marked? && n.reviewer == r && n.id == v.id && n.approves == v.approved
  }

  lemma TrackOne(notes: seq<Note>, latest: map<int, Verdict>, n: Note)
    requires Tracks(notes, latest)
    ensures !n.Marked? ==> Tracks(notes + [n], latest)
    ensures n.Marked? ==>
              Tracks(notes + [n], if n.reviewer !in latest || n.id > latest[n.reviewer].id
                                  then latest[n.reviewer := Verdict(n.id, n.approves)] else latest)
  {
    var longer := notes + [n];
    assert n in longer && forall m :: m in longer <==> m in notes || m == n;
    forall r | r in latest ensures Recorded(longer, r, latest[r]) {
      assert Recorded(notes, r, latest[r]);
      var m :| m in notes && m.Marked? && m.reviewer == r && m.id == latest[r].id && m.approves == latest[r].approved;
      assert m in longer;
    }
  }

  lemma TrackedDecides(notes: seq<Note>, latest: map<int, Verdict>)
    requires Tracks(notes, latest) && !Ambiguous(notes)
    ensures (exists r :: r in latest && latest[r].approved) <==> LatestApproves(notes)
  {
    if r :| r in latest && latest[r].approved {
      assert Recorded(notes, r, latest[r]);
      var n :| n in notes && n.Marked? && n.reviewer == r && n.id == latest[r].id && n.approves == latest[r].approved;
      assert Latest(notes, n);
    }
    if n :| Latest(notes, n) && n.approves {
      var r := n.reviewer;
      assert Recorded(notes, r, latest[r]);
      var m :| m in notes && m.Marked? && m.reviewer == r && m.id == latest[r].id && m.approves == latest[r].approved;
      var i :| 0 <= i < |notes| && notes[i] == n;
      var j :| 0 <= j < |notes| && notes[j] == m;
      assert i == j;
    }
  }

  /** The ids met so far, and whether one of them came twice. */
  ghost predicate IdsSeen(notes: seq<Note>, ids: set<int>, ambiguous: bool) {
    && (forall id :: id in ids <==> exists n :: n in notes && Counted(n) && n.id == id)
    && (ambiguous <==> Ambiguous(notes))
  }

  lemma SeeOne(notes: seq<Note>, ids: set<int>, ambiguous: bool, n: Note)
    requires IdsSeen(notes, ids, ambiguous)
    ensures !Counted(n) ==> IdsSeen(notes + [n], ids, ambiguous)
    ensures Counted(n) ==> IdsSeen(notes + [n], ids + {n.id}, ambiguous || n.id in ids)
  {
    var longer := notes + [n];
    assert n in longer && forall m :: m in longer <==> m in notes || m == n;
    if Ambiguous(notes) {
      var i, j :| 0 <= i < j < |notes| && Counted(notes[i]) && Counted(notes[j]) && notes[i].id == notes[j].id;
      assert longer[i] == notes[i] && longer[j] == notes[j];
    }
    if Counted(n) && n.id in ids {
      var m :| m in notes && Counted(m) && m.id == n.id;
      var i :| 0 <= i < |notes| && notes[i] == m;
      assert longer[i] == m && longer[|notes|] == n;
    }
    if Ambiguous(longer) {
      var i, j :| 0 <= i < j < |longer| && Counted(longer[i]) && Counted(longer[j]) && longer[i].id == longer[j].id;
      if j < |notes| {
        assert notes[i] == longer[i] && notes[j] == longer[j];
      } else {
        assert notes[i] == longer[i];
      }
    }
  }

  method ResolveReviewOutcome(codec: Codec, pull: Option<Pull>, reviews: Option<seq<Review>>, head: string)
    returns (outcome: Outcome)
    ensures outcome == Resolve(codec, pull, reviews, head)
  {
    if !Evaluable(pull, reviews, head) {
      return Pending;
    }
    var items := reviews.value;
    ghost var notes := NotesOf(codec, head, items);
    var latest: map<int, Verdict> := map[];
    var ids: set<int> := {};
    var ambiguous, blocked := false, false;
    for k := 0 to |items|
      invariant Tracks(notes[..k], latest)
      invariant IdsSeen(notes[..k], ids, ambiguous)
      invariant blocked <==> AnyBlocks(notes[..k])
    {
      var note := NoteOf(codec, head, items[k]);
      assert notes[..k + 1] == notes[..k] + [note];
      TrackOne(notes[..k], latest, note);
      SeeOne(notes[..k], ids, ambiguous, note);
      BlockOne(notes[..k], note);
      if note.Ignored? {
        continue;
      }
      ambiguous := ambiguous || note.id in ids;
      ids := ids + {note.id};
      if note.Unmarked? {
        continue;
      }
      if note.blocks {
        blocked := true;
      }
      if note.reviewer !in latest || note.id > latest[note.reviewer].id {
        latest := latest[note.reviewer := Verdict(note.id, note.approves)];
      }
    }
    assert notes[..|items|] == notes;
    if blocked {
      return Blocked;
    }
    if !ambiguous {
      TrackedDecides(notes, latest);
      if exists r :: r in latest && latest[r].approved {
        return Approved;
      }
    }
    return Pending;
  }

  lemma BlockOne(notes: seq<Note>, n: Note)
    ensures AnyBlocks(notes + [n]) <==> AnyBlocks(notes) || (n.Marked? && n.blocks)
  {
    assert n in notes + [n] && forall m :: m in notes + [n] <==> m in notes || m == n;
  }

  // ---- Order does not matter, and blocking is final ----

  lemma SameNotes(codec: Codec, head: string, a: seq<Review>, b: seq<Review>)
    requires forall r :: r in a ==> r in b
    ensures forall n :: n in NotesOf(codec, head, a) ==> n in NotesOf(codec, head, b)
  {
    var na, nb := NotesOf(codec, head, a), NotesOf(codec, head, b);
    forall k | 0 <= k < |na| ensures na[k] in nb {
      assert a[k] in b;
      var j :| 0 <= j < |b| && b[j] == a[k];
      assert nb[j] == na[k];
    }
  }

  lemma AmbiguityMoves(codec: Codec, head: string, a: seq<Review>, b: seq<Review>)
    requires multiset(a) == multiset(b) && Ambiguous(NotesOf(codec, head, a))
    ensures Ambiguous(NotesOf(codec, head, b))
  {
    var na, nb := NotesOf(codec, head, a), NotesOf(codec, head, b);
    var i, j :| 0 <= i < j < |na| && Counted(na[i]) && Counted(na[j]) && na[i].id == na[j].id;
    PairInOther(b, a, i, j);
    var p, q :| 0 <= p < |b| && 0 <= q < |b| && p != q && b[p] == a[i] && b[q] == a[j];
    assert nb[p] == na[i] && nb[q] == na[j];
    if p < q { assert Counted(nb[p]); } else { assert Counted(nb[q]); }
  }

  /** The outcome is the same for every order of the reviews, repeated ids included. */
  lemma OrderIsIrrelevant(codec: Codec, pull: Option<Pull>, a: seq<Review>, b: seq<Review>, head: string)
    requires multiset(a) == multiset(b)
    ensures Resolve(codec, pull, Some(a), head) == Resolve(codec, pull, Some(b), head)
  {
    var na, nb := NotesOf(codec, head, a), NotesOf(codec, head, b);
    forall r ensures r in a <==> r in b {
      assert r in multiset(a) <==> r in multiset(b);
    }
    SameNotes(codec, head, a, b);
    SameNotes(codec, head, b, a);
    if Ambiguous(na) { AmbiguityMoves(codec, head, a, b); }
    if Ambiguous(nb) { AmbiguityMoves(codec, head, b, a); }
    forall n ensures Latest(na, n) <==> Latest(nb, n) {}
  }

  /** No further review, by anyone, lifts a block. */
  lemma BlockingIsFinal(codec: Codec, pull: Option<Pull>, a: seq<Review>, b: seq<Review>, head: string)
    requires Resolve(codec, pull, Some(a), head) == Blocked
    requires forall r :: r in a ==> r in b
    ensures Resolve(codec, pull, Some(b), head) == Blocked
  {
    SameNotes(codec, head, a, b);
  }

  // ---- From a payload to an approval ----

  lemma DispositionsOfReceipt(disposition: string)
    requires disposition == "APPROVED"
    ensures Dispositions([REVIEW_MARKER, "", "### Disposition: " + disposition, ""]) == [APPROVED_DISPOSITION]
    ensures Count([REVIEW_MARKER, "", "### Disposition: " + disposition, ""], REVIEW_MARKER) == 1
  {
    var title := "### Disposition: " + disposition;
    assert title == APPROVED_DISPOSITION;
    var lines := [REVIEW_MARKER, "", title, ""];
    assert REVIEW_MARKER[0] == '<' && title[0] == '#';
    var p := line => StartsWith(line, DISPOSITION_PREFIX);
    FilterOne(lines, p);
    assert OnlyAt(lines, p, 2);
  }

  /** A review that posts the printed receipt of an approving payload as its publisher. */
  predicate Posts(codec: Codec, payload: Json, r: Review) {
    && RenderReceipt(codec, payload).Ok? && payload.fields["disposition"].text == "APPROVED"
    && r.Review? && r.commit == Some(payload.fields["head_sha"].text)
    && r.userId == Some(payload.fields["publisher_user_id"].number) && Positive(r.reviewId)
    && r.body == Some(RenderReceipt(codec, payload).value)
    && r.state in {"APPROVED", "COMMENTED"}
  }

  lemma NotBlocking()
    ensures BLOCKED_DISPOSITION !in [APPROVED_DISPOSITION]
  {
    assert |APPROVED_DISPOSITION| == 25 && |BLOCKED_DISPOSITION| == 24;
  }

  /** A body whose scan shows the approving lines and a valid receipt yields an approving note. */
  lemma ApprovingContent(codec: Codec, head: string, r: Review, raw: string)
    requires r.Review? && r.commit == Some(head) && Positive(r.userId) && Positive(r.reviewId) && r.body.Some?
    requires r.state in {"APPROVED", "COMMENTED"}
    requires ContentOf(r.body.value) == Content([REVIEW_MARKER, "", "### Disposition: " + "APPROVED", ""], [raw])
    requires ValidReceipt(codec, [raw], head, r.userId.value)
    ensures NoteOf(codec, head, r) == Marked(r.userId.value, r.reviewId.value, false, true)
  {
    var lines := [REVIEW_MARKER, "", "### Disposition: " + "APPROVED", ""];
    DispositionsOfReceipt("APPROVED");
    NotBlocking();
    assert lines[0] == REVIEW_MARKER;
    assert Count(lines, REVIEW_MARKER) == 1 && Dispositions(lines) == [APPROVED_DISPOSITION];
  }

  lemma PostedReceiptApproves(codec: Codec, payload: Json, r: Review)
    requires Faithful(codec) && Posts(codec, payload, r)
    ensures NoteOf(codec, payload.fields["head_sha"].text, r)
         == Marked(r.userId.value, r.reviewId.value, false, true)
  {
    RenderThenScan(codec, payload);
    RenderedReceiptIsValid(codec, payload);
    ApprovingContent(codec, payload.fields["head_sha"].text, r, codec.dumps(Envelope(codec, payload)));
  }

  /**
   An approving payload, printed and posted by its publisher at its head, approves the
   pull request, unless some review blocks, an id repeats, or the publisher has
   marked a later review at that head.
   */
  lemma PostedReceiptResolves(
    codec: Codec, payload: Json, pull: Pull, reviews: seq<Review>, r: Review, head: string)
    requires Faithful(codec) && Posts(codec, payload, r) && r in reviews
    requires head == payload.fields["head_sha"].text
    requires pull.headSha == Some(head) && Positive(pull.authorId)
    ensures var notes := NotesOf(codec, head, reviews);
            !AnyBlocks(notes) && !Ambiguous(notes)
            && (forall m :: m in notes && m.Marked? && m.reviewer == r.userId.value ==> m.id <= r.reviewId.value)
            ==> Resolve(codec, Some(pull), Some(reviews), head) == Approved
  {
    var notes := NotesOf(codec, head, reviews);
    PostedReceiptApproves(codec, payload, r);
    var k :| 0 <= k < |reviews| && reviews[k] == r;
    assert notes[k] == NoteOf(codec, head, r);
    assert notes[k] in notes;
    if !AnyBlocks(notes) && !Ambiguous(notes)
       && (forall m :: m in notes && m.Marked? && m.reviewer == r.userId.value ==> m.id <= r.reviewId.value) {
      assert Latest(notes, notes[k]);
    }
  }
}
