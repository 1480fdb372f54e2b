/**
 The retry guard of the trusted review workflow, and the protocol around it: every
 attempt lists a packet, then runs the guard, then may upload one terminal review.
 */
module ReviewGuard {
  import opened Options
  import opened Sequences
  import opened Text
  import opened Decimal

  // ---- Artifact names ----

  const PACKET_PREFIX := "ppo-4h-review-packet-"
  const RESULT_PREFIX := "ppo-4h-gemini-review-"

  /** One attempt of one workflow run. */
  datatype Attempt = Attempt(run: nat, number: nat)

  datatype Packet = Packet(identity: string, attempt: Attempt)

  predicate ValidAttempt(a: Attempt) {
    a.run >= 1 && a.number >= 1
  }

  predicate ValidPacket(p: Packet) {
    IsHex(p.identity, 64) && ValidAttempt(p.attempt)
  }

  function AttemptSuffix(a: Attempt): string
    requires ValidAttempt(a)
  {
    ToDecimal(a.run) + "-" + ToDecimal(a.number)
  }

  function PacketName(p: Packet): string
    requires ValidPacket(p)
  {
    PACKET_PREFIX + p.identity + "-" + AttemptSuffix(p.attempt)
  }

  function ResultName(a: Attempt): string
    requires ValidAttempt(a)
  {
    RESULT_PREFIX + AttemptSuffix(a)
  }

  function DashAt(s: string): (n: nat)
    ensures n <= |s| && (n < |s| ==> s[n] == '-')
  {
    if s == "" || s[0] == '-' then 0 else 1 + DashAt(s[1..])
  }

  function ParseAttempt(s: string): Option<Attempt> {
    var n := DashAt(s);
    if n < |s| && IsPositive(s[..n]) && IsPositive(s[n + 1..])
    then Some(Attempt(FromDecimal(s[..n]), FromDecimal(s[n + 1..])))
    else None
  }

  function ParsePacket(name: string): Option<Packet> {
    var start := |PACKET_PREFIX|;
    if |name| <= start + 64 || !StartsWith(name, PACKET_PREFIX) then None
    else if !IsHex(name[start..start + 64], 64) || name[start + 64] != '-' then None
    else
      var attempt := ParseAttempt(name[start + 65..]);
      if attempt.None? then None else Some(Packet(name[start..start + 64], attempt.value))
  }

  function ParseResult(name: string): Option<Attempt> {
    if StartsWith(name, RESULT_PREFIX) then ParseAttempt(name[|RESULT_PREFIX|..]) else None
  }

  lemma {:induction false} DashAfterDigits(s: string, rest: string)
    requires forall k :: 0 <= k < |s| ==> s[k] != '-'
    ensures DashAt(s + "-" + rest) == |s|
  {
    if s == "" {
      assert (s + "-" + rest)[0] == '-';
    } else {
      assert (s + "-" + rest)[1..] == s[1..] + "-" + rest;
      DashAfterDigits(s[1..], rest);
    }
  }

  lemma AttemptRoundTrip(a: Attempt)
    requires ValidAttempt(a)
    ensures ParseAttempt(AttemptSuffix(a)) == Some(a)
  {
    DecimalRoundTrip(a.run);
    DecimalRoundTrip(a.number);
    var run, number := ToDecimal(a.run), ToDecimal(a.number);
    DashAfterDigits(run, number);
    assert (run + "-" + number)[..|run|] == run;
    assert (run + "-" + number)[|run| + 1..] == number;
  }

  /** Names are read back as what they were made of, so different attempts never share one. */
  lemma PacketRoundTrip(p: Packet)
    requires ValidPacket(p)
    ensures ParsePacket(PacketName(p)) == Some(p)
  {
    AttemptRoundTrip(p.attempt);
    var name, start := PacketName(p), |PACKET_PREFIX|;
    assert name[start..start + 64] == p.identity;
    assert name[start + 65..] == AttemptSuffix(p.attempt);
  }

  lemma ResultRoundTrip(a: Attempt)
    requires ValidAttempt(a)
    ensures ParseResult(ResultName(a)) == Some(a)
  {
    AttemptRoundTrip(a);
    assert ResultName(a)[|RESULT_PREFIX|..] == AttemptSuffix(a);
  }

  lemma AttemptOfSuffix(s: string, a: Attempt)
    requires ParseAttempt(s) == Some(a)
    ensures ValidAttempt(a) && AttemptSuffix(a) == s
  {
    var n := DashAt(s);
    NumeralRoundTrip(s[..n]);
    NumeralRoundTrip(s[n + 1..]);
    assert s == s[..n] + "-" + s[n + 1..];
  }

  lemma NameParts(name: string, start: nat)
    requires start + 65 <= |name| && name[start + 64] == '-'
    ensures name == name[..start] + name[start..start + 64] + "-" + name[start + 65..]
  {
  }

  lemma NameOfParsed(name: string, p: Packet)
    requires ParsePacket(name) == Some(p)
    ensures ValidPacket(p) && name == PacketName(p)
  {
    var start := |PACKET_PREFIX|;
    var suffix := name[start + 65..];
    assert p.identity == name[start..start + 64] && ParseAttempt(suffix) == Some(p.attempt);
    AttemptOfSuffix(suffix, p.attempt);
    NameParts(name, start);
    assert name[..start] == PACKET_PREFIX;
  }

  /** A name is read as a packet exactly when it is that packet's name. */
  lemma PacketNames(name: string, p: Packet)
    ensures ParsePacket(name) == Some(p) <==> ValidPacket(p) && name == PacketName(p)
  {
    if ParsePacket(name) == Some(p) {
      NameOfParsed(name, p);
    } else if ValidPacket(p) {
      PacketRoundTrip(p);
    }
  }

  /** And so for terminal results. */
  lemma ResultNames(name: string, a: Attempt)
    ensures ParseResult(name) == Some(a) <==> ValidAttempt(a) && name == ResultName(a)
  {
    if ValidAttempt(a) { ResultRoundTrip(a); }
    if ParseResult(name) == Some(a) {
      AttemptOfSuffix(name[|RESULT_PREFIX|..], a);
      assert name == RESULT_PREFIX + name[|RESULT_PREFIX|..];
    }
  }

  // ---- The guard ----

  /** A listed artifact; a missing or non-boolean expiry, or a missing run id, is None. */
  datatype Artifact =
    | Artifact(name: string, expired: Option<bool>, workflowRun: Option<int>)
    | NotAnObject

  datatype WorkflowStep = WorkflowStep(name: string, status: string, conclusion: string)

  datatype Job = Job(name: string, steps: Option<seq<WorkflowStep>>)

  const REVIEW_JOB_NAME := "Trusted Gemini semantic review"
  const PROVIDER_STEP_NAME := "Call Gemini reviewer"
  const EVIDENCE_UPLOAD_STEP_NAME := "Upload immutable Gemini review evidence"

  function JobsNamed(jobs: seq<Job>, name: string): seq<Job> {
    Filter(jobs, (job: Job) => job.name == name)
  }

  function StepsNamed(steps: seq<WorkflowStep>, name: string): seq<WorkflowStep> {
    Filter(steps, (step: WorkflowStep) => step.name == name)
  }

  /** The steps of the review job: a provider that was called must have its evidence uploaded. */
  predicate RetryableSteps(steps: seq<WorkflowStep>) {
    var provider, upload := StepsNamed(steps, PROVIDER_STEP_NAME), StepsNamed(steps, EVIDENCE_UPLOAD_STEP_NAME);
    if |provider| > 1 || |upload| > 1 then false
    else if provider == [] || provider[0].status != "completed" || provider[0].conclusion == "skipped" then true
    else upload != [] && upload[0].status == "completed" && upload[0].conclusion == "success"
  }

  /** An earlier attempt of the same run leaves the retry safe; None is a malformed inventory. */
  predicate RetryableJobs(inventory: Option<seq<Job>>) {
    if inventory.None? then false
    else
      var review := JobsNamed(inventory.value, REVIEW_JOB_NAME);
      if |review| > 1 then false
      else if review == [] || review[0].steps.None? then true
      else RetryableSteps(review[0].steps.value)
  }

  /** What an artifact says about this identity; None for artifacts the guard ignores. */
  function PacketOf(identity: string, a: Artifact): Option<Attempt> {
    if a.NotAnObject? then None
    else
      var packet := ParsePacket(a.name);
      if packet.Some? && packet.value.identity == identity then Some(packet.value.attempt) else None
  }

  function ResultOf(a: Artifact): Option<Attempt> {
    if a.NotAnObject? then None else ParseResult(a.name)
  }

  type JobReader = Attempt -> Option<seq<Job>>

  /** One packet artifact of this identity does not stand in the way of the current attempt. */
  predicate Harmless(current: Attempt, a: Artifact, at: Attempt, jobs: JobReader)
    requires a.Artifact?
  {
    && a.expired == Some(false) && a.workflowRun == Some(at.run)
    && at.run == current.run && at.number <= current.number
    && (at.number < current.number ==> RetryableJobs(jobs(at)))
  }

  /** The guard's verdict, as conditions on the two listings. */
  ghost predicate Retryable(
    identity: string, current: Attempt, packets: seq<Artifact>, results: seq<Artifact>, jobs: JobReader)
  {
    && (forall k :: 0 <= k < |results| ==> ResultOf(results[k]).None?)
    && (forall k :: 0 <= k < |packets| && PacketOf(identity, packets[k]).Some? ==>
          Harmless(current, packets[k], PacketOf(identity, packets[k]).value, jobs))
    && (forall j, k :: 0 <= j < k < |packets| && PacketOf(identity, packets[j]).Some? ==>
          PacketOf(identity, packets[j]) != PacketOf(identity, packets[k]))
  }

  /** The terminal-evidence half: it passes only if no terminal artifact is listed at all. */
  method NoTerminalEvidence(current: Attempt, results: seq<Artifact>) returns (ok: bool)
    ensures ok <==> forall k :: 0 <= k < |results| ==> ResultOf(results[k]).None?
  {
    var terminal: set<Attempt> := {};
    for k := 0 to |results|
      invariant forall a :: a in terminal ==> a.run == current.run
      invariant (exists j :: 0 <= j < k && ResultOf(results[j]).Some?) <==> terminal != {}
    {
      var found := ResultOf(results[k]);
      if found.Some? {
        if results[k].workflowRun != Some(found.value.run) {
          return false;
        }
        if found.value.run != current.run {
          return false;
        }
        if found.value in terminal {
          return false;
        }
        terminal := terminal + {found.value};
        if results[k].expired != Some(false) {
          return false;
        }
      }
    }
    if exists a :: a in terminal && a.run == current.run && a.number >= current.number {
      return false;
    }
    if exists a :: a in terminal && a.run == current.run && a.number < current.number {
      return false;
    }
    assert forall a :: a !in terminal;
    return true;
  }

  method RequireReviewIdentityRetryable(
    identity: string, current: Attempt, packets: seq<Artifact>, results: seq<Artifact>, jobs: JobReader)
    returns (ok: bool)
    ensures ok <==> Retryable(identity, current, packets, results, jobs)
  {
    var none := NoTerminalEvidence(current, results);
    if !none {
      return false;
    }
    var seen: set<Attempt> := {};
    for k := 0 to |packets|
      invariant Scanned(identity, current, packets[..k], seen, jobs)
    {
      var found := PacketOf(identity, packets[k]);
      assert packets[..k + 1] == packets[..k] + [packets[k]];
      if found.None? {
        ScanQuiet(identity, current, packets[..k], packets[k], seen, jobs);
        continue;
      }
      var at := found.value;
      if packets[k].expired != Some(false) {
        return false;
      }
      if packets[k].workflowRun != Some(at.run) {
        return false;
      }
      if at in seen {
        RepeatedAttempt(identity, packets, k, seen);
        return false;
      }
      ghost var before := seen;
      seen := seen + {at};
      if at == current {
        ScanHit(identity, current, packets[..k], packets[k], before, jobs, at);
        continue;
      }
      if at.run != current.run {
        return false;
      }
      if at.number >= current.number {
        return false;
      }
      if !RetryableJobs(jobs(at)) {
        return false;
      }
      ScanHit(identity, current, packets[..k], packets[k], before, jobs, at);
    }
    assert packets[..|packets|] == packets;
    return true;
  }

  lemma ScanQuiet(
    identity: string, current: Attempt, packets: seq<Artifact>, next: Artifact, seen: set<Attempt>, jobs: JobReader)
    requires Scanned(identity, current, packets, seen, jobs) && PacketOf(identity, next).None?
    ensures Scanned(identity, current, packets + [next], seen, jobs)
  {
    SeenStays(identity, packets, next, seen);
    HarmlessGrows(identity, current, packets, next, seen, seen, jobs);
    NoRepeatsGrows(identity, current, packets, next, seen, jobs);
  }

  lemma ScanHit(
    identity: string, current: Attempt, packets: seq<Artifact>, next: Artifact, seen: set<Attempt>, jobs: JobReader,
    at: Attempt)
    requires Scanned(identity, current, packets, seen, jobs) && PacketOf(identity, next) == Some(at)
    requires at !in seen && Harmless(current, next, at, jobs)
    ensures Scanned(identity, current, packets + [next], seen + {at}, jobs)
  {
    SeenStays(identity, packets, next, seen);
    HarmlessGrows(identity, current, packets, next, seen, seen + {at}, jobs);
    NoRepeatsGrows(identity, current, packets, next, seen, jobs);
    assert (packets + [next])[|packets|] == next;
  }

  lemma HarmlessGrows(
    identity: string, current: Attempt, packets: seq<Artifact>, next: Artifact, seen: set<Attempt>,
    more: set<Attempt>, jobs: JobReader)
    requires HarmlessSoFar(identity, current, packets, seen, jobs) && seen <= more
    requires PacketOf(identity, next).Some? ==>
               PacketOf(identity, next).value in more && Harmless(current, next, PacketOf(identity, next).value, jobs)
    ensures HarmlessSoFar(identity, current, packets + [next], more, jobs)
  {
  }

  lemma NoRepeatsGrows(
    identity: string, current: Attempt, packets: seq<Artifact>, next: Artifact, seen: set<Attempt>, jobs: JobReader)
    requires HarmlessSoFar(identity, current, packets, seen, jobs) && NoRepeats(identity, packets)
    requires PacketOf(identity, next).Some? ==> PacketOf(identity, next).value !in seen
    ensures NoRepeats(identity, packets + [next])
  {
  }

  lemma SeenStays(identity: string, packets: seq<Artifact>, next: Artifact, seen: set<Attempt>)
    requires SeenIn(identity, packets, seen)
    ensures SeenIn(identity, packets + [next], seen)
  {
    var longer := packets + [next];
    forall a | a in seen ensures exists k :: 0 <= k < |longer| && PacketOf(identity, longer[k]) == Some(a) {
      var k :| 0 <= k < |packets| && PacketOf(identity, packets[k]) == Some(a);
      assert longer[k] == packets[k];
    }
  }

  /** The packets looked at so far are harmless and distinct, and `seen` lists their attempts. */
  ghost predicate Scanned(
    identity: string, current: Attempt, packets: seq<Artifact>, seen: set<Attempt>, jobs: JobReader)
  {
    && HarmlessSoFar(identity, current, packets, seen, jobs)
    && SeenIn(identity, packets, seen) && NoRepeats(identity, packets)
  }

  ghost predicate HarmlessSoFar(
    identity: string, current: Attempt, packets: seq<Artifact>, seen: set<Attempt>, jobs: JobReader)
  {
    forall k :: 0 <= k < |packets| && PacketOf(identity, packets[k]).Some? ==>
      PacketOf(identity, packets[k]).value in seen
      && Harmless(current, packets[k], PacketOf(identity, packets[k]).value, jobs)
  }

  ghost predicate NoRepeats(identity: string, packets: seq<Artifact>) {
    forall j, k :: 0 <= j < k < |packets| && PacketOf(identity, packets[j]).Some? ==>
      PacketOf(identity, packets[j]) != PacketOf(identity, packets[k])
  }

  ghost predicate SeenIn(identity: string, packets: seq<Artifact>, seen: set<Attempt>) {
    forall a :: a in seen ==> exists k :: 0 <= k < |packets| && PacketOf(identity, packets[k]) == Some(a)
  }

  lemma RepeatedAttempt(identity: string, packets: seq<Artifact>, k: nat, seen: set<Attempt>)
    requires k < |packets| && SeenIn(identity, packets[..k], seen)
    requires PacketOf(identity, packets[k]).Some? && PacketOf(identity, packets[k]).value in seen
    ensures exists j :: 0 <= j < k && PacketOf(identity, packets[j]) == PacketOf(identity, packets[k])
  {
    var j :| 0 <= j < k && PacketOf(identity, packets[..k][j]) == PacketOf(identity, packets[k]);
    assert packets[..k][j] == packets[j];
  }
}
