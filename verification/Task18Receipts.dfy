/**
 Run receipts of a paired diagnostic: when the arms, their reports and their declarations
 together make the pair arithmetic available, and what that arithmetic is.
 */
module Task18Receipts {
  import opened Options
  import opened Sequences
  import opened Sorting
  import opened Text

  const EQUITY_TOLERANCE: real := 0.00000001
  const DRAWDOWN_TOLERANCE: real := 0.000000000001

  /** A field read from untrusted data: absent, of the wrong kind, or a usable value. */
  datatype Slot<T> = Missing | Malformed | Is(value: T)

  datatype Status = NotAttempted | Running | Interrupted | Failed | Completed | Unknown

  datatype Reason = NotStarted | InterruptedBeforeStart | InProgress | ProcessInterrupted | ProcessFailed | OtherReason

  datatype Identity = Identity(pairId: string, role: string, configuration: string, symbol: string, scenario: string)

  datatype PairSpec = PairSpec(pairId: string, configuration: string, symbol: string, scenario: string)

  datatype ArmSpec = ArmSpec(armId: string, identity: Identity)

  /** What a run, or one of its arms, declares to have been bound to. */
  datatype Binding = Binding(protocol: string, dataset: string, manifest: string, arrays: string)

  datatype Report = Report(
    runId: string, protocol: string, sourceBinding: string, armId: string, identity: Identity, dataset: string,
    ledger: string, result: string, verification: string, expectedAdvances: int, observedAdvances: int,
    initial: real, terminal: real, drawdown: real, settled: bool, flat: bool, pending: int, oraclePassed: bool)

  datatype ArmReceipt = ArmReceipt(
    armId: Slot<string>, identity: Identity, binding: Binding, sourceBinding: string, status: Status,
    initial: Slot<real>, terminal: Slot<real>, drawdown: Slot<real>, flat: Slot<bool>, pending: Slot<int>,
    ledger: Slot<string>, result: Slot<string>, report: Slot<Report>,
    error: Slot<string>, reason: Slot<Reason>, progress: Slot<bool>)

  datatype Pin = Pin(path: string, digest: string)

  datatype SourceBinding = SourceBinding(commit: string, files: seq<Pin>, origins: Option<string>, digest: string)

  datatype SourceReport = SourceReport(
    commit: string, clean: bool, files: seq<Pin>, origins: string, modules: int, verification: string, binding: string)

  datatype RunReceipt = RunReceipt(
    runId: string, binding: Binding, historical: string, source: SourceBinding, sourceReport: Option<SourceReport>,
    runtimeCompleted: bool, arms: seq<ArmReceipt>)

  datatype Protocol = Protocol(
    digest: string, reference: Binding, pairs: seq<PairSpec>, advances: int, capital: real,
    maximumDrawdown: real, requiredScenarios: set<string>, symbols: seq<string>)

  datatype Evaluation = Evaluation(
    declarationConsistent: bool, sourceReportMatches: bool, armReportsMatch: bool, rosterComplete: bool,
    scenariosCovered: bool, runtimeCompleted: bool, statusesComplete: bool, metricsWellFormed: bool,
    terminalClaimsPass: bool, drawdownClaimsPass: bool, arithmeticAvailable: bool)

  // ---- The roster ----

  function NonRlId(pairId: string): string {
    pairId + "-NONRL"
  }

  function CashId(pairId: string): string {
    pairId + "-CASH"
  }

  function ArmRoster(pairs: seq<PairSpec>): seq<ArmSpec> {
    if pairs == [] then []
    else
      var p := pairs[|pairs| - 1];
      ArmRoster(pairs[..|pairs| - 1])
      + [ArmSpec(NonRlId(p.pairId), Identity(p.pairId, "NONRL", p.configuration, p.symbol, p.scenario)),
         ArmSpec(CashId(p.pairId), Identity(p.pairId, "CASH", p.configuration, p.symbol, p.scenario))]
  }

  function ById(arms: seq<ArmSpec>): map<string, ArmSpec> {
    if arms == [] then map[] else ById(arms[..|arms| - 1])[arms[|arms| - 1].armId := arms[|arms| - 1]]
  }

  function Expected(protocol: Protocol): map<string, ArmSpec> {
    ById(ArmRoster(protocol.pairs))
  }

  lemma {:induction false} RosterHasPair(pairs: seq<PairSpec>, pairId: string)
    requires exists k :: 0 <= k < |pairs| && pairs[k].pairId == pairId
    ensures NonRlId(pairId) in ById(ArmRoster(pairs)) && CashId(pairId) in ById(ArmRoster(pairs))
  {
    var n := |pairs|;
    var roster, front := ArmRoster(pairs), ArmRoster(pairs[..n - 1]);
    var one := roster[..|roster| - 1];
    assert one[..|one| - 1] == front;
    if pairs[n - 1].pairId != pairId {
      var k :| 0 <= k < n && pairs[k].pairId == pairId;
      assert pairs[..n - 1][k].pairId == pairId;
      RosterHasPair(pairs[..n - 1], pairId);
    }
  }

  // ---- One arm ----

  predicate Near(a: real, b: real, tolerance: real) {
    -tolerance <= a - b <= tolerance
  }

  predicate Named(arm: ArmReceipt) {
    arm.armId.Is? && arm.armId.value != ""
  }

  predicate ReportMatches(report: Report, arm: ArmReceipt, receipt: RunReceipt, protocol: Protocol) {
    && receipt.sourceReport.Some?
    && report.runId == receipt.runId && report.protocol == receipt.binding.protocol
    && report.sourceBinding == receipt.sourceReport.value.binding
    && Is(report.armId) == arm.armId && report.identity == arm.identity
    && report.dataset == arm.binding.dataset == receipt.binding.dataset
    && Is(report.ledger) == arm.ledger && Is(report.result) == arm.result
    && report.expectedAdvances == protocol.advances && report.observedAdvances == protocol.advances
    && arm.initial.Is? && Near(report.initial, arm.initial.value, EQUITY_TOLERANCE)
    && Near(report.initial, protocol.capital, EQUITY_TOLERANCE)
    && arm.terminal.Is? && Near(report.terminal, arm.terminal.value, EQUITY_TOLERANCE)
    && arm.drawdown.Is? && Near(report.drawdown, arm.drawdown.value, DRAWDOWN_TOLERANCE)
    && Is(report.flat) == arm.flat && Is(report.pending) == arm.pending && IsHex(report.verification, 64)
  }

  predicate HasMatchingReport(arm: ArmReceipt, receipt: RunReceipt, protocol: Protocol) {
    arm.report.Is? && ReportMatches(arm.report.value, arm, receipt, protocol)
  }

  predicate BindingMatches(arm: ArmReceipt, receipt: RunReceipt, protocol: Protocol) {
    && arm.binding == protocol.reference.(protocol := protocol.digest)
    && arm.sourceBinding == receipt.source.digest
  }

  predicate NoTerminalFacts(arm: ArmReceipt) {
    && arm.terminal.Missing? && arm.drawdown.Missing? && arm.flat.Missing? && arm.pending.Missing?
    && arm.ledger.Missing? && arm.result.Missing? && arm.report.Missing?
  }

  /** An arm that did not complete claims nothing a completed one would, and says why. */
  predicate AttemptWellFormed(arm: ArmReceipt) {
    && !arm.progress.Malformed? && NoTerminalFacts(arm)
    && match arm.status
       case NotAttempted =>
         && (arm.reason == Is(NotStarted) || arm.reason == Is(InterruptedBeforeStart))
         && arm.progress != Is(true) && arm.initial.Missing? && arm.error.Missing?
       case Running => arm.reason == Is(InProgress)
       case Interrupted => arm.reason == Is(ProcessInterrupted)
       case Failed => arm.reason == Is(ProcessFailed) && arm.error.Is? && !AllSpace(arm.error.value)
       case _ => false
  }

  /** A completed arm's numbers are present and sane, and a matching report passed its cost oracle. */
  predicate CompletionWellFormed(arm: ArmReceipt, receipt: RunReceipt, protocol: Protocol) {
    && !arm.progress.Malformed? && arm.reason.Missing? && arm.error.Missing? && !arm.report.Malformed?
    && (HasMatchingReport(arm, receipt, protocol) ==> arm.report.value.oraclePassed)
    && arm.initial.Is? && Near(arm.initial.value, protocol.capital, EQUITY_TOLERANCE)
    && arm.terminal.Is? && arm.drawdown.Is? && arm.drawdown.value >= 0.0
    && arm.flat.Is? && arm.pending.Is? && arm.pending.value >= 0
    && arm.ledger.Is? && IsHex(arm.ledger.value, 64) && arm.result.Is? && IsHex(arm.result.value, 64)
  }

  predicate MetricsWellFormed(arm: ArmReceipt, receipt: RunReceipt, protocol: Protocol) {
    if arm.status.Completed? then CompletionWellFormed(arm, receipt, protocol) else AttemptWellFormed(arm)
  }

  method CheckAttempt(arm: ArmReceipt) returns (ok: bool)
    requires !arm.status.Completed? && !arm.status.Unknown?
    ensures ok <==> AttemptWellFormed(arm)
  {
    ok := !arm.progress.Malformed?;
    var allowed := match arm.status
      case NotAttempted => {NotStarted, InterruptedBeforeStart}
      case Running => {InProgress}
      case Interrupted => {ProcessInterrupted}
      case _ => {ProcessFailed};
    if !arm.reason.Is? || arm.reason.value !in allowed {
      ok := false;
    }
    if arm.status.NotAttempted? && arm.progress == Is(true) {
      ok := false;
    }
    if !arm.terminal.Missing? || !arm.drawdown.Missing? || !arm.flat.Missing? || !arm.pending.Missing?
       || !arm.ledger.Missing? || !arm.result.Missing? || !arm.report.Missing?
    {
      ok := false;
    }
    if arm.status.NotAttempted? && (!arm.initial.Missing? || !arm.error.Missing?) {
      ok := false;
    }
    if arm.status.Failed? && (!arm.error.Is? || AllSpace(arm.error.value)) {
      ok := false;
    }
  }

  method CheckCompletion(arm: ArmReceipt, receipt: RunReceipt, protocol: Protocol)
    returns (metrics: bool, reported: bool)
    ensures metrics <==> CompletionWellFormed(arm, receipt, protocol)
    ensures reported <==> HasMatchingReport(arm, receipt, protocol)
  {
    metrics, reported := !arm.progress.Malformed?, true;
    if !arm.reason.Missing? || !arm.error.Missing? {
      metrics := false;
    }
    if arm.report.Malformed? {
      metrics, reported := false, false;
    }
    if !arm.report.Is? || !ReportMatches(arm.report.value, arm, receipt, protocol) {
      reported := false;
    } else if !arm.report.value.oraclePassed {
      metrics := false;
    }
    if !arm.initial.Is? || !Near(arm.initial.value, protocol.capital, EQUITY_TOLERANCE) {
      metrics := false;
    }
    if !arm.terminal.Is? || !arm.drawdown.Is? || arm.drawdown.value < 0.0 || !arm.flat.Is? {
      metrics := false;
    }
    if !arm.pending.Is? || arm.pending.value < 0 {
      metrics := false;
    }
    if !arm.ledger.Is? || !IsHex(arm.ledger.value, 64) || !arm.result.Is? || !IsHex(arm.result.value, 64) {
      metrics := false;
    }
  }

  // ---- The arm list ----

  /** An earlier entry already carries this arm's id. */
  predicate Repeated(arms: seq<ArmReceipt>, k: nat)
    requires k < |arms|
  {
    exists j :: 0 <= j < k && Named(arms[j]) && arms[j].armId == arms[k].armId
  }

  /** The entry is the first with its id, and the protocol declares that id. */
  predicate Considered(arms: seq<ArmReceipt>, k: nat, expected: map<string, ArmSpec>)
    requires k < |arms|
  {
    Named(arms[k]) && !Repeated(arms, k) && arms[k].armId.value in expected
  }

  predicate DeclarationOk(arms: seq<ArmReceipt>, k: nat, receipt: RunReceipt, protocol: Protocol)
    requires k < |arms|
  {
    Considered(arms, k, Expected(protocol)) ==>
      arms[k].identity == Expected(protocol)[arms[k].armId.value].identity && BindingMatches(arms[k], receipt, protocol)
  }

  predicate MetricsOk(arms: seq<ArmReceipt>, k: nat, receipt: RunReceipt, protocol: Protocol)
    requires k < |arms|
  {
    && Named(arms[k])
    && (Considered(arms, k, Expected(protocol)) ==>
          !arms[k].status.Unknown? && MetricsWellFormed(arms[k], receipt, protocol))
  }

  predicate ReportOk(arms: seq<ArmReceipt>, k: nat, receipt: RunReceipt, protocol: Protocol)
    requires k < |arms|
  {
    && Considered(arms, k, Expected(protocol)) && !arms[k].status.Unknown?
    && (arms[k].status.Completed? ==> HasMatchingReport(arms[k], receipt, protocol))
  }

  predicate CompletedAt(arms: seq<ArmReceipt>, k: nat, expected: map<string, ArmSpec>)
    requires k < |arms|
  {
    Considered(arms, k, expected) && arms[k].status.Completed?
  }

  /** The first n entries that completed. */
  function CompletedArms(arms: seq<ArmReceipt>, n: nat, expected: map<string, ArmSpec>): seq<ArmReceipt>
    requires n <= |arms|
  {
    if n == 0 then []
    else if CompletedAt(arms, n - 1, expected) then CompletedArms(arms, n - 1, expected) + [arms[n - 1]]
    else CompletedArms(arms, n - 1, expected)
  }

  predicate Seen(arms: seq<ArmReceipt>, n: nat, id: string)
    requires n <= |arms|
  {
    exists j :: 0 <= j < n && Named(arms[j]) && arms[j].armId.value == id
  }

  /** The loop's flags after n arms. */
  datatype Flags = Flags(roster: bool, declaration: bool, metrics: bool, reports: bool)

  ghost predicate FlagsAre(flags: Flags, arms: seq<ArmReceipt>, n: nat, receipt: RunReceipt, protocol: Protocol)
    requires n <= |arms|
  {
    && (flags.roster <==> forall k :: 0 <= k < n ==> Considered(arms, k, Expected(protocol)))
    && (flags.declaration <==> forall k :: 0 <= k < n ==> DeclarationOk(arms, k, receipt, protocol))
    && (flags.metrics <==> forall k :: 0 <= k < n ==> MetricsOk(arms, k, receipt, protocol))
    && (flags.reports <==> forall k :: 0 <= k < n ==> ReportOk(arms, k, receipt, protocol))
  }

  lemma FlagsStep(flags: Flags, arms: seq<ArmReceipt>, n: nat, receipt: RunReceipt, protocol: Protocol,
                  roster: bool, declaration: bool, metrics: bool, reports: bool)
    requires n < |arms| && FlagsAre(flags, arms, n, receipt, protocol)
    requires roster <==> Considered(arms, n, Expected(protocol))
    requires declaration <==> DeclarationOk(arms, n, receipt, protocol)
    requires metrics <==> MetricsOk(arms, n, receipt, protocol)
    requires reports <==> ReportOk(arms, n, receipt, protocol)
    ensures FlagsAre(Flags(flags.roster && roster, flags.declaration && declaration, flags.metrics && metrics,
                           flags.reports && reports), arms, n + 1, receipt, protocol)
  {
  }

  /** One turn of the loop: what the arm at place n does to each flag. */
  method JudgeArm(receipt: RunReceipt, protocol: Protocol, n: nat, expected: map<string, ArmSpec>, seen: set<string>)
    returns (roster: bool, declaration: bool, metrics: bool, reports: bool, completed: bool, seen': set<string>)
    requires n < |receipt.arms| && expected == Expected(protocol)
    requires forall id :: id in seen <==> Seen(receipt.arms, n, id)
    ensures roster <==> Considered(receipt.arms, n, expected)
    ensures declaration <==> DeclarationOk(receipt.arms, n, receipt, protocol)
    ensures metrics <==> MetricsOk(receipt.arms, n, receipt, protocol)
    ensures reports <==> ReportOk(receipt.arms, n, receipt, protocol)
    ensures completed <==> CompletedAt(receipt.arms, n, expected)
    ensures forall id :: id in seen' <==> Seen(receipt.arms, n + 1, id)
  {
    var arm := receipt.arms[n];
    roster, declaration, metrics, reports, completed, seen' := true, true, true, true, false, seen;
    SeenStep(receipt.arms, n);
    if !Named(arm) {
      return false, true, false, false, false, seen;
    }
    if arm.armId.value in seen {
      return false, true, true, false, false, seen;
    }
    seen' := seen + {arm.armId.value};
    if arm.armId.value !in expected {
      return false, true, true, false, false, seen';
    }
    if arm.identity != expected[arm.armId.value].identity {
      declaration := false;
    }
    if arm.binding.protocol != protocol.digest || arm.binding.dataset != protocol.reference.dataset
       || arm.binding.manifest != protocol.reference.manifest || arm.binding.arrays != protocol.reference.arrays
       || arm.sourceBinding != receipt.source.digest
    {
      declaration := false;
    }
    if arm.status.Unknown? {
      metrics, reports := false, false;
      return;
    }
    if !arm.status.Completed? {
      metrics := CheckAttempt(arm);
      return;
    }
    completed := true;
    metrics, reports := CheckCompletion(arm, receipt, protocol);
  }

  lemma SeenStep(arms: seq<ArmReceipt>, n: nat)
    requires n < |arms|
    ensures forall id :: Seen(arms, n + 1, id) <==> Seen(arms, n, id) || (Named(arms[n]) && arms[n].armId.value == id)
    ensures Named(arms[n]) ==> (Repeated(arms, n) <==> Seen(arms, n, arms[n].armId.value))
  {
    forall id ensures Seen(arms, n + 1, id) <==> Seen(arms, n, id) || (Named(arms[n]) && arms[n].armId.value == id) {
      if Seen(arms, n, id) {
        var j :| 0 <= j < n && Named(arms[j]) && arms[j].armId.value == id;
        assert 0 <= j < n + 1;
      }
      if Named(arms[n]) && arms[n].armId.value == id {
        assert Named(arms[n]);
      }
    }
    if Named(arms[n]) && Seen(arms, n, arms[n].armId.value) {
      var j :| 0 <= j < n && Named(arms[j]) && arms[j].armId.value == arms[n].armId.value;
      assert arms[j].armId == arms[n].armId;
    }
    if Named(arms[n]) && Repeated(arms, n) {
      var j :| 0 <= j < n && Named(arms[j]) && arms[j].armId == arms[n].armId;
      assert arms[j].armId.value == arms[n].armId.value;
    }
  }

  method ScanArms(receipt: RunReceipt, protocol: Protocol)
    returns (flags: Flags, completed: seq<ArmReceipt>, seen: set<string>)
    ensures FlagsAre(flags, receipt.arms, |receipt.arms|, receipt, protocol)
    ensures completed == CompletedArms(receipt.arms, |receipt.arms|, Expected(protocol))
    ensures forall id :: id in seen <==> Seen(receipt.arms, |receipt.arms|, id)
  {
    var expected := Expected(protocol);
    flags, completed, seen := Flags(true, true, true, true), [], {};
    for n := 0 to |receipt.arms|
      invariant FlagsAre(flags, receipt.arms, n, receipt, protocol)
      invariant completed == CompletedArms(receipt.arms, n, expected)
      invariant forall id :: id in seen <==> Seen(receipt.arms, n, id)
    {
      var roster, declaration, metrics, reports, done, seen' := JudgeArm(receipt, protocol, n, expected, seen);
      FlagsStep(flags, receipt.arms, n, receipt, protocol, roster, declaration, metrics, reports);
      flags := Flags(flags.roster && roster, flags.declaration && declaration, flags.metrics && metrics,
                     flags.reports && reports);
      if done {
        completed := completed + [receipt.arms[n]];
      }
      seen := seen';
    }
  }

  // ---- The evaluation, without its loop ----

  ghost predicate DistinctIds(arms: seq<ArmReceipt>) {
    forall i, j :: 0 <= i < |arms| && 0 <= j < |arms| && i != j && Named(arms[i]) ==> arms[i].armId != arms[j].armId
  }

  /** The entries are in bijection with the declared arms. */
  ghost predicate RosterComplete(arms: seq<ArmReceipt>, expected: map<string, ArmSpec>) {
    && (forall a :: a in arms ==> Named(a) && a.armId.value in expected)
    && DistinctIds(arms)
    && (forall id :: id in expected ==> Seen(arms, |arms|, id))
  }

  predicate RunBound(receipt: RunReceipt, protocol: Protocol) {
    && receipt.binding == protocol.reference.(protocol := protocol.digest)
    && receipt.historical == protocol.reference.protocol
  }

  predicate ByPin(a: Pin, b: Pin) {
    Precedes(a.path, b.path)
  }

  predicate SourceReportMatches(receipt: RunReceipt) {
    && receipt.sourceReport.Some?
    && var report, binding := receipt.sourceReport.value, receipt.source;
       && report.clean && report.commit == binding.commit
       && SortBy(report.files, ByPin) == SortBy(binding.files, ByPin)
       && binding.origins == Some(report.origins) && report.modules > 0 && IsHex(report.verification, 64)
  }

  ghost predicate ArmDeclared(a: ArmReceipt, receipt: RunReceipt, protocol: Protocol) {
    && Named(a) && a.armId.value in Expected(protocol)
    && a.identity == Expected(protocol)[a.armId.value].identity && BindingMatches(a, receipt, protocol)
  }

  ghost predicate ArmReported(a: ArmReceipt, receipt: RunReceipt, protocol: Protocol) {
    !a.status.Unknown? && (a.status.Completed? ==> HasMatchingReport(a, receipt, protocol))
  }

  predicate TerminalClaim(a: ArmReceipt) {
    && a.report.Is? && a.report.value.settled && a.report.value.flat && a.report.value.pending == 0
    && a.flat == Is(true) && a.pending == Is(0)
  }

  predicate DrawdownClaim(a: ArmReceipt, maximum: real) {
    a.drawdown.Is? && a.drawdown.value <= maximum
  }

  function Scenarios(pairs: seq<PairSpec>): set<string> {
    set k | 0 <= k < |pairs| :: pairs[k].scenario
  }

  ghost predicate AllDeclared(receipt: RunReceipt, protocol: Protocol) {
    forall a :: a in receipt.arms ==> ArmDeclared(a, receipt, protocol)
  }

  ghost predicate AllReported(receipt: RunReceipt, protocol: Protocol) {
    forall a :: a in receipt.arms ==> ArmReported(a, receipt, protocol)
  }

  predicate AllCompleted(arms: seq<ArmReceipt>) {
    forall a :: a in arms ==> a.status.Completed?
  }

  ghost predicate SomeCompleted(arms: seq<ArmReceipt>) {
    exists a :: a in arms && a.status.Completed?
  }

  predicate AllTerminal(arms: seq<ArmReceipt>) {
    forall a :: a in arms ==> TerminalClaim(a)
  }

  predicate AllWithinDrawdown(arms: seq<ArmReceipt>, maximum: real) {
    forall a :: a in arms ==> DrawdownClaim(a, maximum)
  }

  ghost predicate AllMetrics(receipt: RunReceipt, protocol: Protocol) {
    forall k :: 0 <= k < |receipt.arms| ==> MetricsOk(receipt.arms, k, receipt, protocol)
  }

  ghost function Evaluated(receipt: RunReceipt, protocol: Protocol): Evaluation {
    var arms := receipt.arms;
    var roster := RosterComplete(arms, Expected(protocol));
    var declared := roster && RunBound(receipt, protocol) && AllDeclared(receipt, protocol);
    var reports := roster && SomeCompleted(arms) && AllReported(receipt, protocol);
    var complete := roster && AllCompleted(arms);
    var metrics := AllMetrics(receipt, protocol);
    var source := SourceReportMatches(receipt);
    var bound := declared && receipt.runtimeCompleted && complete && source && reports && metrics;
    var terminal := bound && AllTerminal(arms);
    Evaluation(
      declared, source, reports, roster, roster && protocol.requiredScenarios == Scenarios(protocol.pairs),
      receipt.runtimeCompleted, complete, metrics, terminal,
      bound && AllWithinDrawdown(arms, protocol.maximumDrawdown), terminal)
  }

  lemma ConsideredMeansRoster(arms: seq<ArmReceipt>, expected: map<string, ArmSpec>)
    ensures (forall k :: 0 <= k < |arms| ==> Considered(arms, k, expected)) <==>
            DistinctIds(arms) && forall a :: a in arms ==> Named(a) && a.armId.value in expected
  {
    if forall k :: 0 <= k < |arms| ==> Considered(arms, k, expected) {
      forall i, j | 0 <= i < |arms| && 0 <= j < |arms| && i != j ensures arms[i].armId != arms[j].armId {
        assert Considered(arms, i, expected) && Considered(arms, j, expected);
        assert !Repeated(arms, if i < j then j else i);
      }
      forall a | a in arms ensures Named(a) && a.armId.value in expected {
        var k :| 0 <= k < |arms| && arms[k] == a;
        assert Considered(arms, k, expected);
      }
    }
    if DistinctIds(arms) && forall a :: a in arms ==> Named(a) && a.armId.value in expected {
      forall k | 0 <= k < |arms| ensures Considered(arms, k, expected) {
        assert arms[k] in arms;
      }
    }
  }

  /** With a complete roster, the loop's completed list is the whole list exactly when all completed. */
  lemma {:induction false} CompletedCount(arms: seq<ArmReceipt>, n: nat, expected: map<string, ArmSpec>)
    requires n <= |arms| && forall k :: 0 <= k < |arms| ==> Considered(arms, k, expected)
    ensures |CompletedArms(arms, n, expected)| <= n
    ensures (forall a :: a in CompletedArms(arms, n, expected) ==> a in arms && a.status.Completed?)
    ensures (forall k :: 0 <= k < n ==> arms[k].status.Completed?) ==> CompletedArms(arms, n, expected) == arms[..n]
    ensures forall k :: 0 <= k < n && arms[k].status.Completed? ==> arms[k] in CompletedArms(arms, n, expected)
  {
    if n > 0 {
      CompletedCount(arms, n - 1, expected);
      assert Considered(arms, n - 1, expected);
    }
  }

  /** A complete roster has as many entries as declared arms. */
  lemma RosterSize(arms: seq<ArmReceipt>, expected: map<string, ArmSpec>)
    requires RosterComplete(arms, expected)
    ensures |arms| == |expected|
  {
    var ids := seq(|arms|, k requires 0 <= k < |arms| => if arms[k].armId.Is? then arms[k].armId.value else "");
    forall k | 0 <= k < |arms| ensures Named(arms[k]) && ids[k] == arms[k].armId.value && ids[k] in expected {
      assert arms[k] in arms;
    }
    DistinctSize(ids);
    assert Elements(ids) == expected.Keys by {
      forall id | id in expected ensures id in ids {
        assert Seen(arms, |arms|, id);
        var j :| 0 <= j < |arms| && Named(arms[j]) && arms[j].armId.value == id;
        assert ids[j] == id;
      }
    }
  }

  /** What the flags amount to once no declared arm is missing. */
  lemma FlagsMean(flags: Flags, receipt: RunReceipt, protocol: Protocol)
    requires FlagsAre(flags, receipt.arms, |receipt.arms|, receipt, protocol)
    requires RosterComplete(receipt.arms, Expected(protocol))
    ensures flags.roster
    ensures flags.declaration <==> AllDeclared(receipt, protocol)
    ensures flags.reports <==> AllReported(receipt, protocol)
  {
    var arms := receipt.arms;
    ConsideredMeansRoster(arms, Expected(protocol));
    forall k | 0 <= k < |arms|
      ensures DeclarationOk(arms, k, receipt, protocol) <==> ArmDeclared(arms[k], receipt, protocol)
      ensures ReportOk(arms, k, receipt, protocol) <==> ArmReported(arms[k], receipt, protocol)
    {
      assert Considered(arms, k, Expected(protocol));
    }
    AtEveryPlace(arms, a => ArmDeclared(a, receipt, protocol));
    AtEveryPlace(arms, a => ArmReported(a, receipt, protocol));
  }

  lemma AtEveryPlace(arms: seq<ArmReceipt>, p: ArmReceipt -> bool)
    ensures (forall a :: a in arms ==> p(a)) <==> (forall k :: 0 <= k < |arms| ==> p(arms[k]))
  {
  }

  lemma RosterFromFlags(flags: Flags, receipt: RunReceipt, protocol: Protocol, seen: set<string>)
    requires FlagsAre(flags, receipt.arms, |receipt.arms|, receipt, protocol)
    requires forall id :: id in seen <==> Seen(receipt.arms, |receipt.arms|, id)
    ensures flags.roster && Expected(protocol).Keys - seen == {} <==>
            RosterComplete(receipt.arms, Expected(protocol))
  {
    ConsideredMeansRoster(receipt.arms, Expected(protocol));
    var missing := Expected(protocol).Keys - seen;
    if missing == {} {
      forall id | id in Expected(protocol) ensures Seen(receipt.arms, |receipt.arms|, id) {
        assert id !in missing;
      }
    }
  }

  lemma CompletedMeaning(receipt: RunReceipt, protocol: Protocol)
    requires RosterComplete(receipt.arms, Expected(protocol))
    ensures var completed := CompletedArms(receipt.arms, |receipt.arms|, Expected(protocol));
            && (forall a :: a in completed <==> a in receipt.arms && a.status.Completed?)
            && (AllCompleted(receipt.arms) ==> |completed| == |Expected(protocol)|)
  {
    var arms := receipt.arms;
    ConsideredMeansRoster(arms, Expected(protocol));
    CompletedCount(arms, |arms|, Expected(protocol));
    RosterSize(arms, Expected(protocol));
    forall a | a in arms && a.status.Completed? ensures a in CompletedArms(arms, |arms|, Expected(protocol)) {
      var k :| 0 <= k < |arms| && arms[k] == a;
    }
    if AllCompleted(arms) {
      forall k | 0 <= k < |arms| ensures arms[k].status.Completed? {
        assert arms[k] in arms;
      }
    }
  }

  /** The run's own declaration against the protocol. */
  method CheckRun(receipt: RunReceipt, protocol: Protocol) returns (ok: bool)
    ensures ok <==> RunBound(receipt, protocol)
  {
    var reference := protocol.reference;
    ok := receipt.binding.protocol == protocol.digest;
    if receipt.historical != reference.protocol {
      ok := false;
    }
    if receipt.binding.dataset != reference.dataset {
      ok := false;
    }
    if receipt.binding.manifest != reference.manifest || receipt.binding.arrays != reference.arrays {
      ok := false;
    }
  }

  /** What the completed arms claim about their end and their drawdown. */
  method CheckClaims(completed: seq<ArmReceipt>, maximum: real) returns (terminal: bool, drawdown: bool)
    ensures terminal <==> AllTerminal(completed)
    ensures drawdown <==> AllWithinDrawdown(completed, maximum)
  {
    terminal, drawdown := true, true;
    for k := 0 to |completed|
      invariant terminal <==> forall j :: 0 <= j < k ==> TerminalClaim(completed[j])
      invariant drawdown <==> forall j :: 0 <= j < k ==> DrawdownClaim(completed[j], maximum)
    {
      var a := completed[k];
      if !a.report.Is? || !a.report.value.settled || !a.report.value.flat || a.report.value.pending != 0
         || a.flat != Is(true) || a.pending != Is(0)
      {
        terminal := false;
      }
      if !a.drawdown.Is? || a.drawdown.value > maximum {
        drawdown := false;
      }
    }
    AtEveryPlace(completed, a => TerminalClaim(a));
    AtEveryPlace(completed, a => DrawdownClaim(a, maximum));
  }

  method CheckScenarios(protocol: Protocol) returns (covered: bool)
    ensures covered <==> protocol.requiredScenarios == Scenarios(protocol.pairs)
  {
    var found: set<string> := {};
    for k := 0 to |protocol.pairs|
      invariant found == Scenarios(protocol.pairs[..k])
    {
      found := found + {protocol.pairs[k].scenario};
    }
    assert protocol.pairs[..|protocol.pairs|] == protocol.pairs;
    covered := protocol.requiredScenarios == found;
  }

  method EvaluateRunReceipt(receipt: RunReceipt, protocol: Protocol) returns (e: Evaluation)
    ensures e == Evaluated(receipt, protocol)
  {
    var expected := Expected(protocol);
    var flags, completed, seen := ScanArms(receipt, protocol);
    var missing := expected.Keys - seen;
    RosterFromFlags(flags, receipt, protocol, seen);
    var roster := flags.roster && missing == {};
    if roster {
      FlagsMean(flags, receipt, protocol);
      CompletedMeaning(receipt, protocol);
      CompletedClaims(receipt, protocol, completed);
    }
    var runBound := CheckRun(receipt, protocol);
    var declared := runBound && flags.declaration && roster;
    var source := SourceReportMatches(receipt);
    var reports := flags.reports && roster && completed != []
                   && forall a :: a in completed ==> HasMatchingReport(a, receipt, protocol);
    var complete := roster && |completed| == |expected| && AllCompleted(receipt.arms);
    var bound := declared && roster && receipt.runtimeCompleted && complete && source && reports && flags.metrics;
    var flat, small := CheckClaims(completed, protocol.maximumDrawdown);
    var terminal, drawdown := bound && flat, bound && small;
    var covered := CheckScenarios(protocol);
    var scenarios := roster && covered;
    e := Evaluation(declared, source, reports, roster, scenarios, receipt.runtimeCompleted, complete, flags.metrics,
                    terminal, drawdown, bound && terminal);
  }

  /** Claims about the completed arms are claims about all arms once all completed. */
  lemma CompletedClaims(receipt: RunReceipt, protocol: Protocol, completed: seq<ArmReceipt>)
    requires forall a :: a in completed <==> a in receipt.arms && a.status.Completed?
    ensures completed != [] <==> SomeCompleted(receipt.arms)
    ensures AllReported(receipt, protocol) ==> forall a :: a in completed ==> HasMatchingReport(a, receipt, protocol)
    ensures AllCompleted(receipt.arms) ==>
              && (AllTerminal(completed) <==> AllTerminal(receipt.arms))
              && forall m :: AllWithinDrawdown(completed, m) <==> AllWithinDrawdown(receipt.arms, m)
  {
    if completed != [] { assert completed[0] in completed; }
    if AllReported(receipt, protocol) {
      forall a | a in completed ensures HasMatchingReport(a, receipt, protocol) {
        assert ArmReported(a, receipt, protocol);
      }
    }
  }

  // ---- What availability means ----

  /** A completed arm the protocol declares, whose matching report settles it flat with nothing pending. */
  ghost predicate Settled(a: ArmReceipt, receipt: RunReceipt, protocol: Protocol) {
    && ArmDeclared(a, receipt, protocol) && a.status.Completed?
    && HasMatchingReport(a, receipt, protocol) && CompletionWellFormed(a, receipt, protocol) && TerminalClaim(a)
  }

  /**
   Pair arithmetic is available exactly when the run and its source are bound and reported,
   the arms are in bijection with the declared ones, there are some, and each is settled.
   */
  lemma AvailableExactlyWhen(receipt: RunReceipt, protocol: Protocol)
    ensures Evaluated(receipt, protocol).arithmeticAvailable <==>
            && RunBound(receipt, protocol) && receipt.runtimeCompleted && SourceReportMatches(receipt)
            && RosterComplete(receipt.arms, Expected(protocol)) && receipt.arms != []
            && forall a :: a in receipt.arms ==> Settled(a, receipt, protocol)
  {
    if RosterComplete(receipt.arms, Expected(protocol)) && AllCompleted(receipt.arms) {
      MetricsOfCompleted(receipt, protocol);
    }
    SettledByClaims(receipt, protocol);
    if receipt.arms != [] { assert receipt.arms[0] in receipt.arms; }
  }

  lemma SettledByClaims(receipt: RunReceipt, protocol: Protocol)
    ensures (forall a :: a in receipt.arms ==> Settled(a, receipt, protocol)) <==>
            && AllDeclared(receipt, protocol) && AllReported(receipt, protocol)
            && AllCompleted(receipt.arms) && AllTerminal(receipt.arms)
            && forall a :: a in receipt.arms ==> CompletionWellFormed(a, receipt, protocol)
  {
    var arms := receipt.arms;
    if forall a :: a in arms ==> Settled(a, receipt, protocol) {
      forall a | a in arms
        ensures ArmDeclared(a, receipt, protocol) && ArmReported(a, receipt, protocol) && a.status.Completed?
        ensures TerminalClaim(a) && CompletionWellFormed(a, receipt, protocol)
      {
        assert Settled(a, receipt, protocol);
      }
    }
    if && AllDeclared(receipt, protocol) && AllReported(receipt, protocol) && AllCompleted(arms) && AllTerminal(arms)
       && forall a :: a in arms ==> CompletionWellFormed(a, receipt, protocol)
    {
      forall a | a in arms ensures Settled(a, receipt, protocol) {
        assert ArmDeclared(a, receipt, protocol) && ArmReported(a, receipt, protocol) && TerminalClaim(a);
      }
    }
  }

  lemma MetricsOfCompleted(receipt: RunReceipt, protocol: Protocol)
    requires RosterComplete(receipt.arms, Expected(protocol)) && AllCompleted(receipt.arms)
    ensures AllMetrics(receipt, protocol) <==>
            forall a :: a in receipt.arms ==> CompletionWellFormed(a, receipt, protocol)
  {
    var arms := receipt.arms;
    ConsideredMeansRoster(arms, Expected(protocol));
    forall k | 0 <= k < |arms|
      ensures MetricsOk(arms, k, receipt, protocol) <==> CompletionWellFormed(arms[k], receipt, protocol)
    {
      assert Considered(arms, k, Expected(protocol)) && arms[k] in arms;
    }
    AtEveryPlace(arms, a => CompletionWellFormed(a, receipt, protocol));
  }

  // ---- The arithmetic ----

  /** The dictionary from ids to arms; a later entry would replace an earlier one. */
  function ArmMap(arms: seq<ArmReceipt>): map<string, ArmReceipt> {
    if arms == [] then map[]
    else
      var last := arms[|arms| - 1];
      if last.armId.Is? then ArmMap(arms[..|arms| - 1])[last.armId.value := last] else ArmMap(arms[..|arms| - 1])
  }

  lemma {:induction false} ArmMapHas(arms: seq<ArmReceipt>, id: string)
    ensures id in ArmMap(arms) ==> ArmMap(arms)[id] in arms && ArmMap(arms)[id].armId == Is(id)
    ensures (exists a :: a in arms && a.armId == Is(id)) ==> id in ArmMap(arms)
  {
    if arms != [] {
      var front, last := arms[..|arms| - 1], arms[|arms| - 1];
      ArmMapHas(front, id);
      assert forall a :: a in arms <==> a in front || a == last;
    }
  }

  predicate HasPair(pairs: seq<PairSpec>, pairId: string) {
    exists k :: 0 <= k < |pairs| && pairs[k].pairId == pairId
  }

  /** The terminal equity recorded for an arm id. */
  function EquityOf(arms: seq<ArmReceipt>, id: string): real {
    var byId := ArmMap(arms);
    if id in byId && byId[id].terminal.Is? then byId[id].terminal.value else 0.0
  }

  /** Both arms of a declared pair are there, with a terminal equity. */
  lemma PairIsThere(receipt: RunReceipt, protocol: Protocol, pairId: string)
    requires Evaluated(receipt, protocol).arithmeticAvailable && HasPair(protocol.pairs, pairId)
    ensures forall id :: id == NonRlId(pairId) || id == CashId(pairId) ==>
              id in ArmMap(receipt.arms) && ArmMap(receipt.arms)[id].terminal.Is?
  {
    AvailableExactlyWhen(receipt, protocol);
    RosterHasPair(protocol.pairs, pairId);
    forall id | id == NonRlId(pairId) || id == CashId(pairId)
      ensures id in ArmMap(receipt.arms) && ArmMap(receipt.arms)[id].terminal.Is?
    {
      assert id in Expected(protocol) && Seen(receipt.arms, |receipt.arms|, id);
      var j :| 0 <= j < |receipt.arms| && Named(receipt.arms[j]) && receipt.arms[j].armId.value == id;
      assert receipt.arms[j] in receipt.arms && receipt.arms[j].armId == Is(id);
      ArmMapHas(receipt.arms, id);
      assert Settled(ArmMap(receipt.arms)[id], receipt, protocol);
    }
  }

  function PairDelta(arms: seq<ArmReceipt>, pairId: string, capital: real): real {
    if capital == 0.0 then 0.0 else (EquityOf(arms, NonRlId(pairId)) - EquityOf(arms, CashId(pairId))) / capital
  }

  method DiagnosticPairDelta(receipt: RunReceipt, protocol: Protocol, pairId: string) returns (r: Result<real>)
    ensures r.Ok? <==> Evaluated(receipt, protocol).arithmeticAvailable && HasPair(protocol.pairs, pairId)
                       && protocol.capital != 0.0
    ensures r.Ok? ==> r.value == PairDelta(receipt.arms, pairId, protocol.capital)
  {
    var evaluation := EvaluateRunReceipt(receipt, protocol);
    if !evaluation.arithmeticAvailable || !HasPair(protocol.pairs, pairId) {
      return Raised;
    }
    PairIsThere(receipt, protocol, pairId);
    var arms := ArmMap(receipt.arms);
    var nonRl, cash := arms[NonRlId(pairId)], arms[CashId(pairId)];
    if !nonRl.terminal.Is? || !cash.terminal.Is? || protocol.capital == 0.0 {
      return Raised;
    }
    return Ok((nonRl.terminal.value - cash.terminal.value) / protocol.capital);
  }

  /** The ids of the pairs with this configuration and scenario. */
  function PairIds(pairs: seq<PairSpec>, configuration: string, scenario: string): seq<string> {
    if pairs == [] then []
    else
      var front, p := PairIds(pairs[..|pairs| - 1], configuration, scenario), pairs[|pairs| - 1];
      if p.configuration == configuration && p.scenario == scenario then front + [p.pairId] else front
  }

  lemma {:induction false} PairIdsAreDeclared(pairs: seq<PairSpec>, configuration: string, scenario: string, id: string)
    requires id in PairIds(pairs, configuration, scenario)
    ensures HasPair(pairs, id)
  {
    var front, p := pairs[..|pairs| - 1], pairs[|pairs| - 1];
    if id in PairIds(front, configuration, scenario) {
      PairIdsAreDeclared(front, configuration, scenario, id);
      var k :| 0 <= k < |front| && front[k].pairId == id;
      assert pairs[k].pairId == id;
    } else {
      assert pairs[|pairs| - 1].pairId == id;
    }
  }

  function NonRlSum(arms: seq<ArmReceipt>, ids: seq<string>): real {
    if ids == [] then 0.0 else NonRlSum(arms, ids[..|ids| - 1]) + EquityOf(arms, NonRlId(ids[|ids| - 1]))
  }

  function CashSum(arms: seq<ArmReceipt>, ids: seq<string>): real {
    if ids == [] then 0.0 else CashSum(arms, ids[..|ids| - 1]) + EquityOf(arms, CashId(ids[|ids| - 1]))
  }

  function DeltaSum(arms: seq<ArmReceipt>, ids: seq<string>, capital: real): real {
    if ids == [] then 0.0
    else DeltaSum(arms, ids[..|ids| - 1], capital) + PairDelta(arms, ids[|ids| - 1], capital)
  }

  /** What the non-RL books hold above the cash books. */
  function Net(arms: seq<ArmReceipt>, ids: seq<string>): real {
    NonRlSum(arms, ids) - CashSum(arms, ids)
  }

  lemma AddRatio(sum: real, more: real, d: real)
    requires d != 0.0
    ensures sum / d + more / d == (sum + more) / d
  {
  }

  /** Averaging the pair deltas over the symbols is dividing the net equity once. */
  lemma {:induction false} DeltaSumIsNet(arms: seq<ArmReceipt>, ids: seq<string>, capital: real)
    requires capital != 0.0
    ensures DeltaSum(arms, ids, capital) == Net(arms, ids) / capital
  {
    if ids != [] {
      var front, id := ids[..|ids| - 1], ids[|ids| - 1];
      DeltaSumIsNet(arms, front, capital);
      AddRatio(Net(arms, front), EquityOf(arms, NonRlId(id)) - EquityOf(arms, CashId(id)), capital);
    }
  }

  lemma DivideTwice(x: real, a: real, b: real)
    requires a != 0.0 && b != 0.0
    ensures a * b != 0.0 && (x / a) / b == x / (b * a)
  {
    var y := x / a;
    var z := y / b;
    assert x == y * a && y == z * b;
    assert x == z * (b * a);
  }

  /** The mean of the pair deltas. */
  function CombinedDelta(arms: seq<ArmReceipt>, ids: seq<string>, capital: real, symbols: real): real
    requires symbols != 0.0
  {
    DeltaSum(arms, ids, capital) / symbols
  }

  /** The non-RL equities less the cash equities, per unit of all the books' capital. */
  lemma CombinedDeltaIsNet(arms: seq<ArmReceipt>, ids: seq<string>, capital: real, symbols: real)
    requires capital != 0.0 && symbols != 0.0
    ensures symbols * capital != 0.0
    ensures CombinedDelta(arms, ids, capital, symbols)
            == (NonRlSum(arms, ids) - CashSum(arms, ids)) / (symbols * capital)
  {
    var net, sum := Net(arms, ids), DeltaSum(arms, ids, capital);
    DeltaSumIsNet(arms, ids, capital);
    assert sum == net / capital;
    DivideTwice(net, capital, symbols);
  }

  predicate AllDeclaredPairs(pairs: seq<PairSpec>, ids: seq<string>) {
    forall k :: 0 <= k < |ids| ==> HasPair(pairs, ids[k])
  }

  method SumPairDeltas(receipt: RunReceipt, protocol: Protocol, ids: seq<string>) returns (r: Result<real>)
    requires AllDeclaredPairs(protocol.pairs, ids) && ids != []
    ensures r.Ok? <==> Evaluated(receipt, protocol).arithmeticAvailable && protocol.capital != 0.0
    ensures r.Ok? ==> r.value == DeltaSum(receipt.arms, ids, protocol.capital)
  {
    var total := 0.0;
    for k := 0 to |ids|
      invariant k > 0 ==> protocol.capital != 0.0 && Evaluated(receipt, protocol).arithmeticAvailable
      invariant total == DeltaSum(receipt.arms, ids[..k], protocol.capital)
    {
      var delta := DiagnosticPairDelta(receipt, protocol, ids[k]);
      if delta.Raised? {
        return Raised;
      }
      assert ids[..k + 1][..k] == ids[..k];
      total := total + delta.value;
    }
    assert ids[..|ids|] == ids;
    return Ok(total);
  }

  /** Over one pair per symbol; fails unless the arithmetic is available for them all. */
  method DiagnosticCombinedDelta(receipt: RunReceipt, protocol: Protocol, configuration: string, scenario: string)
    returns (r: Result<real>)
    ensures var ids := PairIds(protocol.pairs, configuration, scenario);
            && (r.Ok? <==> |ids| == |protocol.symbols| && ids != [] && protocol.capital != 0.0
                           && Evaluated(receipt, protocol).arithmeticAvailable)
            && (r.Ok? ==> r.value == CombinedDelta(receipt.arms, ids, protocol.capital, |ids| as real))
  {
    var ids := PairIds(protocol.pairs, configuration, scenario);
    if |ids| != |protocol.symbols| || |protocol.symbols| == 0 {
      return Raised;
    }
    forall k | 0 <= k < |ids| ensures HasPair(protocol.pairs, ids[k]) {
      PairIdsAreDeclared(protocol.pairs, configuration, scenario, ids[k]);
    }
    var total := SumPairDeltas(receipt, protocol, ids);
    if total.Raised? {
      return Raised;
    }
    return Ok(total.value / (|protocol.symbols| as real));
  }
}
