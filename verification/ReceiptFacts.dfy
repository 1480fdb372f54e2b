/**
 When pair arithmetic is available, and what it is, said in the fields of the receipt, its
 arms and their reports alone.
 */
module ReceiptFacts {
  import opened Options
  import opened Sequences
  import opened Sorting
  import opened Text
  import opened Task18Receipts

  // ---- The declared arms ----

  /** The arm that a pair declares for one of its two roles. */
  ghost predicate Declares(p: PairSpec, arm: ArmSpec) {
    && (arm.identity.role == "NONRL" || arm.identity.role == "CASH")
    && arm.armId == p.pairId + "-" + arm.identity.role
    && arm.identity.pairId == p.pairId && arm.identity.configuration == p.configuration
    && arm.identity.symbol == p.symbol && arm.identity.scenario == p.scenario
  }

  lemma OnePairDeclares(p: PairSpec, arm: ArmSpec)
    ensures Declares(p, arm) <==> arm in ArmRoster([p])
  {
    var roster := ArmRoster([p]);
    assert [p][..0] == [] && ArmRoster([]) == [];
    assert p.pairId + "-NONRL" == p.pairId + "-" + "NONRL" && p.pairId + "-CASH" == p.pairId + "-" + "CASH";
    assert |roster| == 2 && (arm in roster <==> arm == roster[0] || arm == roster[1]);
  }

  lemma RosterGrows(front: seq<PairSpec>, p: PairSpec)
    ensures ArmRoster(front + [p]) == ArmRoster(front) + ArmRoster([p])
  {
    assert (front + [p])[..|front|] == front && [p][..0] == [];
  }

  lemma {:induction false} RosterIsDeclared(pairs: seq<PairSpec>, arm: ArmSpec)
    ensures arm in ArmRoster(pairs) <==> exists p :: p in pairs && Declares(p, arm)
  {
    if pairs != [] {
      var front, p := pairs[..|pairs| - 1], pairs[|pairs| - 1];
      assert pairs == front + [p];
      RosterIsDeclared(front, arm);
      OnePairDeclares(p, arm);
      RosterGrows(front, p);
      assert forall q :: q in pairs <==> q in front || q == p;
    }
  }

  lemma {:induction false} ByIdHolds(arms: seq<ArmSpec>, id: string)
    ensures id in ById(arms) <==> exists arm :: arm in arms && arm.armId == id
    ensures id in ById(arms) ==> ById(arms)[id] in arms && ById(arms)[id].armId == id
  {
    if arms != [] {
      ByIdHolds(arms[..|arms| - 1], id);
      assert forall arm :: arm in arms <==> arm in arms[..|arms| - 1] || arm == arms[|arms| - 1];
    }
  }

  /** An id is expected exactly when a pair declares an arm of that id; one such arm is expected under it. */
  lemma ExpectedArms(protocol: Protocol, id: string)
    ensures id in Expected(protocol) <==> exists p, arm :: p in protocol.pairs && Declares(p, arm) && arm.armId == id
    ensures id in Expected(protocol) ==>
              var arm := Expected(protocol)[id];
              arm.armId == id && exists p :: p in protocol.pairs && Declares(p, arm)
  {
    ByIdHolds(ArmRoster(protocol.pairs), id);
    forall arm ensures arm in ArmRoster(protocol.pairs) <==> exists p :: p in protocol.pairs && Declares(p, arm) {
      RosterIsDeclared(protocol.pairs, arm);
    }
  }

  // ---- Availability ----

  ghost predicate Within(a: real, b: real, tolerance: real) {
    a - b <= tolerance && b - a <= tolerance
  }

  /** The run and its source are bound to the protocol, and the source was reported clean. */
  ghost predicate RunFacts(receipt: RunReceipt, protocol: Protocol) {
    && receipt.runtimeCompleted && receipt.historical == protocol.reference.protocol
    && receipt.binding.protocol == protocol.digest && receipt.binding.dataset == protocol.reference.dataset
    && receipt.binding.manifest == protocol.reference.manifest && receipt.binding.arrays == protocol.reference.arrays
    && receipt.sourceReport.Some?
    && var report, source := receipt.sourceReport.value, receipt.source;
       && report.clean && report.commit == source.commit && report.modules >= 1 && IsHex(report.verification, 64)
       && Some(report.origins) == source.origins && SortBy(report.files, ByPin) == SortBy(source.files, ByPin)
  }

  /** One arm of every expected id, and no other arm. */
  ghost predicate OneArmPerId(arms: seq<ArmReceipt>, protocol: Protocol) {
    && (forall k :: 0 <= k < |arms| ==>
          arms[k].armId.Is? && arms[k].armId.value != "" && arms[k].armId.value in Expected(protocol))
    && (forall j, k :: 0 <= j < k < |arms| ==> arms[j].armId != arms[k].armId)
    && (forall id :: id in Expected(protocol) ==> exists k :: 0 <= k < |arms| && arms[k].armId == Is(id))
  }

  /** A completed arm of the declared identity, bound like the run, that ended flat, with sane numbers. */
  ghost predicate ArmFacts(a: ArmReceipt, receipt: RunReceipt, protocol: Protocol) {
    && a.status == Completed && a.armId.Is? && a.armId.value in Expected(protocol)
    && a.identity == Expected(protocol)[a.armId.value].identity
    && a.binding.protocol == protocol.digest && a.binding.dataset == protocol.reference.dataset
    && a.binding.manifest == protocol.reference.manifest && a.binding.arrays == protocol.reference.arrays
    && a.sourceBinding == receipt.source.digest
    && !a.progress.Malformed? && a.reason == Missing && a.error == Missing
    && a.initial.Is? && Within(a.initial.value, protocol.capital, 0.00000001)
    && a.terminal.Is? && a.drawdown.Is? && a.drawdown.value >= 0.0 && a.flat == Is(true) && a.pending == Is(0)
    && a.ledger.Is? && IsHex(a.ledger.value, 64) && a.result.Is? && IsHex(a.result.value, 64)
  }

  /** The report is of this very arm and run, ran to the end, and agrees with the arm in every number. */
  ghost predicate ReportAgrees(r: Report, a: ArmReceipt, receipt: RunReceipt, protocol: Protocol)
    requires receipt.sourceReport.Some?
  {
    && r.runId == receipt.runId && r.protocol == receipt.binding.protocol
    && r.dataset == a.binding.dataset && r.dataset == receipt.binding.dataset
    && r.sourceBinding == receipt.sourceReport.value.binding
    && a.armId == Is(r.armId) && r.identity == a.identity
    && a.ledger == Is(r.ledger) && a.result == Is(r.result) && IsHex(r.verification, 64)
    && r.expectedAdvances == protocol.advances && r.observedAdvances == protocol.advances
    && a.initial.Is? && Within(r.initial, a.initial.value, 0.00000001)
    && Within(r.initial, protocol.capital, 0.00000001)
    && a.terminal.Is? && Within(r.terminal, a.terminal.value, 0.00000001)
    && a.drawdown.Is? && Within(r.drawdown, a.drawdown.value, 0.000000000001)
    && a.flat == Is(r.flat) && a.pending == Is(r.pending)
  }

  lemma MatchesExactly(r: Report, a: ArmReceipt, receipt: RunReceipt, protocol: Protocol)
    ensures ReportMatches(r, a, receipt, protocol) <==>
            receipt.sourceReport.Some? && ReportAgrees(r, a, receipt, protocol)
  {
  }

  ghost predicate ArmSettled(a: ArmReceipt, receipt: RunReceipt, protocol: Protocol)
    requires receipt.sourceReport.Some?
  {
    && ArmFacts(a, receipt, protocol) && a.report.Is? && ReportAgrees(a.report.value, a, receipt, protocol)
    && a.report.value.settled && a.report.value.flat && a.report.value.pending == 0 && a.report.value.oraclePassed
  }

  /** For lists of distinct paths, comparing the sorted lists is comparing what they hold. */
  lemma SameSourceFiles(a: seq<Pin>, b: seq<Pin>)
    requires forall i, j :: 0 <= i < j < |a| ==> a[i].path != a[j].path
    ensures SortBy(a, ByPin) == SortBy(b, ByPin) <==> multiset(a) == multiset(b)
  {
    PinsAreLinear();
    SortByMeaning(a, ByPin);
    SortByMeaning(b, ByPin);
    var sorted := SortBy(a, ByPin);
    forall i, j | 0 <= i < |sorted| && 0 <= j < |sorted| && sorted[i] != sorted[j]
      ensures ByPin(sorted[i], sorted[j]) || ByPin(sorted[j], sorted[i])
    {
      PairInOther(a, sorted, i, j);
      PrecedesIsLinear(sorted[i].path, sorted[j].path, "");
    }
    if multiset(a) == multiset(b) { OrderedIsUnique(sorted, SortBy(b, ByPin), ByPin); }
  }

  lemma PinsAreLinear()
    ensures Linear(ByPin)
  {
    forall a, b, c
      ensures ByPin(a, b) ==> !ByPin(b, a)
      ensures !ByPin(b, a) && !ByPin(c, b) ==> !ByPin(c, a)
    {
      PrecedesIsLinear(a.path, b.path, c.path);
    }
  }

  lemma RosterIsOnePerId(arms: seq<ArmReceipt>, protocol: Protocol)
    ensures RosterComplete(arms, Expected(protocol)) <==> OneArmPerId(arms, protocol)
  {
    var expected := Expected(protocol);
    if RosterComplete(arms, expected) {
      forall k | 0 <= k < |arms|
        ensures arms[k].armId.Is? && arms[k].armId.value != "" && arms[k].armId.value in expected
      {
        assert arms[k] in arms;
      }
      forall id | id in expected ensures exists k :: 0 <= k < |arms| && arms[k].armId == Is(id) {
        assert Seen(arms, |arms|, id);
      }
    }
    if OneArmPerId(arms, protocol) {
      forall id | id in expected ensures Seen(arms, |arms|, id) {
        var k :| 0 <= k < |arms| && arms[k].armId == Is(id);
        assert Named(arms[k]) && arms[k].armId.value == id;
      }
    }
  }

  lemma SettledInFull(a: ArmReceipt, receipt: RunReceipt, protocol: Protocol)
    requires RunFacts(receipt, protocol) && Named(a)
    ensures Settled(a, receipt, protocol) <==> ArmSettled(a, receipt, protocol)
  {
    if a.report.Is? { MatchesExactly(a.report.value, a, receipt, protocol); }
  }

  /** Pair arithmetic is available exactly when all of this holds of the run and of every arm. */
  lemma AvailableInFull(receipt: RunReceipt, protocol: Protocol)
    ensures Evaluated(receipt, protocol).arithmeticAvailable <==>
            && RunFacts(receipt, protocol) && receipt.arms != [] && OneArmPerId(receipt.arms, protocol)
            && forall a :: a in receipt.arms ==> ArmSettled(a, receipt, protocol)
  {
    AvailableExactlyWhen(receipt, protocol);
    RosterIsOnePerId(receipt.arms, protocol);
    if RunFacts(receipt, protocol) && OneArmPerId(receipt.arms, protocol) {
      forall a | a in receipt.arms ensures Settled(a, receipt, protocol) <==> ArmSettled(a, receipt, protocol) {
        SettledInFull(a, receipt, protocol);
      }
    }
  }

  // ---- The arithmetic ----

  /** An id stands for one arm of an available run, and its equity is that arm's terminal equity. */
  lemma EquityInFields(receipt: RunReceipt, protocol: Protocol, id: string, a: ArmReceipt)
    requires Evaluated(receipt, protocol).arithmeticAvailable && a in receipt.arms && a.armId == Is(id)
    ensures a.terminal.Is? && EquityOf(receipt.arms, id) == a.terminal.value
    ensures forall b :: b in receipt.arms && b.armId == Is(id) ==> b == a
  {
    AvailableInFull(receipt, protocol);
    assert ArmSettled(a, receipt, protocol);
    ArmMapHas(receipt.arms, id);
    SameId(receipt.arms, protocol, a);
  }

  lemma SameId(arms: seq<ArmReceipt>, protocol: Protocol, a: ArmReceipt)
    requires OneArmPerId(arms, protocol) && a in arms
    ensures forall b :: b in arms && b.armId == a.armId ==> b == a
  {
    var j :| 0 <= j < |arms| && arms[j] == a;
    forall b | b in arms && b.armId == a.armId ensures b == a {
      var k :| 0 <= k < |arms| && arms[k] == b;
    }
  }

  /** The two arms of a declared pair are there. */
  lemma ArmsOfPair(receipt: RunReceipt, protocol: Protocol, pairId: string)
    requires Evaluated(receipt, protocol).arithmeticAvailable && HasPair(protocol.pairs, pairId)
    ensures exists a :: a in receipt.arms && a.armId == Is(pairId + "-NONRL")
    ensures exists a :: a in receipt.arms && a.armId == Is(pairId + "-CASH")
  {
    PairIsThere(receipt, protocol, pairId);
    NamedArm(receipt.arms, pairId + "-NONRL");
    NamedArm(receipt.arms, pairId + "-CASH");
  }

  lemma NamedArm(arms: seq<ArmReceipt>, id: string)
    requires id in ArmMap(arms)
    ensures exists a :: a in arms && a.armId == Is(id)
  {
    ArmMapHas(arms, id);
    var a := ArmMap(arms)[id];
    assert a in arms && a.armId == Is(id);
  }

  /**
   The delta of a declared pair of an available run: what the arm named for the pair's policy
   ended with, less what the one named for its cash book did, for each unit of capital.
   */
  lemma PairDeltaInFields(receipt: RunReceipt, protocol: Protocol, pairId: string, nonRl: ArmReceipt, cash: ArmReceipt)
    requires Evaluated(receipt, protocol).arithmeticAvailable && protocol.capital != 0.0
    requires nonRl in receipt.arms && nonRl.armId == Is(pairId + "-NONRL")
    requires cash in receipt.arms && cash.armId == Is(pairId + "-CASH")
    ensures nonRl.terminal.Is? && cash.terminal.Is?
    ensures PairDelta(receipt.arms, pairId, protocol.capital)
            == (nonRl.terminal.value - cash.terminal.value) / protocol.capital
  {
    EquityInFields(receipt, protocol, pairId + "-NONRL", nonRl);
    EquityInFields(receipt, protocol, pairId + "-CASH", cash);
    DeltaOfEquities(receipt.arms, pairId, protocol.capital, nonRl.terminal.value, cash.terminal.value);
  }

  lemma DeltaOfEquities(arms: seq<ArmReceipt>, pairId: string, capital: real, nonRl: real, cash: real)
    requires EquityOf(arms, pairId + "-NONRL") == nonRl && EquityOf(arms, pairId + "-CASH") == cash && capital != 0.0
    ensures PairDelta(arms, pairId, capital) == (nonRl - cash) / capital
  {
  }

  /** The pairs combined are those of the configuration and scenario, each once and in their order. */
  lemma {:induction false} PairsCombined(
    before: seq<PairSpec>, p: PairSpec, after: seq<PairSpec>, configuration: string, scenario: string)
    ensures PairIds([], configuration, scenario) == []
    ensures PairIds(before + [p] + after, configuration, scenario)
            == PairIds(before, configuration, scenario)
               + (if p.configuration == configuration && p.scenario == scenario then [p.pairId] else [])
               + PairIds(after, configuration, scenario)
  {
    var all := before + [p] + after;
    if after == [] {
      assert all[..|all| - 1] == before && all[|all| - 1] == p;
    } else {
      PairsCombined(before, p, after[..|after| - 1], configuration, scenario);
      assert all[..|all| - 1] == before + [p] + after[..|after| - 1];
    }
  }
}
