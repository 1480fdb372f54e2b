/** When the order of the arms in a run receipt can change a verdict. */
module Task18Order {
  import opened Sequences
  import opened Task18Receipts

  // ---- Lists without repeated ids ----

  lemma RosterReordered(a: seq<ArmReceipt>, b: seq<ArmReceipt>, expected: map<string, ArmSpec>)
    requires multiset(a) == multiset(b) && RosterComplete(a, expected)
    ensures RosterComplete(b, expected)
  {
    SameMembers(a, b);
    DistinctReordered(a, b);
    forall id | id in expected ensures Seen(b, |b|, id) {
      assert Seen(a, |a|, id);
      var j :| 0 <= j < |a| && Named(a[j]) && a[j].armId.value == id;
      assert a[j] in b;
      var k :| 0 <= k < |b| && b[k] == a[j];
      assert Named(b[k]) && b[k].armId.value == id;
    }
  }

  lemma DistinctReordered(a: seq<ArmReceipt>, b: seq<ArmReceipt>)
    requires multiset(a) == multiset(b)
    ensures DistinctIds(a) ==> DistinctIds(b)
  {
    if DistinctIds(a) {
      forall i, j | 0 <= i < |b| && 0 <= j < |b| && i != j && Named(b[i]) ensures b[i].armId != b[j].armId {
        PairInOther(a, b, i, j);
      }
    }
  }

  /** What one arm adds to the well-formedness of all, when no id is repeated. */
  ghost predicate ArmMetrics(a: ArmReceipt, receipt: RunReceipt, protocol: Protocol) {
    && Named(a)
    && (a.armId.value in Expected(protocol) ==> !a.status.Unknown? && MetricsWellFormed(a, receipt, protocol))
  }

  lemma MetricsWithoutRepeats(receipt: RunReceipt, protocol: Protocol)
    requires DistinctIds(receipt.arms)
    ensures AllMetrics(receipt, protocol) <==> forall a :: a in receipt.arms ==> ArmMetrics(a, receipt, protocol)
  {
    var arms := receipt.arms;
    forall k | 0 <= k < |arms|
      ensures MetricsOk(arms, k, receipt, protocol) <==> ArmMetrics(arms[k], receipt, protocol)
    {
      NotRepeated(arms, k);
    }
    AtEveryPlace(arms, a => ArmMetrics(a, receipt, protocol));
  }

  lemma NotRepeated(arms: seq<ArmReceipt>, k: nat)
    requires DistinctIds(arms) && k < |arms|
    ensures !Repeated(arms, k)
  {
  }

  /** What an arm is judged by does not depend on the other arms. */
  lemma SameJudgement(a: ArmReceipt, r: RunReceipt, s: RunReceipt, protocol: Protocol)
    requires s == r.(arms := s.arms)
    ensures ArmDeclared(a, r, protocol) == ArmDeclared(a, s, protocol)
    ensures ArmReported(a, r, protocol) == ArmReported(a, s, protocol)
    ensures ArmMetrics(a, r, protocol) == ArmMetrics(a, s, protocol)
  {
  }

  /** Reordering a list without repeated ids changes no verdict. */
  lemma OrderIsIrrelevant(receipt: RunReceipt, arms: seq<ArmReceipt>, protocol: Protocol)
    requires DistinctIds(receipt.arms) && multiset(arms) == multiset(receipt.arms)
    ensures Evaluated(receipt.(arms := arms), protocol) == Evaluated(receipt, protocol)
  {
    var other := receipt.(arms := arms);
    SameMembers(receipt.arms, arms);
    DistinctReordered(receipt.arms, arms);
    MetricsWithoutRepeats(receipt, protocol);
    MetricsWithoutRepeats(other, protocol);
    SameRoster(receipt.arms, arms, Expected(protocol));
    SameVerdicts(receipt, other, protocol);
    SameVerdicts(other, receipt, protocol);
    SameEvaluation(receipt, other, protocol);
  }

  lemma SameRoster(a: seq<ArmReceipt>, b: seq<ArmReceipt>, expected: map<string, ArmSpec>)
    requires multiset(a) == multiset(b)
    ensures RosterComplete(a, expected) <==> RosterComplete(b, expected)
  {
    if RosterComplete(a, expected) { RosterReordered(a, b, expected); }
    if RosterComplete(b, expected) { RosterReordered(b, a, expected); }
  }

  lemma SameEvaluation(r: RunReceipt, s: RunReceipt, protocol: Protocol)
    requires s == r.(arms := s.arms)
    requires RosterComplete(r.arms, Expected(protocol)) <==> RosterComplete(s.arms, Expected(protocol))
    requires AllDeclared(r, protocol) <==> AllDeclared(s, protocol)
    requires AllReported(r, protocol) <==> AllReported(s, protocol)
    requires AllMetrics(r, protocol) <==> AllMetrics(s, protocol)
    requires AllCompleted(r.arms) <==> AllCompleted(s.arms)
    requires SomeCompleted(r.arms) <==> SomeCompleted(s.arms)
    requires AllTerminal(r.arms) <==> AllTerminal(s.arms)
    requires forall m :: AllWithinDrawdown(r.arms, m) <==> AllWithinDrawdown(s.arms, m)
    ensures Evaluated(r, protocol) == Evaluated(s, protocol)
  {
  }

  lemma SameVerdicts(r: RunReceipt, s: RunReceipt, protocol: Protocol)
    requires s == r.(arms := s.arms) && forall a :: a in r.arms <==> a in s.arms
    ensures AllDeclared(r, protocol) ==> AllDeclared(s, protocol)
    ensures AllReported(r, protocol) ==> AllReported(s, protocol)
    ensures (forall a :: a in r.arms ==> ArmMetrics(a, r, protocol)) ==>
            forall a :: a in s.arms ==> ArmMetrics(a, s, protocol)
    ensures AllCompleted(r.arms) ==> AllCompleted(s.arms)
    ensures SomeCompleted(r.arms) ==> SomeCompleted(s.arms)
    ensures AllTerminal(r.arms) ==> AllTerminal(s.arms)
    ensures forall m :: AllWithinDrawdown(r.arms, m) ==> AllWithinDrawdown(s.arms, m)
  {
    forall a | a in s.arms
      ensures AllDeclared(r, protocol) ==> ArmDeclared(a, s, protocol)
      ensures AllReported(r, protocol) ==> ArmReported(a, s, protocol)
      ensures (forall a :: a in r.arms ==> ArmMetrics(a, r, protocol)) ==> ArmMetrics(a, s, protocol)
    {
      SameJudgement(a, r, s, protocol);
    }
  }

  function BlankArm(id: string, identity: Identity, status: Status): ArmReceipt {
    ArmReceipt(Is(id), identity, Binding("", "", "", ""), "", status, Missing, Missing, Missing, Missing, Missing,
               Missing, Missing, Missing, Missing, Is(InProgress), Missing)
  }

  /** With a repeated id the first entry decides, so there order does matter. */
  lemma OrderMattersWithRepeats(receipt: RunReceipt, protocol: Protocol)
    requires protocol.pairs == [PairSpec("P", "", "", "")]
    ensures var id := CashId("P");
            var good, bad := BlankArm(id, Identity("", "", "", "", ""), Running),
                             BlankArm(id, Identity("", "", "", "", ""), Unknown);
            && Evaluated(receipt.(arms := [good, bad]), protocol).metricsWellFormed
            && !Evaluated(receipt.(arms := [bad, good]), protocol).metricsWellFormed
  {
    var id := CashId("P");
    var good, bad := BlankArm(id, Identity("", "", "", "", ""), Running),
                     BlankArm(id, Identity("", "", "", "", ""), Unknown);
    assert protocol.pairs[0].pairId == "P";
    RosterHasPair(protocol.pairs, "P");
    assert id in Expected(protocol);
    var one, two := receipt.(arms := [good, bad]), receipt.(arms := [bad, good]);
    assert Named(one.arms[0]) && one.arms[0].armId == one.arms[1].armId;
    assert Repeated(one.arms, 1);
    assert MetricsOk(one.arms, 0, one, protocol) && MetricsOk(one.arms, 1, one, protocol);
    assert Considered(two.arms, 0, Expected(protocol)) && !MetricsOk(two.arms, 0, two, protocol);
  }

  // ---- Lists with repeated ids ----

  /** No verdict but the well-formedness of the metrics depends on the order, repeated ids or not. */
  lemma OtherVerdictsIgnoreOrder(receipt: RunReceipt, arms: seq<ArmReceipt>, protocol: Protocol)
    requires multiset(arms) == multiset(receipt.arms)
    ensures var e, f := Evaluated(receipt, protocol), Evaluated(receipt.(arms := arms), protocol);
            f == e.(metricsWellFormed := f.metricsWellFormed)
  {
    DistinctReordered(arms, receipt.arms);
    DistinctReordered(receipt.arms, arms);
    if DistinctIds(receipt.arms) {
      OrderIsIrrelevant(receipt, arms, protocol);
    }
  }

  /** All entries have an id, and the first with each id is good. */
  ghost predicate FirstsGood(arms: seq<ArmReceipt>, good: ArmReceipt -> bool) {
    forall k :: 0 <= k < |arms| ==> Named(arms[k]) && (Repeated(arms, k) || good(arms[k]))
  }

  ghost predicate SomeUnnamed(arms: seq<ArmReceipt>) {
    exists a :: a in arms && !Named(a)
  }

  ghost predicate OnlyBad(arms: seq<ArmReceipt>, good: ArmReceipt -> bool, id: Slot<string>) {
    forall a :: a in arms && a.armId == id ==> !good(a)
  }

  /** Some id is there, but on bad entries only. */
  ghost predicate SomeOnlyBad(arms: seq<ArmReceipt>, good: ArmReceipt -> bool) {
    exists a :: a in arms && Named(a) && OnlyBad(arms, good, a.armId)
  }

  ghost predicate SomeBad(arms: seq<ArmReceipt>, good: ArmReceipt -> bool) {
    exists a :: a in arms && Named(a) && !good(a)
  }

  ghost function Chosen(arms: seq<ArmReceipt>, good: ArmReceipt -> bool, wanted: bool): seq<ArmReceipt> {
    if arms == [] then []
    else if good(arms[0]) == wanted then [arms[0]] + Chosen(arms[1..], good, wanted)
    else Chosen(arms[1..], good, wanted)
  }

  lemma {:induction false} ChosenMeaning(arms: seq<ArmReceipt>, good: ArmReceipt -> bool, wanted: bool)
    ensures forall a :: a in Chosen(arms, good, wanted) <==> a in arms && good(a) == wanted
  {
    if arms != [] {
      ChosenMeaning(arms[1..], good, wanted);
      assert arms == [arms[0]] + arms[1..];
    }
  }

  lemma {:induction false} ChosenSplits(arms: seq<ArmReceipt>, good: ArmReceipt -> bool)
    ensures multiset(Chosen(arms, good, true)) + multiset(Chosen(arms, good, false)) == multiset(arms)
  {
    if arms != [] {
      ChosenSplits(arms[1..], good);
      assert arms == [arms[0]] + arms[1..];
    }
  }

  /** With the good entries first, every id that has one starts with one. */
  lemma GoodFirst(arms: seq<ArmReceipt>, good: ArmReceipt -> bool) returns (order: seq<ArmReceipt>)
    requires !SomeUnnamed(arms) && !SomeOnlyBad(arms, good)
    ensures multiset(order) == multiset(arms) && FirstsGood(order, good)
  {
    var goods, bads := Chosen(arms, good, true), Chosen(arms, good, false);
    ChosenMeaning(arms, good, true);
    ChosenMeaning(arms, good, false);
    ChosenSplits(arms, good);
    order := goods + bads;
    forall k | 0 <= k < |order| ensures Named(order[k]) && (Repeated(order, k) || good(order[k])) {
      if k < |goods| {
        assert order[k] in goods;
      } else {
        assert order[k] in bads && !OnlyBad(arms, good, order[k].armId);
        var a :| a in arms && a.armId == order[k].armId && good(a);
        var j :| 0 <= j < |goods| && goods[j] == a;
        assert order[j] == a && Named(a);
      }
    }
  }

  /** With a bad entry first, its id starts with it. */
  lemma BadFirst(arms: seq<ArmReceipt>, good: ArmReceipt -> bool) returns (order: seq<ArmReceipt>)
    requires SomeBad(arms, good)
    ensures multiset(order) == multiset(arms) && !FirstsGood(order, good)
  {
    var a :| a in arms && Named(a) && !good(a);
    var i :| 0 <= i < |arms| && arms[i] == a;
    order := [a] + (arms[..i] + arms[i + 1..]);
    assert arms == arms[..i] + [a] + arms[i + 1..];
    assert order[0] == a && !Repeated(order, 0);
  }

  /** An id that only bad entries carry starts with one in every order. */
  lemma OnlyBadStays(arms: seq<ArmReceipt>, good: ArmReceipt -> bool, a: ArmReceipt)
    requires a in arms && Named(a) && OnlyBad(arms, good, a.armId)
    ensures !FirstsGood(arms, good)
  {
    var k :| 0 <= k < |arms| && arms[k] == a;
    var first := FirstWithId(arms, k);
    assert !Repeated(arms, first) && arms[first] in arms;
  }

  lemma {:induction false} FirstWithId(arms: seq<ArmReceipt>, k: nat) returns (first: nat)
    requires k < |arms| && Named(arms[k])
    ensures first <= k && arms[first].armId == arms[k].armId && Named(arms[first]) && !Repeated(arms, first)
  {
    if Repeated(arms, k) {
      var j :| 0 <= j < k && Named(arms[j]) && arms[j].armId == arms[k].armId;
      first := FirstWithId(arms, j);
    } else {
      first := k;
    }
  }

  /** What all orders of a list have in common. */
  lemma SettledInAllOrders(arms: seq<ArmReceipt>, good: ArmReceipt -> bool)
    ensures SomeUnnamed(arms) || SomeOnlyBad(arms, good) ==> !FirstsGood(arms, good)
    ensures !SomeUnnamed(arms) && !SomeBad(arms, good) ==> FirstsGood(arms, good)
  {
    if SomeUnnamed(arms) {
      var a :| a in arms && !Named(a);
      var k :| 0 <= k < |arms| && arms[k] == a;
    } else if SomeOnlyBad(arms, good) {
      var a :| a in arms && Named(a) && OnlyBad(arms, good, a.armId);
      OnlyBadStays(arms, good, a);
    } else if !SomeBad(arms, good) {
      forall k | 0 <= k < |arms| ensures Named(arms[k]) && good(arms[k]) {
        assert arms[k] in arms;
      }
    }
  }

  lemma SameKinds(a: seq<ArmReceipt>, b: seq<ArmReceipt>, good: ArmReceipt -> bool)
    requires multiset(a) == multiset(b)
    ensures SomeUnnamed(a) ==> SomeUnnamed(b)
    ensures SomeOnlyBad(a, good) ==> SomeOnlyBad(b, good)
    ensures SomeBad(a, good) ==> SomeBad(b, good)
  {
    SameMembers(a, b);
    if SomeOnlyBad(a, good) {
      var x :| x in a && Named(x) && OnlyBad(a, good, x.armId);
      assert x in b && OnlyBad(b, good, x.armId);
    }
  }

  /** The loop's judgement of the metrics: the first entry of each id decides. */
  lemma MetricsByFirsts(receipt: RunReceipt, arms: seq<ArmReceipt>, protocol: Protocol)
    ensures AllMetrics(receipt.(arms := arms), protocol) <==>
            FirstsGood(arms, a => ArmMetrics(a, receipt, protocol))
  {
    var other := receipt.(arms := arms);
    forall k | 0 <= k < |arms|
      ensures MetricsOk(arms, k, other, protocol) <==>
              Named(arms[k]) && (Repeated(arms, k) || ArmMetrics(arms[k], receipt, protocol))
    {
      SameJudgement(arms[k], receipt, other, protocol);
    }
  }

  /**
   Some arm has no id, or some declared id is there on ill-formed entries only, or no
   entry with a declared id is ill-formed.
   */
  ghost predicate OrderSettled(receipt: RunReceipt, protocol: Protocol) {
    var good := a => ArmMetrics(a, receipt, protocol);
    SomeUnnamed(receipt.arms) || SomeOnlyBad(receipt.arms, good) || !SomeBad(receipt.arms, good)
  }

  ghost predicate SameInOrder(receipt: RunReceipt, arms: seq<ArmReceipt>, protocol: Protocol) {
    Evaluated(receipt.(arms := arms), protocol) == Evaluated(receipt, protocol)
  }

  ghost predicate SameInEveryOrder(receipt: RunReceipt, protocol: Protocol) {
    forall arms :: multiset(arms) == multiset(receipt.arms) ==> SameInOrder(receipt, arms, protocol)
  }

  /** The whole evaluation is the same in every order exactly under that condition. */
  lemma OrderMattersExactly(receipt: RunReceipt, protocol: Protocol)
    ensures SameInEveryOrder(receipt, protocol) <==> OrderSettled(receipt, protocol)
  {
    var good := a => ArmMetrics(a, receipt, protocol);
    if OrderSettled(receipt, protocol) {
      forall arms | multiset(arms) == multiset(receipt.arms) ensures SameInOrder(receipt, arms, protocol) {
        SettledIsSame(receipt, arms, protocol);
      }
    } else {
      var one := GoodFirst(receipt.arms, good);
      var two := BadFirst(receipt.arms, good);
      MetricsByFirsts(receipt, one, protocol);
      MetricsByFirsts(receipt, two, protocol);
      assert Evaluated(receipt.(arms := one), protocol).metricsWellFormed;
      assert !Evaluated(receipt.(arms := two), protocol).metricsWellFormed;
      assert !(SameInOrder(receipt, one, protocol) && SameInOrder(receipt, two, protocol));
    }
  }

  lemma SettledIsSame(receipt: RunReceipt, arms: seq<ArmReceipt>, protocol: Protocol)
    requires OrderSettled(receipt, protocol) && multiset(arms) == multiset(receipt.arms)
    ensures SameInOrder(receipt, arms, protocol)
  {
    var good := a => ArmMetrics(a, receipt, protocol);
    OtherVerdictsIgnoreOrder(receipt, arms, protocol);
    SameKinds(arms, receipt.arms, good);
    SameKinds(receipt.arms, arms, good);
    SettledInAllOrders(arms, good);
    SettledInAllOrders(receipt.arms, good);
    MetricsByFirsts(receipt, arms, protocol);
    MetricsByFirsts(receipt, receipt.arms, protocol);
    assert receipt.(arms := receipt.arms) == receipt;
  }
}
