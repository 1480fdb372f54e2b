/**
 Accepted ledgers that use up every tolerance of the audit: its bounds on the total cost
 and on the drawdown trace cannot be improved, under any protocol.
 */
module LedgerLimits {
  import opened LedgerAudit

  /** The drawdown a halved account may report: both tolerances below the truth. */
  const LOW_DRAWDOWN: real := 0.5 - DRAWDOWN_SLACK - ABS_TOLERANCE

  function Zeros(n: nat): (zeros: seq<real>)
    ensures |zeros| == n && forall k :: 0 <= k < n ==> zeros[k] == 0.0
  {
    seq(n, _ => 0.0)
  }

  /** An account that trades nothing, with this equity, total cost and drawdown. */
  function Idle(ev: Evaluation, equity: real, cost: real, drawdown: real): Account {
    Account(equity, ev.capital, cost, 0.0, 0.0, 0.0, drawdown, Zeros(ev.symbols))
  }

  /** The equity halves in the first interval and then stays. */
  function EquityAfter(ev: Evaluation): real {
    ev.capital * 0.5
  }

  function LimitInterval(ev: Evaluation, k: nat): Interval {
    Interval(
      ev.startIndex + k, ev.startIndex + k + 1,
      if k == 0 then Idle(ev, ev.capital, Times(1, ABS_TOLERANCE), 0.0)
      else Idle(ev, EquityAfter(ev), Times(2 * k + 1, ABS_TOLERANCE), LOW_DRAWDOWN),
      Idle(ev, EquityAfter(ev), Times(2 * k + 2, ABS_TOLERANCE), LOW_DRAWDOWN),
      0.0, 0.0, 0.0, LimitReturn(k))
  }

  function LimitReturn(k: nat): real {
    if k == 0 then -0.5 else 0.0
  }

  /**
   The equity halves at once; the total cost creeps up by a tolerance at every comparison
   although no interval costs anything; the drawdowns are reported as low as can be.
   */
  function LimitLedger(ev: Evaluation): (ledger: Ledger)
    ensures |ledger.intervals| == ev.count
    ensures forall k :: 0 <= k < ev.count ==> ledger.intervals[k] == LimitInterval(ev, k)
    ensures ledger.final == Idle(ev, EquityAfter(ev), Times(2 * ev.count + 1, ABS_TOLERANCE), 0.5 - DRAWDOWN_SLACK)
  {
    Ledger(seq(ev.count, k requires 0 <= k < ev.count => LimitInterval(ev, k)),
           Idle(ev, EquityAfter(ev), Times(2 * ev.count + 1, ABS_TOLERANCE), 0.5 - DRAWDOWN_SLACK))
  }

  function LimitReplay(ev: Evaluation): Replay {
    Replay(LimitReturns(ev.count), -0.5, 0.5, 0.5 - DRAWDOWN_SLACK, true)
  }

  function LimitReturns(n: nat): (rates: seq<real>)
    ensures |rates| == n && forall k :: 0 <= k < n ==> rates[k] == LimitReturn(k)
  {
    seq(n, k requires 0 <= k < n => LimitReturn(k))
  }

  // ---- It is accepted ----

  lemma Halved(c: real)
    requires c > 0.0
    ensures c * 0.5 > 0.0 && (c * 0.5) / c == 0.5
  {
  }

  lemma LimitReturnHolds(ev: Evaluation, k: nat)
    requires ev.capital > 0.0
    ensures Solvent(LimitInterval(ev, k)) && Return(LimitInterval(ev, k)) == LimitReturn(k)
  {
    Halved(ev.capital);
    if k > 0 { SelfRatio(EquityAfter(ev)); }
  }

  lemma LimitCosts(k: nat)
    ensures Times(2 * k + 2, ABS_TOLERANCE) == Times(2 * k + 1, ABS_TOLERANCE) + ABS_TOLERANCE
    ensures Times(2 * k + 1, ABS_TOLERANCE) == Times(2 * k, ABS_TOLERANCE) + ABS_TOLERANCE
  {
  }

  lemma LimitIntervalHolds(ev: Evaluation, k: nat)
    requires ev.capital > 0.0
    ensures IntervalHolds(LimitInterval(ev, k), LimitReturn(k))
  {
    LimitReturnHolds(ev, k);
    LimitCosts(k);
  }

  lemma LimitChains(ev: Evaluation, k: nat)
    requires k < ev.count
    ensures Chained(LimitLedger(ev), ev, k)
  {
    var items := LimitLedger(ev).intervals;
    assert items[k] == LimitInterval(ev, k);
    LimitCosts(k);
    if k > 0 {
      assert items[k - 1] == LimitInterval(ev, k - 1) && 2 * (k - 1) + 2 == 2 * k;
    }
  }

  lemma LimitAccepted(ev: Evaluation, k: nat)
    requires k < ev.count && ev.capital > 0.0
    ensures Accepts(LimitLedger(ev), ev, LimitReturns(ev.count), k)
  {
    LimitIntervalHolds(ev, k);
    LimitChains(ev, k);
  }

  lemma {:induction false} LimitPasses(ev: Evaluation, k: nat)
    requires k <= ev.count && ev.capital > 0.0
    ensures Passed(LimitLedger(ev), ev, LimitReturns(ev.count), k)
  {
    if k > 0 {
      LimitPasses(ev, k - 1);
      LimitAccepted(ev, k - 1);
    }
  }

  lemma LimitGrowth(ev: Evaluation)
    requires ev.count >= 1 && ev.capital > 0.0
    ensures AllSolvent(LimitLedger(ev).intervals) && Growth(Returns(LimitLedger(ev).intervals)) == 0.5
  {
    var items := LimitLedger(ev).intervals;
    forall k | 0 <= k < ev.count ensures Solvent(items[k]) {
      LimitReturnHolds(ev, k);
    }
    forall k | 0 < k < ev.count ensures items[k].before.equity == items[k - 1].after.equity {
      assert items[k - 1] == LimitInterval(ev, k - 1);
    }
    assert items[0] == LimitInterval(ev, 0) && items[ev.count - 1] == LimitInterval(ev, ev.count - 1);
    ExactChainCompounds(items);
    Halved(ev.capital);
  }

  /** A path that halves at once has fallen by one half. */
  lemma HalvedOnce(values: seq<real>, c: real)
    requires c > 0.0 && |values| >= 2 && values[0] == c && forall k :: 1 <= k < |values| ==> values[k] == c * 0.5
    ensures AllPositive(values) && Drawdown(values) == 0.5 && Fall(values[0], values[1]) == 0.5
  {
    Halved(c);
    SelfRatio(c);
    SelfRatio(c * 0.5);
    DrawdownBounds(values, 0, 1);
    var i, j := DrawdownAttained(values);
  }

  lemma LimitEndpoints(ev: Evaluation)
    requires ev.count >= 1 && ev.capital > 0.0
    ensures var values := Endpoints(ev.capital, LimitLedger(ev).intervals);
            AllPositive(values) && Drawdown(values) == 0.5 && Fall(values[0], values[1]) == 0.5
  {
    var items := LimitLedger(ev).intervals;
    var values := Endpoints(ev.capital, items);
    forall k | 1 <= k < |values| ensures values[k] == ev.capital * 0.5 {
      assert items[k - 1] == LimitInterval(ev, k - 1);
    }
    HalvedOnce(values, ev.capital);
  }

  lemma LimitEnds(ev: Evaluation)
    requires ev.count >= 1 && ev.capital > 0.0
    ensures TailHolds(LimitLedger(ev), ev.symbols, LimitReplay(ev), -0.5, 0.5)
  {
    var items, n := LimitLedger(ev).intervals, ev.count;
    assert items[n - 1] == LimitInterval(ev, n - 1) && 2 * (n - 1) + 2 == 2 * n;
    LimitCosts(n);
    forall k | 0 <= k < n ensures DrawdownHolds(items[k]) {
      assert items[k] == LimitInterval(ev, k);
    }
  }

  lemma FromParts(ledger: Ledger, ev: Evaluation, replay: Replay, total: real, worst: real)
    requires IntervalsHold(ledger, ev, replay.reported) && ledger.intervals != []
    requires AllSolvent(ledger.intervals) && total == Growth(Returns(ledger.intervals)) - 1.0
    requires AllPositive(Endpoints(ev.capital, ledger.intervals))
    requires worst == Drawdown(Endpoints(ev.capital, ledger.intervals))
    requires TailHolds(ledger, ev.symbols, replay, total, worst)
    ensures CellHolds(ledger, ev, replay)
  {
  }

  lemma LimitIntervalsHold(ev: Evaluation)
    requires ev.capital > 0.0
    ensures IntervalsHold(LimitLedger(ev), ev, LimitReturns(ev.count))
  {
    LimitPasses(ev, ev.count);
  }

  lemma LimitLedgerHolds(ev: Evaluation)
    requires ev.count >= 1 && ev.capital > 0.0
    ensures CellHolds(LimitLedger(ev), ev, LimitReplay(ev))
  {
    LimitIntervalsHold(ev);
    LimitGrowth(ev);
    LimitEndpoints(ev);
    LimitEnds(ev);
    FromParts(LimitLedger(ev), ev, LimitReplay(ev), -0.5, 0.5);
  }

  // ---- The cost bound is reached ----

  lemma {:induction false} FreeFlows(flows: seq<Flow>)
    requires forall k :: 0 <= k < |flows| ==> flows[k].delta == 0.0
    ensures Sum(flows) == 0.0
  {
    if flows != [] { FreeFlows(flows[..|flows| - 1]); }
  }

  lemma {:induction false} TimesGrows(i: nat, n: nat)
    requires i <= n
    ensures 0.0 <= Times(i, ABS_TOLERANCE) <= Times(n, ABS_TOLERANCE)
  {
    if n > 0 {
      TimesGrows(if i < n then i else n - 1, n - 1);
    }
  }

  lemma LimitIsBounded(ev: Evaluation)
    requires Times(2 * ev.count + 1, ABS_TOLERANCE) <= 10.0
    ensures CostsBounded(LimitLedger(ev), 10.0)
  {
    var items, flows, n := LimitLedger(ev).intervals, CostFlows(LimitLedger(ev).intervals), ev.count;
    forall k | 0 <= k < n
      ensures && Abs(flows[k].before) <= 10.0 && Abs(flows[k].after) <= 10.0
              && Abs(flows[k].delta) <= 10.0 && Abs(flows[k].after - flows[k].before) <= 10.0
    {
      assert items[k] == LimitInterval(ev, k);
      TimesGrows(2 * k + 1, 2 * n + 1);
      TimesGrows(2 * k + 2, 2 * n + 1);
    }
    TimesGrows(0, 2 * n + 1);
  }

  lemma LimitError(ev: Evaluation)
    ensures CostGap(LimitLedger(ev)) == Times(2 * ev.count + 1, ABS_TOLERANCE)
  {
    var items := LimitLedger(ev).intervals;
    forall k | 0 <= k < ev.count ensures CostFlows(items)[k].delta == 0.0 {
      assert items[k] == LimitInterval(ev, k);
    }
    FreeFlows(CostFlows(items));
    TimesGrows(0, 2 * ev.count + 1);
  }

  /** While the total stays within 10, an accepted cell can be off by all 2n + 1 tolerances. */
  lemma TotalCostBoundIsReached(ev: Evaluation)
    requires ev.count >= 1 && ev.capital > 0.0 && (2 * ev.count + 1) as real * ABS_TOLERANCE <= 10.0
    ensures var ledger := LimitLedger(ev);
            && CellHolds(ledger, ev, LimitReplay(ev)) && CostsBounded(ledger, 10.0)
            && CostGap(ledger) == (2 * ev.count + 1) as real * Tolerance(10.0)
  {
    LimitLedgerHolds(ev);
    LimitCostIsBounded(ev);
    LimitError(ev);
    LimitTotal(ev.count);
  }

  lemma LimitTotal(n: nat)
    ensures Times(2 * n + 1, ABS_TOLERANCE) == (2 * n + 1) as real * Tolerance(10.0)
  {
    assert Tolerance(10.0) == ABS_TOLERANCE;
    TimesIsProduct(2 * n + 1, ABS_TOLERANCE);
  }

  lemma LimitCostIsBounded(ev: Evaluation)
    requires (2 * ev.count + 1) as real * ABS_TOLERANCE <= 10.0
    ensures CostsBounded(LimitLedger(ev), 10.0)
  {
    TimesIsProduct(2 * ev.count + 1, ABS_TOLERANCE);
    LimitIsBounded(ev);
  }

  // ---- The trace bound is exact ----

  lemma LimitFallsShort(ev: Evaluation, b: real)
    requires ev.count >= 1 && ev.capital > 0.0 && AlwaysBounds(ev, b)
    ensures b >= ABS_TOLERANCE + DRAWDOWN_SLACK
  {
    var ledger := LimitLedger(ev);
    LimitLedgerHolds(ev);
    LimitEndpoints(ev);
    var values := Endpoints(ev.capital, ledger.intervals);
    assert TraceBounds(ledger, ev, b);
    assert Fall(values[0], values[1]) <= ledger.intervals[ev.count - 1].after.drawdown + b;
    assert ledger.intervals[ev.count - 1] == LimitInterval(ev, ev.count - 1);
  }

  /**
   Under every protocol 10^-11 is not enough: the final drawdown may be a tolerance above the
   last traced one. What the trace does guarantee is exactly the sum of the two.
   */
  lemma TraceBoundIsExact(ev: Evaluation, b: real)
    requires ev.count >= 1 && ev.capital > 0.0
    ensures AlwaysBounds(ev, b) <==> b >= ABS_TOLERANCE + DRAWDOWN_SLACK
  {
    if b >= ABS_TOLERANCE + DRAWDOWN_SLACK {
      forall ledger, replay | CellHolds(ledger, ev, replay) ensures TraceBounds(ledger, ev, b) {
        TraceBoundsFalls(ledger, ev, replay, b);
      }
    } else if AlwaysBounds(ev, b) {
      LimitFallsShort(ev, b);
    }
  }
}
