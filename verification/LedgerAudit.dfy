/**
 The replay-ledger audit over exact reals: chained tolerances, compounding, and drawdown.
 */
module LedgerAudit {
  import opened Options

  const ABS_TOLERANCE: real := 0.000000001
  const RETURN_TOLERANCE: real := 0.0000000002
  const REL_TOLERANCE: real := 0.0000000001
  const DRAWDOWN_SLACK: real := 0.00000000001

  function Abs(x: real): real {
    if x < 0.0 then -x else x
  }

  function Max(a: real, b: real): real {
    if a >= b then a else b
  }

  predicate CloseWithin(a: real, b: real, absTol: real) {
    Abs(a - b) <= Max(REL_TOLERANCE * Max(Abs(a), Abs(b)), absTol)
  }

  predicate Close(a: real, b: real) {
    CloseWithin(a, b, ABS_TOLERANCE)
  }

  /** Two values are close when they differ by at most the tolerance, or 10^-10 of either of them. */
  lemma CloseExactly(a: real, b: real, absTol: real)
    ensures var off := if a < b then b - a else a - b;
            CloseWithin(a, b, absTol) <==>
              || off <= absTol
              || (off <= 0.0000000001 * a || off <= -0.0000000001 * a)
              || (off <= 0.0000000001 * b || off <= -0.0000000001 * b)
  {
  }

  // ---- The ledger ----

  /** The account at one end of an interval. */
  datatype Account = Account(
    equity: real, cash: real, cost: real, funding: real, borrow: real, turnover: real, drawdown: real,
    quantities: seq<real>)

  datatype Interval = Interval(
    startIndex: int, nextIndex: int, before: Account, after: Account,
    cost: real, funding: real, borrow: real, netReturn: real)

  datatype Ledger = Ledger(intervals: seq<Interval>, final: Account)

  /** What the evaluation protocol fixes: the clock, the capital and the number of symbols. */
  datatype Evaluation = Evaluation(startIndex: int, count: nat, capital: real, symbols: nat)

  datatype Replay = Replay(
    reported: seq<real>, totalReturn: real, maxDrawdown: real, ledgerMaxDrawdown: real, terminalFlat: bool)

  predicate Opens(a: Account, capital: real) {
    && a.equity == capital && a.cash == capital
    && (forall k :: 0 <= k < |a.quantities| ==> a.quantities[k] == 0.0)
    && Close(a.cost, 0.0) && Close(a.funding, 0.0) && Close(a.borrow, 0.0)
    && Close(a.turnover, 0.0) && Close(a.drawdown, 0.0)
  }

  predicate Continues(a: Account, previous: Account) {
    && Close(a.equity, previous.equity) && Close(a.cash, previous.cash) && Close(a.cost, previous.cost)
    && Close(a.funding, previous.funding) && Close(a.borrow, previous.borrow)
    && Close(a.turnover, previous.turnover) && Close(a.drawdown, previous.drawdown)
    && a.quantities == previous.quantities
  }

  function Return(i: Interval): real
    requires i.before.equity > 0.0
  {
    i.after.equity / i.before.equity - 1.0
  }

  predicate Solvent(i: Interval) {
    i.before.equity > 0.0 && i.after.equity > 0.0
  }

  predicate IntervalHolds(i: Interval, reported: real) {
    && Solvent(i)
    && CloseWithin(Return(i), i.netReturn, RETURN_TOLERANCE)
    && CloseWithin(Return(i), reported, RETURN_TOLERANCE)
    && Close(i.after.cost - i.before.cost, i.cost)
    && Close(i.after.funding - i.before.funding, i.funding)
    && Close(i.after.borrow - i.before.borrow, i.borrow)
  }

  predicate DrawdownHolds(i: Interval) {
    0.0 <= i.before.drawdown <= i.after.drawdown <= 1.0
  }

  predicate Chained(ledger: Ledger, ev: Evaluation, k: nat)
    requires k < |ledger.intervals|
  {
    && ledger.intervals[k].startIndex == ev.startIndex + k
    && ledger.intervals[k].nextIndex == ev.startIndex + k + 1
    && if k == 0 then Opens(ledger.intervals[0].before, ev.capital)
       else Continues(ledger.intervals[k].before, ledger.intervals[k - 1].after)
  }

  /** The first k intervals have passed every check of the loop. */
  predicate Passed(ledger: Ledger, ev: Evaluation, reported: seq<real>, k: nat)
    requires k <= |ledger.intervals|
  {
    k == 0 || (Passed(ledger, ev, reported, k - 1) && Accepts(ledger, ev, reported, k - 1))
  }

  /** All that the interval loop checks. */
  predicate IntervalsHold(ledger: Ledger, ev: Evaluation, reported: seq<real>) {
    && |ledger.intervals| == ev.count && |reported| == |ledger.intervals|
    && Passed(ledger, ev, reported, |ledger.intervals|)
  }

  lemma {:induction false} PassedEarlier(ledger: Ledger, ev: Evaluation, reported: seq<real>, i: nat, k: nat)
    requires i <= k <= |ledger.intervals|
    ensures Passed(ledger, ev, reported, k) ==> Passed(ledger, ev, reported, i)
  {
    if i < k { PassedEarlier(ledger, ev, reported, i, k - 1); }
  }

  /** What passing the k-th interval takes. */
  predicate Accepts(ledger: Ledger, ev: Evaluation, reported: seq<real>, k: nat)
    requires k < |ledger.intervals|
    ensures Accepts(ledger, ev, reported, k) ==> Solvent(ledger.intervals[k])
  {
    k < |reported| && Chained(ledger, ev, k) && IntervalHolds(ledger.intervals[k], reported[k])
  }

  predicate AllSolvent(intervals: seq<Interval>) {
    forall k :: 0 <= k < |intervals| ==> Solvent(intervals[k])
  }

  function Returns(intervals: seq<Interval>): (rs: seq<real>)
    requires AllSolvent(intervals)
    ensures |rs| == |intervals|
    ensures forall k :: 0 <= k < |intervals| ==> rs[k] == Return(intervals[k])
  {
    if intervals == [] then []
    else Returns(intervals[..|intervals| - 1]) + [Return(intervals[|intervals| - 1])]
  }

  function Endpoints(capital: real, intervals: seq<Interval>): (values: seq<real>)
    ensures |values| == |intervals| + 1 && values[0] == capital
    ensures forall k :: 0 <= k < |intervals| ==> values[k + 1] == intervals[k].after.equity
  {
    if intervals == [] then [capital]
    else Endpoints(capital, intervals[..|intervals| - 1]) + [intervals[|intervals| - 1].after.equity]
  }

  lemma OneMoreInterval(capital: real, items: seq<Interval>, k: nat)
    requires k < |items| && AllSolvent(items[..k]) && Solvent(items[k])
    ensures AllSolvent(items[..k + 1])
    ensures Returns(items[..k + 1]) == Returns(items[..k]) + [Return(items[k])]
    ensures Endpoints(capital, items[..k + 1]) == Endpoints(capital, items[..k]) + [items[k].after.equity]
  {
    assert items[..k + 1] == items[..k] + [items[k]];
    assert items[..k + 1][..k] == items[..k];
  }

  /** The first interval starts from the capital, without a position and with nothing accumulated. */
  method CheckOpening(a: Account, capital: real) returns (ok: bool)
    ensures ok <==> Opens(a, capital)
  {
    if a.equity != capital || a.cash != capital {
      return false;
    }
    if exists k :: 0 <= k < |a.quantities| && a.quantities[k] != 0.0 {
      return false;
    }
    var columns := [a.cost, a.funding, a.borrow, a.turnover, a.drawdown];
    for k := 0 to |columns|
      invariant forall i :: 0 <= i < k ==> Close(columns[i], 0.0)
    {
      if !Close(columns[k], 0.0) {
        return false;
      }
    }
    assert columns[0] == a.cost && columns[1] == a.funding && columns[2] == a.borrow
           && columns[3] == a.turnover && columns[4] == a.drawdown;
    return true;
  }

  /** Every later one starts from where the one before it ended. */
  method CheckLink(a: Account, previous: Account) returns (ok: bool)
    ensures ok <==> Continues(a, previous)
  {
    var columns := [(a.equity, previous.equity), (a.cash, previous.cash), (a.cost, previous.cost),
                    (a.funding, previous.funding), (a.borrow, previous.borrow),
                    (a.turnover, previous.turnover), (a.drawdown, previous.drawdown)];
    for k := 0 to |columns|
      invariant forall i :: 0 <= i < k ==> Close(columns[i].0, columns[i].1)
    {
      if !Close(columns[k].0, columns[k].1) {
        return false;
      }
    }
    assert columns[0] == (a.equity, previous.equity) && columns[1] == (a.cash, previous.cash)
           && columns[2] == (a.cost, previous.cost) && columns[3] == (a.funding, previous.funding)
           && columns[4] == (a.borrow, previous.borrow) && columns[5] == (a.turnover, previous.turnover)
           && columns[6] == (a.drawdown, previous.drawdown);
    return a.quantities == previous.quantities;
  }

  /** The interval's own return and amounts against its two accounts. */
  method CheckAmounts(i: Interval, reported: real) returns (ok: bool)
    requires Solvent(i)
    ensures ok <==> IntervalHolds(i, reported)
  {
    var r := i.after.equity / i.before.equity - 1.0;
    if !CloseWithin(r, i.netReturn, RETURN_TOLERANCE) || !CloseWithin(r, reported, RETURN_TOLERANCE) {
      return false;
    }
    var columns := [(i.after.cost - i.before.cost, i.cost), (i.after.funding - i.before.funding, i.funding),
                    (i.after.borrow - i.before.borrow, i.borrow)];
    for k := 0 to |columns|
      invariant forall j :: 0 <= j < k ==> Close(columns[j].0, columns[j].1)
    {
      if !Close(columns[k].0, columns[k].1) {
        return false;
      }
    }
    assert columns[0] == (i.after.cost - i.before.cost, i.cost)
           && columns[1] == (i.after.funding - i.before.funding, i.funding)
           && columns[2] == (i.after.borrow - i.before.borrow, i.borrow);
    return true;
  }

  /** One turn of the interval loop. */
  method CheckInterval(ledger: Ledger, ev: Evaluation, reported: seq<real>, k: nat) returns (ok: bool)
    requires k < |ledger.intervals|
    ensures ok <==> Accepts(ledger, ev, reported, k)
  {
    var item, index := ledger.intervals[k], ev.startIndex + k;
    if item.startIndex != index || item.nextIndex != index + 1 {
      return false;
    }
    if item.before.equity <= 0.0 || item.after.equity <= 0.0 {
      return false;
    }
    var linked;
    if k == 0 {
      linked := CheckOpening(item.before, ev.capital);
    } else {
      linked := CheckLink(item.before, ledger.intervals[k - 1].after);
    }
    if !linked || k >= |reported| {
      return false;
    }
    ok := CheckAmounts(item, reported[k]);
  }

  /** The interval loop: returns and endpoint values of an accepted chain. */
  method AuditIntervals(ledger: Ledger, ev: Evaluation, reported: seq<real>)
    returns (ok: bool, derived: seq<real>, endpoints: seq<real>)
    ensures ok <==> IntervalsHold(ledger, ev, reported)
    ensures ok ==> AllSolvent(ledger.intervals) && derived == Returns(ledger.intervals)
    ensures ok ==> endpoints == Endpoints(ev.capital, ledger.intervals)
  {
    var items := ledger.intervals;
    derived, endpoints := [], [ev.capital];
    if |items| != ev.count {
      return false, [], [];
    }
    for k := 0 to |items|
      invariant Passed(ledger, ev, reported, k) && AllSolvent(items[..k])
      invariant derived == Returns(items[..k]) && endpoints == Endpoints(ev.capital, items[..k])
    {
      var accepted := CheckInterval(ledger, ev, reported, k);
      if !accepted {
        PassedEarlier(ledger, ev, reported, k + 1, |items|);
        return false, [], [];
      }
      OneMoreInterval(ev.capital, items, k);
      derived := derived + [Return(items[k])];
      endpoints := endpoints + [items[k].after.equity];
    }
    assert items[..|items|] == items;
    ok := |reported| == |derived|;
  }

  // ---- Tolerances that accumulate ----

  /** A cumulative column of the ledger: its value at both ends and the interval's own amount. */
  datatype Flow = Flow(before: real, after: real, delta: real)

  predicate StepHolds(flows: seq<Flow>, k: nat)
    requires k < |flows|
  {
    && Close(flows[k].after - flows[k].before, flows[k].delta)
    && Close(flows[k].before, if k == 0 then 0.0 else flows[k - 1].after)
  }

  ghost predicate FlowsHold(flows: seq<Flow>) {
    forall k :: 0 <= k < |flows| ==> StepHolds(flows, k)
  }

  /** Every compared value is at most m in magnitude. */
  ghost predicate Bounded(flows: seq<Flow>, m: real) {
    forall k :: 0 <= k < |flows| ==>
      && Abs(flows[k].before) <= m && Abs(flows[k].after) <= m
      && Abs(flows[k].delta) <= m && Abs(flows[k].after - flows[k].before) <= m
  }

  function Tolerance(m: real): real {
    Max(ABS_TOLERANCE, REL_TOLERANCE * m)
  }

  function Sum(flows: seq<Flow>): real {
    if flows == [] then 0.0 else Sum(flows[..|flows| - 1]) + flows[|flows| - 1].delta
  }

  lemma CloseBound(a: real, b: real, m: real)
    requires Close(a, b) && Abs(a) <= m && Abs(b) <= m
    ensures -Tolerance(m) <= a - b <= Tolerance(m)
  {
    var larger := Max(Abs(a), Abs(b));
    assert REL_TOLERANCE * larger <= REL_TOLERANCE * m;
  }

  /** n times t, as n additions. */
  function Times(n: nat, t: real): real {
    if n == 0 then 0.0 else Times(n - 1, t) + t
  }

  lemma {:induction false} TimesIsProduct(n: nat, t: real)
    ensures Times(n, t) == n as real * t
  {
    if n > 0 {
      TimesIsProduct(n - 1, t);
      OneMore(n - 1, t);
    }
  }

  /** At most n tolerances of t. */
  predicate AtMost(x: real, n: nat, t: real) {
    x <= n as real * t
  }

  lemma AsProduct(x: real, n: nat, t: real)
    requires x <= Times(n, t)
    ensures AtMost(x, n, t)
  {
    TimesIsProduct(n, t);
  }

  lemma OneMore(n: nat, t: real)
    ensures (n + 1) as real * t == n as real * t + t
  {
    assert (n + 1) as real == n as real + 1.0;
  }

  /** How far an interval starts from where the previous one ended. */
  function Joint(flows: seq<Flow>, k: nat): real
    requires k < |flows|
  {
    flows[k].before - if k == 0 then 0.0 else flows[k - 1].after
  }

  /** How far an interval's own amount is from its change. */
  function Gap(flows: seq<Flow>, k: nat): real
    requires k < |flows|
  {
    flows[k].after - flows[k].before - flows[k].delta
  }

  /** Every compared pair of the column is within t. */
  ghost predicate WithinSteps(flows: seq<Flow>, t: real) {
    forall k :: 0 <= k < |flows| ==> -t <= Joint(flows, k) <= t && -t <= Gap(flows, k) <= t
  }

  lemma StepsAreWithin(flows: seq<Flow>, m: real)
    requires FlowsHold(flows) && Bounded(flows, m) && m >= 0.0
    ensures WithinSteps(flows, Tolerance(m))
  {
    var t := Tolerance(m);
    forall k | 0 <= k < |flows| ensures -t <= Joint(flows, k) <= t && -t <= Gap(flows, k) <= t {
      assert StepHolds(flows, k);
      CloseBound(flows[k].after - flows[k].before, flows[k].delta, m);
      CloseBound(flows[k].before, if k == 0 then 0.0 else flows[k - 1].after, m);
    }
  }

  lemma {:induction false} StepsAddUp(flows: seq<Flow>, t: real, k: nat)
    requires 1 <= k <= |flows| && WithinSteps(flows, t)
    ensures Abs(flows[k - 1].after - Sum(flows[..k])) <= Times(2 * k, t)
  {
    assert flows[..k][..k - 1] == flows[..k - 1] && flows[..k][k - 1] == flows[k - 1];
    assert -t <= Joint(flows, k - 1) <= t && -t <= Gap(flows, k - 1) <= t;
    assert Times(2 * k, t) == Times(2 * (k - 1), t) + t + t;
    if k > 1 {
      StepsAddUp(flows, t, k - 1);
    }
  }

  lemma StepsDrift(flows: seq<Flow>, t: real)
    requires flows != [] && WithinSteps(flows, t)
    ensures Abs(flows[|flows| - 1].after - Sum(flows)) <= Times(2 * |flows|, t)
  {
    StepsAddUp(flows, t, |flows|);
    assert flows[..|flows|] == flows;
  }

  /** After n intervals a column is off the sum of its deltas by at most 2n tolerances. */
  lemma ColumnDrift(flows: seq<Flow>, m: real)
    requires flows != [] && FlowsHold(flows) && Bounded(flows, m) && m >= 0.0
    ensures AtMost(Abs(flows[|flows| - 1].after - Sum(flows)), 2 * |flows|, Tolerance(m))
  {
    var t, off := Tolerance(m), Abs(flows[|flows| - 1].after - Sum(flows));
    StepsAreWithin(flows, m);
    StepsDrift(flows, t);
    AsProduct(off, 2 * |flows|, t);
  }

  function CostFlows(intervals: seq<Interval>): (flows: seq<Flow>)
    ensures |flows| == |intervals|
    ensures forall k :: 0 <= k < |intervals| ==>
              flows[k] == Flow(intervals[k].before.cost, intervals[k].after.cost, intervals[k].cost)
  {
    seq(|intervals|, k requires 0 <= k < |intervals| =>
      Flow(intervals[k].before.cost, intervals[k].after.cost, intervals[k].cost))
  }

  // ---- Compounding ----

  function Growth(rates: seq<real>): real {
    if rates == [] then 1.0 else Growth(rates[..|rates| - 1]) * (1.0 + rates[|rates| - 1])
  }

  /** The compounded return; None on an empty series or one that loses everything. */
  method Compound(values: seq<real>) returns (r: Result<real>)
    ensures r.Ok? <==> values != [] && forall k :: 0 <= k < |values| ==> values[k] > -1.0
    ensures r.Ok? ==> r.value == Growth(values) - 1.0
  {
    if values == [] || exists k :: 0 <= k < |values| && values[k] <= -1.0 {
      return Raised;
    }
    var growth := 1.0;
    for k := 0 to |values|
      invariant growth == Growth(values[..k])
    {
      assert values[..k + 1][..k] == values[..k];
      growth := growth * (1.0 + values[k]);
    }
    assert values[..|values|] == values;
    return Ok(growth - 1.0);
  }

  lemma {:induction false} GrowthOfConcat(a: seq<real>, b: seq<real>)
    ensures Growth(a + b) == Growth(a) * Growth(b)
  {
    if b == [] {
      assert a + b == a;
    } else {
      var front, last := b[..|b| - 1], b[|b| - 1];
      GrowthOfConcat(a, front);
      assert (a + b)[..|a + b| - 1] == a + front && (a + b)[|a + b| - 1] == last;
      Associate(Growth(a), Growth(front), 1.0 + last);
    }
  }

  lemma Associate(x: real, y: real, z: real)
    ensures (x * y) * z == x * (y * z)
  {
  }

  /** Cut points of a series into contiguous slices. */
  predicate Cuts(cuts: seq<nat>, n: nat) {
    && cuts != [] && cuts[0] == 0 && cuts[|cuts| - 1] <= n
    && forall k :: 0 < k < |cuts| ==> cuts[k - 1] < cuts[k]
  }

  function SliceGrowths(values: seq<real>, cuts: seq<nat>): seq<real>
    requires Cuts(cuts, |values|)
  {
    if |cuts| == 1 then []
    else
      var front := cuts[..|cuts| - 1];
      SliceGrowths(values, front) + [Growth(values[front[|front| - 1]..cuts[|cuts| - 1]]) - 1.0]
  }

  /** The slices' compounded returns compound to that of the whole stretch. */
  lemma {:induction false} SlicesCompound(values: seq<real>, cuts: seq<nat>)
    requires Cuts(cuts, |values|)
    ensures Growth(SliceGrowths(values, cuts)) == Growth(values[..cuts[|cuts| - 1]])
  {
    if |cuts| > 1 {
      var front := cuts[..|cuts| - 1];
      SlicesCompound(values, front);
      NextSlice(values, front[|front| - 1], cuts[|cuts| - 1], SliceGrowths(values, front));
    }
  }

  lemma NextSlice(values: seq<real>, middle: nat, last: nat, slices: seq<real>)
    requires middle <= last <= |values| && Growth(slices) == Growth(values[..middle])
    ensures Growth(slices + [Growth(values[middle..last]) - 1.0]) == Growth(values[..last])
  {
    var growth, slice := Growth(values[..middle]), Growth(values[middle..last]);
    StretchGrows(values, middle, last, growth, slice);
    OneSlice(slices, growth, slice);
  }

  lemma OneSlice(slices: seq<real>, growth: real, slice: real)
    requires growth == Growth(slices)
    ensures Growth(slices + [slice - 1.0]) == growth * slice
  {
    GrowthOne(slices, slice - 1.0, slice);
  }

  lemma StretchGrows(values: seq<real>, middle: nat, last: nat, growth: real, slice: real)
    requires middle <= last <= |values|
    requires growth == Growth(values[..middle]) && slice == Growth(values[middle..last])
    ensures Growth(values[..last]) == growth * slice
  {
    GrowthOfConcat(values[..middle], values[middle..last]);
    assert values[..middle] + values[middle..last] == values[..last];
  }

  /** What each joint gains or loses, as a rate: exactly 0 on an exact chain. */
  function JointRates(intervals: seq<Interval>): (rates: seq<real>)
    requires AllSolvent(intervals)
  {
    if |intervals| <= 1 then []
    else
      var front, last := intervals[..|intervals| - 1], intervals[|intervals| - 1];
      JointRates(front) + [JointRate(front[|front| - 1], last)]
  }

  function JointRate(previous: Interval, next: Interval): real
    requires next.before.equity > 0.0
  {
    previous.after.equity / next.before.equity - 1.0
  }

  lemma GrowthOne(rates: seq<real>, rate: real, factor: real)
    requires 1.0 + rate == factor
    ensures Growth(rates + [rate]) == Growth(rates) * factor
  {
    var all := rates + [rate];
    assert all[..|all| - 1] == rates;
  }

  /** The growth is that from first to last, times the joints' own. */
  predicate Scaled(first: real, last: real, growth: real, joints: real) {
    first > 0.0 && growth == last / first * joints
  }

  lemma ChainLink(capital: real, previous: real, before: real, after: real, growth: real, joints: real)
    requires previous > 0.0 && before > 0.0 && Scaled(capital, previous, growth, joints)
    ensures Scaled(capital, after, growth * (after / before), joints * (previous / before))
  {
    var a, b, p := after / before, previous / before, previous / capital;
    assert growth * a == p * joints * a;
    CrossRatio(capital, previous, before, after);
    Associate(p, joints, a);
    Associate(after / capital, joints, b);
    assert joints * a * p == joints * (p * a);
  }

  lemma CrossRatio(capital: real, previous: real, before: real, after: real)
    requires capital > 0.0 && before > 0.0
    ensures (previous / capital) * (after / before) == (after / capital) * (previous / before)
  {
    RatioProduct(previous, capital, after, before);
    RatioProduct(after, capital, previous, before);
  }

  lemma RatioProduct(a: real, b: real, c: real, d: real)
    requires b > 0.0 && d > 0.0
    ensures b * d > 0.0 && (a / b) * (c / d) == (a * c) / (b * d)
  {
    var x, y := a / b, c / d;
    assert a == x * b && c == y * d;
    assert a * c == (x * y) * (b * d);
  }

  ghost predicate Compounds(intervals: seq<Interval>)
    requires intervals != [] && AllSolvent(intervals)
  {
    Scaled(intervals[0].before.equity, intervals[|intervals| - 1].after.equity,
           Growth(Returns(intervals)), Growth(JointRates(intervals)))
  }

  lemma SingleRates(i: Interval)
    requires Solvent(i)
    ensures Returns([i]) == [Return(i)] && JointRates([i]) == []
  {
    assert Returns([i]) == Returns([]) + [Return(i)];
  }

  lemma SingleScaled(first: real, last: real, rate: real)
    requires first > 0.0 && rate == last / first - 1.0
    ensures Scaled(first, last, Growth([rate]), Growth([]))
  {
    GrowthOne([], rate, last / first);
    assert [] + [rate] == [rate];
  }

  lemma OneCompounds(i: Interval)
    requires Solvent(i)
    ensures Compounds([i])
  {
    SingleRates(i);
    SingleScaled(i.before.equity, i.after.equity, Return(i));
  }

  lemma RatesExtend(front: seq<Interval>, last: Interval)
    requires front != [] && AllSolvent(front) && Solvent(last)
    ensures AllSolvent(front + [last])
    ensures Returns(front + [last]) == Returns(front) + [Return(last)]
    ensures JointRates(front + [last]) == JointRates(front) + [JointRate(front[|front| - 1], last)]
  {
    var all := front + [last];
    assert all[..|all| - 1] == front && all[|all| - 1] == last;
  }

  lemma NextCompounds(front: seq<Interval>, last: Interval)
    requires front != [] && AllSolvent(front) && Solvent(last) && Compounds(front)
    ensures AllSolvent(front + [last]) && Compounds(front + [last])
  {
    var previous := front[|front| - 1];
    RatesExtend(front, last);
    NextScaled(front[0].before.equity, previous.after.equity, Returns(front), JointRates(front), last);
    assert (front + [last])[0] == front[0];
  }

  lemma NextScaled(first: real, previous: real, rates: seq<real>, joints: seq<real>, last: Interval)
    requires previous > 0.0 && Solvent(last) && Scaled(first, previous, Growth(rates), Growth(joints))
    ensures Scaled(first, last.after.equity, Growth(rates + [Return(last)]),
                   Growth(joints + [previous / last.before.equity - 1.0]))
  {
    NextRatio(rates, last.after.equity, last.before.equity, Growth(rates));
    NextRatio(joints, previous, last.before.equity, Growth(joints));
    ChainLink(first, previous, last.before.equity, last.after.equity, Growth(rates), Growth(joints));
  }

  lemma NextRatio(rates: seq<real>, after: real, before: real, growth: real)
    requires before > 0.0 && growth == Growth(rates)
    ensures Growth(rates + [after / before - 1.0]) == growth * (after / before)
  {
    var ratio := after / before;
    GrowthOne(rates, ratio - 1.0, ratio);
  }

  /** What holds of one interval and is passed on to one more holds of all lists. */
  lemma {:induction false} ByIntervals(intervals: seq<Interval>, p: seq<Interval> -> bool)
    requires intervals != [] && AllSolvent(intervals)
    requires forall i :: Solvent(i) ==> p([i])
    requires forall front, last {:trigger p(front + [last])} ::
               front != [] && AllSolvent(front) && Solvent(last) && p(front) ==> p(front + [last])
    ensures p(intervals)
  {
    var n := |intervals|;
    if n == 1 {
      assert intervals == [intervals[0]];
    } else {
      ByIntervals(intervals[..n - 1], p);
      assert intervals == intervals[..n - 1] + [intervals[n - 1]];
    }
  }

  ghost predicate CompoundsIfSolvent(intervals: seq<Interval>) {
    intervals != [] && AllSolvent(intervals) ==> Compounds(intervals)
  }

  /** The compounded return is final over initial equity, times what the joints gain or lose. */
  lemma CompoundIdentity(intervals: seq<Interval>)
    requires intervals != [] && AllSolvent(intervals)
    ensures Compounds(intervals)
  {
    var p := s => CompoundsIfSolvent(s);
    forall i | Solvent(i) ensures p([i]) {
      OneCompounds(i);
    }
    forall front, last | front != [] && AllSolvent(front) && Solvent(last) && p(front) ensures p(front + [last]) {
      NextCompounds(front, last);
    }
    ByIntervals(intervals, p);
    assert p(intervals);
  }

  /** On an exact equity chain the compounded return is final over initial equity, less one. */
  lemma ExactChainCompounds(intervals: seq<Interval>)
    requires intervals != [] && AllSolvent(intervals)
    requires forall k :: 0 < k < |intervals| ==> intervals[k].before.equity == intervals[k - 1].after.equity
    ensures Growth(Returns(intervals)) - 1.0
            == intervals[|intervals| - 1].after.equity / intervals[0].before.equity - 1.0
  {
    CompoundIdentity(intervals);
    ExactJoints(intervals);
  }

  lemma {:induction false} ExactJoints(intervals: seq<Interval>)
    requires AllSolvent(intervals)
    requires forall k :: 0 < k < |intervals| ==> intervals[k].before.equity == intervals[k - 1].after.equity
    ensures Growth(JointRates(intervals)) == 1.0
  {
    if |intervals| > 1 {
      var front, last := intervals[..|intervals| - 1], intervals[|intervals| - 1];
      ExactJoints(front);
      assert JointRate(front[|front| - 1], last) == 0.0;
      GrowthOne(JointRates(front), 0.0, 1.0);
    }
  }

  // ---- Drawdown ----

  predicate AllPositive(values: seq<real>) {
    forall k :: 0 <= k < |values| ==> values[k] > 0.0
  }

  function Peak(values: seq<real>): (p: real)
    requires values != []
  {
    if |values| == 1 then values[0] else Max(Peak(values[..|values| - 1]), values[|values| - 1])
  }

  lemma {:induction false} PeakIsHighest(values: seq<real>)
    requires values != []
    ensures Peak(values) in values && forall k :: 0 <= k < |values| ==> values[k] <= Peak(values)
  {
    if |values| > 1 {
      var front := values[..|values| - 1];
      PeakIsHighest(front);
      forall k | 0 <= k < |values| ensures values[k] <= Peak(values) {
        if k < |front| { assert front[k] <= Peak(front); }
      }
    }
  }

  /** The relative fall from one value to another. */
  function Fall(from: real, to: real): real
    requires from > 0.0
  {
    1.0 - to / from
  }

  function Drawdown(values: seq<real>): real
    requires values != [] && AllPositive(values)
  {
    if |values| == 1 then 0.0
    else
      PeakIsHighest(values);
      Max(Drawdown(values[..|values| - 1]), Fall(Peak(values), values[|values| - 1]))
  }

  /** The running-peak loop. */
  method EndpointDrawdown(values: seq<real>) returns (dd: real)
    requires values != [] && AllPositive(values)
    ensures dd == Drawdown(values)
  {
    var peak := values[0];
    dd := 0.0;
    for k := 1 to |values|
      invariant peak == Peak(values[..k]) && dd == Drawdown(values[..k])
    {
      assert values[..k + 1][..k] == values[..k];
      PeakIsHighest(values[..k + 1]);
      peak := Max(peak, values[k]);
      dd := Max(dd, 1.0 - values[k] / peak);
    }
    assert values[..|values|] == values;
  }

  lemma FallGrows(a: real, b: real, to: real)
    requires 0.0 < a <= b && to > 0.0
    ensures Fall(a, to) <= Fall(b, to)
  {
    var x, y := to / a, to / b;
    assert x * a == y * b && y > 0.0;
    assert y * a <= y * b;
    if x < y { assert x * a < y * a; }
  }

  lemma SelfRatio(x: real)
    requires x > 0.0
    ensures x / x == 1.0
  {
  }

  /** No fall from an earlier to a later value is worse than the loop's result. */
  lemma {:induction false} DrawdownBounds(values: seq<real>, i: nat, j: nat)
    requires values != [] && AllPositive(values) && i <= j < |values|
    ensures Fall(values[i], values[j]) <= Drawdown(values)
  {
    var n := |values|;
    if n == 1 {
      SelfRatio(values[0]);
    } else if j < n - 1 {
      DrawdownBounds(values[..n - 1], i, j);
    } else {
      PeakIsHighest(values);
      FallGrows(values[i], Peak(values), values[j]);
    }
  }

  /** And one of them is exactly that. */
  lemma {:induction false} DrawdownAttained(values: seq<real>) returns (i: nat, j: nat)
    requires values != [] && AllPositive(values)
    ensures i <= j < |values| && Fall(values[i], values[j]) == Drawdown(values)
  {
    var n := |values|;
    if n == 1 {
      i, j := 0, 0;
      SelfRatio(values[0]);
    } else {
      PeakIsHighest(values);
      if Drawdown(values) == Drawdown(values[..n - 1]) {
        i, j := DrawdownAttained(values[..n - 1]);
      } else {
        i :| 0 <= i < n && values[i] == Peak(values);
        j := n - 1;
      }
    }
  }

  /** The loop computes exactly the worst fall from an earlier to a later value. */
  lemma DrawdownIsWorstFall(values: seq<real>)
    requires values != [] && AllPositive(values)
    ensures forall i, j :: 0 <= i <= j < |values| ==> Fall(values[i], values[j]) <= Drawdown(values)
    ensures exists i, j :: 0 <= i <= j < |values| && Fall(values[i], values[j]) == Drawdown(values)
  {
    forall i, j | 0 <= i <= j < |values| ensures Fall(values[i], values[j]) <= Drawdown(values) {
      DrawdownBounds(values, i, j);
    }
    var i, j := DrawdownAttained(values);
    assert Fall(values[i], values[j]) == Drawdown(values);
  }

  // ---- A whole cell ----

  predicate FinalHolds(final: Account, last: Account) {
    && Close(final.drawdown, last.drawdown) && Close(final.equity, last.equity) && Close(final.cash, last.cash)
    && Close(final.cost, last.cost) && Close(final.turnover, last.turnover)
    && final.quantities == last.quantities
  }

  predicate Flat(quantities: seq<real>) {
    forall k :: 0 <= k < |quantities| ==> Abs(quantities[k]) <= REL_TOLERANCE
  }

  predicate DrawdownsHold(intervals: seq<Interval>) {
    forall k :: 0 <= k < |intervals| ==> DrawdownHolds(intervals[k])
  }

  /** The checks after the loop, on the recomputed total return and endpoint drawdown. */
  predicate TailHolds(ledger: Ledger, symbols: nat, replay: Replay, total: real, worst: real)
    requires ledger.intervals != []
  {
    && CloseWithin(total, replay.totalReturn, RETURN_TOLERANCE)
    && 0.0 <= ledger.final.drawdown <= 1.0 && ledger.final.drawdown + DRAWDOWN_SLACK >= worst
    && DrawdownsHold(ledger.intervals)
    && FinalHolds(ledger.final, ledger.intervals[|ledger.intervals| - 1].after)
    && |ledger.final.quantities| == symbols && replay.terminalFlat == Flat(ledger.final.quantities)
    && Close(replay.ledgerMaxDrawdown, ledger.final.drawdown)
    && CloseWithin(replay.maxDrawdown, worst, RETURN_TOLERANCE)
  }

  /** An accepted cell: the chain, the recomputed return and drawdown, and the final account. */
  predicate CellHolds(ledger: Ledger, ev: Evaluation, replay: Replay) {
    var items := ledger.intervals;
    && IntervalsHold(ledger, ev, replay.reported) && items != []
    && AllSolvent(items) && AllPositive(Endpoints(ev.capital, items))
    && TailHolds(ledger, ev.symbols, replay, Growth(Returns(items)) - 1.0, Drawdown(Endpoints(ev.capital, items)))
  }

  lemma {:induction false} PassedAt(ledger: Ledger, ev: Evaluation, reported: seq<real>, i: nat, k: nat)
    requires i < k <= |ledger.intervals| && Passed(ledger, ev, reported, k)
    ensures Accepts(ledger, ev, reported, i)
  {
    if i < k - 1 { PassedAt(ledger, ev, reported, i, k - 1); }
  }

  lemma PassedIsPositive(ledger: Ledger, ev: Evaluation, reported: seq<real>)
    requires ledger.intervals != [] && Passed(ledger, ev, reported, |ledger.intervals|)
    ensures AllSolvent(ledger.intervals) && AllPositive(Endpoints(ev.capital, ledger.intervals))
  {
    var items := ledger.intervals;
    forall k | 0 <= k < |items| ensures Solvent(items[k]) {
      PassedAt(ledger, ev, reported, k, |items|);
    }
    PassedAt(ledger, ev, reported, 0, |items|);
    StartsAtCapital(ledger, ev, reported);
    assert ev.capital > 0.0;
    var values := Endpoints(ev.capital, items);
    forall k | 0 <= k < |values| ensures values[k] > 0.0 {
      if k > 0 { assert Solvent(items[k - 1]); }
    }
  }

  lemma StartsAtCapital(ledger: Ledger, ev: Evaluation, reported: seq<real>)
    requires ledger.intervals != [] && Accepts(ledger, ev, reported, 0)
    ensures ledger.intervals[0].before.equity == ev.capital
  {
  }

  lemma SolventReturns(intervals: seq<Interval>)
    requires AllSolvent(intervals)
    ensures forall k :: 0 <= k < |intervals| ==> Returns(intervals)[k] > -1.0
  {
    forall k | 0 <= k < |intervals| ensures Returns(intervals)[k] > -1.0 {
      PositiveRatio(intervals[k].after.equity, intervals[k].before.equity);
    }
  }

  lemma PositiveRatio(a: real, b: real)
    requires a > 0.0 && b > 0.0
    ensures a / b > 0.0
  {
  }

  /** The checks after the interval loop. */
  method CheckTail(ledger: Ledger, symbols: nat, replay: Replay, total: real, worst: real) returns (ok: bool)
    requires ledger.intervals != []
    ensures ok <==> TailHolds(ledger, symbols, replay, total, worst)
  {
    var items, final := ledger.intervals, ledger.final;
    if !CloseWithin(total, replay.totalReturn, RETURN_TOLERANCE) {
      return false;
    }
    if final.drawdown < 0.0 || final.drawdown > 1.0 || final.drawdown + DRAWDOWN_SLACK < worst {
      return false;
    }
    for k := 0 to |items|
      invariant DrawdownsHold(items[..k])
    {
      assert items[..k + 1] == items[..k] + [items[k]];
      var before, after := items[k].before.drawdown, items[k].after.drawdown;
      if before < 0.0 || after < before || after > 1.0 {
        return false;
      }
    }
    assert items[..|items|] == items;
    var last := items[|items| - 1].after;
    if !Close(final.drawdown, last.drawdown) || !Close(final.equity, last.equity) || !Close(final.cash, last.cash)
       || !Close(final.cost, last.cost) || !Close(final.turnover, last.turnover)
    {
      return false;
    }
    if |final.quantities| != symbols {
      return false;
    }
    var flat := forall k :: 0 <= k < |final.quantities| ==> Abs(final.quantities[k]) <= REL_TOLERANCE;
    if flat != replay.terminalFlat || final.quantities != last.quantities {
      return false;
    }
    return Close(replay.ledgerMaxDrawdown, final.drawdown) && CloseWithin(replay.maxDrawdown, worst, RETURN_TOLERANCE);
  }

  /** The audit of one cell. */
  method AuditCell(ledger: Ledger, ev: Evaluation, replay: Replay) returns (ok: bool)
    ensures ok <==> CellHolds(ledger, ev, replay)
  {
    var passed, derived, endpoints := AuditIntervals(ledger, ev, replay.reported);
    if !passed || derived == [] {
      return false;
    }
    PassedIsPositive(ledger, ev, replay.reported);
    SolventReturns(ledger.intervals);
    var full := Compound(derived);
    var worst := EndpointDrawdown(endpoints);
    ok := CheckTail(ledger, ev.symbols, replay, full.value, worst);
  }

  // ---- What an accepted cell guarantees ----

  ghost predicate CostsBounded(ledger: Ledger, m: real) {
    Bounded(CostFlows(ledger.intervals), m) && Abs(ledger.final.cost) <= m && m >= 0.0
  }

  lemma CostColumnHolds(ledger: Ledger, ev: Evaluation, reported: seq<real>)
    requires Passed(ledger, ev, reported, |ledger.intervals|)
    ensures FlowsHold(CostFlows(ledger.intervals))
  {
    var flows := CostFlows(ledger.intervals);
    forall k | 0 <= k < |flows| ensures StepHolds(flows, k) {
      CostAccepted(ledger, ev, reported, k);
    }
  }

  lemma CostAccepted(ledger: Ledger, ev: Evaluation, reported: seq<real>, k: nat)
    requires k < |ledger.intervals| && Passed(ledger, ev, reported, |ledger.intervals|)
    ensures StepHolds(CostFlows(ledger.intervals), k)
  {
    PassedAt(ledger, ev, reported, k, |ledger.intervals|);
  }

  /** How far the final total cost is from the sum of the interval costs. */
  function CostGap(ledger: Ledger): real {
    Abs(ledger.final.cost - Sum(CostFlows(ledger.intervals)))
  }

  lemma TotalCostDrift(ledger: Ledger, ev: Evaluation, reported: seq<real>, m: real)
    requires Passed(ledger, ev, reported, |ledger.intervals|) && CostsBounded(ledger, m)
    requires ledger.intervals != [] && Close(ledger.final.cost, ledger.intervals[|ledger.intervals| - 1].after.cost)
    ensures CostGap(ledger) <= Times(2 * |ledger.intervals| + 1, Tolerance(m))
  {
    var flows := CostFlows(ledger.intervals);
    CostColumnHolds(ledger, ev, reported);
    StepsAreWithin(flows, m);
    StepsDrift(flows, Tolerance(m));
    CloseBound(ledger.final.cost, flows[|flows| - 1].after, m);
  }

  /** The final total cost is off the sum of the interval costs by at most 2n + 1 tolerances. */
  lemma TotalCostBound(ledger: Ledger, ev: Evaluation, replay: Replay, m: real)
    requires CellHolds(ledger, ev, replay) && CostsBounded(ledger, m)
    ensures AtMost(CostGap(ledger), 2 * |ledger.intervals| + 1, Tolerance(m))
  {
    TotalCostDrift(ledger, ev, replay.reported, m);
    AsProduct(CostGap(ledger), 2 * |ledger.intervals| + 1, Tolerance(m));
  }

  function FundingFlows(intervals: seq<Interval>): (flows: seq<Flow>)
    ensures |flows| == |intervals|
    ensures forall k :: 0 <= k < |intervals| ==>
              flows[k] == Flow(intervals[k].before.funding, intervals[k].after.funding, intervals[k].funding)
  {
    seq(|intervals|, k requires 0 <= k < |intervals| =>
      Flow(intervals[k].before.funding, intervals[k].after.funding, intervals[k].funding))
  }

  function BorrowFlows(intervals: seq<Interval>): (flows: seq<Flow>)
    ensures |flows| == |intervals|
    ensures forall k :: 0 <= k < |intervals| ==>
              flows[k] == Flow(intervals[k].before.borrow, intervals[k].after.borrow, intervals[k].borrow)
  {
    seq(|intervals|, k requires 0 <= k < |intervals| =>
      Flow(intervals[k].before.borrow, intervals[k].after.borrow, intervals[k].borrow))
  }

  lemma FundingAccepted(ledger: Ledger, ev: Evaluation, reported: seq<real>, k: nat)
    requires k < |ledger.intervals| && Passed(ledger, ev, reported, |ledger.intervals|)
    ensures StepHolds(FundingFlows(ledger.intervals), k)
  {
    PassedAt(ledger, ev, reported, k, |ledger.intervals|);
  }

  /** After n intervals of an accepted cell, the funding column is off its amounts' sum by at most 2n tolerances. */
  lemma FundingDrift(ledger: Ledger, ev: Evaluation, replay: Replay, m: real)
    requires CellHolds(ledger, ev, replay) && Bounded(FundingFlows(ledger.intervals), m) && m >= 0.0
    ensures var items := ledger.intervals;
            AtMost(Abs(items[|items| - 1].after.funding - Sum(FundingFlows(items))), 2 * |items|, Tolerance(m))
  {
    var flows := FundingFlows(ledger.intervals);
    forall k | 0 <= k < |flows| ensures StepHolds(flows, k) {
      FundingAccepted(ledger, ev, replay.reported, k);
    }
    ColumnDrift(flows, m);
  }

  lemma BorrowAccepted(ledger: Ledger, ev: Evaluation, reported: seq<real>, k: nat)
    requires k < |ledger.intervals| && Passed(ledger, ev, reported, |ledger.intervals|)
    ensures StepHolds(BorrowFlows(ledger.intervals), k)
  {
    PassedAt(ledger, ev, reported, k, |ledger.intervals|);
  }

  /** After n intervals of an accepted cell, the borrow column is off its amounts' sum by at most 2n tolerances. */
  lemma BorrowDrift(ledger: Ledger, ev: Evaluation, replay: Replay, m: real)
    requires CellHolds(ledger, ev, replay) && Bounded(BorrowFlows(ledger.intervals), m) && m >= 0.0
    ensures var items := ledger.intervals;
            AtMost(Abs(items[|items| - 1].after.borrow - Sum(BorrowFlows(items))), 2 * |items|, Tolerance(m))
  {
    var flows := BorrowFlows(ledger.intervals);
    forall k | 0 <= k < |flows| ensures StepHolds(flows, k) {
      BorrowAccepted(ledger, ev, replay.reported, k);
    }
    ColumnDrift(flows, m);
  }

  // ---- The drawdown trace ----

  /** The last traced drawdown is short of every fall in the equity path by at most b. */
  ghost predicate TraceBounds(ledger: Ledger, ev: Evaluation, b: real)
    requires ledger.intervals != [] && AllPositive(Endpoints(ev.capital, ledger.intervals))
  {
    var values := Endpoints(ev.capital, ledger.intervals);
    forall i, j :: 0 <= i <= j < |values| ==>
      Fall(values[i], values[j]) <= ledger.intervals[|ledger.intervals| - 1].after.drawdown + b
  }

  /** It is so for every ledger the audit accepts under this protocol. */
  ghost predicate AlwaysBounds(ev: Evaluation, b: real) {
    forall ledger, replay :: CellHolds(ledger, ev, replay) ==> TraceBounds(ledger, ev, b)
  }

  lemma TraceBoundsFalls(ledger: Ledger, ev: Evaluation, replay: Replay, b: real)
    requires CellHolds(ledger, ev, replay) && b >= ABS_TOLERANCE + DRAWDOWN_SLACK
    ensures TraceBounds(ledger, ev, b)
  {
    var values, n := Endpoints(ev.capital, ledger.intervals), |ledger.intervals|;
    assert DrawdownHolds(ledger.intervals[n - 1]);
    CloseBound(ledger.final.drawdown, ledger.intervals[n - 1].after.drawdown, 1.0);
    forall i, j | 0 <= i <= j < |values|
      ensures Fall(values[i], values[j]) <= ledger.intervals[n - 1].after.drawdown + b
    {
      DrawdownBounds(values, i, j);
    }
  }
}
