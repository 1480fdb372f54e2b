/**
 The code-map check of the human guide: nodes with unique ids, edges between
 known nodes with a permitted relation, and no directed cycle.
 */
module CodeMap {
  import opened Sequences

  datatype Edge = Edge(source: string, target: string, relation: string)

  datatype Verdict =
    | Accepted
    | NoNodes
    | DuplicateNode
    | UnknownReference(at: nat)
    | ForbiddenRelation(at: nat)
    | Cyclic

  const ALLOWED_RELATIONS := {"data-flow", "calls"}

  // ---- What a cycle is, independently of the algorithm ----

  ghost predicate Joined(edges: seq<Edge>, a: string, b: string) {
    exists e :: e in edges && e.source == a && e.target == b
  }

  /** Consecutive entries of the walk are joined by an edge. */
  ghost predicate Walk(edges: seq<Edge>, w: seq<string>) {
    |w| >= 1 && forall i :: 0 <= i < |w| - 1 ==> Joined(edges, w[i], w[i + 1])
  }

  /** A closed walk of at least one edge; self-loops are cycles of one edge. */
  ghost predicate Cycle(edges: seq<Edge>, w: seq<string>) {
    |w| >= 2 && Walk(edges, w) && w[0] == w[|w| - 1]
  }

  ghost predicate HasCycle(edges: seq<Edge>) {
    exists w :: Cycle(edges, w)
  }

  ghost predicate EdgeOk(nodeIds: seq<string>, e: Edge) {
    e.source in nodeIds && e.target in nodeIds && e.relation in ALLOWED_RELATIONS
  }

  ghost predicate FirstBadEdge(nodeIds: seq<string>, edges: seq<Edge>, at: nat) {
    at < |edges| && !EdgeOk(nodeIds, edges[at])
    && forall k :: 0 <= k < at ==> EdgeOk(nodeIds, edges[k])
  }

  // ---- Counting the edges that still block a node ----

  /** Edges into v whose source has not been taken off the queue yet. */
  function Blocking(edges: seq<Edge>, taken: set<string>, v: string): nat {
    if edges == [] then 0
    else
      var last := edges[|edges| - 1];
      Blocking(edges[..|edges| - 1], taken, v)
      + (if last.target == v && last.source !in taken then 1 else 0)
  }

  function Targets(edges: seq<Edge>, n: string): seq<string> {
    if edges == [] then []
    else
      var last := edges[|edges| - 1];
      Targets(edges[..|edges| - 1], n) + (if last.source == n then [last.target] else [])
  }

  function Occurrences(s: seq<string>, v: string): nat {
    multiset(s)[v]
  }

  /** Taking n off the queue frees v once for every parallel edge from n to v. */
  lemma {:induction false} TakingFrees(edges: seq<Edge>, taken: set<string>, n: string, v: string)
    requires n !in taken
    ensures Blocking(edges, taken, v)
         == Blocking(edges, taken + {n}, v) + Occurrences(Targets(edges, n), v)
  {
    if edges != [] {
      TakingFrees(edges[..|edges| - 1], taken, n, v);
    }
  }

  lemma {:induction false} BlockingEdge(edges: seq<Edge>, taken: set<string>, v: string)
    ensures Blocking(edges, taken, v) > 0
       <==> exists e :: e in edges && e.target == v && e.source !in taken
  {
    if edges != [] {
      var front, last := edges[..|edges| - 1], edges[|edges| - 1];
      BlockingEdge(front, taken, v);
      assert edges == front + [last];
      if Blocking(edges, taken, v) > 0 && !(last.target == v && last.source !in taken) {
        var e :| e in front && e.target == v && e.source !in taken;
        assert e in edges;
      }
    }
  }

  lemma {:induction false} TargetsAreJoined(edges: seq<Edge>, n: string, v: string)
    ensures v in Targets(edges, n) <==> Joined(edges, n, v)
  {
    if edges != [] {
      var front, last := edges[..|edges| - 1], edges[|edges| - 1];
      TargetsAreJoined(front, n, v);
      assert edges == front + [last];
      if Joined(edges, n, v) && !(last.source == n && last.target == v) {
        var e :| e in edges && e.source == n && e.target == v;
        assert e in front;
      }
      if Joined(front, n, v) {
        var e :| e in front && e.source == n && e.target == v;
        assert e in edges;
      }
    }
  }

  // ---- An order that respects every edge rules cycles out ----

  /** Nothing blocks an entry once the entries before it are taken. */
  ghost predicate RespectsEdges(edges: seq<Edge>, order: seq<string>) {
    forall j :: 0 <= j < |order| ==> Blocking(edges, Elements(order[..j]), order[j]) == 0
  }

  ghost function Rank(order: seq<string>, v: string): nat
    requires v in order
    ensures Rank(order, v) < |order| && order[Rank(order, v)] == v
  {
    var i :| 0 <= i < |order| && order[i] == v;
    i
  }

  lemma EdgeClimbs(edges: seq<Edge>, order: seq<string>, a: string, b: string)
    requires RespectsEdges(edges, order) && Distinct(order)
    requires Joined(edges, a, b) && a in order && b in order
    ensures Rank(order, a) < Rank(order, b)
  {
    var before := order[..Rank(order, b)];
    BlockingEdge(edges, Elements(before), b);
    assert a in before;
    var k :| 0 <= k < |before| && before[k] == a;
    assert order[k] == order[Rank(order, a)];
  }

  lemma {:induction false} WalkClimbs(edges: seq<Edge>, order: seq<string>, w: seq<string>)
    requires RespectsEdges(edges, order) && Distinct(order)
    requires Walk(edges, w) && forall x :: x in w ==> x in order
    ensures Rank(order, w[|w| - 1]) >= Rank(order, w[0]) + |w| - 1
  {
    if |w| > 1 {
      SubWalk(edges, w, 0, |w| - 2);
      assert w[..|w| - 1] == w[0..|w| - 1];
      WalkClimbs(edges, order, w[..|w| - 1]);
      assert Joined(edges, w[|w| - 2], w[|w| - 2 + 1]);
      EdgeClimbs(edges, order, w[|w| - 2], w[|w| - 1]);
    }
  }

  lemma OrderedIsAcyclic(edges: seq<Edge>, order: seq<string>)
    requires RespectsEdges(edges, order) && Distinct(order)
    requires forall e :: e in edges ==> e.source in order && e.target in order
    ensures !HasCycle(edges)
  {
    if w :| Cycle(edges, w) {
      forall i | 0 <= i < |w| ensures w[i] in order {
        var k := if i < |w| - 1 then i else 0;
        assert Joined(edges, w[k], w[k + 1]);
        var e :| e in edges && e.source == w[k] && e.target == w[k + 1];
      }
      WalkClimbs(edges, order, w);
    }
  }

  // ---- A set in which every node is blocked from inside contains a cycle ----

  ghost predicate BlockedWithin(edges: seq<Edge>, stuck: set<string>, v: string) {
    exists u :: u in stuck && Joined(edges, u, v)
  }

  ghost predicate AllBlocked(edges: seq<Edge>, stuck: set<string>) {
    forall v {:trigger BlockedWithin(edges, stuck, v)} :: v in stuck ==> BlockedWithin(edges, stuck, v)
  }

  lemma ConsWalk(edges: seq<Edge>, u: string, tail: seq<string>)
    requires Walk(edges, tail) && Joined(edges, u, tail[0])
    ensures Walk(edges, [u] + tail)
  {
    var w := [u] + tail;
    forall i | 0 <= i < |w| - 1 ensures Joined(edges, w[i], w[i + 1]) {
      if i > 0 {
        assert w[i] == tail[i - 1] && w[i + 1] == tail[i];
        assert Joined(edges, tail[i - 1], tail[i - 1 + 1]);
      }
    }
  }

  lemma SubWalk(edges: seq<Edge>, w: seq<string>, i: nat, j: nat)
    requires Walk(edges, w) && i <= j < |w|
    ensures Walk(edges, w[i..j + 1])
  {
    var part := w[i..j + 1];
    forall k | 0 <= k < |part| - 1 ensures Joined(edges, part[k], part[k + 1]) {
      assert Joined(edges, w[i + k], w[i + k + 1]);
    }
  }

  lemma {:induction false} WalkBackwards(edges: seq<Edge>, stuck: set<string>, n: nat) returns (w: seq<string>)
    requires stuck != {} && AllBlocked(edges, stuck)
    ensures |w| == n + 1 && Walk(edges, w) && forall x :: x in w ==> x in stuck
  {
    if n == 0 {
      var v :| v in stuck;
      w := [v];
    } else {
      var tail := WalkBackwards(edges, stuck, n - 1);
      assert tail[0] in stuck && BlockedWithin(edges, stuck, tail[0]);
      var u :| u in stuck && Joined(edges, u, tail[0]);
      w := [u] + tail;
      ConsWalk(edges, u, tail);
    }
  }

  lemma StuckHasCycle(edges: seq<Edge>, stuck: set<string>)
    requires stuck != {} && AllBlocked(edges, stuck)
    ensures HasCycle(edges)
  {
    var w := WalkBackwards(edges, stuck, |stuck|);
    Pigeonhole(w, stuck);
    var i, j :| 0 <= i < j < |w| && w[i] == w[j];
    SubWalk(edges, w, i, j);
    assert Cycle(edges, w[i..j + 1]);
  }

  // ---- The check itself ----

  /**
   `order` lists the nodes already popped; among the others, exactly those that
   nothing blocks are on the ready queue.
   */
  ghost predicate QueueInvariant(
    nodeIds: seq<string>, edges: seq<Edge>, order: seq<string>, ready: seq<string>)
  {
    && Distinct(order) && Distinct(ready)
    && RespectsEdges(edges, order)
    && (forall v :: v in order ==> v in nodeIds && v !in ready)
    && (forall v :: v in ready ==> v in nodeIds)
    && (forall v :: v in order ==> Blocking(edges, Elements(order), v) == 0)
    && (forall v :: v in nodeIds && v !in order ==>
          (v in ready <==> Blocking(edges, Elements(order), v) == 0))
  }

  method ValidateCodeMap(nodeIds: seq<string>, edges: seq<Edge>) returns (verdict: Verdict)
    ensures verdict.NoNodes? <==> nodeIds == []
    ensures verdict.DuplicateNode? <==> nodeIds != [] && !Distinct(nodeIds)
    ensures verdict.UnknownReference? || verdict.ForbiddenRelation? ==>
              FirstBadEdge(nodeIds, edges, verdict.at)
    ensures verdict.UnknownReference? ==>
              !(edges[verdict.at].source in nodeIds && edges[verdict.at].target in nodeIds)
    ensures verdict.ForbiddenRelation? ==>
              edges[verdict.at].source in nodeIds && edges[verdict.at].target in nodeIds
    ensures verdict == Cyclic ==> HasCycle(edges)
    ensures verdict == Accepted <==>
              nodeIds != [] && Distinct(nodeIds) && (forall e :: e in edges ==> EdgeOk(nodeIds, e))
              && !HasCycle(edges)
  {
    if nodeIds == [] {
      return NoNodes;
    }
    DistinctIffSize(nodeIds);
    if |Elements(nodeIds)| != |nodeIds| {
      return DuplicateNode;
    }
    var indegree, outgoing;
    verdict, indegree, outgoing := CountDegrees(nodeIds, edges);
    if verdict == Accepted {
      verdict := DrainReadyQueue(nodeIds, edges, indegree, outgoing);
    }
  }

  /** The edge loop: reject the first bad edge, or fill both tables. */
  method CountDegrees(nodeIds: seq<string>, edges: seq<Edge>)
    returns (verdict: Verdict, indegree: map<string, int>, outgoing: map<string, seq<string>>)
    ensures verdict.Accepted? || verdict.UnknownReference? || verdict.ForbiddenRelation?
    ensures verdict.UnknownReference? || verdict.ForbiddenRelation? ==> FirstBadEdge(nodeIds, edges, verdict.at)
    ensures verdict.UnknownReference? ==>
              !(edges[verdict.at].source in nodeIds && edges[verdict.at].target in nodeIds)
    ensures verdict.ForbiddenRelation? ==>
              edges[verdict.at].source in nodeIds && edges[verdict.at].target in nodeIds
    ensures verdict == Accepted ==> Tables(nodeIds, edges, {}, indegree, outgoing)
  {
    indegree := map v | v in nodeIds :: 0;
    outgoing := map v | v in nodeIds :: [];
    for i := 0 to |edges|
      invariant Tables(nodeIds, edges[..i], {}, indegree, outgoing)
    {
      var e := edges[i];
      AllBefore(nodeIds, edges, i);
      if e.source !in nodeIds || e.target !in nodeIds {
        return UnknownReference(i), indegree, outgoing;
      }
      if e.relation !in ALLOWED_RELATIONS {
        return ForbiddenRelation(i), indegree, outgoing;
      }
      CountOneEdge(nodeIds, edges[..i], e, indegree, outgoing);
      assert edges[..i + 1] == edges[..i] + [e];
      outgoing := outgoing[e.source := outgoing[e.source] + [e.target]];
      indegree := indegree[e.target := indegree[e.target] + 1];
    }
    assert edges[..|edges|] == edges;
    verdict := Accepted;
  }

  lemma AllBefore(nodeIds: seq<string>, edges: seq<Edge>, i: nat)
    requires i <= |edges| && forall e :: e in edges[..i] ==> EdgeOk(nodeIds, e)
    ensures forall k :: 0 <= k < i ==> EdgeOk(nodeIds, edges[k])
  {
    forall k | 0 <= k < i ensures EdgeOk(nodeIds, edges[k]) {
      assert edges[..i][k] in edges[..i];
    }
  }

  lemma CountOneEdge(
    nodeIds: seq<string>, edges: seq<Edge>, e: Edge,
    indegree: map<string, int>, outgoing: map<string, seq<string>>)
    requires Tables(nodeIds, edges, {}, indegree, outgoing) && EdgeOk(nodeIds, e)
    ensures Tables(nodeIds, edges + [e], {},
                   indegree[e.target := indegree[e.target] + 1],
                   outgoing[e.source := outgoing[e.source] + [e.target]])
  {
    assert (edges + [e])[..|edges|] == edges;
    assert e.source in Elements(nodeIds) && e.target in Elements(nodeIds);
    forall v | v in nodeIds
      ensures Blocking(edges + [e], {}, v) == Blocking(edges, {}, v) + (if v == e.target then 1 else 0)
      ensures Targets(edges + [e], v) == Targets(edges, v) + (if v == e.source then [e.target] else [])
    {
    }
  }

  lemma DistinctIffSize<T>(s: seq<T>)
    ensures |Elements(s)| == |s| <==> Distinct(s)
  {
    if Distinct(s) {
      DistinctSize(s);
    } else {
      var i, j :| 0 <= i < j < |s| && s[i] == s[j];
      var rest := s[..j] + s[j + 1..];
      assert Elements(s) == Elements(rest) by {
        forall x | x in s ensures x in rest {
          var k :| 0 <= k < |s| && s[k] == x;
          if k < j { assert rest[k] == x; }
          else if k > j { assert rest[k - 1] == x; }
          else { assert rest[i] == x; }
        }
      }
      SizeAtMost(rest);
    }
  }

  lemma {:induction false} SizeAtMost<T>(s: seq<T>)
    ensures |Elements(s)| <= |s|
  {
    if |s| > 0 {
      var front := s[..|s| - 1];
      SizeAtMost(front);
      assert Elements(s) == Elements(front) + {s[|s| - 1]};
    }
  }

  /** Initial ready queue: the nodes with in-degree 0, in listing order. */
  function Unblocked(nodeIds: seq<string>, indegree: map<string, int>): seq<string>
    requires forall v :: v in nodeIds ==> v in indegree
  {
    if nodeIds == [] then []
    else
      var front := nodeIds[..|nodeIds| - 1];
      var v := nodeIds[|nodeIds| - 1];
      Unblocked(front, indegree) + (if indegree[v] == 0 then [v] else [])
  }

  lemma {:induction false} UnblockedSelects(nodeIds: seq<string>, indegree: map<string, int>)
    requires forall v :: v in nodeIds ==> v in indegree
    requires Distinct(nodeIds)
    ensures Distinct(Unblocked(nodeIds, indegree))
    ensures forall v :: v in Unblocked(nodeIds, indegree) <==> v in nodeIds && indegree[v] == 0
  {
    if nodeIds != [] {
      var front := nodeIds[..|nodeIds| - 1];
      UnblockedSelects(front, indegree);
      assert nodeIds == front + [nodeIds[|nodeIds| - 1]];
    }
  }

  /** After the targets `done` have been debited, `freed` lists those that reached 0. */
  ghost predicate Released(
    indegree0: map<string, int>, indegree: map<string, int>, done: seq<string>, freed: seq<string>)
  {
    && indegree.Keys == indegree0.Keys
    && (forall v :: v in indegree0 ==> indegree[v] == indegree0[v] - Occurrences(done, v))
    && Distinct(freed)
    && (forall v :: v in freed <==> v in done && v in indegree && indegree[v] == 0)
  }

  lemma ReleaseOne(
    indegree0: map<string, int>, indegree: map<string, int>, done: seq<string>, freed: seq<string>, target: string)
    requires Released(indegree0, indegree, done, freed)
    requires target in indegree0 && indegree0[target] >= Occurrences(done + [target], target)
    ensures var next := indegree[target] - 1;
            Released(indegree0, indegree[target := next], done + [target],
                     if next == 0 then freed + [target] else freed)
  {
    var next := indegree[target] - 1;
    assert target !in freed;
    DistinctConcat(freed, [target]);
    forall v | v in done ensures v in done + [target] {}
  }

  /** The loop over one popped node's outgoing edges: decrement, and enqueue what reaches 0. */
  method ReleaseTargets(indegree0: map<string, int>, ready0: seq<string>, targets: seq<string>)
    returns (indegree: map<string, int>, ready: seq<string>, ghost freed: seq<string>)
    requires forall v :: v in targets ==> v in indegree0
    requires forall v :: v in indegree0 ==> indegree0[v] >= Occurrences(targets, v)
    ensures Released(indegree0, indegree, targets, freed)
    ensures ready == ready0 + freed
  {
    indegree, ready, freed := indegree0, ready0, [];
    for k := 0 to |targets|
      invariant Released(indegree0, indegree, targets[..k], freed)
      invariant ready == ready0 + freed
    {
      var target := targets[k];
      assert targets[..k + 1] == targets[..k] + [target];
      assert targets == targets[..k + 1] + targets[k + 1..];
      ReleaseOne(indegree0, indegree, targets[..k], freed, target);
      indegree := indegree[target := indegree[target] - 1];
      if indegree[target] == 0 {
        ready := ready + [target];
        freed := freed + [target];
      }
    }
    assert targets[..|targets|] == targets;
  }

  /** What one pop establishes for the longer order and the new ready queue. */
  lemma PopKeepsInvariant(
    nodeIds: seq<string>, edges: seq<Edge>, order: seq<string>, node: string,
    rest: seq<string>, freed: seq<string>)
    requires forall e :: e in edges ==> EdgeOk(nodeIds, e)
    requires QueueInvariant(nodeIds, edges, order, [node] + rest)
    requires Distinct(freed)
    requires forall v :: v in freed <==>
               v in Targets(edges, node) && Blocking(edges, Elements(order) + {node}, v) == 0
    ensures QueueInvariant(nodeIds, edges, order + [node], rest + freed)
    ensures Elements(order + [node]) == Elements(order) + {node}
    ensures |order| < |nodeIds|
  {
    var longer, queue := order + [node], rest + freed;
    var taken := Elements(order);
    RestOfQueue(node, rest);
    assert node == ([node] + rest)[0];
    assert Elements(longer) == taken + {node};
    FreedIsFresh(nodeIds, edges, order, node, rest, freed);
    DistinctConcat(order, [node]);
    OrderFits(nodeIds, order + [node]);
    DistinctConcat(rest, freed);
    StillRespects(edges, order, node);
    forall v | v in nodeIds ensures Blocking(edges, taken, v) >= Blocking(edges, taken + {node}, v) {
      TakingFrees(edges, taken, node, v);
    }
    QueueIsExact(nodeIds, edges, order, node, rest, freed);
  }

  lemma FreedIsFresh(
    nodeIds: seq<string>, edges: seq<Edge>, order: seq<string>, node: string,
    rest: seq<string>, freed: seq<string>)
    requires forall e :: e in edges ==> EdgeOk(nodeIds, e)
    requires node !in order
    requires forall v :: v in order ==> Blocking(edges, Elements(order), v) == 0
    requires Blocking(edges, Elements(order), node) == 0
    requires forall v :: v in rest ==> Blocking(edges, Elements(order), v) == 0
    requires forall v :: v in freed ==> v in Targets(edges, node)
    ensures forall v :: v in freed ==> v !in order && v != node && v !in rest && v in nodeIds
  {
    forall v | v in freed ensures v !in order && v != node && v !in rest && v in nodeIds {
      TakingFrees(edges, Elements(order), node, v);
      assert Blocking(edges, Elements(order), v) > 0;
      TargetsAreJoined(edges, node, v);
      var e :| e in edges && e.source == node && e.target == v;
      assert EdgeOk(nodeIds, e);
    }
  }

  lemma StillRespects(edges: seq<Edge>, order: seq<string>, node: string)
    requires RespectsEdges(edges, order) && Blocking(edges, Elements(order), node) == 0
    ensures RespectsEdges(edges, order + [node])
  {
    var longer := order + [node];
    forall j | 0 <= j < |longer| ensures Blocking(edges, Elements(longer[..j]), longer[j]) == 0 {
      assert longer[..j] == order[..j];
      if j == |order| { assert order[..j] == order; }
    }
  }

  lemma RestOfQueue(node: string, rest: seq<string>)
    requires Distinct([node] + rest)
    ensures Distinct(rest) && node !in rest
    ensures forall v :: v in rest ==> v in [node] + rest
  {
    var queue := [node] + rest;
    forall k | 0 <= k < |rest| ensures rest[k] != node {
      assert queue[0] != queue[k + 1];
    }
    forall i, j | 0 <= i < j < |rest| ensures rest[i] != rest[j] {
      assert queue[i + 1] != queue[j + 1];
    }
  }

  /** The debit of one pop, for every node, in terms of what still blocks it. */
  lemma OutgoingDebit(
    nodeIds: seq<string>, edges: seq<Edge>, taken: set<string>, node: string, indegree: map<string, int>)
    requires node !in taken && indegree.Keys == Elements(nodeIds)
    requires forall e :: e in edges ==> EdgeOk(nodeIds, e)
    requires forall v :: v in indegree ==> indegree[v] == Blocking(edges, taken, v)
    ensures forall v :: v in Targets(edges, node) ==> v in indegree
    ensures forall v :: v in indegree ==>
              indegree[v] - Occurrences(Targets(edges, node), v) == Blocking(edges, taken + {node}, v)
  {
    forall v | v in nodeIds
      ensures indegree[v] == Blocking(edges, taken + {node}, v) + Occurrences(Targets(edges, node), v)
    {
      TakingFrees(edges, taken, node, v);
    }
    forall v | v in Targets(edges, node) ensures v in nodeIds {
      TargetsAreJoined(edges, node, v);
    }
  }

  lemma QueueIsExact(
    nodeIds: seq<string>, edges: seq<Edge>, order: seq<string>, node: string,
    rest: seq<string>, freed: seq<string>)
    requires node !in order
    requires forall v :: v in nodeIds && v !in order ==>
               (v in [node] + rest <==> Blocking(edges, Elements(order), v) == 0)
    requires forall v :: v in freed <==>
               v in Targets(edges, node) && Blocking(edges, Elements(order) + {node}, v) == 0
    ensures forall v :: v in nodeIds && v !in order && v != node ==>
              (v in rest + freed <==> Blocking(edges, Elements(order) + {node}, v) == 0)
  {
    forall v | v in nodeIds && v !in order && v != node
      ensures v in rest + freed <==> Blocking(edges, Elements(order) + {node}, v) == 0
    {
      TakingFrees(edges, Elements(order), node, v);
      assert v in [node] + rest <==> v in rest;
    }
  }

  lemma InitialQueue(nodeIds: seq<string>, edges: seq<Edge>, indegree: map<string, int>)
    requires Distinct(nodeIds) && indegree.Keys == Elements(nodeIds)
    requires forall v :: v in indegree ==> indegree[v] == Blocking(edges, {}, v)
    ensures QueueInvariant(nodeIds, edges, [], Unblocked(nodeIds, indegree))
    ensures Elements<string>([]) == {}
  {
    UnblockedSelects(nodeIds, indegree);
    assert Elements<string>([]) == {};
  }

  /** The two tables, as the loop over the edges leaves them and the pops keep them. */
  ghost predicate Tables(
    nodeIds: seq<string>, edges: seq<Edge>, taken: set<string>,
    indegree: map<string, int>, outgoing: map<string, seq<string>>)
  {
    && (forall e :: e in edges ==> EdgeOk(nodeIds, e))
    && indegree.Keys == outgoing.Keys == Elements(nodeIds)
    && (forall v :: v in indegree ==> indegree[v] == Blocking(edges, taken, v))
    && (forall v :: v in outgoing ==> outgoing[v] == Targets(edges, v))
  }

  /** One round of the queue loop: take the first ready node off and release its targets. */
  method PopReady(
    ghost nodeIds: seq<string>, ghost edges: seq<Edge>, ghost order: seq<string>,
    ready0: seq<string>, indegree0: map<string, int>, outgoing: map<string, seq<string>>)
    returns (ready: seq<string>, indegree: map<string, int>)
    requires Tables(nodeIds, edges, Elements(order), indegree0, outgoing)
    requires QueueInvariant(nodeIds, edges, order, ready0) && ready0 != []
    ensures QueueInvariant(nodeIds, edges, order + [ready0[0]], ready)
    ensures Tables(nodeIds, edges, Elements(order + [ready0[0]]), indegree, outgoing)
    ensures |order| < |nodeIds|
  {
    var node := ready0[0];
    ghost var rest := ready0[1..];
    assert ready0 == [node] + rest;
    OutgoingDebit(nodeIds, edges, Elements(order), node, indegree0);
    ghost var freed;
    indegree, ready, freed := ReleaseTargets(indegree0, ready0[1..], outgoing[node]);
    PopKeepsInvariant(nodeIds, edges, order, node, rest, freed);
  }

  method DrainReadyQueue(
    nodeIds: seq<string>, ghost edges: seq<Edge>, indegree0: map<string, int>, outgoing: map<string, seq<string>>)
    returns (verdict: Verdict)
    requires nodeIds != [] && Distinct(nodeIds)
    requires Tables(nodeIds, edges, {}, indegree0, outgoing)
    ensures verdict == if HasCycle(edges) then Cyclic else Accepted
  {
    var indegree := indegree0;
    var ready := Unblocked(nodeIds, indegree);
    InitialQueue(nodeIds, edges, indegree);
    var visited := 0;
    ghost var order: seq<string> := [];
    while ready != []
      invariant Tables(nodeIds, edges, Elements(order), indegree, outgoing)
      invariant QueueInvariant(nodeIds, edges, order, ready)
      invariant visited == |order|
      decreases |nodeIds| - |order|
    {
      ghost var node := ready[0];
      ready, indegree := PopReady(nodeIds, edges, order, ready, indegree, outgoing);
      visited := visited + 1;
      order := order + [node];
    }
    Conclude(nodeIds, edges, order);
    if visited != |nodeIds| {
      return Cyclic;
    }
    return Accepted;
  }

  lemma OrderFits(nodeIds: seq<string>, order: seq<string>)
    requires Distinct(order)
    requires forall v :: v in order ==> v in nodeIds
    ensures |order| <= |nodeIds|
    ensures |order| == |nodeIds| ==> Elements(order) == Elements(nodeIds)
  {
    DistinctSize(order);
    SizeAtMost(nodeIds);
    SubsetSize(Elements(order), Elements(nodeIds));
  }

  /** When the queue runs dry, the count of visited nodes decides acyclicity. */
  lemma Conclude(nodeIds: seq<string>, edges: seq<Edge>, order: seq<string>)
    requires Distinct(nodeIds) && forall e :: e in edges ==> EdgeOk(nodeIds, e)
    requires QueueInvariant(nodeIds, edges, order, [])
    ensures |order| == |nodeIds| <==> !HasCycle(edges)
  {
    OrderFits(nodeIds, order);
    var stuck := Elements(nodeIds) - Elements(order);
    if stuck == {} {
      DistinctSize(nodeIds);
      DistinctSize(order);
      assert Elements(order) == Elements(nodeIds) by {
        forall v | v in nodeIds ensures v in order { assert v !in stuck && v in Elements(nodeIds); }
      }
      forall e | e in edges ensures e.source in order && e.target in order {
        assert EdgeOk(nodeIds, e);
        assert e.source in Elements(nodeIds) && e.target in Elements(nodeIds);
      }
      OrderedIsAcyclic(edges, order);
    } else {
      forall v | v in stuck ensures BlockedWithin(edges, stuck, v) {
        BlockingEdge(edges, Elements(order), v);
        var e :| e in edges && e.target == v && e.source !in Elements(order);
        assert e.source in stuck && Joined(edges, e.source, v);
      }
      StuckHasCycle(edges, stuck);
    }
  }
}
