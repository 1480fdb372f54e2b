/**
 Reachability in a finite graph, and the step that a depth-first search with an
 immutable visited set per path takes.
 */
module PathSearch {

  /** A node that is no key has no successors. */
  type Graph<!N(==)> = map<N, set<N>>

  function Succ<N>(g: Graph<N>, n: N): set<N> {
    if n in g then g[n] else {}
  }

  /** Consecutive nodes are joined, and no node of the path is to be avoided. */
  ghost predicate Path<N>(g: Graph<N>, avoid: set<N>, p: seq<N>) {
    && |p| >= 1
    && (forall i :: 0 <= i < |p| ==> p[i] !in avoid)
    && (forall i :: 0 <= i < |p| - 1 ==> p[i + 1] in Succ(g, p[i]))
  }

  ghost predicate Joins<N>(g: Graph<N>, avoid: set<N>, a: N, b: N, p: seq<N>) {
    Path(g, avoid, p) && p[0] == a && p[|p| - 1] == b
  }

  ghost predicate Reach<N(!new)>(g: Graph<N>, avoid: set<N>, a: N, b: N) {
    exists p :: Joins(g, avoid, a, b, p)
  }

  lemma {:induction false} LeaveForGood<N(!new)>(g: Graph<N>, avoid: set<N>, a: N, b: N, p: seq<N>)
    requires Joins(g, avoid, a, b, p) && a != b
    ensures exists s :: s in Succ(g, a) && Reach(g, avoid + {a}, s, b)
    decreases |p|
  {
    if j :| 0 < j < |p| && p[j] == a {
      assert Joins(g, avoid, a, b, p[j..]) by {
        forall i | 0 <= i < |p[j..]| - 1 ensures p[j..][i + 1] in Succ(g, p[j..][i]) {
          assert p[j + i + 1] in Succ(g, p[j + i]);
        }
      }
      LeaveForGood(g, avoid, a, b, p[j..]);
    } else {
      var rest := p[1..];
      forall i | 0 <= i < |rest| - 1 ensures rest[i + 1] in Succ(g, rest[i]) {
        assert p[1 + i + 1] in Succ(g, p[1 + i]);
      }
      assert p[0 + 1] in Succ(g, p[0]);
      assert Joins(g, avoid + {a}, rest[0], b, rest);
    }
  }

  lemma Prepend<N(!new)>(g: Graph<N>, avoid: set<N>, a: N, s: N, b: N)
    requires a !in avoid && s in Succ(g, a) && Reach(g, avoid + {a}, s, b)
    ensures Reach(g, avoid, a, b)
  {
    var p :| Joins(g, avoid + {a}, s, b, p);
    var q := [a] + p;
    forall i | 0 <= i < |q| - 1 ensures q[i + 1] in Succ(g, q[i]) {
      if i > 0 { assert p[i - 1 + 1] in Succ(g, p[i - 1]); }
    }
    forall i | 0 <= i < |q| ensures q[i] !in avoid {
      if i > 0 { assert p[i - 1] !in avoid + {a}; }
    }
    assert Joins(g, avoid, a, b, q);
  }

  /** Where a path can end, besides its own start. */
  function Ends<N>(g: Graph<N>): set<N> {
    set n, m | n in g && m in g[n] :: m
  }

  ghost function Reached<N(!new)>(g: Graph<N>, avoid: set<N>, start: N): set<N> {
    set m | m in Ends(g) + {start} && Reach(g, avoid, start, m)
  }

  ghost function ReachedFrom<N(!new)>(g: Graph<N>, avoid: set<N>, starts: set<N>): set<N> {
    set s, m | s in starts && m in Reached(g, avoid, s) :: m
  }

  lemma ReachedExactly<N(!new)>(g: Graph<N>, avoid: set<N>, start: N, m: N)
    ensures m in Reached(g, avoid, start) <==> Reach(g, avoid, start, m)
  {
    if Reach(g, avoid, start, m) {
      var p :| Joins(g, avoid, start, m, p);
      if |p| > 1 {
        assert p[|p| - 2 + 1] in Succ(g, p[|p| - 2]);
      }
    }
  }

  lemma ReachedNothing<N(!new)>(g: Graph<N>, avoid: set<N>, start: N)
    requires start in avoid
    ensures Reached(g, avoid, start) == {}
  {
    forall m, p ensures !Joins(g, avoid, start, m, p) {
      assert Path(g, avoid, p) ==> p[0] !in avoid;
    }
  }

  /**
   The recursion of the search: what a node reaches is itself and whatever its
   successors reach without coming back to it.
   */
  lemma ReachedStep<N(!new)>(g: Graph<N>, avoid: set<N>, start: N)
    requires start !in avoid
    ensures Reached(g, avoid, start) == {start} + ReachedFrom(g, avoid + {start}, Succ(g, start))
  {
    var here, there := Reached(g, avoid, start), ReachedFrom(g, avoid + {start}, Succ(g, start));
    forall m ensures m in here <==> m in {start} + there {
      ReachedExactly(g, avoid, start, m);
      if m == start {
        assert Joins(g, avoid, start, start, [start]);
      } else if m in here {
        var p :| Joins(g, avoid, start, m, p);
        LeaveForGood(g, avoid, start, m, p);
        var s :| s in Succ(g, start) && Reach(g, avoid + {start}, s, m);
        ReachedExactly(g, avoid + {start}, s, m);
      } else if m in there {
        var s :| s in Succ(g, start) && m in Reached(g, avoid + {start}, s);
        ReachedExactly(g, avoid + {start}, s, m);
        Prepend(g, avoid, start, s, m);
      }
    }
  }

  lemma ReachedFromOne<N(!new)>(g: Graph<N>, avoid: set<N>, starts: set<N>, s: N)
    ensures ReachedFrom(g, avoid, starts + {s}) == ReachedFrom(g, avoid, starts) + Reached(g, avoid, s)
  {
  }

  /** Closed under taking a step to a node that is not to be avoided. */
  ghost predicate Closed<N>(g: Graph<N>, avoid: set<N>, nodes: set<N>) {
    forall n, m :: n in nodes && m in Succ(g, n) && m !in avoid ==> m in nodes
  }

  lemma {:induction false} PathStaysInside<N(!new)>(g: Graph<N>, avoid: set<N>, nodes: set<N>, p: seq<N>)
    requires Closed(g, avoid, nodes) && Path(g, avoid, p) && p[0] in nodes
    ensures p[|p| - 1] in nodes
  {
    if |p| > 1 {
      var front := p[..|p| - 1];
      forall i | 0 <= i < |front| - 1 ensures front[i + 1] in Succ(g, front[i]) {
        assert p[i + 1] in Succ(g, p[i]);
      }
      PathStaysInside(g, avoid, nodes, front);
      assert p[|p| - 2 + 1] in Succ(g, p[|p| - 2]);
    }
  }

  /**
   One search with a single global visited set computes the least closed set of
   nodes that contains the start; the path-wise search returns that same set.
   */
  lemma ReachedIsLeastClosed<N(!new)>(g: Graph<N>, avoid: set<N>, start: N)
    requires start !in avoid
    ensures start in Reached(g, avoid, start) && Closed(g, avoid, Reached(g, avoid, start))
    ensures forall nodes :: start in nodes && Closed(g, avoid, nodes) ==> Reached(g, avoid, start) <= nodes
  {
    ReachedExactly(g, avoid, start, start);
    assert Joins(g, avoid, start, start, [start]);
    forall n, m | n in Reached(g, avoid, start) && m in Succ(g, n) && m !in avoid
      ensures m in Reached(g, avoid, start)
    {
      var p :| Joins(g, avoid, start, n, p);
      var q := p + [m];
      forall i | 0 <= i < |q| - 1 ensures q[i + 1] in Succ(g, q[i]) {
        if i < |p| - 1 { assert p[i + 1] in Succ(g, p[i]); }
      }
      assert Joins(g, avoid, start, m, q);
      ReachedExactly(g, avoid, start, m);
    }
    forall nodes | start in nodes && Closed(g, avoid, nodes) ensures Reached(g, avoid, start) <= nodes {
      forall m | m in Reached(g, avoid, start) ensures m in nodes {
        var p :| Joins(g, avoid, start, m, p);
        PathStaysInside(g, avoid, nodes, p);
      }
    }
  }
}
