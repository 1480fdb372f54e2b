/**
 What the two searches follow, said in the fields of an import statement alone: which
 name a statement binds, which pair it leads to, and what each module adds of its own.
 */
module ExportMeaning {
  import opened Options
  import opened PathSearch
  import opened SourceIndex

  // ---- The name a statement binds ----

  /** The part of a dotted name before its first dot. */
  ghost predicate FirstComponent(dotted: string, first: string) {
    first <= dotted && '.' !in first && (|first| < |dotted| ==> dotted[|first|] == '.')
  }

  /** `as n`, or without it the imported name, of which `import a.b` binds only the first component. */
  ghost predicate Binds(i: Import, n: string) {
    match i
    case Plain(name, Some(alias)) => n == alias
    case Plain(name, None) => FirstComponent(name, n)
    case From(_, name, Some(alias)) => n == alias
    case From(_, name, None) => n == name
  }

  lemma {:induction false} FirstPartIsFirst(dotted: string)
    ensures FirstComponent(dotted, FirstPart(dotted))
  {
    if dotted != "" && dotted[0] != '.' { FirstPartIsFirst(dotted[1..]); }
  }

  lemma FirstIsUnique(dotted: string, a: string, b: string)
    requires FirstComponent(dotted, a) && FirstComponent(dotted, b)
    ensures a == b
  {
  }

  lemma BoundNameIsBound(i: Import, n: string)
    ensures BoundName(i) == n <==> Binds(i, n)
  {
    if i.Plain? && i.asname.None? {
      FirstPartIsFirst(i.name);
      if FirstComponent(i.name, n) { FirstIsUnique(i.name, FirstPart(i.name), n); }
    }
  }

  // ---- What a star import brings in ----

  /** The statement is a star import of this module. */
  ghost predicate StarOf(i: Import, source: string) {
    i.From? && i.name == "*" && i.base == Some(source)
  }

  /** A star is followed from a module without `__all__` into each known module it stars. */
  lemma StarSuccessors(tree: Tree, m: string, t: string)
    ensures t in Succ(StarGraph(tree), m) <==>
            && m in tree && tree[m].exports.Undeclared? && t in tree
            && exists i :: i in tree[m].imports && StarOf(i, t)
  {
    if m in tree && tree[m].exports.Undeclared? {
      var targets := StarTargets(tree, tree[m].imports);
      if t in targets {
        var i :| i in tree[m].imports && StarTo(tree, i) && i.base.value == t;
        assert StarOf(i, t);
      }
      if t in tree && exists i :: i in tree[m].imports && StarOf(i, t) {
        var i :| i in tree[m].imports && StarOf(i, t);
        assert StarTo(tree, i);
      }
    }
  }

  /** A module's own public names: `__all__`, or every bound name without a leading underscore. */
  lemma OwnStarNames(m: Module, n: string)
    ensures n in StarLocal(m) <==>
            || (m.exports.Literal? && n in m.exports.names)
            || (m.exports.Undeclared? && !("_" <= n)
                && exists i :: i in m.imports && !(i.From? && i.name == "*") && Binds(i, n))
  {
    if m.exports.Undeclared? {
      if n in StarLocal(m) {
        var i :| i in m.imports && !IsStar(i) && IsPublic(BoundName(i)) && BoundName(i) == n;
        BoundNameIsBound(i, n);
      }
      if i :| i in m.imports && !(i.From? && i.name == "*") && Binds(i, n) {
        BoundNameIsBound(i, n);
      }
    }
  }

  /** It raises on a malformed `__all__`, and without one on a star of an unresolvable name. */
  lemma OwnStarFault(m: Module)
    ensures StarFault(m) <==>
            || m.exports.Malformed?
            || (m.exports.Undeclared? && exists i :: i in m.imports && i.From? && i.name == "*" && i.base.None?)
  {
  }

  /** The star names of a module that can be listed: those of every module its stars lead to. */
  ghost predicate Brings(tree: Tree, m: string, n: string) {
    var r := StarOutcome(tree, Reached(StarGraph(tree), {}, m));
    r.Some? && n in r.value
  }

  // ---- What an export search follows ----

  /** The statement hands the name n on as the pair t. */
  ghost predicate HandsOn(tree: Tree, i: Import, n: string, t: Key) {
    i.From? && i.base == Some(t.module_)
    && if i.name == "*" then t.module_ in tree && Brings(tree, t.module_, n) && t.name == n
       else Binds(i, n) && t.name == i.name
  }

  /**
   A pair leads to the imported pair of every statement that hands its name on, a star
   request to the module's star names, and to nothing else.
   */
  lemma ExportSuccessors(tree: Tree, k: Key, t: Key)
    ensures t in Succ(ExportGraph(tree), k) <==>
            && k.module_ in tree
            && if k.name == "*" then t.module_ == k.module_ && Brings(tree, k.module_, t.name)
               else exists i :: i in tree[k.module_].imports && HandsOn(tree, i, k.name, t)
  {
    SuccIsExportSucc(tree, k);
    if k.module_ in tree && k.name != "*" {
      var imports := tree[k.module_].imports;
      if t in Edges(tree, imports, k.name) {
        var i :| i in imports && Follows(tree, i, k.name) && Target(i, k.name) == t;
        FollowsHandsOn(tree, i, k.name, t);
      }
      if i :| i in imports && HandsOn(tree, i, k.name, t) {
        FollowsHandsOn(tree, i, k.name, t);
      }
    }
  }

  lemma FollowsHandsOn(tree: Tree, i: Import, n: string, t: Key)
    ensures HandsOn(tree, i, n, t) <==> Follows(tree, i, n) && Target(i, n) == t
  {
    if i.From? { BoundNameIsBound(i, n); }
  }

  /** What a pair yields by itself: its module, a submodule of that name, plain imports bound to it. */
  lemma ExportLocals(tree: Tree, k: Key, x: string)
    ensures x in ExportLocal(tree, k) <==>
            || x == k.module_
            || (x == k.module_ + "." + k.name && x in tree)
            || (k.module_ in tree && k.name != "*"
                && exists i :: i in tree[k.module_].imports && i.Plain? && Binds(i, k.name) && x == i.name)
  {
    if k.module_ in tree && k.name != "*" {
      if x in PlainHits(tree[k.module_].imports, k.name) {
        var i :| i in tree[k.module_].imports && i.Plain? && BoundName(i) == k.name && i.name == x;
        BoundNameIsBound(i, k.name);
      }
      if i :| i in tree[k.module_].imports && i.Plain? && Binds(i, k.name) && x == i.name {
        BoundNameIsBound(i, k.name);
      }
    }
  }

  /** The names of that module cannot be listed. */
  ghost predicate Unlistable(tree: Tree, m: string) {
    StarOutcome(tree, Reached(StarGraph(tree), {}, m)).None?
  }

  /** A pair raises on an unresolvable from-import of its module, or on star names that cannot be listed. */
  lemma ExportFaults(tree: Tree, k: Key)
    ensures ExportFault(tree, k) <==>
            && k.module_ in tree
            && if k.name == "*" then Unlistable(tree, k.module_)
               else exists i :: i in tree[k.module_].imports && i.From?
                                && (i.base.None?
                                    || (i.name == "*" && i.base.value in tree && Unlistable(tree, i.base.value)))
  {
  }

  // ---- The result as an equation ----

  /** The search for this pair succeeds and yields this module. */
  ghost predicate Yields(tree: Tree, k: Key, x: string) {
    var r := ExportOutcome(tree, Reached(ExportGraph(tree), {}, k));
    r.Some? && x in r.value
  }

  ghost predicate Succeeds(tree: Tree, k: Key) {
    ExportOutcome(tree, Reached(ExportGraph(tree), {}, k)).Some?
  }

  lemma ReachedBelow<N(!new)>(g: Graph<N>, a: N, t: N)
    requires t in Succ(g, a)
    ensures Reached(g, {}, t) <= Reached(g, {}, a)
  {
    ReachedIsLeastClosed(g, {}, a);
    ReachedIsLeastClosed(g, {}, t);
    assert t in Reached(g, {}, a);
  }

  /** Every node but the start itself is reached through a successor, without a visited set. */
  lemma ReachedThrough<N(!new)>(g: Graph<N>, a: N, m: N)
    requires m in Reached(g, {}, a) && m != a
    ensures exists t :: t in Succ(g, a) && m in Reached(g, {}, t)
  {
    ReachedStep(g, {}, a);
    var t :| t in Succ(g, a) && m in Reached(g, {} + {a}, t);
    ReachedExactly(g, {} + {a}, t, m);
    var p :| Joins(g, {} + {a}, t, m, p);
    assert Joins(g, {}, t, m, p);
    ReachedExactly(g, {}, t, m);
  }

  /** When a search succeeds, so does the search for every pair it leads to, and all it yields is passed on. */
  lemma SuccessorsAreContained(tree: Tree, k: Key, t: Key)
    requires Succeeds(tree, k) && t in Succ(ExportGraph(tree), k)
    ensures Succeeds(tree, t) && forall x :: Yields(tree, t, x) ==> Yields(tree, k, x)
  {
    ReachedBelow(ExportGraph(tree), k, t);
  }

  /**
   The exports of a name are the module, its submodule, the plain imports bound to the name, and
   the exports of what each from-import binding it, or each star source having it, imports.
   */
  lemma ExportEquation(tree: Tree, m: string, n: string, x: string)
    requires m in tree && n != "*" && Succeeds(tree, Key(m, n))
    ensures Yields(tree, Key(m, n), x) <==>
            || x == m
            || (x == m + "." + n && x in tree)
            || (exists i :: i in tree[m].imports && i.Plain? && Binds(i, n) && x == i.name)
            || (exists i, t :: i in tree[m].imports && HandsOn(tree, i, n, t) && Yields(tree, t, x))
  {
    var g, k := ExportGraph(tree), Key(m, n);
    ExportLocals(tree, k, x);
    ReachedIsLeastClosed(g, {}, k);
    if Yields(tree, k, x) && x !in ExportLocal(tree, k) {
      var j :| j in Reached(g, {}, k) && x in ExportLocal(tree, j);
      ReachedThrough(g, k, j);
      var t :| t in Succ(g, k) && j in Reached(g, {}, t);
      ExportSuccessors(tree, k, t);
      SuccessorsAreContained(tree, k, t);
      assert Yields(tree, t, x);
    }
    if i, t :| i in tree[m].imports && HandsOn(tree, i, n, t) && Yields(tree, t, x) {
      ExportSuccessors(tree, k, t);
      SuccessorsAreContained(tree, k, t);
    }
  }
}
