/**
 Static re-export resolution over a physical package tree: which names a star
 import brings in, and which modules a (module, name) pair may lead to.

 Modules are identified by their dotted name, which determines their path. Import
 statements are listed one alias at a time, in source order.
 */
module SourceIndex {
  import opened Options
  import opened PathSearch

  /** `base` of a from-import is absent when the relative name cannot be resolved. */
  datatype Import =
    | Plain(name: string, asname: Option<string>)
    | From(base: Option<string>, name: string, asname: Option<string>)

  datatype Exports = Undeclared | Literal(names: set<string>) | Malformed

  datatype Module = Module(exports: Exports, imports: seq<Import>)

  type Tree = map<string, Module>

  // ---- One import ----

  function FirstPart(name: string): string {
    if name == "" || name[0] == '.' then "" else [name[0]] + FirstPart(name[1..])
  }

  function BoundName(i: Import): string {
    if i.asname.Some? then i.asname.value
    else if i.Plain? then FirstPart(i.name)
    else i.name
  }

  predicate IsStar(i: Import) {
    i.From? && i.name == "*"
  }

  predicate IsPublic(name: string) {
    name == "" || name[0] != '_'
  }

  // ---- Star imports: local names, edges and faults of one module ----

  function PublicNames(imports: seq<Import>): set<string> {
    set i | i in imports && !IsStar(i) && IsPublic(BoundName(i)) :: BoundName(i)
  }

  predicate StarTo(tree: Tree, i: Import) {
    IsStar(i) && i.base.Some? && i.base.value in tree
  }

  function StarTargets(tree: Tree, imports: seq<Import>): set<string> {
    set i | i in imports && StarTo(tree, i) :: i.base.value
  }

  predicate Unresolved(imports: seq<Import>) {
    exists i :: i in imports && IsStar(i) && i.base.None?
  }

  function StarLocal(m: Module): set<string> {
    match m.exports
    case Literal(names) => names
    case Undeclared => PublicNames(m.imports)
    case Malformed => {}
  }

  function StarGraph(tree: Tree): Graph<string> {
    map m | m in tree :: if tree[m].exports.Undeclared? then StarTargets(tree, tree[m].imports) else {}
  }

  /** A malformed __all__, or a star import of an unresolvable relative name. */
  predicate StarFault(m: Module) {
    m.exports.Malformed? || (m.exports.Undeclared? && Unresolved(m.imports))
  }

  // ---- What a search over a set of modules has to return ----

  function NamesOf(tree: Tree, modules: set<string>): set<string> {
    set m, x | m in modules && m in tree && x in StarLocal(tree[m]) :: x
  }

  predicate FaultIn(tree: Tree, modules: set<string>) {
    exists m :: m in modules && m in tree && StarFault(tree[m])
  }

  /** None stands for the ValueError; otherwise the union of the modules' names. */
  function StarOutcome(tree: Tree, modules: set<string>): Option<set<string>> {
    if FaultIn(tree, modules) then None else Some(NamesOf(tree, modules))
  }

  lemma OutcomeUnion(tree: Tree, a: set<string>, b: set<string>)
    ensures StarOutcome(tree, a + b) ==
            if StarOutcome(tree, a).None? || StarOutcome(tree, b).None? then None
            else Some(StarOutcome(tree, a).value + StarOutcome(tree, b).value)
  {
    assert NamesOf(tree, a + b) == NamesOf(tree, a) + NamesOf(tree, b);
  }

  lemma TargetsAppend(tree: Tree, imports: seq<Import>, i: Import)
    ensures StarTargets(tree, imports + [i])
         == if StarTo(tree, i) then StarTargets(tree, imports) + {i.base.value} else StarTargets(tree, imports)
    ensures PublicNames(imports + [i])
         == if !IsStar(i) && IsPublic(BoundName(i)) then PublicNames(imports) + {BoundName(i)}
            else PublicNames(imports)
    ensures Unresolved(imports + [i]) <==> Unresolved(imports) || (IsStar(i) && i.base.None?)
  {
    assert forall j :: j in imports + [i] <==> j in imports || j == i;
  }

  /** One call on a fresh module: its own names and what its star imports reach without it. */
  lemma StarStep(tree: Tree, module_: string, visited: set<string>)
    requires module_ in tree && module_ !in visited
    ensures var m := tree[module_];
            StarOutcome(tree, Reached(StarGraph(tree), visited, module_)) ==
            match m.exports
            case Malformed => None
            case Literal(names) => Some(names)
            case Undeclared =>
              var targets := StarTargets(tree, m.imports);
              var below := StarOutcome(tree, ReachedFrom(StarGraph(tree), visited + {module_}, targets));
              if Unresolved(m.imports) || below.None? then None else Some(PublicNames(m.imports) + below.value)
  {
    var g := StarGraph(tree);
    ReachedStep(g, visited, module_);
    var below := ReachedFrom(g, visited + {module_}, Succ(g, module_));
    OutcomeUnion(tree, {module_}, below);
    assert NamesOf(tree, {module_}) == StarLocal(tree[module_]);
    assert FaultIn(tree, {module_}) <==> StarFault(tree[module_]) by {
      assert module_ in {module_};
    }
    if !tree[module_].exports.Undeclared? {
      assert below == {};
      assert NamesOf(tree, below) == {};
      assert StarLocal(tree[module_]) + {} == StarLocal(tree[module_]);
    }
  }

  /** `names` is complete for these imports: none of them raises, and each is accounted for. */
  ghost predicate Gathered(tree: Tree, imports: seq<Import>, inner: set<string>, names: set<string>) {
    var below := StarOutcome(tree, ReachedFrom(StarGraph(tree), inner, StarTargets(tree, imports)));
    !Unresolved(imports) && below.Some? && names == PublicNames(imports) + below.value
  }

  lemma GatherNothing(tree: Tree, inner: set<string>)
    ensures Gathered(tree, [], inner, {})
  {
    assert StarTargets(tree, []) == {};
    assert ReachedFrom(StarGraph(tree), inner, {}) == {};
    assert NamesOf(tree, {}) == {};
  }

  lemma GatherName(tree: Tree, imports: seq<Import>, i: Import, inner: set<string>, names: set<string>)
    requires Gathered(tree, imports, inner, names) && !StarTo(tree, i) && !(IsStar(i) && i.base.None?)
    ensures Gathered(tree, imports + [i], inner,
                     if !IsStar(i) && IsPublic(BoundName(i)) then names + {BoundName(i)} else names)
  {
    TargetsAppend(tree, imports, i);
  }

  lemma GatherStar(
    tree: Tree, imports: seq<Import>, i: Import, inner: set<string>, names: set<string>, found: Option<set<string>>)
    requires Gathered(tree, imports, inner, names) && StarTo(tree, i)
    requires found == StarOutcome(tree, Reached(StarGraph(tree), inner, i.base.value))
    ensures found.Some? ==> Gathered(tree, imports + [i], inner, names + found.value)
    ensures found.None? ==>
              FaultIn(tree, ReachedFrom(StarGraph(tree), inner, StarTargets(tree, imports + [i])))
  {
    var g := StarGraph(tree);
    TargetsAppend(tree, imports, i);
    ReachedFromOne(g, inner, StarTargets(tree, imports), i.base.value);
    OutcomeUnion(tree, ReachedFrom(g, inner, StarTargets(tree, imports)), Reached(g, inner, i.base.value));
  }

  method StarNames(tree: Tree, module_: string, visited: set<string>) returns (r: Option<set<string>>)
    requires module_ in tree
    ensures r == StarOutcome(tree, Reached(StarGraph(tree), visited, module_))
    decreases |tree.Keys - visited|, 1
  {
    if module_ in visited {
      ReachedNothing(StarGraph(tree), visited, module_);
      assert NamesOf(tree, {}) == {};
      return Some({});
    }
    StarStep(tree, module_, visited);
    match tree[module_].exports {
      case Malformed => r := None;
      case Literal(names) => r := Some(names);
      case Undeclared =>
        VisitedGrows(tree.Keys, visited, module_);
        r := ImportedNames(tree, tree[module_].imports, visited + {module_});
    }
  }

  /** The loop over the module's import statements. */
  method ImportedNames(tree: Tree, imports: seq<Import>, inner: set<string>) returns (r: Option<set<string>>)
    ensures r.Some? ==> Gathered(tree, imports, inner, r.value)
    ensures r.None? ==>
              Unresolved(imports)
              || FaultIn(tree, ReachedFrom(StarGraph(tree), inner, StarTargets(tree, imports)))
    decreases |tree.Keys - inner|, 2
  {
    var names: set<string> := {};
    GatherNothing(tree, inner);
    for k := 0 to |imports|
      invariant Gathered(tree, imports[..k], inner, names)
    {
      var i := imports[k];
      assert imports[..k + 1] == imports[..k] + [i];
      if IsStar(i) {
        if i.base.None? {
          assert imports[k] in imports;
          return None;
        }
        if i.base.value in tree {
          var found := StarNames(tree, i.base.value, inner);
          GatherStar(tree, imports[..k], i, inner, names, found);
          if found.None? {
            FaultBelow(tree, imports, k + 1, inner);
            return None;
          }
          names := names + found.value;
        } else {
          GatherName(tree, imports[..k], i, inner, names);
        }
      } else {
        GatherName(tree, imports[..k], i, inner, names);
        if IsPublic(BoundName(i)) {
          names := names + {BoundName(i)};
        }
      }
    }
    assert imports[..|imports|] == imports;
    r := Some(names);
  }

  lemma VisitedGrows<N>(keys: set<N>, visited: set<N>, n: N)
    requires n in keys && n !in visited
    ensures |keys - (visited + {n})| < |keys - visited|
  {
    assert keys - visited == (keys - (visited + {n})) + {n};
  }

  lemma FaultBelow(tree: Tree, imports: seq<Import>, k: nat, inner: set<string>)
    requires k <= |imports|
    requires FaultIn(tree, ReachedFrom(StarGraph(tree), inner, StarTargets(tree, imports[..k])))
    ensures FaultIn(tree, ReachedFrom(StarGraph(tree), inner, StarTargets(tree, imports)))
  {
    assert StarTargets(tree, imports[..k]) <= StarTargets(tree, imports);
  }

  // ---- Exports: (module, name) pairs, their edges, faults and local results ----

  datatype Key = Key(module_: string, name: string)

  /** All names a star import of the module brings in; None when that raises. */
  ghost function StarsOf(tree: Tree, module_: string): Option<set<string>> {
    StarOutcome(tree, Reached(StarGraph(tree), {}, module_))
  }

  /** The import hands the name on: from a star source that has it, or by binding it. */
  ghost predicate Follows(tree: Tree, i: Import, name: string) {
    && i.From? && i.base.Some?
    && if IsStar(i)
       then i.base.value in tree && StarsOf(tree, i.base.value).Some? && name in StarsOf(tree, i.base.value).value
       else BoundName(i) == name
  }

  function Target(i: Import, name: string): Key
    requires i.From? && i.base.Some?
  {
    Key(i.base.value, if IsStar(i) then name else i.name)
  }

  ghost function Edges(tree: Tree, imports: seq<Import>, name: string): set<Key> {
    set i | i in imports && Follows(tree, i, name) :: Target(i, name)
  }

  ghost predicate ImportFault(tree: Tree, i: Import) {
    i.From? && (i.base.None? || (StarTo(tree, i) && StarsOf(tree, i.base.value).None?))
  }

  ghost predicate AnyFault(tree: Tree, imports: seq<Import>) {
    exists i :: i in imports && ImportFault(tree, i)
  }

  function PlainHits(imports: seq<Import>, name: string): set<string> {
    set i | i in imports && i.Plain? && BoundName(i) == name :: i.name
  }

  ghost function StarKeys(module_: string, names: set<string>): set<Key> {
    set x | x in names :: Key(module_, x)
  }

  ghost function ExportSucc(tree: Tree, k: Key): set<Key> {
    if k.module_ !in tree then {}
    else if k.name == "*" then
      if StarsOf(tree, k.module_).Some? then StarKeys(k.module_, StarsOf(tree, k.module_).value) else {}
    else Edges(tree, tree[k.module_].imports, k.name)
  }

  ghost predicate ExportFault(tree: Tree, k: Key) {
    k.module_ in tree
    && if k.name == "*" then StarsOf(tree, k.module_).None? else AnyFault(tree, tree[k.module_].imports)
  }

  function OwnModules(tree: Tree, k: Key): set<string> {
    var child := k.module_ + "." + k.name;
    if child in tree then {k.module_, child} else {k.module_}
  }

  /** The module itself, a submodule of that name, and plain imports bound to the name. */
  function ExportLocal(tree: Tree, k: Key): set<string> {
    OwnModules(tree, k)
    + (if k.module_ in tree && k.name != "*" then PlainHits(tree[k.module_].imports, k.name) else {})
  }

  /** The finitely many names under which a module can hand anything on. */
  ghost function NameUniverse(tree: Tree): set<string> {
    {"*"}
    + (set m, i | m in tree && i in tree[m].imports :: BoundName(i))
    + (set m, x | m in tree && StarsOf(tree, m).Some? && x in StarsOf(tree, m).value :: x)
  }

  ghost function ExportKeys(tree: Tree): set<Key> {
    set m, x | m in tree && x in NameUniverse(tree) :: Key(m, x)
  }

  ghost function ExportGraph(tree: Tree): Graph<Key> {
    map k | k in ExportKeys(tree) :: ExportSucc(tree, k)
  }

  lemma EdgeInUniverse(tree: Tree, module_: string, i: Import, name: string)
    requires module_ in tree && i in tree[module_].imports && Follows(tree, i, name)
    ensures Key(module_, name) in ExportKeys(tree)
  {
    assert name in NameUniverse(tree);
  }

  lemma SuccIsExportSucc(tree: Tree, k: Key)
    ensures Succ(ExportGraph(tree), k) == ExportSucc(tree, k)
  {
    if k !in ExportKeys(tree) && k.module_ in tree {
      assert "*" in NameUniverse(tree);
      forall i | i in tree[k.module_].imports ensures !Follows(tree, i, k.name) {
        if Follows(tree, i, k.name) {
          EdgeInUniverse(tree, k.module_, i, k.name);
        }
      }
    }
  }

  // ---- What an export search has to return ----

  function LocalsOf(tree: Tree, keys: set<Key>): set<string> {
    set k, x | k in keys && x in ExportLocal(tree, k) :: x
  }

  ghost predicate FaultAmong(tree: Tree, keys: set<Key>) {
    exists k :: k in keys && ExportFault(tree, k)
  }

  ghost function ExportOutcome(tree: Tree, keys: set<Key>): Option<set<string>> {
    if FaultAmong(tree, keys) then None else Some(LocalsOf(tree, keys))
  }

  lemma ExportUnion(tree: Tree, a: set<Key>, b: set<Key>)
    ensures ExportOutcome(tree, a + b) ==
            if ExportOutcome(tree, a).None? || ExportOutcome(tree, b).None? then None
            else Some(ExportOutcome(tree, a).value + ExportOutcome(tree, b).value)
  {
    assert LocalsOf(tree, a + b) == LocalsOf(tree, a) + LocalsOf(tree, b);
  }

  lemma ExportStep(tree: Tree, k: Key, visited: set<Key>)
    requires k !in visited
    ensures var below := ExportOutcome(tree, ReachedFrom(ExportGraph(tree), visited + {k}, ExportSucc(tree, k)));
            ExportOutcome(tree, Reached(ExportGraph(tree), visited, k)) ==
            if ExportFault(tree, k) || below.None? then None else Some(ExportLocal(tree, k) + below.value)
  {
    ReachedStep(ExportGraph(tree), visited, k);
    SuccIsExportSucc(tree, k);
    ExportUnion(tree, {k}, ReachedFrom(ExportGraph(tree), visited + {k}, ExportSucc(tree, k)));
    assert LocalsOf(tree, {k}) == ExportLocal(tree, k);
    assert FaultAmong(tree, {k}) <==> ExportFault(tree, k) by {
      assert k in {k};
    }
  }

  ghost predicate Exported(tree: Tree, imports: seq<Import>, name: string, inner: set<Key>, found: set<string>) {
    var below := ExportOutcome(tree, ReachedFrom(ExportGraph(tree), inner, Edges(tree, imports, name)));
    !AnyFault(tree, imports) && below.Some? && found == PlainHits(imports, name) + below.value
  }

  lemma ExportAppend(tree: Tree, imports: seq<Import>, i: Import, name: string)
    ensures Edges(tree, imports + [i], name)
         == if Follows(tree, i, name)
            then Edges(tree, imports, name) + {Target(i, name)}
            else Edges(tree, imports, name)
    ensures PlainHits(imports + [i], name)
         == if i.Plain? && BoundName(i) == name then PlainHits(imports, name) + {i.name} else PlainHits(imports, name)
    ensures AnyFault(tree, imports + [i]) <==> AnyFault(tree, imports) || ImportFault(tree, i)
  {
    assert forall j :: j in imports + [i] <==> j in imports || j == i;
  }

  lemma ExportNothing(tree: Tree, name: string, inner: set<Key>)
    ensures Exported(tree, [], name, inner, {})
  {
    assert Edges(tree, [], name) == {};
    assert ReachedFrom(ExportGraph(tree), inner, {}) == {};
    assert LocalsOf(tree, {}) == {};
  }

  lemma ExportQuiet(tree: Tree, imports: seq<Import>, i: Import, name: string, inner: set<Key>, found: set<string>)
    requires Exported(tree, imports, name, inner, found) && !Follows(tree, i, name) && !ImportFault(tree, i)
    ensures Exported(tree, imports + [i], name, inner,
                     if i.Plain? && BoundName(i) == name then found + {i.name} else found)
  {
    ExportAppend(tree, imports, i, name);
  }

  lemma ExportFollowed(
    tree: Tree, imports: seq<Import>, i: Import, name: string, inner: set<Key>, found: set<string>,
    more: Option<set<string>>)
    requires Exported(tree, imports, name, inner, found) && Follows(tree, i, name)
    requires more == ExportOutcome(tree, Reached(ExportGraph(tree), inner, Target(i, name)))
    ensures more.Some? ==> Exported(tree, imports + [i], name, inner, found + more.value)
    ensures more.None? ==>
              FaultAmong(tree, ReachedFrom(ExportGraph(tree), inner, Edges(tree, imports + [i], name)))
  {
    var g := ExportGraph(tree);
    ExportAppend(tree, imports, i, name);
    ReachedFromOne(g, inner, Edges(tree, imports, name), Target(i, name));
    ExportUnion(tree, ReachedFrom(g, inner, Edges(tree, imports, name)), Reached(g, inner, Target(i, name)));
  }

  lemma ExportFaultBelow(tree: Tree, imports: seq<Import>, k: nat, name: string, inner: set<Key>)
    requires k <= |imports|
    requires FaultAmong(tree, ReachedFrom(ExportGraph(tree), inner, Edges(tree, imports[..k], name)))
    ensures FaultAmong(tree, ReachedFrom(ExportGraph(tree), inner, Edges(tree, imports, name)))
  {
    assert Edges(tree, imports[..k], name) <= Edges(tree, imports, name);
  }

  /**
   Every module the pair may lead to: the union of the local results over all
   pairs reachable without passing through `visited`, or an exception exactly
   when one of those pairs raises.
   */
  method Export(tree: Tree, key: Key, visited: set<Key>) returns (r: Option<set<string>>)
    ensures r == ExportOutcome(tree, Reached(ExportGraph(tree), visited, key))
    decreases |ExportKeys(tree) - visited|, 1
  {
    if key in visited {
      ReachedNothing(ExportGraph(tree), visited, key);
      assert LocalsOf(tree, {}) == {};
      return Some({});
    }
    var result := OwnModules(tree, key);
    if key.module_ !in tree {
      ExportLeaf(tree, key, visited);
      return Some(result);
    }
    var more;
    if key.name == "*" {
      var names := StarNames(tree, key.module_, {});
      if names.None? {
        ExportStep(tree, key, visited);
        return None;
      }
      assert "*" in NameUniverse(tree);
      VisitedGrows(ExportKeys(tree), visited, key);
      more := ExportAll(tree, key.module_, names.value, visited + {key});
      ExportStarStep(tree, key, visited);
    } else {
      more := ExportImports(tree, key, tree[key.module_].imports, visited);
      ExportNameStep(tree, key, visited, more);
    }
    if more.None? {
      return None;
    }
    r := Some(result + more.value);
  }

  lemma ExportLeaf(tree: Tree, key: Key, visited: set<Key>)
    requires key !in visited && key.module_ !in tree
    ensures ExportOutcome(tree, Reached(ExportGraph(tree), visited, key)) == Some(OwnModules(tree, key))
  {
    ExportStep(tree, key, visited);
    assert ReachedFrom(ExportGraph(tree), visited + {key}, {}) == {};
    assert LocalsOf(tree, {}) == {};
    assert ExportLocal(tree, key) + {} == OwnModules(tree, key);
  }

  /** The step of a pair (module, "*") whose star names are known. */
  lemma ExportStarStep(tree: Tree, key: Key, visited: set<Key>)
    requires key !in visited && key.module_ in tree && key.name == "*" && StarsOf(tree, key.module_).Some?
    ensures ExportOutcome(tree, Reached(ExportGraph(tree), visited, key))
         == var below := StarredOutcome(tree, key, visited);
            if below.None? then None else Some(OwnModules(tree, key) + below.value)
  {
    ExportStep(tree, key, visited);
    assert ExportLocal(tree, key) == OwnModules(tree, key);
  }

  ghost function StarredOutcome(tree: Tree, key: Key, visited: set<Key>): Option<set<string>>
    requires StarsOf(tree, key.module_).Some?
  {
    var keys := StarKeys(key.module_, StarsOf(tree, key.module_).value);
    ExportOutcome(tree, ReachedFrom(ExportGraph(tree), visited + {key}, keys))
  }

  /** The step of a named pair, from what the loop over the imports returned. */
  lemma ExportNameStep(tree: Tree, key: Key, visited: set<Key>, more: Option<set<string>>)
    requires key !in visited && key.module_ in tree && key.name != "*"
    requires more.Some? ==> Exported(tree, tree[key.module_].imports, key.name, visited + {key}, more.value)
    requires more.None? ==>
               AnyFault(tree, tree[key.module_].imports)
               || FaultAmong(tree, ReachedFrom(ExportGraph(tree), visited + {key},
                                               Edges(tree, tree[key.module_].imports, key.name)))
    ensures ExportOutcome(tree, Reached(ExportGraph(tree), visited, key))
         == if more.None? then None else Some(OwnModules(tree, key) + more.value)
  {
    ExportStep(tree, key, visited);
    if more.Some? {
      var below := ExportOutcome(tree, ReachedFrom(ExportGraph(tree), visited + {key}, ExportSucc(tree, key)));
      var hits := PlainHits(tree[key.module_].imports, key.name);
      assert ExportLocal(tree, key) + below.value == OwnModules(tree, key) + (hits + below.value);
    }
  }

  /** The loop over the names a star brings in; their order does not matter. */
  method ExportAll(tree: Tree, module_: string, names: set<string>, inner: set<Key>) returns (r: Option<set<string>>)
    ensures r == ExportOutcome(tree, ReachedFrom(ExportGraph(tree), inner, StarKeys(module_, names)))
    decreases |ExportKeys(tree) - inner|, 2
  {
    ghost var g := ExportGraph(tree);
    var found: set<string> := {};
    var rest := names;
    assert StarKeys(module_, names - names) == {};
    assert ReachedFrom(g, inner, {}) == {};
    assert LocalsOf(tree, {}) == {};
    while rest != {}
      invariant rest <= names
      invariant ExportOutcome(tree, ReachedFrom(g, inner, StarKeys(module_, names - rest))) == Some(found)
      decreases rest
    {
      var x :| x in rest;
      var more := Export(tree, Key(module_, x), inner);
      ghost var before := StarKeys(module_, names - rest);
      assert StarKeys(module_, names - (rest - {x})) == before + {Key(module_, x)};
      ReachedFromOne(g, inner, before, Key(module_, x));
      ExportUnion(tree, ReachedFrom(g, inner, before), Reached(g, inner, Key(module_, x)));
      if more.None? {
        assert StarKeys(module_, names - (rest - {x})) <= StarKeys(module_, names);
        return None;
      }
      found := found + more.value;
      rest := rest - {x};
    }
    assert names - rest == names;
    r := Some(found);
  }

  /** Whether an import statement may provide the name; None when its base or its star names are faulty. */
  method FollowImport(tree: Tree, i: Import, name: string) returns (follow: Option<bool>)
    ensures follow.None? <==> ImportFault(tree, i)
    ensures follow.Some? ==> (follow.value <==> Follows(tree, i, name))
  {
    if i.Plain? {
      return Some(false);
    }
    if i.base.None? {
      return None;
    }
    if !IsStar(i) {
      return Some(BoundName(i) == name);
    }
    if i.base.value !in tree {
      return Some(false);
    }
    var names := StarNames(tree, i.base.value, {});
    return if names.None? then None else Some(name in names.value);
  }

  lemma FaultyImport(tree: Tree, imports: seq<Import>, k: nat)
    requires k < |imports| && ImportFault(tree, imports[k])
    ensures AnyFault(tree, imports)
  {
    assert imports[k] in imports;
  }

  lemma ExportFollowedAt(
    tree: Tree, imports: seq<Import>, k: nat, name: string, inner: set<Key>, found: set<string>,
    more: Option<set<string>>)
    requires k < |imports| && Exported(tree, imports[..k], name, inner, found) && Follows(tree, imports[k], name)
    requires more == ExportOutcome(tree, Reached(ExportGraph(tree), inner, Target(imports[k], name)))
    ensures more.Some? ==> Exported(tree, imports[..k + 1], name, inner, found + more.value)
    ensures more.None? ==> FaultAmong(tree, ReachedFrom(ExportGraph(tree), inner, Edges(tree, imports, name)))
  {
    assert imports[..k + 1] == imports[..k] + [imports[k]];
    ExportFollowed(tree, imports[..k], imports[k], name, inner, found, more);
    if more.None? { ExportFaultBelow(tree, imports, k + 1, name, inner); }
  }

  lemma ExportQuietAt(tree: Tree, imports: seq<Import>, k: nat, name: string, inner: set<Key>, found: set<string>)
    requires k < |imports| && Exported(tree, imports[..k], name, inner, found)
    requires !Follows(tree, imports[k], name) && !ImportFault(tree, imports[k])
    ensures var i := imports[k];
            Exported(tree, imports[..k + 1], name, inner,
                     if i.Plain? && BoundName(i) == name then found + {i.name} else found)
  {
    assert imports[..k + 1] == imports[..k] + [imports[k]];
    ExportQuiet(tree, imports[..k], imports[k], name, inner, found);
  }

  /** The loop over the module's import statements. */
  method ExportImports(tree: Tree, key: Key, imports: seq<Import>, visited: set<Key>) returns (r: Option<set<string>>)
    requires key.module_ in tree && imports == tree[key.module_].imports && key !in visited
    ensures r.Some? ==> Exported(tree, imports, key.name, visited + {key}, r.value)
    ensures r.None? ==>
              AnyFault(tree, imports)
              || FaultAmong(tree, ReachedFrom(ExportGraph(tree), visited + {key}, Edges(tree, imports, key.name)))
    decreases |ExportKeys(tree) - visited|, 0
  {
    var name, inner := key.name, visited + {key};
    var found: set<string> := {};
    ExportNothing(tree, name, inner);
    for k := 0 to |imports|
      invariant Exported(tree, imports[..k], name, inner, found)
    {
      var i := imports[k];
      var follow := FollowImport(tree, i, name);
      if follow.None? {
        FaultyImport(tree, imports, k);
        return None;
      }
      if follow.value {
        EdgeInUniverse(tree, key.module_, i, name);
        VisitedGrows(ExportKeys(tree), visited, key);
        var more := Export(tree, Target(i, name), inner);
        ExportFollowedAt(tree, imports, k, name, inner, found, more);
        if more.None? {
          return None;
        }
        found := found + more.value;
      } else {
        ExportQuietAt(tree, imports, k, name, inner, found);
        if i.Plain? && BoundName(i) == name {
          found := found + {i.name};
        }
      }
    }
    assert imports[..|imports|] == imports;
    r := Some(found);
  }

  // ---- Collecting a whole file ----

  /** The pairs a file's from-imports start from. */
  ghost function Starts(imports: seq<Import>): set<Key> {
    set i | i in imports && i.From? && i.base.Some? :: Key(i.base.value, i.name)
  }

  function Named(imports: seq<Import>): set<string> {
    (set i | i in imports && i.Plain? :: i.name)
    + (set i | i in imports && i.From? && i.base.Some? :: i.base.value)
  }

  /**
   The files a source may import: the named modules and everything reachable in
   one graph from its from-imports, whatever cycles that graph has.
   */
  method Collect(tree: Tree, imports: seq<Import>) returns (r: Option<set<string>>)
    ensures r.Some? ==> Collected(tree, imports, r.value)
    ensures r.None? ==>
              (exists i :: i in imports && i.From? && i.base.None?)
              || FaultAmong(tree, ReachedFrom(ExportGraph(tree), {}, Starts(imports)))
  {
    var result: set<string> := {};
    CollectNothing(tree);
    for k := 0 to |imports|
      invariant Collected(tree, imports[..k], result)
    {
      var i := imports[k];
      assert imports[..k + 1] == imports[..k] + [i] && i in imports;
      if i.Plain? {
        CollectPlain(tree, imports[..k], i, result);
        result := result + {i.name};
      } else {
        if i.base.None? {
          return None;
        }
        var more := Export(tree, Key(i.base.value, i.name), {});
        CollectFrom(tree, imports[..k], i, result, more);
        if more.None? {
          assert Starts(imports[..k + 1]) <= Starts(imports);
          return None;
        }
        result := result + {i.base.value} + more.value;
      }
    }
    assert imports[..|imports|] == imports;
    r := Some(result);
  }

  /** No import raises, and the result is the named modules and all reachable ones. */
  ghost predicate Collected(tree: Tree, imports: seq<Import>, result: set<string>) {
    var below := ExportOutcome(tree, ReachedFrom(ExportGraph(tree), {}, Starts(imports)));
    && (forall i :: i in imports && i.From? ==> i.base.Some?)
    && below.Some? && result == Named(imports) + below.value
  }

  lemma CollectNothing(tree: Tree)
    ensures Collected(tree, [], {})
  {
    assert Starts([]) == {};
    assert ReachedFrom(ExportGraph(tree), {}, {}) == {};
    assert LocalsOf(tree, {}) == {};
  }

  lemma NamedAppend(imports: seq<Import>, i: Import)
    ensures Starts(imports + [i])
         == if i.From? && i.base.Some? then Starts(imports) + {Key(i.base.value, i.name)} else Starts(imports)
    ensures Named(imports + [i])
         == if i.Plain? then Named(imports) + {i.name}
            else if i.base.Some? then Named(imports) + {i.base.value}
            else Named(imports)
  {
    assert forall j :: j in imports + [i] <==> j in imports || j == i;
  }

  lemma CollectPlain(tree: Tree, imports: seq<Import>, i: Import, result: set<string>)
    requires Collected(tree, imports, result) && i.Plain?
    ensures Collected(tree, imports + [i], result + {i.name})
  {
    NamedAppend(imports, i);
  }

  lemma CollectFrom(tree: Tree, imports: seq<Import>, i: Import, result: set<string>, more: Option<set<string>>)
    requires Collected(tree, imports, result) && i.From? && i.base.Some?
    requires more == ExportOutcome(tree, Reached(ExportGraph(tree), {}, Key(i.base.value, i.name)))
    ensures more.Some? ==> Collected(tree, imports + [i], result + {i.base.value} + more.value)
    ensures more.None? ==> FaultAmong(tree, ReachedFrom(ExportGraph(tree), {}, Starts(imports + [i])))
  {
    NamedAppend(imports, i);
    var key := Key(i.base.value, i.name);
    ReachedFromOne(ExportGraph(tree), {}, Starts(imports), key);
    ExportUnion(tree, ReachedFrom(ExportGraph(tree), {}, Starts(imports)), Reached(ExportGraph(tree), {}, key));
  }

  // ---- Direct imports ----

  /** What one statement names: a module, a base, and a submodule of the base if there is one. */
  function DirectOf(tree: Tree, i: Import): set<string> {
    if i.Plain? then {i.name}
    else if i.base.None? then {}
    else if !IsStar(i) && i.base.value + "." + i.name in tree then {i.base.value, i.base.value + "." + i.name}
    else {i.base.value}
  }

  ghost predicate NamedDirectly(tree: Tree, imports: seq<Import>, x: string) {
    exists i :: i in imports && x in DirectOf(tree, i)
  }

  /** The same walk without following re-exports. */
  method CollectDirect(tree: Tree, imports: seq<Import>) returns (r: Option<set<string>>)
    ensures r.None? <==> exists i :: i in imports && i.From? && i.base.None?
    ensures r.Some? ==> forall x :: x in r.value <==> NamedDirectly(tree, imports, x)
  {
    var result: set<string> := {};
    for k := 0 to |imports|
      invariant forall i :: i in imports[..k] && i.From? ==> i.base.Some?
      invariant forall x :: x in result <==> NamedDirectly(tree, imports[..k], x)
    {
      var i := imports[k];
      DirectAppend(tree, imports[..k], i);
      assert imports[..k + 1] == imports[..k] + [i] && i in imports;
      if i.Plain? {
        result := result + {i.name};
      } else {
        if i.base.None? {
          return None;
        }
        result := result + {i.base.value};
        if !IsStar(i) {
          var child := i.base.value + "." + i.name;
          if child in tree {
            result := result + {child};
          }
        }
      }
    }
    assert imports[..|imports|] == imports;
    r := Some(result);
  }

  lemma DirectAppend(tree: Tree, imports: seq<Import>, i: Import)
    ensures forall x ::
              NamedDirectly(tree, imports + [i], x) <==> NamedDirectly(tree, imports, x) || x in DirectOf(tree, i)
  {
    forall x
      ensures NamedDirectly(tree, imports + [i], x) <==> NamedDirectly(tree, imports, x) || x in DirectOf(tree, i)
    {
      assert i in imports + [i] && forall j :: j in imports + [i] <==> j in imports || j == i;
    }
  }

  /** Following re-exports only adds: what a file names directly is among what it may import. */
  lemma DirectIsWithinCollected(tree: Tree, imports: seq<Import>, all: set<string>, x: string)
    requires Collected(tree, imports, all) && NamedDirectly(tree, imports, x)
    ensures x in all
  {
    var i :| i in imports && x in DirectOf(tree, i);
    if i.From? && x != i.base.value {
      var key := Key(i.base.value, i.name);
      var g := ExportGraph(tree);
      assert key in Starts(imports);
      ReachedStep(g, {}, key);
      assert key in ReachedFrom(g, {}, Starts(imports));
      assert x in ExportLocal(tree, key);
    }
  }

  // ---- The results without the recursion ----

  /** A resolved export names exactly the local results of the reachable pairs. */
  lemma ExportIsReachability(tree: Tree, key: Key, visited: set<Key>, x: string)
    ensures var r := ExportOutcome(tree, Reached(ExportGraph(tree), visited, key));
            && (r.None? <==> exists k :: Reach(ExportGraph(tree), visited, key, k) && ExportFault(tree, k))
            && (r.Some? ==>
                  (x in r.value <==>
                    exists k :: Reach(ExportGraph(tree), visited, key, k) && x in ExportLocal(tree, k)))
  {
    forall k ensures k in Reached(ExportGraph(tree), visited, key) <==> Reach(ExportGraph(tree), visited, key, k) {
      ReachedExactly(ExportGraph(tree), visited, key, k);
    }
  }

  /** A star import raises exactly when it reaches a module whose names cannot be listed. */
  lemma StarIsReachability(tree: Tree, module_: string, visited: set<string>, x: string)
    ensures var r := StarOutcome(tree, Reached(StarGraph(tree), visited, module_));
            && (r.None? <==> exists m :: Reach(StarGraph(tree), visited, module_, m) && m in tree && StarFault(tree[m]))
            && (r.Some? ==>
                  (x in r.value <==>
                     exists m :: Reach(StarGraph(tree), visited, module_, m) && m in tree && x in StarLocal(tree[m])))
  {
    forall m ensures m in Reached(StarGraph(tree), visited, module_) <==> Reach(StarGraph(tree), visited, module_, m) {
      ReachedExactly(StarGraph(tree), visited, module_, m);
    }
  }
}
