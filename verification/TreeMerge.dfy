/**
 Merging checkpoint trees without replacing conflicting bytes.
 */
module TreeMerge {
  import opened Options
  import opened FileTrees
  import opened Sequences
  import opened Text

  // ---- Listing order ----

  function PosixText(p: Path): string {
    if p == [] then ""
    else if |p| == 1 then p[0]
    else PosixText(p[..|p| - 1]) + "/" + p[|p| - 1]
  }

  predicate After(p: Path, q: Path) {
    Precedes(PosixText(q), PosixText(p))
  }

  /** The listing of a tree: each path once, in the order of their slash-joined texts. */
  ghost predicate SortedListing(t: Tree, listing: seq<Path>) {
    && (forall p :: p in t <==> p in listing)
    && (forall i, j :: 0 <= i < j < |listing| ==> listing[i] != listing[j])
    && (forall i, j :: 0 <= i < j < |listing| ==> !After(listing[i], listing[j]))
  }

  lemma {:induction false} ParentTextIsPrefix(p: Path, i: nat)
    requires 1 <= i < |p|
    ensures PosixText(p[..i]) < PosixText(p)
    decreases |p|
  {
    var front := p[..|p| - 1];
    assert PosixText(front) < PosixText(p);
    if i < |front| {
      assert front[..i] == p[..i];
      ParentTextIsPrefix(front, i);
    } else {
      assert p[..i] == front;
    }
  }

  lemma ParentPrecedes(p: Path, i: nat)
    requires 1 <= i < |p|
    ensures Precedes(PosixText(p[..i]), PosixText(p))
  {
    ParentTextIsPrefix(p, i);
    PrefixPrecedes(PosixText(p[..i]), PosixText(p));
  }

  /** In a sorted listing every directory comes before what it contains. */
  lemma ParentsComeFirst(t: Tree, listing: seq<Path>, j: nat, i: nat)
    requires PrefixClosed(t) && SortedListing(t, listing)
    requires j < |listing| && 1 <= i < |listing[j]|
    ensures listing[j][..i] in listing[..j]
  {
    var parent := listing[j][..i];
    assert listing[j] in t;
    assert parent in t && parent in listing;
    var k :| 0 <= k < |listing| && listing[k] == parent;
    ParentPrecedes(listing[j], i);
    assert k < j;
    assert listing[..j][k] == parent;
  }

  // ---- What merging means ----

  /** The trees say the same, kind and bytes, about every path they share. */
  predicate Agree(a: Tree, b: Tree) {
    forall p :: p in a && p in b ==> a[p] == b[p]
  }

  function Part(t: Tree, paths: set<Path>): Tree {
    map p | p in t && p in paths :: t[p]
  }

  /** The target while the entries `done` have been merged into what was there before. */
  ghost predicate Merging(before: Tree, source: Tree, done: set<Path>, now: Tree) {
    && done <= source.Keys && Agree(before, Part(source, done))
    && now == before + Part(source, done) && PrefixClosed(now)
  }

  /** Nothing that was there is replaced or lost, and everything new comes from the source. */
  ghost predicate OnlyAdds(before: Tree, source: Tree, now: Tree) {
    && (forall p :: p in before ==> p in now && now[p] == before[p])
    && (forall p :: p in now && p !in before ==> p in source && now[p] == source[p])
  }

  lemma MergingOnlyAdds(before: Tree, source: Tree, done: set<Path>, now: Tree)
    requires Merging(before, source, done, now)
    ensures OnlyAdds(before, source, now)
  {
  }

  lemma MergingStarts(before: Tree, source: Tree)
    requires PrefixClosed(before)
    ensures Merging(before, source, {}, before)
  {
    assert before + Part(source, {}) == before;
  }

  lemma MergingEnds(before: Tree, source: Tree, now: Tree)
    requires Merging(before, source, source.Keys, now)
    ensures Agree(before, source) && now == before + source
  {
    assert Part(source, source.Keys) == source;
  }

  /** Every ancestor of the k-th entry has been merged, as a directory. */
  lemma ParentIsReady(source: Tree, listing: seq<Path>, k: nat, i: nat, before: Tree, done: set<Path>, now: Tree)
    requires PrefixClosed(source) && SortedListing(source, listing) && k < |listing| && 1 <= i < |listing[k]|
    requires Merging(before, source, done, now) && done == Listed(listing, k)
    ensures listing[k][..i] in now && now[listing[k][..i]] == Directory
  {
    var parent := listing[k][..i];
    ParentsComeFirst(source, listing, k, i);
    IsListed(source, listing, k);
    assert parent in source && source[parent] == Directory;
    assert parent in Part(source, done);
  }

  lemma IsListed(source: Tree, listing: seq<Path>, k: nat)
    requires SortedListing(source, listing) && k < |listing|
    ensures listing[k] in source && listing[k] !in Listed(listing, k)
    ensures Listed(listing, k + 1) == Listed(listing, k) + {listing[k]}
  {
    assert listing[k] in listing;
    assert listing[..k + 1] == listing[..k] + [listing[k]];
  }

  /** What the listing order guarantees for its k-th entry. */
  lemma EntryIsReady(source: Tree, listing: seq<Path>, k: nat, before: Tree, done: set<Path>, now: Tree)
    requires PrefixClosed(source) && SortedListing(source, listing) && k < |listing|
    requires Merging(before, source, done, now) && done == Listed(listing, k)
    ensures listing[k] in source && listing[k] != [] && listing[k] !in done
    ensures forall i :: 1 <= i < |listing[k]| ==> listing[k][..i] in now && now[listing[k][..i]] == Directory
    ensures Listed(listing, k + 1) == done + {listing[k]}
  {
    IsListed(source, listing, k);
    forall i | 1 <= i < |listing[k]| ensures listing[k][..i] in now && now[listing[k][..i]] == Directory {
      ParentIsReady(source, listing, k, i, before, done, now);
    }
  }

  function Listed(listing: seq<Path>, k: nat): set<Path>
    requires k <= |listing|
  {
    set p | p in listing[..k]
  }

  /** Merging one source: what a single call returns and leaves behind. */
  method MergeCheckpointTrees(source: Tree, listing: seq<Path>, target: Folder) returns (ok: bool)
    requires PrefixClosed(source) && SortedListing(source, listing) && PrefixClosed(target.tree)
    modifies target
    ensures ok <==> Agree(old(target.tree), source)
    ensures ok ==> target.tree == old(target.tree) + source
    ensures PrefixClosed(target.tree) && OnlyAdds(old(target.tree), source, target.tree)
  {
    ghost var before := target.tree;
    ghost var done: set<Path> := {};
    MergingStarts(before, source);
    for k := 0 to |listing|
      invariant done == Listed(listing, k)
      invariant Merging(before, source, done, target.tree)
    {
      var path := listing[k];
      EntryIsReady(source, listing, k, before, done, target.tree);
      EntryStep(before, source, done, path, target.tree);
      MergingOnlyAdds(before, source, done, target.tree);
      var merged := MergeEntry(source, path, target);
      if !merged {
        return false;
      }
      done := done + {path};
    }
    AllListed(source, listing);
    MergingEnds(before, source, target.tree);
    MergingOnlyAdds(before, source, done, target.tree);
    return true;
  }

  lemma AllListed(source: Tree, listing: seq<Path>)
    requires SortedListing(source, listing)
    ensures Listed(listing, |listing|) == source.Keys
  {
    assert listing[..|listing|] == listing;
  }

  /** One entry: a directory is made, a file is compared or copied; parents are there already. */
  method MergeEntry(source: Tree, path: Path, target: Folder) returns (ok: bool)
    requires path in source && path != [] && PrefixClosed(target.tree)
    requires forall i :: 1 <= i < |path| ==> path[..i] in target.tree && target.tree[path[..i]] == Directory
    modifies target
    ensures ok <==> path !in old(target.tree) || old(target.tree)[path] == source[path]
    ensures target.tree == if ok then old(target.tree)[path := source[path]] else old(target.tree)
    ensures PrefixClosed(target.tree)
  {
    ghost var before := target.tree;
    if source[path].Directory? {
      if path in target.tree && !target.tree[path].Directory? {
        return false;
      }
      OnlyTheLast(target.tree, path);
      WithDirectoriesClosed(target.tree, path);
      ok := target.MakeDirectories(path);
      return;
    }
    if path in target.tree {
      ok := target.tree[path] == source[path];
      assert ok ==> before[path := source[path]] == before;
      return;
    }
    if exists i :: 1 <= i < |path| && !IsDirectory(target.tree, path[..i]) {
      return false;
    }
    var parent := path[..|path| - 1];
    assert forall i :: 1 <= i <= |parent| ==> parent[..i] == path[..i];
    WithDirectoriesAdds(target.tree, parent);
    OnlyTheLast(target.tree, parent);
    var made := target.MakeDirectories(parent);
    assert target.tree == before;
    ok := target.CreateFile(path, source[path].bytes);
    assert IsDirectory(before, parent);
    forall q, i | q in target.tree && 1 <= i < |q|
      ensures q[..i] in target.tree && target.tree[q[..i]] == Directory
    {
      if q == path {
        assert q[..i] in before;
      } else {
        assert q in before;
      }
    }
  }

  /** With all ancestors present, making directories adds at most the path itself. */
  lemma OnlyTheLast(t: Tree, p: Path)
    requires forall i :: 1 <= i < |p| ==> p[..i] in t && t[p[..i]] == Directory
    ensures p != [] && p in t && t[p] == Directory ==> NoFileOnTheWay(t, p)
    ensures p == [] || p !in t ==> NoFileOnTheWay(t, p)
    ensures p == [] || p in t ==> WithDirectories(t, p) == t
    ensures p != [] && p !in t ==> WithDirectories(t, p) == t[p := Directory]
  {
    WithDirectoriesAdds(t, p);
    assert p[..|p|] == p;
    forall q | PrefixOf(q, p) && q != [] && q != p ensures q in t {
      assert q == p[..|q|];
    }
  }

  lemma EntryStep(before: Tree, source: Tree, done: set<Path>, path: Path, now: Tree)
    requires path in source && path !in done && Merging(before, source, done, now)
    ensures path !in now || now[path] == source[path] ==>
              PrefixClosed(now[path := source[path]]) ==>
              Merging(before, source, done + {path}, now[path := source[path]])
    ensures !(path !in now || now[path] == source[path]) ==> !Agree(before, source)
  {
    assert before + Part(source, done + {path}) == (before + Part(source, done))[path := source[path]];
  }

  // ---- Restoring from several inputs ----

  /** One merge, as a function of the two trees. */
  function Merged(target: Tree, source: Tree): Option<Tree> {
    if Agree(target, source) then Some(target + source) else None
  }

  /** Merging the inputs one after the other into an empty root. */
  function MergeAll(sources: seq<Tree>): Option<Tree> {
    if sources == [] then Some(map[])
    else
      var front := MergeAll(sources[..|sources| - 1]);
      if front.None? then None else Merged(front.value, sources[|sources| - 1])
  }

  /** The merge loop over the downloaded inputs; the first conflict ends it. */
  method RestoreCheckpointInputs(sources: seq<Tree>, listings: seq<seq<Path>>) returns (r: Option<Tree>)
    requires |listings| == |sources|
    requires forall k :: 0 <= k < |sources| ==> PrefixClosed(sources[k]) && SortedListing(sources[k], listings[k])
    ensures r == MergeAll(sources)
  {
    var staging := new Folder();
    for k := 0 to |sources|
      invariant MergeAll(sources[..k]) == Some(staging.tree) && PrefixClosed(staging.tree)
    {
      assert sources[..k + 1][..k] == sources[..k];
      var ok := MergeCheckpointTrees(sources[k], listings[k], staging);
      if !ok {
        ConflictStays(sources, k + 1);
        return None;
      }
    }
    assert sources[..|sources|] == sources;
    return Some(staging.tree);
  }

  lemma {:induction false} ConflictStays(sources: seq<Tree>, k: nat)
    requires k <= |sources| && MergeAll(sources[..k]).None?
    ensures MergeAll(sources).None?
  {
    if k < |sources| {
      var front := sources[..|sources| - 1];
      assert front[..k] == sources[..k];
      ConflictStays(front, k);
    } else {
      assert sources[..k] == sources;
    }
  }

  ghost predicate PairwiseAgree(sources: seq<Tree>) {
    forall a, b :: a in sources && b in sources ==> Agree(a, b)
  }

  /** The tree holds exactly the sources' entries. */
  ghost predicate IsUnion(t: Tree, sources: seq<Tree>) {
    && (forall s, p :: s in sources && p in s ==> p in t && t[p] == s[p])
    && (forall p :: p in t ==> FromSome(sources, p))
  }

  ghost predicate FromSome(sources: seq<Tree>, p: Path) {
    exists s :: s in sources && p in s
  }

  lemma UnionAgrees(t: Tree, sources: seq<Tree>, next: Tree)
    requires IsUnion(t, sources)
    ensures Agree(t, next) <==> forall s :: s in sources ==> Agree(s, next)
  {
    if forall s :: s in sources ==> Agree(s, next) {
      forall p | p in t && p in next ensures t[p] == next[p] {
        assert FromSome(sources, p);
        var s :| s in sources && p in s;
        assert Agree(s, next);
      }
    }
    if Agree(t, next) {
      forall s | s in sources ensures Agree(s, next) {
        forall p | p in s && p in next ensures s[p] == next[p] { assert t[p] == s[p]; }
      }
    }
  }

  lemma UnionGrows(t: Tree, sources: seq<Tree>, next: Tree)
    requires IsUnion(t, sources) && Agree(t, next)
    ensures IsUnion(t + next, sources + [next])
  {
    var all := sources + [next];
    assert next in all && forall s :: s in all <==> s in sources || s == next;
    forall p | p in t + next ensures FromSome(all, p) {
      if p !in next {
        assert FromSome(sources, p);
        var s :| s in sources && p in s;
        assert s in all;
      }
    }
    forall s, p | s in all && p in s ensures p in t + next && (t + next)[p] == s[p] {
      if s in sources { assert t[p] == s[p]; }
    }
  }

  /** Merging succeeds exactly when the inputs agree pairwise, and yields their union. */
  lemma {:induction false} MergeAllMeaning(sources: seq<Tree>)
    ensures MergeAll(sources).Some? <==> PairwiseAgree(sources)
    ensures MergeAll(sources).Some? ==> IsUnion(MergeAll(sources).value, sources)
  {
    if sources != [] {
      var front, last := sources[..|sources| - 1], sources[|sources| - 1];
      MergeAllMeaning(front);
      assert sources == front + [last];
      assert last in sources && forall s :: s in sources <==> s in front || s == last;
      if MergeAll(front).Some? {
        UnionAgrees(MergeAll(front).value, front, last);
        if Agree(MergeAll(front).value, last) {
          UnionGrows(MergeAll(front).value, front, last);
          forall a, b | a in sources && b in sources ensures Agree(a, b) {
            if a != last && b != last { assert a in front && b in front; }
          }
        }
      }
    }
  }

  /** Neither the order of the inputs nor merging one of them again changes success or result. */
  lemma MergeOrderIsIrrelevant(a: seq<Tree>, b: seq<Tree>)
    requires Elements(a) == Elements(b)
    ensures MergeAll(a) == MergeAll(b)
  {
    MergeAllMeaning(a);
    MergeAllMeaning(b);
    SameAgreement(a, b);
    SameAgreement(b, a);
    if PairwiseAgree(a) {
      SameUnion(MergeAll(a).value, MergeAll(b).value, a, b);
    }
  }

  lemma SameAgreement(a: seq<Tree>, b: seq<Tree>)
    requires Elements(a) == Elements(b)
    ensures PairwiseAgree(a) ==> PairwiseAgree(b)
  {
    if PairwiseAgree(a) {
      forall s, t | s in b && t in b ensures Agree(s, t) {
        assert s in Elements(a) && t in Elements(a);
      }
    }
  }

  lemma SameUnion(t: Tree, u: Tree, a: seq<Tree>, b: seq<Tree>)
    requires IsUnion(t, a) && IsUnion(u, b) && Elements(a) == Elements(b)
    ensures t == u
  {
    forall p | p in t ensures p in u && u[p] == t[p] {
      EntryOfUnion(t, u, a, b, p);
    }
    forall p | p in u ensures p in t {
      EntryOfUnion(u, t, b, a, p);
    }
  }

  lemma EntryOfUnion(t: Tree, u: Tree, a: seq<Tree>, b: seq<Tree>, p: Path)
    requires IsUnion(t, a) && IsUnion(u, b) && Elements(a) == Elements(b) && p in t
    ensures p in u && u[p] == t[p]
  {
    assert FromSome(a, p);
    var s :| s in a && p in s;
    assert s in Elements(b);
  }
}
