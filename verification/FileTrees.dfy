/**
 Directory trees as maps from component paths, with the two file-system calls that
 tree merging and archive extraction are made of.
 */
module FileTrees {

  type Path = seq<string>

  type Bytes = seq<bv8>

  datatype Node = Directory | File(bytes: Bytes)

  /** The root itself, the empty path, is always a directory and never listed. */
  type Tree = map<Path, Node>

  predicate PrefixOf(p: Path, q: Path) {
    p <= q
  }

  predicate ProperPrefix(p: Path, q: Path) {
    |p| < |q| && q[..|p|] == p
  }

  /** Every listed path hangs off listed directories. */
  ghost predicate PrefixClosed(t: Tree) {
    && [] !in t
    && forall p, i :: p in t && 1 <= i < |p| ==> p[..i] in t && t[p[..i]] == Directory
  }

  predicate IsDirectory(t: Tree, p: Path) {
    p == [] || (p in t && t[p] == Directory)
  }

  /** No ancestor of p, nor p itself, is a file. */
  predicate NoFileOnTheWay(t: Tree, p: Path) {
    forall i :: 1 <= i <= |p| ==> p[..i] !in t || t[p[..i]] == Directory
  }

  /** The tree with p and all its missing ancestors made directories. */
  function WithDirectories(t: Tree, p: Path): Tree {
    if p == [] then t
    else
      var u := WithDirectories(t, p[..|p| - 1]);
      if p in u then u else u[p := Directory]
  }

  lemma {:induction false} WithDirectoriesAdds(t: Tree, p: Path)
    ensures var u := WithDirectories(t, p);
            && (forall q :: q in u <==> q in t || (q != [] && PrefixOf(q, p)))
            && (forall q :: q in t ==> u[q] == t[q])
            && (forall q :: q in u && q !in t ==> u[q] == Directory)
  {
    if p != [] {
      var front := p[..|p| - 1];
      WithDirectoriesAdds(t, front);
      forall q ensures PrefixOf(q, p) <==> PrefixOf(q, front) || q == p {
        if PrefixOf(q, p) && q != p { assert q == p[..|q|] == front[..|q|]; }
        if PrefixOf(q, front) { assert p[..|q|] == front[..|q|]; }
      }
    }
  }

  lemma WithDirectoriesClosed(t: Tree, p: Path)
    requires PrefixClosed(t) && NoFileOnTheWay(t, p)
    ensures PrefixClosed(WithDirectories(t, p))
  {
    WithDirectoriesAdds(t, p);
    var u := WithDirectories(t, p);
    forall q, i | q in u && 1 <= i < |q| ensures q[..i] in u && u[q[..i]] == Directory {
      if q !in t {
        assert q[..i] == p[..i];
      }
    }
  }

  class Folder {
    var tree: Tree

    constructor ()
      ensures tree == map[]
    {
      tree := map[];
    }

    /** mkdir with parents and exist_ok: fails, changing nothing, on a file in the way. */
    method MakeDirectories(p: Path) returns (ok: bool)
      modifies this
      ensures ok <==> forall i :: 1 <= i <= |p| ==> p[..i] !in old(tree) || old(tree)[p[..i]] == Directory
      ensures tree == if ok then WithDirectories(old(tree), p) else old(tree)
    {
      ok := NoFileOnTheWay(tree, p);
      if ok {
        tree := WithDirectories(tree, p);
      }
    }

    /** Exclusive creation: the name must be free and its parent a directory. */
    method CreateFile(p: Path, bytes: Bytes) returns (ok: bool)
      requires p != []
      modifies this
      ensures ok <==> p !in old(tree)
                      && (|p| == 1 || (p[..|p| - 1] in old(tree) && old(tree)[p[..|p| - 1]] == Directory))
      ensures tree == if ok then old(tree)[p := File(bytes)] else old(tree)
    {
      ok := p !in tree && IsDirectory(tree, p[..|p| - 1]);
      if ok {
        tree := tree[p := File(bytes)];
      }
    }

    /** Writing more bytes to a file that is open. */
    method Append(p: Path, bytes: Bytes)
      requires p in tree && tree[p].File?
      modifies this
      ensures tree == old(tree)[p := File(old(tree)[p].bytes + bytes)]
    {
      tree := tree[p := File(tree[p].bytes + bytes)];
    }
  }
}
