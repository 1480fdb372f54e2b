/**
 Unpacking a list of archive entries into a new directory, one entry after the other,
 and exactly when that can be done.
 */
module Unpacking {
  import opened Options
  import opened FileTrees
  import opened Sequences

  datatype Item = Item(path: Path, directory: bool, bytes: Bytes)

  // ---- What unpacking does ----

  /** One entry: a directory is made, a file is created exclusively below its parents. */
  function Placed(t: Tree, item: Item): Option<Tree>
    requires item.path != []
  {
    if item.directory then
      if NoFileOnTheWay(t, item.path) then Some(WithDirectories(t, item.path)) else None
    else
      var parent := item.path[..|item.path| - 1];
      if NoFileOnTheWay(t, parent) && item.path !in t
      then Some(WithDirectories(t, parent)[item.path := File(item.bytes)])
      else None
  }

  predicate AllNamed(items: seq<Item>) {
    forall k :: 0 <= k < |items| ==> items[k].path != []
  }

  /** The entries unpacked in order into an empty directory; None is a collision. */
  function Unpacked(items: seq<Item>): Option<Tree>
    requires AllNamed(items)
  {
    if items == [] then Some(map[])
    else
      var front := Unpacked(items[..|items| - 1]);
      if front.None? then None else Placed(front.value, items[|items| - 1])
  }

  // ---- When it succeeds ----

  /** No file is at, or above, the place of another entry. */
  ghost predicate NoCollision(items: seq<Item>) {
    forall i, j :: 0 <= i < |items| && 0 <= j < |items| && i != j && !items[i].directory ==>
      !PrefixOf(items[i].path, items[j].path)
  }

  ghost predicate Clash(a: Item, b: Item) {
    || (!a.directory && PrefixOf(a.path, b.path))
    || (!b.directory && PrefixOf(b.path, a.path))
  }

  ghost predicate AtOrAbove(p: Path, items: seq<Item>) {
    exists m :: m in items && PrefixOf(p, m.path)
  }

  ghost predicate DeclaredFile(p: Path, items: seq<Item>, bytes: Bytes) {
    exists m :: m in items && !m.directory && m.path == p && m.bytes == bytes
  }

  /** Exactly the declared entries and the directories above them. */
  ghost predicate IsExtraction(t: Tree, items: seq<Item>) {
    && (forall p :: p in t <==> p != [] && AtOrAbove(p, items))
    && (forall p :: p in t && t[p].File? ==> DeclaredFile(p, items, t[p].bytes))
    && (forall m :: m in items && !m.directory ==> m.path in t && t[m.path] == File(m.bytes))
  }

  lemma CollisionsOfLast(items: seq<Item>, last: Item)
    ensures NoCollision(items + [last]) <==> NoCollision(items) && forall m :: m in items ==> !Clash(m, last)
  {
    var all := items + [last];
    if NoCollision(all) {
      forall m | m in items ensures !Clash(m, last) {
        var i :| 0 <= i < |items| && items[i] == m;
        assert all[i] == m && all[|items|] == last;
      }
      forall i, j | 0 <= i < |items| && 0 <= j < |items| && i != j && !items[i].directory
        ensures !PrefixOf(items[i].path, items[j].path)
      {
        assert all[i] == items[i] && all[j] == items[j];
      }
    }
    if NoCollision(items) && forall m :: m in items ==> !Clash(m, last) {
      forall i, j | 0 <= i < |all| && 0 <= j < |all| && i != j && !all[i].directory
        ensures !PrefixOf(all[i].path, all[j].path)
      {
        if i == |items| {
          assert all[j] in items;
        } else if j == |items| {
          assert all[i] in items;
        }
      }
    }
  }

  lemma FileInTheWay(t: Tree, items: seq<Item>, p: Path)
    requires IsExtraction(t, items)
    ensures NoFileOnTheWay(t, p) <==>
            forall m :: m in items && !m.directory && m.path != [] ==> !PrefixOf(m.path, p)
  {
    if m :| m in items && !m.directory && m.path != [] && PrefixOf(m.path, p) {
      assert p[..|m.path|] == m.path;
    }
    if !NoFileOnTheWay(t, p) {
      var i :| 1 <= i <= |p| && p[..i] in t && t[p[..i]] != Directory;
      var q := p[..i];
      assert DeclaredFile(q, items, t[q].bytes);
      var m :| m in items && !m.directory && m.path == q && m.bytes == t[q].bytes;
      assert PrefixOf(m.path, p);
    }
  }

  /** The last entry can be placed exactly when it clashes with none before it. */
  lemma PlacedWhen(t: Tree, items: seq<Item>, last: Item)
    requires IsExtraction(t, items) && AllNamed(items) && last.path != []
    ensures Placed(t, last).Some? <==> forall m :: m in items ==> !Clash(m, last)
  {
    var p := last.path;
    forall m | m in items ensures m.path != [] {}
    if last.directory {
      FileInTheWay(t, items, p);
    } else {
      var parent := p[..|p| - 1];
      FileInTheWay(t, items, parent);
      forall q ensures PrefixOf(q, p) <==> PrefixOf(q, parent) || q == p {
        PrefixOfParent(q, p);
      }
      assert p in t <==> AtOrAbove(p, items);
    }
  }

  lemma PrefixOfParent(q: Path, p: Path)
    requires p != []
    ensures PrefixOf(q, p) <==> PrefixOf(q, p[..|p| - 1]) || q == p
  {
    var parent := p[..|p| - 1];
    if PrefixOf(q, p) && q != p { assert q == p[..|q|] == parent[..|q|]; }
    if PrefixOf(q, parent) { assert p[..|q|] == parent[..|q|]; }
  }

  /** The tree that results: what a placed entry adds is what it declares. */
  lemma PlacedAdds(t: Tree, item: Item)
    requires item.path != [] && Placed(t, item).Some?
    ensures var u := Placed(t, item).value;
            && (forall q :: q in u <==> q in t || (q != [] && PrefixOf(q, item.path)))
            && (forall q :: q in t ==> u[q] == t[q])
            && (forall q :: q in u && q !in t ==>
                  u[q] == if !item.directory && q == item.path then File(item.bytes) else Directory)
  {
    var p := item.path;
    if item.directory {
      WithDirectoriesAdds(t, p);
    } else {
      WithDirectoriesAdds(t, p[..|p| - 1]);
      forall q ensures PrefixOf(q, p) <==> PrefixOf(q, p[..|p| - 1]) || q == p {
        PrefixOfParent(q, p);
      }
    }
  }

  lemma PlacedExtends(t: Tree, items: seq<Item>, last: Item)
    requires IsExtraction(t, items) && last.path != [] && Placed(t, last).Some?
    ensures IsExtraction(Placed(t, last).value, items + [last])
  {
    var u, all := Placed(t, last).value, items + [last];
    PlacedAdds(t, last);
    assert last in all && forall m :: m in all <==> m in items || m == last;
    forall p ensures AtOrAbove(p, all) <==> AtOrAbove(p, items) || PrefixOf(p, last.path) {
      if AtOrAbove(p, items) {
        var m :| m in items && PrefixOf(p, m.path);
        assert m in all;
      }
    }
    forall p | p in u && u[p].File? ensures DeclaredFile(p, all, u[p].bytes) {
      if p in t {
        assert DeclaredFile(p, items, t[p].bytes);
        var m :| m in items && !m.directory && m.path == p && m.bytes == t[p].bytes;
        assert m in all;
      } else {
        assert p == last.path;
      }
    }
    if !last.directory { assert last.path !in t && PrefixOf(last.path, last.path); }
  }

  /**
   Unpacking succeeds exactly when no file is at or above another entry, whatever the
   order, and leaves exactly the declared entries and the directories above them.
   */
  lemma {:induction false} UnpackedMeaning(items: seq<Item>)
    requires AllNamed(items)
    ensures Unpacked(items).Some? <==> NoCollision(items)
    ensures Unpacked(items).Some? ==> IsExtraction(Unpacked(items).value, items)
  {
    if items != [] {
      var front, last := items[..|items| - 1], items[|items| - 1];
      UnpackedMeaning(front);
      assert items == front + [last];
      CollisionsOfLast(front, last);
      if Unpacked(front).Some? {
        PlacedWhen(Unpacked(front).value, front, last);
        if Placed(Unpacked(front).value, last).Some? {
          PlacedExtends(Unpacked(front).value, front, last);
        }
      }
    }
  }

  lemma {:induction false} CollisionStays(items: seq<Item>, k: nat)
    requires AllNamed(items) && k <= |items| && Unpacked(items[..k]).None?
    ensures Unpacked(items).None?
  {
    if k < |items| {
      var front := items[..|items| - 1];
      assert front[..k] == items[..k];
      CollisionStays(front, k);
    } else {
      assert items[..k] == items;
    }
  }

  /** A tree is determined by the entries it is the extraction of. */
  lemma ExtractionIsUnique(t: Tree, u: Tree, items: seq<Item>)
    requires IsExtraction(t, items) && IsExtraction(u, items)
    ensures t == u
  {
    forall p | p in t ensures p in u && t[p] == u[p] {
      FileIsDeclared(t, u, items, p);
      FileIsDeclared(u, t, items, p);
    }
  }

  lemma FileIsDeclared(t: Tree, u: Tree, items: seq<Item>, p: Path)
    requires IsExtraction(t, items) && IsExtraction(u, items) && p in t && p in u
    ensures t[p].File? ==> u[p] == t[p]
  {
    if t[p].File? {
      assert DeclaredFile(p, items, t[p].bytes);
      var m :| m in items && !m.directory && m.path == p && m.bytes == t[p].bytes;
    }
  }

  /** The order of the entries changes neither success nor result. */
  lemma UnpackOrderIsIrrelevant(a: seq<Item>, b: seq<Item>)
    requires AllNamed(a) && AllNamed(b) && multiset(a) == multiset(b)
    ensures Unpacked(a) == Unpacked(b)
  {
    SameMembers(a, b);
    UnpackedMeaning(a);
    UnpackedMeaning(b);
    SameCollisions(a, b);
    SameCollisions(b, a);
    if Unpacked(a).Some? {
      SameExtraction(Unpacked(b).value, b, a);
      ExtractionIsUnique(Unpacked(a).value, Unpacked(b).value, a);
    }
  }

  lemma SameExtraction(t: Tree, b: seq<Item>, a: seq<Item>)
    requires IsExtraction(t, b) && forall m :: m in a <==> m in b
    ensures IsExtraction(t, a)
  {
    forall p ensures AtOrAbove(p, a) <==> AtOrAbove(p, b) {
      if AtOrAbove(p, b) {
        var m :| m in b && PrefixOf(p, m.path);
        assert m in a;
      }
      if AtOrAbove(p, a) {
        var m :| m in a && PrefixOf(p, m.path);
        assert m in b;
      }
    }
    forall p | p in t && t[p].File? ensures DeclaredFile(p, a, t[p].bytes) {
      assert DeclaredFile(p, b, t[p].bytes);
      var m :| m in b && !m.directory && m.path == p && m.bytes == t[p].bytes;
      assert m in a;
    }
  }

  lemma SameCollisions(a: seq<Item>, b: seq<Item>)
    requires multiset(a) == multiset(b)
    ensures NoCollision(a) ==> NoCollision(b)
  {
    if NoCollision(a) {
      SameMembers(a, b);
      forall i, j | 0 <= i < |b| && 0 <= j < |b| && i != j && !b[i].directory
        ensures !PrefixOf(b[i].path, b[j].path)
      {
        PairInOther(a, b, i, j);
      }
    }
  }
}
