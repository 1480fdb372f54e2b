/**
 Source packets: which changed paths are accepted, the archive made of the changed files,
 and on which file systems it can be unpacked.
 */
module PortablePaths {
  import opened Options
  import opened FileTrees
  import opened Sequences
  import opened Sorting
  import opened Text
  import opened Unpacking

  datatype Change = Change(status: string, path: string)

  datatype Entry = Entry(mode: string, isBlob: bool, oid: string)

  /** A commit's tree: each full path with its entry. */
  type Entries = map<string, Entry>

  datatype Packed = Packed(path: string, bytes: Bytes, mode: string)

  datatype TarMember = TarMember(name: string, bytes: Bytes, mode: string, regular: bool)

  // ---- Changed paths ----

  predicate Reserved(stem: string) {
    || stem in ["con", "prn", "aux", "nul", "conin$", "conout$"]
    || (|stem| == 4 && (stem[..3] == "com" || stem[..3] == "lpt") && stem[3] in "123456789\U{00B9}\U{00B2}\U{00B3}")
  }

  function TrimSpaces(s: string): string {
    if s != "" && s[|s| - 1] == ' ' then TrimSpaces(s[..|s| - 1]) else s
  }

  /** The device names, without case: with a digit or a superscript digit after the last two. */
  lemma DeviceNames(stem: string)
    ensures Reserved(stem) <==>
            || stem == "con" || stem == "prn" || stem == "aux" || stem == "nul"
            || stem == "conin$" || stem == "conout$"
            || ((stem[..if |stem| < 3 then |stem| else 3] == "com" || stem[..if |stem| < 3 then |stem| else 3] == "lpt")
                && |stem| == 4
                && ('1' <= stem[3] <= '9' || stem[3] == '\U{00B9}' || stem[3] == '\U{00B2}' || stem[3] == '\U{00B3}'))
  {
  }

  lemma {:induction false} TrimsSpaces(s: string)
    ensures TrimSpaces(s) <= s && forall k :: |TrimSpaces(s)| <= k < |s| ==> s[k] == ' '
    ensures TrimSpaces(s) != "" ==> TrimSpaces(s)[|TrimSpaces(s)| - 1] != ' '
  {
    if s != "" && s[|s| - 1] == ' ' { TrimsSpaces(s[..|s| - 1]); }
  }

  predicate SafeComponent(part: string) {
    && part !in ["", ".", ".."] && Fold(part) !in [".git", "git~1"]
    && part[|part| - 1] != '.' && part[|part| - 1] != ' '
    && !Reserved(Fold(TrimSpaces(part[..IndexOf(part, '.')])))
  }

  predicate SafeCharacter(c: char) {
    c as int >= 32 && c as int != 127 && c !in "\\<>:\"|?*"
  }

  /** A path every supported platform can hold. */
  predicate SafePath(path: string) {
    && (forall k :: 0 <= k < |path| ==> SafeCharacter(path[k]))
    && (forall k :: 0 <= k < |Split(path, '/')| ==> SafeComponent(Split(path, '/')[k]))
  }

  function Fields(raw: string): seq<string> {
    var fields := Split(raw, '\0');
    if fields[|fields| - 1] == "" then fields[..|fields| - 1] else fields
  }

  /** The fields of a stream are what stands between its terminators; the last one may lack its own. */
  lemma StreamFields(fields: seq<string>)
    requires fields != [] && forall k :: 0 <= k < |fields| ==> '\0' !in fields[k]
    ensures Fields(Join(fields + [""], '\0')) == fields
    ensures fields[|fields| - 1] != "" ==> Fields(Join(fields, '\0')) == fields
  {
    SplitOfJoin(fields, '\0');
    FieldsOfSplit(Join(fields, '\0'), fields);
    SplitOfJoin(fields + [""], '\0');
    FieldsOfSplit(Join(fields + [""], '\0'), fields + [""]);
    assert (fields + [""])[..|fields|] == fields;
  }

  lemma FieldsOfSplit(raw: string, parts: seq<string>)
    requires Split(raw, '\0') == parts
    ensures Fields(raw) == if parts[|parts| - 1] == "" then parts[..|parts| - 1] else parts
  {
  }

  function Pairs(fields: seq<string>): (changes: seq<Change>)
    ensures |changes| == |fields| / 2
    ensures forall k :: 0 <= k < |changes| ==> changes[k] == Change(fields[2 * k], fields[2 * k + 1])
  {
    if |fields| < 2 then [] else [Change(fields[0], fields[1])] + Pairs(fields[2..])
  }

  predicate Supported(change: Change) {
    change.status in ["A", "D", "M", "T"] && SafePath(change.path)
  }

  predicate ByPath(a: Change, b: Change) {
    Precedes(a.path, b.path)
  }

  /** No two changes name the same path on a file system that ignores case. */
  ghost predicate DistinctFolded(changes: seq<Change>) {
    forall i, j :: 0 <= i < |changes| && 0 <= j < |changes| && i != j ==>
      Fold(changes[i].path) != Fold(changes[j].path)
  }

  ghost predicate PathsAccepted(fields: seq<string>) {
    && |fields| % 2 == 0 && (forall k :: 0 <= k < |fields| / 2 ==> Supported(Pairs(fields)[k]))
    && DistinctFolded(Pairs(fields))
  }

  /** The sets the loop has filled after some changes. */
  ghost predicate SeenSoFar(changes: seq<Change>, seenPaths: set<string>, windowsNames: set<string>) {
    && (forall p :: p in seenPaths <==> exists k :: 0 <= k < |changes| && changes[k].path == p)
    && (forall f :: f in windowsNames <==> exists k :: 0 <= k < |changes| && Fold(changes[k].path) == f)
    && DistinctFolded(changes)
  }

  lemma SeeOneMore(changes: seq<Change>, c: Change, seenPaths: set<string>, windowsNames: set<string>)
    requires SeenSoFar(changes, seenPaths, windowsNames) && Fold(c.path) !in windowsNames
    ensures SeenSoFar(changes + [c], seenPaths + {c.path}, windowsNames + {Fold(c.path)})
  {
    var all := changes + [c];
    assert all[|changes|] == c && forall k :: 0 <= k < |changes| ==> all[k] == changes[k];
    forall p ensures p in seenPaths + {c.path} <==> exists k :: 0 <= k < |all| && all[k].path == p {
      if p in seenPaths {
        var k :| 0 <= k < |changes| && changes[k].path == p;
        assert all[k].path == p;
      }
    }
    forall f ensures f in windowsNames + {Fold(c.path)} <==> exists k :: 0 <= k < |all| && Fold(all[k].path) == f {
      if f in windowsNames {
        var k :| 0 <= k < |changes| && Fold(changes[k].path) == f;
        assert Fold(all[k].path) == f;
      }
    }
  }

  /** The repeated-path test is subsumed by the folded one. */
  lemma RepeatedFold(changes: seq<Change>, c: Change, seenPaths: set<string>, windowsNames: set<string>)
    requires SeenSoFar(changes, seenPaths, windowsNames)
    ensures c.path in seenPaths ==> Fold(c.path) in windowsNames
    ensures Fold(c.path) in windowsNames ==> !DistinctFolded(changes + [c])
  {
    var all := changes + [c];
    if Fold(c.path) in windowsNames {
      var k :| 0 <= k < |changes| && Fold(changes[k].path) == Fold(c.path);
      assert all[k] == changes[k] && all[|changes|] == c;
    }
  }

  /** The loop after k changes; `pairs` are all of them. */
  ghost predicate Progress(pairs: seq<Change>, k: nat, result: seq<Change>, seenPaths: set<string>,
                           windowsNames: set<string>)
    requires k <= |pairs|
  {
    && result == pairs[..k] && SeenSoFar(result, seenPaths, windowsNames)
    && forall i :: 0 <= i < k ==> Supported(pairs[i])
  }

  lemma ProgressStep(pairs: seq<Change>, k: nat, result: seq<Change>, seenPaths: set<string>,
                     windowsNames: set<string>)
    requires k < |pairs| && Progress(pairs, k, result, seenPaths, windowsNames) && Supported(pairs[k])
    ensures var c := pairs[k];
            if c.path in seenPaths || Fold(c.path) in windowsNames then !DistinctFolded(pairs)
            else Progress(pairs, k + 1, result + [c], seenPaths + {c.path}, windowsNames + {Fold(c.path)})
  {
    var c := pairs[k];
    RepeatedFold(result, c, seenPaths, windowsNames);
    assert pairs[..k + 1] == result + [c];
    if Fold(c.path) in windowsNames {
      var i :| 0 <= i < k && Fold(pairs[i].path) == Fold(c.path);
    } else {
      SeeOneMore(result, c, seenPaths, windowsNames);
    }
  }

  /** The checks on one component, in turn. */
  method CheckComponent(part: string) returns (ok: bool)
    ensures ok <==> SafeComponent(part)
  {
    if part == "" || part == "." || part == ".." {
      return false;
    }
    if Fold(part) == ".git" || Fold(part) == "git~1" {
      return false;
    }
    if EndsWith(part, ".") || EndsWith(part, " ") {
      return false;
    }
    return !Reserved(Fold(TrimSpaces(part[..IndexOf(part, '.')])));
  }

  /** The checks on one path. */
  method CheckPath(path: string) returns (ok: bool)
    ensures ok <==> SafePath(path)
  {
    for k := 0 to |path|
      invariant forall i :: 0 <= i < k ==> SafeCharacter(path[i])
    {
      var c := path[k];
      if c == '\\' || (c as int) < 32 || c as int == 127 || c in "<>:\"|?*" {
        return false;
      }
    }
    var parts := Split(path, '/');
    for k := 0 to |parts|
      invariant forall i :: 0 <= i < k ==> SafeComponent(parts[i])
    {
      var safe := CheckComponent(parts[k]);
      if !safe {
        return false;
      }
    }
    return true;
  }

  method ChangedPaths(raw: string) returns (r: Result<seq<Change>>)
    ensures r.Ok? <==> PathsAccepted(Fields(raw))
    ensures r.Ok? ==> r.value == SortBy(Pairs(Fields(raw)), ByPath)
  {
    var fields := Fields(raw);
    if |fields| % 2 != 0 {
      return Raised;
    }
    r := UniquePaths(fields);
  }

  method UniquePaths(fields: seq<string>) returns (r: Result<seq<Change>>)
    requires |fields| % 2 == 0
    ensures r.Ok? <==> PathsAccepted(fields)
    ensures r.Ok? ==> r.value == SortBy(Pairs(fields), ByPath)
  {
    ghost var pairs := Pairs(fields);
    var result: seq<Change> := [];
    var seenPaths: set<string>, windowsNames: set<string> := {}, {};
    for k := 0 to |fields| / 2
      invariant Progress(pairs, k, result, seenPaths, windowsNames)
    {
      var change := Change(fields[2 * k], fields[2 * k + 1]);
      if change.status != "A" && change.status != "D" && change.status != "M" && change.status != "T" {
        return Raised;
      }
      var safe := CheckPath(change.path);
      if !safe {
        return Raised;
      }
      ProgressStep(pairs, k, result, seenPaths, windowsNames);
      var foldedPath := Fold(change.path);
      if change.path in seenPaths || foldedPath in windowsNames {
        return Raised;
      }
      seenPaths := seenPaths + {change.path};
      windowsNames := windowsNames + {foldedPath};
      result := result + [change];
    }
    assert pairs[..|pairs|] == pairs;
    return Ok(SortBy(result, ByPath));
  }

  // ---- Prefix collisions ----

  /** The components of a path on a file system that ignores case. */
  function Components(path: string): Path {
    Split(Fold(path), '/')
  }

  /** No file sits, up to case, where another file needs a directory. */
  ghost predicate FoldedLeaves(paths: seq<string>) {
    forall i, j :: 0 <= i < |paths| && 0 <= j < |paths| ==>
      !ProperPrefix(Components(paths[i]), Components(paths[j]))
  }

  predicate HasFoldedParent(folded: set<string>, components: Path) {
    exists index :: 1 <= index < |components| && Join(components[..index], '/') in folded
  }

  method RejectPrefixCollisions(filePaths: seq<string>) returns (ok: bool)
    ensures ok <==> FoldedLeaves(filePaths)
  {
    var foldedFiles := set k | 0 <= k < |filePaths| :: Fold(filePaths[k]);
    for k := 0 to |filePaths|
      invariant forall i :: 0 <= i < k ==> !HasFoldedParent(foldedFiles, Components(filePaths[i]))
    {
      ParentMeaning(filePaths, foldedFiles, k);
      if HasFoldedParent(foldedFiles, Split(Fold(filePaths[k]), '/')) {
        return false;
      }
    }
    forall i, j | 0 <= i < |filePaths| && 0 <= j < |filePaths|
      ensures !ProperPrefix(Components(filePaths[i]), Components(filePaths[j]))
    {
      ParentMeaning(filePaths, foldedFiles, j);
    }
    return true;
  }

  ghost predicate IsFolded(paths: seq<string>, folded: set<string>) {
    && (forall i :: 0 <= i < |paths| ==> Fold(paths[i]) in folded)
    && (forall f :: f in folded ==> exists i :: 0 <= i < |paths| && Fold(paths[i]) == f)
  }

  lemma ParentMeaning(paths: seq<string>, folded: set<string>, k: nat)
    requires k < |paths| && IsFolded(paths, folded)
    ensures HasFoldedParent(folded, Components(paths[k])) <==>
            exists i :: 0 <= i < |paths| && ProperPrefix(Components(paths[i]), Components(paths[k]))
  {
    var components := Components(paths[k]);
    SplitPartsClean(Fold(paths[k]), '/');
    if HasFoldedParent(folded, components) {
      var index :| 1 <= index < |components| && Join(components[..index], '/') in folded;
      var i :| 0 <= i < |paths| && Fold(paths[i]) == Join(components[..index], '/');
      SplitOfJoin(components[..index], '/');
      assert ProperPrefix(Components(paths[i]), components);
    }
    if i :| 0 <= i < |paths| && ProperPrefix(Components(paths[i]), components) {
      JoinOfSplit(Fold(paths[i]), '/');
      assert components[..|Components(paths[i])|] == Components(paths[i]);
    }
  }

  // ---- Unpacking where case is ignored ----

  ghost predicate DistinctNames(paths: seq<string>) {
    forall i, j :: 0 <= i < |paths| && 0 <= j < |paths| && i != j ==> Fold(paths[i]) != Fold(paths[j])
  }

  /** The files as a file system that ignores case sees them. */
  function FoldedItems(paths: seq<string>, contents: seq<Bytes>): (items: seq<Item>)
    requires |contents| == |paths|
    ensures |items| == |paths|
    ensures forall k :: 0 <= k < |paths| ==> items[k] == Item(Components(paths[k]), false, contents[k])
    ensures AllNamed(items)
  {
    seq(|paths|, k requires 0 <= k < |paths| => Item(Components(paths[k]), false, contents[k]))
  }

  /**
   The two checks together pass exactly when the files can be unpacked, in any order, on a
   file system that ignores case.
   */
  lemma PortableExactlyWhenUnpacks(paths: seq<string>, contents: seq<Bytes>)
    requires |contents| == |paths|
    ensures DistinctNames(paths) && FoldedLeaves(paths) <==> Unpacked(FoldedItems(paths, contents)).Some?
  {
    var items := FoldedItems(paths, contents);
    UnpackedMeaning(items);
    if DistinctNames(paths) && FoldedLeaves(paths) {
      forall i, j | 0 <= i < |items| && 0 <= j < |items| && i != j
        ensures !PrefixOf(items[i].path, items[j].path)
      {
        if PrefixOf(items[i].path, items[j].path) {
          PrefixIsSameOrParent(paths[i], paths[j]);
        }
      }
    }
    if NoCollision(items) {
      forall i, j | 0 <= i < |paths| && 0 <= j < |paths|
        ensures i != j ==> Fold(paths[i]) != Fold(paths[j])
        ensures !ProperPrefix(Components(paths[i]), Components(paths[j]))
      {
        assert i != j ==> !items[i].directory && !PrefixOf(items[i].path, items[j].path);
      }
    }
  }

  lemma PrefixIsSameOrParent(a: string, b: string)
    requires PrefixOf(Components(a), Components(b))
    ensures Fold(a) == Fold(b) || ProperPrefix(Components(a), Components(b))
  {
    JoinOfSplit(Fold(a), '/');
    JoinOfSplit(Fold(b), '/');
    assert Components(b)[..|Components(a)|] == Components(a);
    if |Components(a)| == |Components(b)| { assert Components(a) == Components(b); }
  }

  // ---- The archive ----

  predicate ByName(a: Packed, b: Packed) {
    Precedes(a.path, b.path)
  }

  function TarName(p: Packed): string {
    "files/" + p.path
  }

  function AsTar(p: Packed): TarMember {
    TarMember(TarName(p), p.bytes, p.mode, true)
  }

  /** The archive: the members in the order of their names. */
  method MakeTar(members: seq<Packed>) returns (tar: seq<TarMember>)
    ensures tar == Mapped(SortBy(members, ByName), AsTar)
  {
    var sorted := SortBy(members, ByName);
    ghost var whole := Mapped(sorted, AsTar);
    tar := [];
    for k := 0 to |sorted|
      invariant tar == whole[..k]
    {
      tar := tar + [AsTar(sorted[k])];
      assert whole[..k + 1] == whole[..k] + [whole[k]];
    }
    assert whole[..|sorted|] == whole;
  }

  function NameOf(m: TarMember): string {
    m.name
  }

  predicate Faithful(m: TarMember, expected: map<string, Bytes>) {
    m.regular && m.name in expected && m.bytes == expected[m.name]
  }

  ghost predicate Lists(names: seq<string>, expected: map<string, Bytes>) {
    Distinct(names) && forall n :: n in names <==> n in expected
  }

  /** Every member, found by its name, is regular and has the expected bytes. */
  method MembersFaithful(tar: seq<TarMember>, expected: map<string, Bytes>) returns (ok: bool)
    requires forall m :: m in tar ==> m.name in expected
    ensures ok <==> forall m :: m in tar ==> Faithful(m, expected)
  {
    for k := 0 to |tar|
      invariant forall i :: 0 <= i < k ==> Faithful(tar[i], expected)
    {
      var m := tar[k];
      assert m in tar;
      if !m.regular || m.bytes != expected[m.name] {
        return false;
      }
    }
    return true;
  }

  /** Reopening the archive: the names in sorted order, every member regular with the expected bytes. */
  method VerifyTar(tar: seq<TarMember>, names: seq<string>, expected: map<string, Bytes>) returns (ok: bool)
    requires Lists(names, expected)
    ensures ok <==> Mapped(tar, NameOf) == SortBy(names, Precedes)
                    && forall m :: m in tar ==> Faithful(m, expected)
  {
    if Mapped(tar, NameOf) != SortBy(names, Precedes) {
      return false;
    }
    NamesAreListed(tar, names);
    ok := MembersFaithful(tar, expected);
  }

  lemma TextIsLinear()
    ensures Linear(Precedes)
    ensures Linear(ByName) && Linear(ByPath)
  {
    forall a: string, b: string, c: string
      ensures Precedes(a, b) ==> !Precedes(b, a)
      ensures !Precedes(b, a) && !Precedes(c, b) ==> !Precedes(c, a)
    {
      PrecedesIsLinear(a, b, c);
    }
  }

  lemma NamesAreListed(tar: seq<TarMember>, names: seq<string>)
    requires Mapped(tar, NameOf) == SortBy(names, Precedes)
    ensures forall m :: m in tar ==> m.name in names
  {
    TextIsLinear();
    SortByMeaning(names, Precedes);
    SameMembers(names, SortBy(names, Precedes));
    forall m | m in tar ensures m.name in names {
      var k :| 0 <= k < |tar| && tar[k] == m;
      assert Mapped(tar, NameOf)[k] in SortBy(names, Precedes);
    }
  }

  /** What the archive is checked against. */
  ghost predicate ExpectedFor(members: seq<Packed>, expected: map<string, Bytes>) {
    && Distinct(Mapped(members, TarName))
    && (forall n :: n in Mapped(members, TarName) <==> n in expected)
    && forall p :: p in members ==> TarName(p) in expected && expected[TarName(p)] == p.bytes
  }

  lemma {:induction false} MappedTwice(members: seq<Packed>)
    ensures Mapped(Mapped(members, AsTar), NameOf) == Mapped(members, TarName)
  {
    if members != [] { MappedTwice(members[1..]); }
  }

  /** The archive that was made passes its own verification. */
  lemma MadeTarVerifies(members: seq<Packed>, expected: map<string, Bytes>)
    requires ExpectedFor(members, expected)
    ensures var tar := Mapped(SortBy(members, ByName), AsTar);
            && Mapped(tar, NameOf) == SortBy(Mapped(members, TarName), Precedes)
            && forall m :: m in tar ==> Faithful(m, expected)
  {
    var sorted := SortBy(members, ByName);
    var tar := Mapped(sorted, AsTar);
    TextIsLinear();
    SortByMeaning(members, ByName);
    SameMembers(members, sorted);
    MappedTwice(sorted);
    forall a, b ensures ByName(a, b) <==> Precedes(TarName(a), TarName(b)) {
      PrecedesBelow("files/", a.path, b.path);
    }
    SortCommutes(members, TarName, ByName, Precedes);
    forall m | m in tar ensures Faithful(m, expected) {
      var k :| 0 <= k < |tar| && tar[k] == m;
      assert sorted[k] in members;
    }
  }

  // ---- From the changes to the archive ----

  predicate EntrySupported(e: Option<Entry>) {
    e.None? || ((e.value.mode == "100644" || e.value.mode == "100755") && e.value.isBlob)
  }

  function Lookup(entries: Entries, path: string): Option<Entry> {
    if path in entries then Some(entries[path]) else None
  }

  /** The status agrees with the two commits, and neither side is a link or a submodule. */
  predicate InventoryAgrees(c: Change, base: Entries, head: Entries) {
    && (c.status == "A" ==> c.path !in base && c.path in head)
    && (c.status == "D" ==> c.path in base && c.path !in head)
    && (c.status == "M" || c.status == "T" ==> c.path in base && c.path in head)
    && EntrySupported(Lookup(base, c.path)) && EntrySupported(Lookup(head, c.path))
  }

  /** The changed files that exist at the head, with their blobs. */
  function HeadFiles(changes: seq<Change>, head: Entries, blobs: string -> Bytes): seq<Packed> {
    if changes == [] then []
    else
      var front, c := HeadFiles(changes[..|changes| - 1], head, blobs), changes[|changes| - 1];
      if c.path in head
      then front + [Packed(c.path, blobs(head[c.path].oid), head[c.path].mode)]
      else front
  }

  function PathOf(p: Packed): string {
    p.path
  }

  /** One change against the trees of the two commits. */
  method CheckChange(c: Change, base: Entries, head: Entries) returns (ok: bool)
    requires c.status in ["A", "D", "M", "T"]
    ensures ok <==> InventoryAgrees(c, base, head)
  {
    var isOld, isNew := c.path in base, c.path in head;
    if (c.status == "A" && (isOld || !isNew)) || (c.status == "D" && (!isOld || isNew)) {
      return false;
    }
    if c.status in ["M", "T"] && (!isOld || !isNew) {
      return false;
    }
    if isOld && (base[c.path].mode !in ["100644", "100755"] || !base[c.path].isBlob) {
      return false;
    }
    if isNew && (head[c.path].mode !in ["100644", "100755"] || !head[c.path].isBlob) {
      return false;
    }
    return true;
  }

  /** What the first k changes give: the head's files, and the bytes expected under their names. */
  ghost predicate Gathered(
    changes: seq<Change>, k: nat, head: Entries, blobs: string -> Bytes, members: seq<Packed>,
    expected: map<string, Bytes>)
  {
    k <= |changes| && members == HeadFiles(changes[..k], head, blobs) && ExpectedFor(members, expected)
  }

  lemma GatherOne(
    changes: seq<Change>, k: nat, head: Entries, blobs: string -> Bytes, members: seq<Packed>,
    expected: map<string, Bytes>, packed: Packed)
    requires k < |changes| && changes[k].path in head && DistinctFolded(changes)
    requires Gathered(changes, k, head, blobs, members, expected)
    requires packed == Packed(changes[k].path, blobs(head[changes[k].path].oid), head[changes[k].path].mode)
    ensures Gathered(changes, k + 1, head, blobs, members + [packed], expected[TarName(packed) := packed.bytes])
  {
    assert changes[..k + 1][..k] == changes[..k];
    HeadFilesAreChanges(changes[..k], head, blobs);
    NewPath(changes, k, members);
    NewName(members, packed, expected);
  }

  lemma GatherNone(
    changes: seq<Change>, k: nat, head: Entries, blobs: string -> Bytes, members: seq<Packed>,
    expected: map<string, Bytes>)
    requires k < |changes| && changes[k].path !in head
    requires Gathered(changes, k, head, blobs, members, expected)
    ensures Gathered(changes, k + 1, head, blobs, members, expected)
  {
    assert changes[..k + 1][..k] == changes[..k];
  }

  method ReadMembers(changes: seq<Change>, base: Entries, head: Entries, blobs: string -> Bytes)
    returns (r: Result<seq<Packed>>, expected: map<string, Bytes>)
    requires DistinctFolded(changes)
    ensures r.Ok? <==> forall k :: 0 <= k < |changes| ==> InventoryAgrees(changes[k], base, head)
    ensures r.Ok? ==> r.value == HeadFiles(changes, head, blobs) && ExpectedFor(r.value, expected)
  {
    var members: seq<Packed> := [];
    expected := map[];
    for k := 0 to |changes|
      invariant forall i :: 0 <= i < k ==> InventoryAgrees(changes[i], base, head)
      invariant Gathered(changes, k, head, blobs, members, expected)
    {
      var c := changes[k];
      if !InventoryAgrees(c, base, head) {
        return Raised, map[];
      }
      if c.path in head {
        var packed := Packed(c.path, blobs(head[c.path].oid), head[c.path].mode);
        GatherOne(changes, k, head, blobs, members, expected, packed);
        members := members + [packed];
        expected := expected[TarName(packed) := packed.bytes];
      } else {
        GatherNone(changes, k, head, blobs, members, expected);
      }
    }
    assert changes[..|changes|] == changes;
    r := Ok(members);
  }

  lemma {:induction false} HeadFilesAreChanges(changes: seq<Change>, head: Entries, blobs: string -> Bytes)
    ensures forall p :: p in HeadFiles(changes, head, blobs) ==>
              exists k :: 0 <= k < |changes| && changes[k].path == p.path
  {
    if changes != [] {
      var front := changes[..|changes| - 1];
      HeadFilesAreChanges(front, head, blobs);
      forall p | p in HeadFiles(changes, head, blobs)
        ensures exists k :: 0 <= k < |changes| && changes[k].path == p.path
      {
        if p in HeadFiles(front, head, blobs) {
          var k :| 0 <= k < |front| && front[k].path == p.path;
          assert changes[k].path == p.path;
        } else {
          assert changes[|changes| - 1].path == p.path;
        }
      }
    }
  }

  lemma {:induction false} MappedConcat<T, U>(s: seq<T>, x: T, f: T -> U)
    ensures Mapped(s + [x], f) == Mapped(s, f) + [f(x)]
  {
    if s != [] {
      assert (s + [x])[1..] == s[1..] + [x];
      MappedConcat(s[1..], x, f);
    }
  }

  lemma NewPath(changes: seq<Change>, k: nat, members: seq<Packed>)
    requires DistinctFolded(changes) && k < |changes|
    requires forall p :: p in members ==> exists i :: 0 <= i < k && changes[i].path == p.path
    ensures forall p :: p in members ==> p.path != changes[k].path
  {
    forall p | p in members ensures p.path != changes[k].path {
      var i :| 0 <= i < k && changes[i].path == p.path;
      assert Fold(changes[i].path) != Fold(changes[k].path);
    }
  }

  lemma NewName(members: seq<Packed>, packed: Packed, expected: map<string, Bytes>)
    requires forall p :: p in members ==> p.path != packed.path
    requires ExpectedFor(members, expected)
    ensures ExpectedFor(members + [packed], expected[TarName(packed) := packed.bytes])
  {
    var names, name := Mapped(members, TarName), TarName(packed);
    MappedConcat(members, packed, TarName);
    forall p | p in members ensures TarName(p) != name {
      TarNameInjective(p, packed);
    }
    NotMapped(members, name);
    OneMoreName(members, packed, names, name, expected);
  }

  lemma OneMoreName(
    members: seq<Packed>, packed: Packed, names: seq<string>, name: string, expected: map<string, Bytes>)
    requires name == TarName(packed) && name !in names && Distinct(names)
    requires forall n :: n in names <==> n in expected
    requires forall p :: p in members ==>
               TarName(p) != name && TarName(p) in expected && expected[TarName(p)] == p.bytes
    ensures Distinct(names + [name])
    ensures forall n :: n in names + [name] <==> n in expected[name := packed.bytes]
    ensures forall p :: p in members + [packed] ==>
              TarName(p) in expected[name := packed.bytes] && expected[name := packed.bytes][TarName(p)] == p.bytes
  {
    assert forall n :: n in names + [name] <==> n in names || n == name;
    assert forall p :: p in members + [packed] <==> p in members || p == packed;
  }

  lemma TarNameInjective(a: Packed, b: Packed)
    requires a.path != b.path
    ensures TarName(a) != TarName(b)
  {
    assert TarName(a)[6..] == a.path && TarName(b)[6..] == b.path;
  }

  lemma NotMapped(members: seq<Packed>, name: string)
    requires forall p :: p in members ==> TarName(p) != name
    ensures name !in Mapped(members, TarName)
  {
    forall k | 0 <= k < |members| ensures Mapped(members, TarName)[k] != name {
      assert members[k] in members;
    }
  }

  /** Whether the packet can be made: its paths, its inventory, and prefix collisions. */
  ghost predicate Packable(raw: string, base: Entries, head: Entries, blobs: string -> Bytes) {
    var changes := SortBy(Pairs(Fields(raw)), ByPath);
    && PathsAccepted(Fields(raw))
    && (forall k :: 0 <= k < |changes| ==> InventoryAgrees(changes[k], base, head))
    && FoldedLeaves(Mapped(HeadFiles(changes, head, blobs), PathOf))
  }

  /** The packet's archive holds exactly the changed files of the head, sorted by name. */
  method SourcePacket(raw: string, base: Entries, head: Entries, blobs: string -> Bytes)
    returns (r: Result<seq<TarMember>>)
    ensures r.Ok? <==> Packable(raw, base, head, blobs)
    ensures r.Ok? ==>
      r.value == Mapped(SortBy(HeadFiles(SortBy(Pairs(Fields(raw)), ByPath), head, blobs), ByName), AsTar)
  {
    var changes := ChangedPaths(raw);
    if changes.Raised? {
      return Raised;
    }
    SortedStaysDistinct(Pairs(Fields(raw)));
    var members, expected := ReadMembers(changes.value, base, head, blobs);
    if members.Raised? {
      return Raised;
    }
    var paths := Mapped(members.value, PathOf);
    var portable := RejectPrefixCollisions(paths);
    if !portable {
      return Raised;
    }
    var tar := MakeTar(members.value);
    MadeTarVerifies(members.value, expected);
    var verified := VerifyTar(tar, Mapped(members.value, TarName), expected);
    return if verified then Ok(tar) else Raised;
  }

  lemma SortedStaysDistinct(changes: seq<Change>)
    requires DistinctFolded(changes)
    ensures DistinctFolded(SortBy(changes, ByPath))
  {
    var sorted := SortBy(changes, ByPath);
    TextIsLinear();
    SortByMeaning(changes, ByPath);
    forall i, j | 0 <= i < |sorted| && 0 <= j < |sorted| && i != j
      ensures Fold(sorted[i].path) != Fold(sorted[j].path)
    {
      PairInOther(changes, sorted, i, j);
    }
  }

  lemma {:induction false} HeadNamesDistinct(changes: seq<Change>, head: Entries, blobs: string -> Bytes)
    requires DistinctFolded(changes)
    ensures DistinctNames(Mapped(HeadFiles(changes, head, blobs), PathOf))
  {
    if changes != [] {
      var front, c := changes[..|changes| - 1], changes[|changes| - 1];
      HeadNamesDistinct(front, head, blobs);
      if c.path in head {
        var files := HeadFiles(front, head, blobs);
        MappedConcat(files, Packed(c.path, blobs(head[c.path].oid), head[c.path].mode), PathOf);
        HeadFilesAreChanges(front, head, blobs);
        forall k | 0 <= k < |files| ensures Fold(Mapped(files, PathOf)[k]) != Fold(c.path) {
          assert files[k] in files;
          var i :| 0 <= i < |front| && front[i].path == files[k].path;
          assert changes[i] == front[i];
        }
      }
    }
  }

  /** Every packet that is made can be unpacked on a file system that ignores case. */
  lemma PacketsUnpackAnywhere(raw: string, base: Entries, head: Entries, blobs: string -> Bytes, contents: seq<Bytes>)
    requires Packable(raw, base, head, blobs)
    requires |contents| == |HeadFiles(SortBy(Pairs(Fields(raw)), ByPath), head, blobs)|
    ensures var paths := Mapped(HeadFiles(SortBy(Pairs(Fields(raw)), ByPath), head, blobs), PathOf);
            Unpacked(FoldedItems(paths, contents)).Some?
  {
    var changes := SortBy(Pairs(Fields(raw)), ByPath);
    SortedStaysDistinct(Pairs(Fields(raw)));
    HeadNamesDistinct(changes, head, blobs);
    PortableExactlyWhenUnpacks(Mapped(HeadFiles(changes, head, blobs), PathOf), contents);
  }
}
