/**
 ZIP member rosters: which are accepted, and what extracting one leaves on disk.
 */
module ZipRoster {
  import opened Options
  import opened FileTrees
  import opened Unpacking
  import Text

  const MAX_MEMBERS := 100_000
  const MAX_MEMBER_BYTES := 6 * 1024 * 1024 * 1024
  const MAX_EXPANDED_BYTES := 8 * 1024 * 1024 * 1024

  datatype UnixKind = Unset | Regular | DirectoryKind | Special

  /** A read of a member stream; an empty read is the end of the stream. */
  type Chunk = b: Bytes | |b| > 0 witness [0]

  /** What reading a member yields: its chunks, and whether reading then fails. */
  datatype Stream = Stream(chunks: seq<Chunk>, broken: bool)

  datatype Info = Info(name: string, kind: UnixKind, encrypted: bool, size: int, stream: Stream)

  datatype Member = Member(info: Info, path: Path, directory: bool)

  // ---- Member names ----

  predicate SafePart(part: string) {
    part != "" && part != "." && part != ".."
  }

  predicate IsDir(name: string) {
    name != "" && name[|name| - 1] == '/'
  }

  /** Empty, absolute, on a drive, or with a character no member name may have. */
  predicate Malformed(name: string) {
    || name == "" || '\\' in name || '\0' in name
    || name[0] == '/' || (|name| >= 2 && name[1] == ':')
  }

  function Trimmed(name: string): string {
    if IsDir(name) then name[..|name| - 1] else name
  }

  /** The normalised path a member name stands for, if it is a safe relative name. */
  function MemberPath(name: string): Option<Path> {
    if Malformed(name) then None
    else
      var parts := Text.Split(Trimmed(name), '/');
      if Trimmed(name) == "" || !AllSafe(parts) then None else Some(parts)
  }

  predicate AllSafe(parts: seq<string>) {
    forall k :: 0 <= k < |parts| ==> SafePart(parts[k])
  }

  ghost predicate SafePath(p: Path) {
    && p != []
    && (forall k :: 0 <= k < |p| ==> p[k] != "" && p[k] != "." && p[k] != "..")
    && (forall k :: 0 <= k < |p| ==> '/' !in p[k] && '\\' !in p[k] && '\0' !in p[k])
    && !(|p[0]| >= 2 && p[0][1] == ':')
  }

  lemma {:induction false} JoinedCharacters(p: Path, c: char)
    requires c != '/' && forall k :: 0 <= k < |p| ==> c !in p[k]
    ensures c !in Text.Join(p, '/')
  {
    if |p| > 1 { JoinedCharacters(p[1..], c); }
  }

  lemma JoinedEnds(p: Path)
    requires SafePath(p)
    ensures var text := Text.Join(p, '/');
            && text != "" && text[0] != '/' && text[|text| - 1] != '/' && !(|text| >= 2 && text[1] == ':')
  {
    LastCharacter(p);
    assert p[0][0] in p[0];
  }

  lemma {:induction false} LastCharacter(p: Path)
    requires p != [] && forall k :: 0 <= k < |p| ==> p[k] != "" && '/' !in p[k]
    ensures Text.Join(p, '/') != "" && Text.Join(p, '/')[|Text.Join(p, '/')| - 1] != '/'
  {
    if |p| == 1 {
      assert p[0][|p[0]| - 1] in p[0];
    } else {
      LastCharacter(p[1..]);
    }
  }

  /**
   The names that stand for a safe path are its slash-joined text, as a file, and the same
   with one final slash, as a directory; no other name stands for it.
   */
  lemma NamesOfAPath(name: string, p: Path)
    requires SafePath(p)
    ensures MemberPath(name) == Some(p) <==> name == Text.Join(p, '/') || name == Text.Join(p, '/') + "/"
    ensures name == Text.Join(p, '/') ==> !IsDir(name)
  {
    JoinedEnds(p);
    JoinedIsAccepted(name, p);
    if MemberPath(name) == Some(p) {
      Text.JoinOfSplit(Trimmed(name), '/');
      TrimmedOnce(name);
    }
  }

  lemma TrimmedOnce(name: string)
    ensures name == if IsDir(name) then Trimmed(name) + "/" else Trimmed(name)
  {
  }

  lemma JoinedIsAccepted(name: string, p: Path)
    requires SafePath(p)
    ensures name == Text.Join(p, '/') || name == Text.Join(p, '/') + "/" ==> MemberPath(name) == Some(p)
  {
    var text := Text.Join(p, '/');
    JoinedEnds(p);
    JoinedCharacters(p, '\\');
    JoinedCharacters(p, '\0');
    Text.SplitOfJoin(p, '/');
    if name == text || name == text + "/" {
      assert Trimmed(name) == text;
    }
  }

  lemma AcceptedPathIsSafe(name: string)
    requires MemberPath(name).Some?
    ensures SafePath(MemberPath(name).value)
  {
    var trimmed := Trimmed(name);
    var p := MemberPath(name).value;
    Text.SplitPartsClean(trimmed, '/');
    Text.JoinOfSplit(trimmed, '/');
    assert forall x :: x in trimmed ==> x in name;
    forall k | 0 <= k < |p| ensures '\\' !in p[k] && '\0' !in p[k] {
      PartCharacters(trimmed, '/', k);
    }
    assert forall i :: 0 <= i < |p[0]| && i < |trimmed| ==> trimmed[i] == p[0][i];
  }

  lemma {:induction false} PartCharacters(s: string, c: char, k: nat)
    requires k < |Text.Split(s, c)|
    ensures forall x :: x in Text.Split(s, c)[k] ==> x in s
    decreases |s|
  {
    var n := Text.IndexOf(s, c);
    if n < |s| && k > 0 {
      PartCharacters(s[n + 1..], c, k - 1);
    }
  }

  // ---- The roster ----

  predicate EntryAccepted(info: Info) {
    && MemberPath(info.name).Some?
    && !info.kind.Special? && !info.encrypted
    && (info.kind.Regular? ==> !IsDir(info.name)) && (info.kind.DirectoryKind? ==> IsDir(info.name))
    && 0 <= info.size <= MAX_MEMBER_BYTES
  }

  function Expanded(infos: seq<Info>): int {
    if infos == [] then 0 else Expanded(infos[..|infos| - 1]) + infos[|infos| - 1].size
  }

  /** The member an accepted entry is taken as. */
  function AsMember(info: Info): Member {
    var path := MemberPath(info.name);
    Member(info, if path.Some? then path.value else [], IsDir(info.name))
  }

  function Members(infos: seq<Info>): (members: seq<Member>) {
    seq(|infos|, k requires 0 <= k < |infos| => AsMember(infos[k]))
  }

  ghost predicate DistinctPaths(members: seq<Member>) {
    forall i, j :: 0 <= i < j < |members| ==> members[i].path != members[j].path
  }

  /** No file is a proper component prefix of another entry. */
  ghost predicate FilesAreLeaves(members: seq<Member>) {
    forall i, j :: 0 <= i < |members| && 0 <= j < |members| && !members[i].directory ==>
      !ProperPrefix(members[i].path, members[j].path)
  }

  ghost predicate AllAccepted(infos: seq<Info>) {
    forall k :: 0 <= k < |infos| ==> EntryAccepted(infos[k])
  }

  /** What the first pass over the entries accepts. */
  ghost predicate EntriesAccepted(infos: seq<Info>) {
    AllAccepted(infos) && Expanded(infos) <= MAX_EXPANDED_BYTES && DistinctPaths(Members(infos))
  }

  /** What the whole check amounts to. */
  ghost predicate RosterAccepted(infos: seq<Info>) {
    1 <= |infos| <= MAX_MEMBERS && EntriesAccepted(infos) && FilesAreLeaves(Members(infos))
  }

  type Kinds = map<Path, bool>

  /** The entry types recorded so far: a path maps to whether it is a directory. */
  ghost predicate Recorded(members: seq<Member>, kinds: Kinds) {
    && (forall k :: 0 <= k < |members| ==>
          members[k].path in kinds && kinds[members[k].path] == members[k].directory)
    && (forall p :: p in kinds ==> exists k :: 0 <= k < |members| && members[k].path == p)
  }

  lemma {:induction false} ExpandedGrows(infos: seq<Info>, k: nat)
    requires k <= |infos| && AllAccepted(infos)
    ensures Expanded(infos[..k]) <= Expanded(infos)
  {
    if k < |infos| {
      var front := infos[..|infos| - 1];
      assert front[..k] == infos[..k];
      ExpandedGrows(front, k);
    } else {
      assert infos[..k] == infos;
    }
  }

  /** The state of the scan once the first entries have been accepted one by one. */
  ghost predicate Scanned(infos: seq<Info>, members: seq<Member>, kinds: Kinds, expanded: int) {
    && AllAccepted(infos) && members == Members(infos) && Recorded(members, kinds)
    && expanded == Expanded(infos) <= MAX_EXPANDED_BYTES && DistinctPaths(members)
  }

  lemma ScanOne(infos: seq<Info>, k: nat, m: Member, members: seq<Member>, kinds: Kinds, expanded: int)
    requires k < |infos| && Scanned(infos[..k], members, kinds, expanded)
    requires EntryAccepted(infos[k]) && m == AsMember(infos[k])
    requires expanded + infos[k].size <= MAX_EXPANDED_BYTES && m.path !in kinds
    ensures Scanned(infos[..k + 1], members + [m], kinds[m.path := m.directory], expanded + infos[k].size)
  {
    assert infos[..k + 1] == infos[..k] + [infos[k]];
    assert infos[..k + 1][..k] == infos[..k];
    RecordOne(members, kinds, m);
    assert members + [m] == Members(infos[..k + 1]);
  }

  lemma RecordOne(members: seq<Member>, kinds: Kinds, m: Member)
    requires Recorded(members, kinds) && m.path !in kinds && DistinctPaths(members)
    ensures Recorded(members + [m], kinds[m.path := m.directory]) && DistinctPaths(members + [m])
  {
    var all, kinds' := members + [m], kinds[m.path := m.directory];
    forall p | p in kinds' ensures exists k :: 0 <= k < |all| && all[k].path == p {
      if p in kinds {
        var k :| 0 <= k < |members| && members[k].path == p;
        assert all[k].path == p;
      } else {
        assert all[|members|].path == p;
      }
    }
  }

  /** The checks on one entry, and the member an accepted entry is taken as. */
  method ReadEntry(info: Info) returns (m: Option<Member>)
    ensures m == if EntryAccepted(info) then Some(AsMember(info)) else None
  {
    var parts := MemberPath(info.name);
    if parts.None? || info.kind.Special? || info.encrypted {
      return None;
    }
    var isDirectory := IsDir(info.name);
    if (isDirectory && info.kind.Regular?) || (!isDirectory && info.kind.DirectoryKind?) {
      return None;
    }
    if info.size < 0 || info.size > MAX_MEMBER_BYTES {
      return None;
    }
    m := Some(Member(info, parts.value, isDirectory));
  }

  /** The first pass: every entry on its own, the running size, and repeated paths. */
  method ScanEntries(infos: seq<Info>) returns (ok: bool, members: seq<Member>, entryTypes: Kinds)
    ensures ok <==> EntriesAccepted(infos)
    ensures ok ==> members == Members(infos) && Recorded(members, entryTypes)
  {
    members, entryTypes := [], map[];
    var expandedSize := 0;
    for k := 0 to |infos|
      invariant Scanned(infos[..k], members, entryTypes, expandedSize)
    {
      var read := ReadEntry(infos[k]);
      if read.None? {
        return false, [], map[];
      }
      var m := read.value;
      if expandedSize + infos[k].size > MAX_EXPANDED_BYTES || m.path in entryTypes {
        Refused(infos, k, m, members, entryTypes, expandedSize);
        return false, [], map[];
      }
      ScanOne(infos, k, m, members, entryTypes, expandedSize);
      expandedSize := expandedSize + infos[k].size;
      entryTypes := entryTypes[m.path := m.directory];
      members := members + [m];
    }
    assert infos[..|infos|] == infos;
    ok := true;
  }

  lemma Refused(infos: seq<Info>, k: nat, m: Member, members: seq<Member>, kinds: Kinds, expanded: int)
    requires k < |infos| && Scanned(infos[..k], members, kinds, expanded)
    requires EntryAccepted(infos[k]) && m == AsMember(infos[k])
    requires expanded + infos[k].size > MAX_EXPANDED_BYTES || m.path in kinds
    ensures !EntriesAccepted(infos)
  {
    if expanded + infos[k].size > MAX_EXPANDED_BYTES {
      TooLarge(infos, k);
    } else {
      SecondEntry(infos, k, kinds);
    }
  }

  lemma TooLarge(infos: seq<Info>, k: nat)
    requires k < |infos| && Expanded(infos[..k]) + infos[k].size > MAX_EXPANDED_BYTES
    ensures AllAccepted(infos) ==> Expanded(infos) > MAX_EXPANDED_BYTES
  {
    if AllAccepted(infos) {
      ExpandedGrows(infos, k + 1);
      assert infos[..k + 1][..k] == infos[..k];
    }
  }

  lemma SecondEntry(infos: seq<Info>, k: nat, kinds: Kinds)
    requires k < |infos| && Recorded(Members(infos[..k]), kinds)
    requires MemberPath(infos[k].name).Some? && MemberPath(infos[k].name).value in kinds
    ensures !DistinctPaths(Members(infos))
  {
    var p := MemberPath(infos[k].name).value;
    var i :| 0 <= i < k && Members(infos[..k])[i].path == p;
    assert Members(infos)[i].path == p && Members(infos)[k].path == p;
  }

  method CheckedArchiveMembers(infos: seq<Info>) returns (r: Result<seq<Member>>)
    ensures r.Ok? <==> RosterAccepted(infos)
    ensures r.Ok? ==> r.value == Members(infos)
  {
    if infos == [] || |infos| > MAX_MEMBERS {
      return Raised;
    }
    var ok, members, entryTypes := ScanEntries(infos);
    if !ok {
      return Raised;
    }
    AcceptedAreNamed(infos);
    var collides := CollisionFound(members, entryTypes);
    return if collides then Raised else Ok(members);
  }

  lemma AcceptedAreNamed(infos: seq<Info>)
    requires AllAccepted(infos)
    ensures forall m :: m in Members(infos) ==> m.path != [] && MemberPath(m.info.name) == Some(m.path)
  {
    forall m | m in Members(infos) ensures m.path != [] && MemberPath(m.info.name) == Some(m.path) {
      var k :| 0 <= k < |infos| && Members(infos)[k] == m;
      assert EntryAccepted(infos[k]);
    }
  }

  // ---- The three collision checks ----

  predicate HasFileParent(kinds: Kinds, p: Path) {
    exists index :: 1 <= index < |p| && p[..index] in kinds && !kinds[p[..index]]
  }

  predicate HasEntryBelow(members: seq<Member>, p: Path) {
    exists k :: 0 <= k < |members| && |members[k].path| > |p| && members[k].path[..|p|] == p
  }

  predicate Collides(members: seq<Member>, kinds: Kinds, m: Member) {
    HasFileParent(kinds, m.path) || (!m.directory && HasEntryBelow(members, m.path))
  }

  method MemberCollides(members: seq<Member>, kinds: Kinds, m: Member) returns (collides: bool)
    requires m.path != []
    ensures collides <==> Collides(members, kinds, m)
  {
    if !m.directory && HasFileParent(kinds, m.path) {
      return true;
    }
    if !m.directory && HasEntryBelow(members, m.path) {
      return true;
    }
    for index := 1 to |m.path|
      invariant forall i :: 1 <= i < index ==> m.path[..i] !in kinds || kinds[m.path[..i]]
    {
      var parent := m.path[..index];
      if parent in kinds && !kinds[parent] {
        return true;
      }
    }
    return false;
  }

  /** The second pass over the entries finds exactly the files that are not leaves. */
  method CollisionFound(members: seq<Member>, kinds: Kinds) returns (found: bool)
    requires Recorded(members, kinds) && forall m :: m in members ==> m.path != []
    ensures found <==> !FilesAreLeaves(members)
  {
    for k := 0 to |members|
      invariant forall i :: 0 <= i < k ==> !Collides(members, kinds, members[i])
    {
      var collides := MemberCollides(members, kinds, members[k]);
      if collides {
        CollisionIsPrefix(members, kinds, k);
        return true;
      }
    }
    forall i, j | 0 <= i < |members| && 0 <= j < |members| && !members[i].directory
      ensures !ProperPrefix(members[i].path, members[j].path)
    {
      assert !Collides(members, kinds, members[i]);
    }
    return false;
  }

  lemma CollisionIsPrefix(members: seq<Member>, kinds: Kinds, k: nat)
    requires Recorded(members, kinds) && k < |members| && Collides(members, kinds, members[k])
    ensures !FilesAreLeaves(members)
  {
    var p := members[k].path;
    if HasFileParent(kinds, p) {
      var index :| 1 <= index < |p| && p[..index] in kinds && !kinds[p[..index]];
      var i :| 0 <= i < |members| && members[i].path == p[..index];
      assert ProperPrefix(members[i].path, members[k].path);
    } else {
      var i :| 0 <= i < |members| && |members[i].path| > |p| && members[i].path[..|p|] == p;
      assert ProperPrefix(members[k].path, members[i].path);
    }
  }

  // ---- Extraction ----

  function Content(chunks: seq<Chunk>): Bytes {
    if chunks == [] then [] else Content(chunks[..|chunks| - 1]) + chunks[|chunks| - 1]
  }

  /** The member can be read to its end and holds exactly its declared size. */
  predicate Delivers(info: Info) {
    !info.stream.broken && |Content(info.stream.chunks)| == info.size
  }

  function AsItem(m: Member): Item {
    Item(m.path, m.directory, Content(m.info.stream.chunks))
  }

  function Items(members: seq<Member>): (items: seq<Item>) {
    seq(|members|, k requires 0 <= k < |members| => AsItem(members[k]))
  }

  ghost predicate FilesDeliver(members: seq<Member>) {
    forall k :: 0 <= k < |members| && !members[k].directory ==> Delivers(members[k].info)
  }

  lemma {:induction false} ContentGrows(chunks: seq<Chunk>, k: nat)
    requires k <= |chunks|
    ensures |Content(chunks[..k])| <= |Content(chunks)|
  {
    if k < |chunks| {
      var front := chunks[..|chunks| - 1];
      assert front[..k] == chunks[..k];
      ContentGrows(front, k);
    } else {
      assert chunks[..k] == chunks;
    }
  }

  /** The copy loop: stops at the first chunk that exceeds the declared size. */
  method CopyMember(info: Info, stage: Folder, path: Path) returns (ok: bool)
    requires path in stage.tree && stage.tree[path] == File([])
    modifies stage
    ensures ok <==> Delivers(info)
    ensures ok ==> stage.tree == old(stage.tree)[path := File(Content(info.stream.chunks))]
  {
    var copied, chunks := 0, info.stream.chunks;
    for k := 0 to |chunks|
      invariant copied == |Content(chunks[..k])|
      invariant stage.tree == old(stage.tree)[path := File(Content(chunks[..k]))]
    {
      assert chunks[..k + 1][..k] == chunks[..k];
      copied := copied + |chunks[k]|;
      if copied > info.size {
        ContentGrows(chunks, k + 1);
        return false;
      }
      stage.Append(path, chunks[k]);
    }
    assert chunks[..|chunks|] == chunks;
    return !info.stream.broken && copied == info.size;
  }

  /** The member's item can be placed, and a file delivers its size. */
  ghost predicate Extractable(m: Member, t: Tree)
    requires m.path != []
  {
    Placed(t, AsItem(m)).Some? && (m.directory || Delivers(m.info))
  }

  /** One member; what it leaves is what unpacking its item leaves. */
  method ExtractMember(m: Member, stage: Folder) returns (ok: bool)
    requires m.path != []
    modifies stage
    ensures ok <==> Extractable(m, old(stage.tree))
    ensures ok ==> stage.tree == Placed(old(stage.tree), AsItem(m)).value
  {
    if m.directory {
      ok := stage.MakeDirectories(m.path);
      return;
    }
    var parent := m.path[..|m.path| - 1];
    WithDirectoriesAdds(stage.tree, parent);
    assert !PrefixOf(m.path, parent) && PrefixOf(parent, parent);
    ghost var before := stage.tree;
    ok := stage.MakeDirectories(parent);
    if ok {
      ParentIsDirectory(before, parent);
      ok := stage.CreateFile(m.path, []);
      if ok {
        ok := CopyMember(m.info, stage, m.path);
      }
    }
  }

  lemma ParentIsDirectory(t: Tree, parent: Path)
    requires NoFileOnTheWay(t, parent)
    ensures IsDirectory(WithDirectories(t, parent), parent)
  {
    WithDirectoriesAdds(t, parent);
    assert parent[..|parent|] == parent && PrefixOf(parent, parent);
  }

  /** All members in listing order; the first failure ends it. */
  method ExtractMembers(members: seq<Member>, stage: Folder) returns (ok: bool)
    requires stage.tree == map[] && AllNamed(Items(members))
    modifies stage
    ensures ok <==> Unpacked(Items(members)).Some? && FilesDeliver(members)
    ensures ok ==> Some(stage.tree) == Unpacked(Items(members))
  {
    for k := 0 to |members|
      invariant ExtractedUpTo(members, k, stage.tree)
    {
      ExtractOne(members, k, stage.tree);
      ok := ExtractMember(members[k], stage);
      if !ok {
        return;
      }
    }
    AllExtracted(members, stage.tree);
    ok := true;
  }

  /** The first n members are in the tree. */
  ghost predicate ExtractedUpTo(members: seq<Member>, n: nat, t: Tree)
    requires AllNamed(Items(members)) && n <= |members|
  {
    && Unpacked(Items(members)[..n]) == Some(t)
    && forall k :: 0 <= k < n && !members[k].directory ==> Delivers(members[k].info)
  }

  lemma AllExtracted(members: seq<Member>, t: Tree)
    requires AllNamed(Items(members)) && ExtractedUpTo(members, |members|, t)
    ensures Unpacked(Items(members)) == Some(t) && FilesDeliver(members)
  {
    assert Items(members)[..|members|] == Items(members);
  }

  /** One more entry: it is placed into what the ones before it left, or extraction must fail. */
  lemma ExtractOne(members: seq<Member>, k: nat, t: Tree)
    requires AllNamed(Items(members)) && k < |members| && ExtractedUpTo(members, k, t)
    ensures members[k].path != []
    ensures if Extractable(members[k], t) then ExtractedUpTo(members, k + 1, Placed(t, AsItem(members[k])).value)
            else Unpacked(Items(members)).None? || !FilesDeliver(members)
  {
    var items := Items(members);
    assert items[..k + 1][..k] == items[..k] && items[k] == AsItem(members[k]);
    if Unpacked(items[..k + 1]).None? { CollisionStays(items, k + 1); }
  }

  /** The roster's path checks leave exactly the lists that unpack without a collision. */
  lemma AcceptedRostersUnpack(members: seq<Member>)
    requires DistinctPaths(members)
    ensures FilesAreLeaves(members) <==> NoCollision(Items(members))
  {
    var items := Items(members);
    if FilesAreLeaves(members) {
      forall i, j | 0 <= i < |items| && 0 <= j < |items| && i != j && !items[i].directory
        ensures !PrefixOf(items[i].path, items[j].path)
      {
        assert members[i].path != members[j].path;
        assert !ProperPrefix(members[i].path, members[j].path);
      }
    }
    if NoCollision(items) {
      forall i, j | 0 <= i < |members| && 0 <= j < |members| && !members[i].directory
        ensures !ProperPrefix(members[i].path, members[j].path)
      {
        assert i != j ==> !items[i].directory && !PrefixOf(items[i].path, items[j].path);
      }
    }
  }

  /** The directory an archive is extracted next to: its final and its staging name. */
  class Site {
    var destination: Option<Tree>
    var stage: Folder?
    const parentIsReal: bool

    constructor (parentIsReal: bool)
      ensures destination == None && stage == null && this.parentIsReal == parentIsReal
    {
      destination, stage, this.parentIsReal := None, null, parentIsReal;
    }

    /**
     Extraction is all or nothing: either the destination, absent before, holds exactly the
     declared files and the directories above the entries, or both names are as before.
     */
    method SafeExtractZip(archive: Option<seq<Info>>) returns (ok: bool)
      modifies this
      ensures ok <==> old(destination).None? && parentIsReal && old(stage) == null
                      && archive.Some? && RosterAccepted(archive.value) && FilesDeliver(Members(archive.value))
      ensures ok ==> destination.Some? && IsExtraction(destination.value, Items(Members(archive.value)))
      ensures !ok ==> destination == old(destination)
      ensures stage == old(stage)
    {
      if destination.Some? || !parentIsReal || stage != null || archive.None? {
        return false;
      }
      var members := CheckedArchiveMembers(archive.value);
      if members.Raised? {
        return false;
      }
      var folder := new Folder();
      stage := folder;
      AcceptedAreNamed(archive.value);
      AcceptedRostersUnpack(members.value);
      assert forall k :: 0 <= k < |members.value| ==> members.value[k] in members.value;
      UnpackedMeaning(Items(members.value));
      ok := ExtractMembers(members.value, folder);
      if ok {
        destination := Some(folder.tree);
      }
      stage := null;
    }
  }
}
