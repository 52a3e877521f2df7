/** Extraction of a source distribution into a fresh directory. */
module SdistReader {
  import opened Text
  import opened Base64Url
  import opened Artifacts
  import WheelRecord

  type Path = seq<string>

  datatype Node = Folder | Data(content: seq<Byte>)

  /** The part of the file system at and below the destination, by absolute path. */
  type Tree = map<Path, Node>

  datatype Extracted = Extracted(root: Path, tree: Tree)

  // ---------------------------------------------------------------- tar inventory

  predicate IsFile(e: Entry) { e.kind == Regular }

  predicate IsFolder(e: Entry) { e.kind == Directory }

  function FileSize(entries: seq<Entry>): nat {
    if entries == [] then 0 else (if IsFile(entries[0]) then entries[0].size else 0) + FileSize(entries[1..])
  }

  lemma {:induction false} FileSizeAppend(a: seq<Entry>, b: seq<Entry>)
    ensures FileSize(a + b) == FileSize(a) + FileSize(b)
  {
    if a == [] {
      assert a + b == b;
    } else {
      assert (a + b)[1..] == a[1..] + b;
      FileSizeAppend(a[1..], b);
    }
  }

  lemma FileSizeNext(entries: seq<Entry>, k: nat)
    requires k < |entries|
    ensures FileSize(entries[..k + 1]) == FileSize(entries[..k]) + if IsFile(entries[k]) then entries[k].size else 0
  {
    FileSizeAppend(entries[..k], [entries[k]]);
    assert entries[..k + 1] == entries[..k] + [entries[k]];
  }

  function TarInventory(entries: seq<Entry>, casefold: string -> string): Result<seq<string>> {
    var inventory := SafeMembers(WheelRecord.BareNames(entries), casefold);
    if inventory.Err? then inventory
    else if exists i | 0 <= i < |entries| :: !IsFile(entries[i]) && !IsFolder(entries[i]) then Err(NonRegularMember)
    else if FileSize(entries) > MAX_UNCOMPRESSED_BYTES then Err(ExpandedTooLarge)
    else inventory
  }

  method InspectTar(entries: seq<Entry>, casefold: string -> string) returns (r: Result<seq<string>>)
    ensures r == TarInventory(entries, casefold)
  {
    var inventory := SafeMembers(WheelRecord.BareNames(entries), casefold);
    if inventory.Err? {
      return inventory;
    }
    var aggregate := 0;
    for k := 0 to |entries|
      invariant aggregate == FileSize(entries[..k])
      invariant forall i | 0 <= i < k :: IsFile(entries[i]) || IsFolder(entries[i])
    {
      FileSizeNext(entries, k);
      if !IsFile(entries[k]) && !IsFolder(entries[k]) {
        return Err(NonRegularMember);
      }
      if IsFile(entries[k]) {
        aggregate := aggregate + entries[k].size;
      }
    }
    assert entries[..|entries|] == entries;
    if aggregate > MAX_UNCOMPRESSED_BYTES {
      return Err(ExpandedTooLarge);
    }
    return inventory;
  }

  // ---------------------------------------------------------------- paths

  /** The components pathlib keeps of one path text. */
  function Kept(parts: seq<string>): Path {
    if parts == [] then []
    else if parts[0] == "" || parts[0] == "." then Kept(parts[1..])
    else [parts[0]] + Kept(parts[1..])
  }

  /** `base.joinpath(*parts)` on POSIX: an absolute part starts over. */
  function JoinPath(base: Path, parts: seq<string>): Path
    decreases |parts|
  {
    if parts == [] then base
    else
      JoinPath(if StartsWith(parts[0], "/") then Kept(Split(parts[0], '/')) else base + Kept(Split(parts[0], '/')),
               parts[1..])
  }

  lemma OrdinaryPartIsKept(part: string)
    requires OrdinaryComponent(part) && '/' !in part
    ensures !StartsWith(part, "/") && Kept(Split(part, '/')) == [part]
  {
    SplitPlain(part, '/');
    assert [part][1..] == [];
  }

  /** Ordinary components can only descend. */
  lemma {:induction false} JoinPathDescends(base: Path, parts: seq<string>)
    requires OrdinaryPath(parts)
    requires forall i | 0 <= i < |parts| :: '/' !in parts[i]
    ensures JoinPath(base, parts) == base + parts
    decreases |parts|
  {
    if parts == [] {
      assert base + parts == base;
    } else {
      var first, rest := parts[0], parts[1..];
      OrdinaryPartIsKept(first);
      assert JoinPath(base, parts) == JoinPath(base + [first], rest);
      JoinPathDescends(base + [first], rest);
      assert base + [first] + rest == base + parts;
    }
  }

  // ---------------------------------------------------------------- file system steps

  /** `mkdir(parents=True, exist_ok=True)`; `None` is an OSError. */
  function MakeFolders(t: Tree, path: Path): Option<Tree> {
    if path in t then (if t[path] == Folder then Some(t) else None)
    else if path == [] then Some(t[path := Folder])
    else
      var above := MakeFolders(t, path[..|path| - 1]);
      if above.None? then None else Some(above.value[path := Folder])
  }

  /** `write_bytes`: replaces a file, fails on a directory. */
  function WriteBytes(t: Tree, path: Path, content: seq<Byte>): Option<Tree> {
    if path in t && t[path] == Folder then None else Some(t[path := Data(content)])
  }

  function ExtractMember(t: Tree, dest: Path, e: Entry): Result<Tree> {
    var normalized := NormaliseMember(Bare(e.name));
    if normalized.Err? then Err(normalized.error)
    else
      var target := JoinPath(dest, Split(normalized.value, '/'));
      if !(dest <= target) then Err(UnsafeMember)
      else if IsFolder(e) then
        var made := MakeFolders(t, target);
        if made.None? then Err(FileSystem) else Ok(made.value)
      else
        var made := MakeFolders(t, if target == [] then [] else target[..|target| - 1]);
        if made.None? then Err(FileSystem)
        else if |e.content| != e.size || |e.content| > MAX_UNCOMPRESSED_BYTES then Err(MemberSize)
        else
          var written := WriteBytes(made.value, target, e.content);
          if written.None? then Err(FileSystem) else Ok(written.value)
  }

  function ExtractMembers(t: Tree, dest: Path, entries: seq<Entry>): Result<Tree> {
    if entries == [] then Ok(t)
    else
      var front := ExtractMembers(t, dest, entries[..|entries| - 1]);
      if front.Err? then front else ExtractMember(front.value, dest, entries[|entries| - 1])
  }

  function TopLevels(inventory: seq<string>): set<string> {
    set i | 0 <= i < |inventory| :: Split(inventory[i], '/')[0]
  }

  function Extract(entries: seq<Entry>, dest: Path, destExists: bool, casefold: string -> string): Result<Extracted> {
    if destExists then Err(TargetExists)
    else
      var inventory := TarInventory(entries, casefold);
      if inventory.Err? then Err(inventory.error)
      else if |TopLevels(inventory.value)| != 1 then Err(MalformedRoot)
      else
        var tree := ExtractMembers(map[dest := Folder], dest, entries);
        if tree.Err? then Err(tree.error)
        else
          assert inventory.value != [];
          var root := dest + [Split(inventory.value[0], '/')[0]];
          if root in tree.value && tree.value[root] == Folder then Ok(Extracted(root, tree.value))
          else Err(MalformedRoot)
  }

  method ExtractSdistSafely(entries: seq<Entry>, dest: Path, destExists: bool, casefold: string -> string)
    returns (r: Result<Extracted>)
    ensures r == Extract(entries, dest, destExists, casefold)
  {
    if destExists {
      return Err(TargetExists);
    }
    var tree: Tree := map[dest := Folder];
    var inventory := InspectTar(entries, casefold);
    if inventory.Err? {
      return Err(inventory.error);
    }
    if |TopLevels(inventory.value)| != 1 {
      return Err(MalformedRoot);
    }
    for k := 0 to |entries|
      invariant ExtractMembers(map[dest := Folder], dest, entries[..k]) == Ok(tree)
    {
      assert entries[..k + 1][..k] == entries[..k];
      var step := ExtractMember(tree, dest, entries[k]);
      if step.Err? {
        ErrorStays(map[dest := Folder], dest, entries, k + 1);
        return Err(step.error);
      }
      tree := step.value;
    }
    assert entries[..|entries|] == entries;
    assert inventory.value != [];
    var root := dest + [Split(inventory.value[0], '/')[0]];
    if root !in tree || tree[root] != Folder {
      return Err(MalformedRoot);
    }
    return Ok(Extracted(root, tree));
  }

  lemma {:induction false} ErrorStays(t: Tree, dest: Path, entries: seq<Entry>, k: nat)
    requires k <= |entries| && ExtractMembers(t, dest, entries[..k]).Err?
    ensures ExtractMembers(t, dest, entries) == ExtractMembers(t, dest, entries[..k])
    decreases |entries| - k
  {
    if k == |entries| {
      assert entries[..k] == entries;
    } else {
      assert entries[..k + 1][..k] == entries[..k];
      ErrorStays(t, dest, entries, k + 1);
    }
  }

  // ---------------------------------------------------------------- what extraction leaves behind

  /** The components a member is extracted to, relative to the destination. */
  function Place(e: Entry): Path {
    Split(CleanName(Bare(e.name)), '/')
  }

  /** The path a member is extracted to. */
  function Target(dest: Path, e: Entry): Path {
    dest + Place(e)
  }

  ghost predicate Below(path: Path, dest: Path, e: Entry) {
    && dest <= path
    && (path < Target(dest, e) || (IsFolder(e) && path == Target(dest, e)))
  }

  ghost predicate IsFolderOf(path: Path, dest: Path, entries: seq<Entry>) {
    path == dest || exists i | 0 <= i < |entries| :: Below(path, dest, entries[i])
  }

  ghost predicate IsFileOf(path: Path, content: seq<Byte>, dest: Path, entries: seq<Entry>) {
    exists i | 0 <= i < |entries| :: IsFile(entries[i]) && path == Target(dest, entries[i]) &&
      entries[i].content == content
  }

  /** The tree holds every file member with its bytes, the folders leading to them, the folder members, and no more. */
  ghost predicate Holds(t: Tree, dest: Path, entries: seq<Entry>) {
    && (forall path :: path in t && t[path] == Folder <==> IsFolderOf(path, dest, entries))
    && (forall path, content :: path in t && t[path] == Data(content) <==> IsFileOf(path, content, dest, entries))
  }

  /** A file stands where another member needs a folder, or the other way round. */
  ghost predicate Clash(a: Entry, b: Entry) {
    (IsFile(a) && Place(a) <= Place(b)) || (IsFile(b) && Place(b) <= Place(a))
  }

  ghost predicate NoClash(entries: seq<Entry>) {
    forall i, j | 0 <= i < j < |entries| :: !Clash(entries[i], entries[j])
  }

  ghost predicate SizesHold(entries: seq<Entry>) {
    forall i | 0 <= i < |entries| && IsFile(entries[i]) ::
      |entries[i].content| == entries[i].size && entries[i].size <= MAX_UNCOMPRESSED_BYTES
  }

  /** Members as the inventory leaves them. */
  ghost predicate Sound(entries: seq<Entry>) {
    && (forall i | 0 <= i < |entries| :: SafeName(Bare(entries[i].name)))
    && (forall i | 0 <= i < |entries| :: IsFile(entries[i]) || IsFolder(entries[i]))
    && (forall i, j | 0 <= i < j < |entries| :: Place(entries[i]) != Place(entries[j]))
  }

  lemma PlaceIsTarget(dest: Path, e: Entry)
    requires SafeName(Bare(e.name))
    ensures NormaliseMember(Bare(e.name)) == Ok(CleanName(Bare(e.name)))
    ensures JoinPath(dest, Place(e)) == Target(dest, e)
    ensures OrdinaryPath(Place(e)) && |Place(e)| > 0
  {
    NormaliseDecides(Bare(e.name));
    NormaliseIdempotent(Bare(e.name));
    JoinPathDescends(dest, Place(e));
  }

  /** Folders above everything in the tree, down from the destination. */
  ghost predicate Closed(t: Tree, dest: Path) {
    && dest in t && t[dest] == Folder
    && forall path, above | path in t && dest <= above < path :: above in t && t[above] == Folder
  }

  lemma HoldsIsClosed(t: Tree, dest: Path, entries: seq<Entry>)
    requires Holds(t, dest, entries)
    ensures Closed(t, dest)
  {
    assert IsFolderOf(dest, dest, entries);
    forall path, above | path in t && dest <= above < path ensures above in t && t[above] == Folder {
      if t[path] == Folder {
        assert IsFolderOf(path, dest, entries);
        var i :| 0 <= i < |entries| && Below(path, dest, entries[i]);
        assert Below(above, dest, entries[i]);
      } else {
        assert IsFileOf(path, t[path].content, dest, entries);
        var i :| 0 <= i < |entries| && IsFile(entries[i]) && path == Target(dest, entries[i]);
        assert Below(above, dest, entries[i]);
      }
      assert IsFolderOf(above, dest, entries);
    }
  }

  ghost predicate Between(dest: Path, path: Path, end: Path) {
    dest <= path <= end
  }

  lemma PrefixOrAbove(dest: Path, path: Path)
    requires dest <= path && path != []
    ensures dest == path || dest <= path[..|path| - 1]
  {
    if |dest| == |path| {
      assert dest == path[..|dest|];
    }
  }

  lemma {:induction false} MakeFoldersDoes(t: Tree, dest: Path, path: Path)
    requires Closed(t, dest) && dest <= path
    ensures MakeFolders(t, path).Some? <==> forall q | q in t && Between(dest, q, path) :: t[q] == Folder
    ensures MakeFolders(t, path).Some? ==>
              forall q :: q in MakeFolders(t, path).value <==> q in t || Between(dest, q, path)
    ensures MakeFolders(t, path).Some? ==>
              forall q | q in MakeFolders(t, path).value ::
                MakeFolders(t, path).value[q] == if q in t then t[q] else Folder
    decreases |path|
  {
    if path in t {
      if t[path] == Folder {
        forall q | Between(dest, q, path) ensures q in t && t[q] == Folder {
          assert q == path || q < path;
        }
      } else {
        assert Between(dest, path, path);
      }
    } else {
      var above := path[..|path| - 1];
      PrefixOrAbove(dest, path);
      MakeFoldersDoes(t, dest, above);
      forall q ensures Between(dest, q, path) <==> Between(dest, q, above) || q == path {
        if q <= path && q != path {
          assert |q| <= |above| && q <= above;
        }
      }
    }
  }

  lemma PrefixOfSum(dest: Path, a: Path, b: Path)
    ensures dest + a <= dest + b <==> a <= b
    ensures dest + a == dest + b <==> a == b
  {
    if dest + a <= dest + b {
      forall i | 0 <= i < |a| ensures a[i] == b[i] {
        assert (dest + a)[|dest| + i] == (dest + b)[|dest| + i];
      }
    }
    if dest + a == dest + b {
      assert (dest + a)[|dest|..] == a && (dest + b)[|dest|..] == b;
    }
  }

  /** No file on the way to a place, in the tree and among the members. */
  lemma NoFileOnTheWay(t: Tree, dest: Path, entries: seq<Entry>, place: Path)
    requires Holds(t, dest, entries)
    ensures (forall q | q in t && Between(dest, q, dest + place) :: t[q] == Folder) <==>
            (forall i | 0 <= i < |entries| && IsFile(entries[i]) :: !(Place(entries[i]) <= place))
  {
    if q :| q in t && Between(dest, q, dest + place) && t[q] != Folder {
      assert IsFileOf(q, t[q].content, dest, entries);
      var i :| 0 <= i < |entries| && IsFile(entries[i]) && q == Target(dest, entries[i]);
      PrefixOfSum(dest, Place(entries[i]), place);
    }
    if i :| 0 <= i < |entries| && IsFile(entries[i]) && Place(entries[i]) <= place {
      var q := Target(dest, entries[i]);
      PrefixOfSum(dest, Place(entries[i]), place);
      assert IsFileOf(q, entries[i].content, dest, entries);
      assert q in t && t[q] == Data(entries[i].content) && Between(dest, q, dest + place);
    }
  }

  /** A member already uses a place as a folder. */
  lemma FolderInTheWay(t: Tree, dest: Path, entries: seq<Entry>, place: Path)
    requires Holds(t, dest, entries) && place != []
    requires forall i | 0 <= i < |entries| :: Place(entries[i]) != place
    ensures dest + place in t && t[dest + place] == Folder <==>
            exists i | 0 <= i < |entries| :: place <= Place(entries[i])
  {
    var target := dest + place;
    assert target != dest;
    forall i | 0 <= i < |entries| ensures Below(target, dest, entries[i]) <==> place <= Place(entries[i]) {
      PrefixOfSum(dest, place, Place(entries[i]));
    }
    assert target in t && t[target] == Folder <==> IsFolderOf(target, dest, entries);
  }

  lemma IsFolderOfAppend(path: Path, dest: Path, entries: seq<Entry>, e: Entry)
    ensures IsFolderOf(path, dest, entries + [e]) <==> IsFolderOf(path, dest, entries) || Below(path, dest, e)
  {
    var all := entries + [e];
    if path != dest {
      if i :| 0 <= i < |all| && Below(path, dest, all[i]) {
        assert i < |entries| ==> Below(path, dest, entries[i]);
      }
      if i :| 0 <= i < |entries| && Below(path, dest, entries[i]) {
        assert Below(path, dest, all[i]);
      }
      if Below(path, dest, e) {
        assert Below(path, dest, all[|entries|]);
      }
    }
  }

  lemma IsFileOfAppend(path: Path, content: seq<Byte>, dest: Path, entries: seq<Entry>, e: Entry)
    ensures IsFileOf(path, content, dest, entries + [e]) <==>
            IsFileOf(path, content, dest, entries) || (IsFile(e) && path == Target(dest, e) && e.content == content)
  {
    var all := entries + [e];
    assert all[|entries|] == e;
    if i :| 0 <= i < |entries| && IsFile(entries[i]) && path == Target(dest, entries[i]) &&
            entries[i].content == content
    {
      assert all[i] == entries[i];
    }
    if i :| 0 <= i < |all| && IsFile(all[i]) && path == Target(dest, all[i]) && all[i].content == content {
      assert i < |entries| ==> all[i] == entries[i];
    }
  }

  /** Adding the folders down to a folder member. */
  lemma FolderAdded(t: Tree, r: Tree, dest: Path, entries: seq<Entry>, e: Entry)
    requires Holds(t, dest, entries) && IsFolder(e)
    requires MakeFolders(t, Target(dest, e)) == Some(r)
    ensures Holds(r, dest, entries + [e])
  {
    HoldsIsClosed(t, dest, entries);
    MakeFoldersDoes(t, dest, Target(dest, e));
    forall path ensures path in r && r[path] == Folder <==> IsFolderOf(path, dest, entries + [e]) {
      IsFolderOfAppend(path, dest, entries, e);
      assert Below(path, dest, e) <==> Between(dest, path, Target(dest, e));
    }
    forall path, content
      ensures path in r && r[path] == Data(content) <==> IsFileOf(path, content, dest, entries + [e])
    {
      IsFileOfAppend(path, content, dest, entries, e);
    }
  }

  lemma FileAdded(t: Tree, made: Tree, dest: Path, entries: seq<Entry>, e: Entry)
    requires Holds(t, dest, entries) && IsFile(e) && Place(e) != []
    requires MakeFolders(t, Above(Target(dest, e))) == Some(made)
    requires Target(dest, e) !in t
    ensures Holds(made[Target(dest, e) := Data(e.content)], dest, entries + [e])
  {
    var target := Target(dest, e);
    var r := made[target := Data(e.content)];
    HoldsIsClosed(t, dest, entries);
    assert dest <= Above(target);
    MakeFoldersDoes(t, dest, Above(target));
    forall path ensures path in r && r[path] == Folder <==> IsFolderOf(path, dest, entries + [e]) {
      IsFolderOfAppend(path, dest, entries, e);
      assert Below(path, dest, e) <==> Between(dest, path, Above(target));
      assert path != target ==> (path in t && t[path] == Folder <==> IsFolderOf(path, dest, entries));
    }
    forall path, content
      ensures path in r && r[path] == Data(content) <==> IsFileOf(path, content, dest, entries + [e])
    {
      IsFileOfAppend(path, content, dest, entries, e);
      assert path in t && t[path] == Data(content) <==> IsFileOf(path, content, dest, entries);
    }
  }

  function Above(path: Path): Path
    requires path != []
  {
    path[..|path| - 1]
  }

  ghost predicate FitsAfter(entries: seq<Entry>, e: Entry) {
    && (forall i | 0 <= i < |entries| :: !Clash(entries[i], e))
    && (IsFile(e) ==> |e.content| == e.size && e.size <= MAX_UNCOMPRESSED_BYTES)
  }

  lemma ExtractFolder(t: Tree, dest: Path, entries: seq<Entry>, e: Entry)
    requires Holds(t, dest, entries) && SafeName(Bare(e.name)) && IsFolder(e)
    ensures ExtractMember(t, dest, e).Ok? <==> FitsAfter(entries, e)
    ensures ExtractMember(t, dest, e).Ok? ==> Holds(ExtractMember(t, dest, e).value, dest, entries + [e])
  {
    PlaceIsTarget(dest, e);
    HoldsIsClosed(t, dest, entries);
    MakeFoldersDoes(t, dest, Target(dest, e));
    NoFileOnTheWay(t, dest, entries, Place(e));
    if ExtractMember(t, dest, e).Ok? {
      FolderAdded(t, ExtractMember(t, dest, e).value, dest, entries, e);
    }
  }

  /** The clash test of a file, split into the two system calls that notice it. */
  lemma FileFits(t: Tree, dest: Path, entries: seq<Entry>, e: Entry)
    requires Holds(t, dest, entries) && IsFile(e) && Place(e) != []
    requires forall i | 0 <= i < |entries| :: Place(entries[i]) != Place(e)
    ensures (forall i | 0 <= i < |entries| :: !Clash(entries[i], e)) <==>
              && MakeFolders(t, Above(Target(dest, e))).Some?
              && Target(dest, e) !in t
  {
    var target, place := Target(dest, e), Place(e);
    HoldsIsClosed(t, dest, entries);
    assert Above(target) == dest + Above(place);
    MakeFoldersDoes(t, dest, Above(target));
    NoFileOnTheWay(t, dest, entries, Above(place));
    FolderInTheWay(t, dest, entries, place);
    forall i | 0 <= i < |entries| ensures Place(entries[i]) <= Above(place) <==> Place(entries[i]) <= place {
    }
    if target in t && t[target] != Folder {
      assert IsFileOf(target, t[target].content, dest, entries);
      var i :| 0 <= i < |entries| && target == Target(dest, entries[i]);
      PrefixOfSum(dest, Place(entries[i]), place);
    }
  }

  predicate FolderAt(tree: Tree, path: Path) {
    path in tree && tree[path] == Folder
  }

  /** Extracting one file to a path that is known to lie below the destination. */
  function ExtractFileTo(t: Tree, target: Path, e: Entry): Result<Tree>
    requires target != []
  {
    var made := MakeFolders(t, Above(target));
    if made.None? then Err(FileSystem)
    else if |e.content| != e.size || |e.content| > MAX_UNCOMPRESSED_BYTES then Err(MemberSize)
    else
      var written := WriteBytes(made.value, target, e.content);
      if written.None? then Err(FileSystem) else Ok(written.value)
  }

  lemma ExtractMemberIsFile(t: Tree, dest: Path, e: Entry)
    requires SafeName(Bare(e.name)) && IsFile(e)
    ensures Target(dest, e) != [] && ExtractMember(t, dest, e) == ExtractFileTo(t, Target(dest, e), e)
  {
    PlaceIsTarget(dest, e);
    var normalized := NormaliseMember(Bare(e.name));
    assert JoinPath(dest, Split(normalized.value, '/')) == Target(dest, e);
    assert dest <= Target(dest, e);
  }

  /** One file member, step by step: the folders above it, its size, and a target that is no folder. */
  lemma FileStep(t: Tree, dest: Path, e: Entry)
    requires SafeName(Bare(e.name)) && IsFile(e)
    ensures Target(dest, e) != []
    ensures var made := MakeFolders(t, Above(Target(dest, e)));
            && (ExtractMember(t, dest, e).Ok? <==>
                 made.Some? && |e.content| == e.size && e.size <= MAX_UNCOMPRESSED_BYTES &&
                   !FolderAt(made.value, Target(dest, e)))
            && (ExtractMember(t, dest, e).Ok? ==>
                 ExtractMember(t, dest, e).value == made.value[Target(dest, e) := Data(e.content)])
  {
    ExtractMemberIsFile(t, dest, e);
  }

  /** A place no member has yet is free or a folder. */
  lemma FreeOrFolder(t: Tree, dest: Path, entries: seq<Entry>, e: Entry)
    requires Holds(t, dest, entries)
    requires forall i | 0 <= i < |entries| :: Place(entries[i]) != Place(e)
    ensures Target(dest, e) in t ==> t[Target(dest, e)] == Folder
  {
    var target := Target(dest, e);
    if target in t && t[target] != Folder {
      assert IsFileOf(target, t[target].content, dest, entries);
      var i :| 0 <= i < |entries| && IsFile(entries[i]) && target == Target(dest, entries[i]);
      PrefixOfSum(dest, Place(entries[i]), Place(e));
    }
  }

  /** Making the folders above a member leaves its own place as it was. */
  lemma MadeAbove(t: Tree, dest: Path, place: Path)
    requires Closed(t, dest) && place != []
    requires MakeFolders(t, Above(dest + place)).Some?
    ensures FolderAt(MakeFolders(t, Above(dest + place)).value, dest + place) <==> FolderAt(t, dest + place)
  {
    assert Above(dest + place) == dest + Above(place);
    MakeFoldersDoes(t, dest, Above(dest + place));
  }

  lemma ExtractFile(t: Tree, dest: Path, entries: seq<Entry>, e: Entry)
    requires Holds(t, dest, entries) && SafeName(Bare(e.name)) && IsFile(e)
    requires forall i | 0 <= i < |entries| :: Place(entries[i]) != Place(e)
    ensures ExtractMember(t, dest, e).Ok? <==> FitsAfter(entries, e)
    ensures ExtractMember(t, dest, e).Ok? ==> Holds(ExtractMember(t, dest, e).value, dest, entries + [e])
  {
    PlaceIsTarget(dest, e);
    FileStep(t, dest, e);
    FileFits(t, dest, entries, e);
    HoldsIsClosed(t, dest, entries);
    FreeOrFolder(t, dest, entries, e);
    var made := MakeFolders(t, Above(Target(dest, e)));
    if made.Some? {
      MadeAbove(t, dest, Place(e));
      if Target(dest, e) !in t {
        FileAdded(t, made.value, dest, entries, e);
      }
    }
  }

  // ---------------------------------------------------------------- the whole archive

  lemma SoundFront(entries: seq<Entry>)
    requires entries != [] && Sound(entries)
    ensures Sound(entries[..|entries| - 1])
  {
    var front := entries[..|entries| - 1];
    forall i, j | 0 <= i < j < |front| ensures Place(front[i]) != Place(front[j]) {
      assert Place(entries[i]) != Place(entries[j]);
    }
  }

  lemma NothingHolds(dest: Path)
    ensures Holds(map[dest := Folder], dest, [])
  {
  }

  /**
   * Every archive the inventory lets through is extracted exactly when nothing clashes, and then to exactly its
   * members.
   */
  lemma {:induction false} ExtractMembersDoes(dest: Path, entries: seq<Entry>)
    requires Sound(entries)
    ensures ExtractMembers(map[dest := Folder], dest, entries).Ok? <==> NoClash(entries) && SizesHold(entries)
    ensures ExtractMembers(map[dest := Folder], dest, entries).Ok? ==>
              Holds(ExtractMembers(map[dest := Folder], dest, entries).value, dest, entries)
    decreases |entries|
  {
    if entries == [] {
      NothingHolds(dest);
    } else {
      var n := |entries| - 1;
      var front, e := entries[..n], entries[n];
      assert entries == front + [e];
      SoundFront(entries);
      ExtractMembersDoes(dest, front);
      var before := ExtractMembers(map[dest := Folder], dest, front);
      FitsSplit(front, e);
      if before.Ok? {
        forall i | 0 <= i < n ensures Place(front[i]) != Place(e) {
          assert Place(entries[i]) != Place(entries[n]);
        }
        if IsFile(e) {
          ExtractFile(before.value, dest, front, e);
        } else {
          ExtractFolder(before.value, dest, front, e);
        }
      }
    }
  }

  lemma FitsSplit(front: seq<Entry>, e: Entry)
    ensures NoClash(front + [e]) && SizesHold(front + [e]) <==>
              NoClash(front) && SizesHold(front) && FitsAfter(front, e)
  {
    var all := front + [e];
    var n := |front|;
    assert all[n] == e && forall i | 0 <= i < n :: all[i] == front[i];
    if NoClash(all) && SizesHold(all) {
      forall i, j | 0 <= i < j < n ensures !Clash(front[i], front[j]) {
        assert !Clash(all[i], all[j]);
      }
      forall i | 0 <= i < n ensures !Clash(front[i], e) {
        assert !Clash(all[i], all[n]);
      }
    }
    if NoClash(front) && SizesHold(front) && FitsAfter(front, e) {
      forall i, j | 0 <= i < j < |all| ensures !Clash(all[i], all[j]) {
        if j < n {
          assert !Clash(front[i], front[j]);
        }
      }
    }
  }

  /**
   * A clean inventory: at most 4096 members with safe names of which no two fold alike, each of them a file or a
   * folder, and a bounded total size of the files.
   */
  ghost predicate CleanSdist(entries: seq<Entry>, casefold: string -> string) {
    && |entries| <= 4096
    && (forall i | 0 <= i < |entries| :: SafeName(Bare(entries[i].name)))
    && CaseDistinct(WheelRecord.BareNames(entries), casefold)
    && (forall i | 0 <= i < |entries| :: entries[i].kind in {Regular, Directory})
    && FileSize(entries) <= 128 * 1024 * 1024
  }

  lemma InventoryDecides(entries: seq<Entry>, casefold: string -> string)
    ensures TarInventory(entries, casefold).Ok? <==> CleanSdist(entries, casefold)
  {
    var names := WheelRecord.BareNames(entries);
    SafeMembersDecides(names, casefold);
    if SafeNames(names) {
      forall i | 0 <= i < |entries| ensures SafeName(Bare(entries[i].name)) {
        assert SafeName(names[i]);
      }
    }
    forall i | 0 <= i < |entries|
      ensures !(!IsFile(entries[i]) && !IsFolder(entries[i])) <==> entries[i].kind in {Regular, Directory}
    {
    }
  }

  /** What the inventory guarantees. */
  lemma InventoryIsSound(entries: seq<Entry>, casefold: string -> string)
    requires TarInventory(entries, casefold).Ok?
    ensures Sound(entries)
  {
    var names := WheelRecord.BareNames(entries);
    SafeMembersDecides(names, casefold);
    forall i | 0 <= i < |entries| ensures SafeName(Bare(entries[i].name)) {
      assert SafeName(names[i]);
    }
    forall i, j | 0 <= i < j < |entries| ensures Place(entries[i]) != Place(entries[j]) {
      assert casefold(CleanName(names[i])) != casefold(CleanName(names[j]));
      JoinSplit(CleanName(names[i]), '/');
      JoinSplit(CleanName(names[j]), '/');
    }
  }

  /** All members lie under one top-level folder. */
  ghost predicate UnderOneRoot(entries: seq<Entry>, root: string) {
    && (exists i | 0 <= i < |entries| :: |Place(entries[i])| > 1 || IsFolder(entries[i]))
    && (forall i | 0 <= i < |entries| :: Place(entries[i])[0] == root)
  }

  lemma TopLevelsOf(entries: seq<Entry>, casefold: string -> string)
    requires TarInventory(entries, casefold).Ok?
    ensures |TarInventory(entries, casefold).value| == |entries|
    ensures TopLevels(TarInventory(entries, casefold).value) == set i | 0 <= i < |entries| :: Place(entries[i])[0]
  {
    var names := WheelRecord.BareNames(entries);
    var inventory := TarInventory(entries, casefold).value;
    SafeMembersInventory(names, casefold);
    var clean := seq(|names|, i requires 0 <= i < |names| => CleanName(names[i]));
    assert |inventory| == |multiset(inventory)| == |multiset(clean)| == |clean|;
    var tops := set i | 0 <= i < |entries| :: Place(entries[i])[0];
    forall top | top in TopLevels(inventory) ensures top in tops {
      var i :| 0 <= i < |inventory| && Split(inventory[i], '/')[0] == top;
      assert inventory[i] in multiset(clean);
      var j :| 0 <= j < |clean| && clean[j] == inventory[i];
      assert Place(entries[j])[0] == top;
    }
    forall top | top in tops ensures top in TopLevels(inventory) {
      var j :| 0 <= j < |entries| && Place(entries[j])[0] == top;
      assert clean[j] in multiset(inventory);
      var i :| 0 <= i < |inventory| && inventory[i] == clean[j];
    }
  }

  lemma RootIsFolder(entries: seq<Entry>, dest: Path, root: string, tree: Tree)
    requires Holds(tree, dest, entries) && Sound(entries)
    requires forall i | 0 <= i < |entries| :: Place(entries[i])[0] == root
    ensures dest + [root] in tree && tree[dest + [root]] == Folder <==> UnderOneRoot(entries, root)
  {
    var path := dest + [root];
    assert path != dest;
    forall i | 0 <= i < |entries|
      ensures Below(path, dest, entries[i]) <==> |Place(entries[i])| > 1 || IsFolder(entries[i])
    {
      PlaceIsTarget(dest, entries[i]);
      PrefixOfSum(dest, [root], Place(entries[i]));
      assert [root] <= Place(entries[i]);
    }
    assert FolderAt(tree, path) <==> IsFolderOf(path, dest, entries);
  }

  lemma OneTop(tops: set<string>, root: string)
    requires root in tops
    ensures |tops| == 1 <==> tops == {root}
  {
    if |tops| == 1 {
      assert |tops - {root}| == 0;
    }
  }

  /** The reader's count of top-level names, said of the members. */
  lemma OneTopLevel(entries: seq<Entry>, inventory: seq<string>, casefold: string -> string)
    requires TarInventory(entries, casefold) == Ok(inventory)
    ensures inventory != [] ==>
              (|TopLevels(inventory)| == 1 <==>
                forall i | 0 <= i < |entries| :: Place(entries[i])[0] == Split(inventory[0], '/')[0])
    ensures |inventory| == |entries|
  {
    TopLevelsOf(entries, casefold);
    var tops := TopLevels(inventory);
    if inventory != [] {
      var root := Split(inventory[0], '/')[0];
      assert root in tops;
      OneTop(tops, root);
      if tops == {root} {
        forall i | 0 <= i < |entries| ensures Place(entries[i])[0] == root {
          assert Place(entries[i])[0] in tops;
        }
      }
    }
  }

  /**
   * Extraction succeeds exactly for a fresh destination, a clean inventory under one root folder,
   * no file standing where another member needs a folder, and honest sizes. It then returns that
   * root and leaves exactly the members behind.
   */
  lemma ExtractDecides(entries: seq<Entry>, dest: Path, destExists: bool, casefold: string -> string)
    ensures Extract(entries, dest, destExists, casefold).Ok? <==>
              && !destExists && CleanSdist(entries, casefold)
              && (exists root :: UnderOneRoot(entries, root))
              && NoClash(entries) && SizesHold(entries)
    ensures Extract(entries, dest, destExists, casefold).Ok? ==>
              var r := Extract(entries, dest, destExists, casefold).value;
              Holds(r.tree, dest, entries) && exists root :: UnderOneRoot(entries, root) && r.root == dest + [root]
  {
    InventoryDecides(entries, casefold);
    if !destExists && TarInventory(entries, casefold).Ok? {
      var inventory := TarInventory(entries, casefold).value;
      InventoryIsSound(entries, casefold);
      ExtractMembersDoes(dest, entries);
      OneTopLevel(entries, inventory, casefold);
      if inventory != [] {
        var root := Split(inventory[0], '/')[0];
        var tree := ExtractMembers(map[dest := Folder], dest, entries);
        if |TopLevels(inventory)| == 1 && tree.Ok? {
          RootIsFolder(entries, dest, root, tree.value);
        }
        if top :| UnderOneRoot(entries, top) {
          SoleRoot(entries, top, inventory, casefold);
        }
      }
    }
  }

  lemma SoleRoot(entries: seq<Entry>, top: string, inventory: seq<string>, casefold: string -> string)
    requires TarInventory(entries, casefold) == Ok(inventory) && inventory != []
    requires UnderOneRoot(entries, top)
    ensures Split(inventory[0], '/')[0] == top
  {
    TopLevelsOf(entries, casefold);
    assert Split(inventory[0], '/')[0] in TopLevels(inventory);
  }

  function BytesWritten(entries: seq<Entry>): nat {
    if entries == [] then 0 else (if IsFile(entries[0]) then |entries[0].content| else 0) + BytesWritten(entries[1..])
  }

  lemma {:induction false} BytesAreSizes(entries: seq<Entry>)
    requires SizesHold(entries)
    ensures BytesWritten(entries) == FileSize(entries)
  {
    if entries != [] {
      assert SizesHold(entries[1..]) by {
        forall i | 0 <= i < |entries[1..]| && IsFile(entries[1..][i])
          ensures |entries[1..][i].content| == entries[1..][i].size && entries[1..][i].size <= MAX_UNCOMPRESSED_BYTES
        {
          assert entries[1..][i] == entries[i + 1];
        }
      }
      BytesAreSizes(entries[1..]);
    }
  }

  /** Extraction stays below its destination, and no two members share a path. */
  lemma ExtractionContained(entries: seq<Entry>, dest: Path, casefold: string -> string)
    requires Extract(entries, dest, false, casefold).Ok?
    ensures forall path | path in Extract(entries, dest, false, casefold).value.tree :: dest <= path
    ensures forall i, j | 0 <= i < j < |entries| :: Target(dest, entries[i]) != Target(dest, entries[j])
    ensures forall i | 0 <= i < |entries| :: OrdinaryPath(Place(entries[i])) && dest < Target(dest, entries[i])
  {
    var tree := Extract(entries, dest, false, casefold).value.tree;
    InventoryDecides(entries, casefold);
    ExtractDecides(entries, dest, false, casefold);
    InventoryIsSound(entries, casefold);
    forall path | path in tree ensures dest <= path {
      if tree[path] == Folder {
        assert IsFolderOf(path, dest, entries);
      } else {
        assert IsFileOf(path, tree[path].content, dest, entries);
      }
    }
    forall i, j | 0 <= i < j < |entries| ensures Target(dest, entries[i]) != Target(dest, entries[j]) {
      PrefixOfSum(dest, Place(entries[i]), Place(entries[j]));
    }
    forall i | 0 <= i < |entries| ensures OrdinaryPath(Place(entries[i])) && dest < Target(dest, entries[i]) {
      PlaceIsTarget(dest, entries[i]);
    }
  }

  ghost predicate BytesKept(tree: Tree, dest: Path, entries: seq<Entry>) {
    forall i | 0 <= i < |entries| && IsFile(entries[i]) ::
      Target(dest, entries[i]) in tree && tree[Target(dest, entries[i])] == Data(entries[i].content)
  }

  lemma HeldBytesKept(tree: Tree, dest: Path, entries: seq<Entry>)
    requires Holds(tree, dest, entries)
    ensures BytesKept(tree, dest, entries)
  {
    forall i | 0 <= i < |entries| && IsFile(entries[i])
      ensures Target(dest, entries[i]) in tree && tree[Target(dest, entries[i])] == Data(entries[i].content)
    {
      assert IsFileOf(Target(dest, entries[i]), entries[i].content, dest, entries);
    }
  }

  /**
   * Nothing is overwritten: every file member still has its bytes at the end, and together they stay within the
   * limit.
   */
  lemma ExtractionKeepsBytes(entries: seq<Entry>, dest: Path, casefold: string -> string)
    requires Extract(entries, dest, false, casefold).Ok?
    ensures BytesKept(Extract(entries, dest, false, casefold).value.tree, dest, entries)
    ensures BytesWritten(entries) == FileSize(entries) <= MAX_UNCOMPRESSED_BYTES
  {
    InventoryDecides(entries, casefold);
    ExtractDecides(entries, dest, false, casefold);
    BytesAreSizes(entries);
    HeldBytesKept(Extract(entries, dest, false, casefold).value.tree, dest, entries);
  }

  // ---------------------------------------------------------------- an archive with a folder entry

  function FolderArchive(content: seq<Byte>): seq<Entry> {
    [Entry("p/", Directory, 0, []), Entry("p/a", Regular, |content|, content)]
  }

  lemma BareFolder()
    ensures Bare("p/") == "p" && Bare("p/a") == "p/a"
  {
    assert "p/"[..1] == "p";
  }

  lemma ShortNames()
    ensures SafeName("p") && Split(CleanName("p"), '/') == ["p"] && CleanName("p") == "p"
    ensures SafeName("p/a") && Split(CleanName("p/a"), '/') == ["p", "a"] && CleanName("p/a") == "p/a"
  {
    assert Replace("p", '\\', '/') == "p" && Replace("p/a", '\\', '/') == "p/a";
    SplitPlain("p", '/');
    SplitPlain("a", '/');
    assert "p/a" == "p" + ['/'] + "a";
    SplitHead("p", "a", '/');
    assert ["p"] + ["a"] == ["p", "a"];
    assert !HasControl("p") && !HasControl("p/a");
  }

  /** A folder member is created, and is no obstacle to the files below it. */
  lemma FolderMemberIsExtracted(content: seq<Byte>, dest: Path, casefold: string -> string)
    requires casefold("p") != casefold("p/a") && |content| <= 128 * 1024 * 1024
    ensures var r := Extract(FolderArchive(content), dest, false, casefold);
            && r.Ok? && r.value.root == dest + ["p"]
            && FolderAt(r.value.tree, dest + ["p"])
            && dest + ["p", "a"] in r.value.tree && r.value.tree[dest + ["p", "a"]] == Data(content)
  {
    var entries := FolderArchive(content);
    BareFolder();
    ShortNames();
    assert Place(entries[0]) == ["p"] && Place(entries[1]) == ["p", "a"];
    FileSizeNext(entries, 0);
    FileSizeNext(entries, 1);
    assert entries[..0] == [] && entries[..2] == entries;
    assert CleanSdist(entries, casefold);
    assert UnderOneRoot(entries, "p");
    assert NoClash(entries) && SizesHold(entries);
    ExtractDecides(entries, dest, false, casefold);
    var r := Extract(entries, dest, false, casefold).value;
    assert Below(dest + ["p"], dest, entries[0]);
    assert IsFolderOf(dest + ["p"], dest, entries);
    assert IsFileOf(dest + ["p", "a"], content, dest, entries);
    var top :| UnderOneRoot(entries, top) && r.root == dest + [top];
    assert top == Place(entries[0])[0];
  }
}
