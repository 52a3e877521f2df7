/** Source distributions: what the builder writes is what extraction leaves behind. */
module SdistBuilder {
  import opened Text
  import opened Sequences
  import opened Base64Url
  import opened Artifacts
  import opened WheelBuilder
  import opened SdistReader
  import Sorting
  import WheelRecord

  function Rooted(prefix: string, files: seq<File>): (rooted: seq<File>)
    ensures |rooted| == |files|
    ensures forall i | 0 <= i < |files| :: rooted[i] == InRoot(prefix, files[i])
  {
    seq(|files|, i requires 0 <= i < |files| => InRoot(prefix, files[i]))
  }

  function InRoot(prefix: string, f: File): File {
    File(prefix + "/" + f.name, f.content)
  }

  /** The archive of a source distribution: sorted members below one root. */
  function Sdist(prefix: string, members: seq<File>): Result<seq<Entry>> {
    if !Distinct(FileNames(members)) then Err(DuplicateMembers)
    else Ok(Stored(Rooted(prefix, Sorting.Sort(members, FileLeq))))
  }

  method WriteSdist(prefix: string, members: seq<File>) returns (r: Result<seq<Entry>>)
    ensures r == Sdist(prefix, members)
  {
    if !Distinct(FileNames(members)) {
      return Err(DuplicateMembers);
    }
    var sorted := Sorting.Sort(members, FileLeq);
    ghost var rooted := Rooted(prefix, sorted);
    var archive := [];
    for k := 0 to |sorted|
      invariant |archive| == k
      invariant forall i | 0 <= i < k ::
                  archive[i] == Entry(rooted[i].name, Regular, |rooted[i].content|, rooted[i].content)
    {
      archive := archive + [Entry(prefix + "/" + sorted[k].name, Regular, |sorted[k].content|, sorted[k].content)];
    }
    assert archive == Stored(rooted);
    return Ok(archive);
  }

  /** The archive is a function of the set of members: listing them in another order changes nothing. */
  lemma SdistIsReproducible(prefix: string, a: seq<File>, b: seq<File>)
    requires multiset(a) == multiset(b)
    ensures Sdist(prefix, a) == Sdist(prefix, b)
  {
    FileOrder();
    Sorting.SortForgetsOrder(a, b, FileLeq);
    NamesForgetOrder(a);
    NamesForgetOrder(b);
  }

  lemma NamesPrepend(x: File, files: seq<File>)
    ensures multiset(FileNames([x] + files)) == multiset{x.name} + multiset(FileNames(files))
  {
    assert FileNames([x] + files) == [x.name] + FileNames(files);
  }

  lemma {:induction false} NamesOfInsert(x: File, files: seq<File>)
    ensures multiset(FileNames(Sorting.Insert(x, files, FileLeq))) == multiset(FileNames(files)) + multiset{x.name}
  {
    if files == [] || FileLeq(x, files[0]) {
      NamesPrepend(x, files);
    } else {
      var first, rest := files[0], files[1..];
      NamesOfInsert(x, rest);
      NamesPrepend(first, Sorting.Insert(x, rest, FileLeq));
      NamesPrepend(first, rest);
      assert files == [first] + rest;
    }
  }

  lemma {:induction false} NamesOfSort(files: seq<File>)
    ensures multiset(FileNames(Sorting.Sort(files, FileLeq))) == multiset(FileNames(files))
  {
    if files != [] {
      var first, rest := files[0], files[1..];
      NamesOfSort(rest);
      NamesOfInsert(first, Sorting.Sort(rest, FileLeq));
      NamesPrepend(first, rest);
      assert files == [first] + rest;
    }
  }

  lemma NamesForgetOrder(files: seq<File>)
    ensures Distinct(FileNames(files)) <==> Distinct(FileNames(Sorting.Sort(files, FileLeq)))
  {
    NamesOfSort(files);
    DistinctForgetsOrder(FileNames(files), FileNames(Sorting.Sort(files, FileLeq)));
  }

  lemma RootedPrepend(prefix: string, x: File, files: seq<File>)
    ensures multiset(Rooted(prefix, [x] + files)) == multiset{InRoot(prefix, x)} + multiset(Rooted(prefix, files))
  {
    assert Rooted(prefix, [x] + files) == [InRoot(prefix, x)] + Rooted(prefix, files);
  }

  lemma {:induction false} RootedInsert(prefix: string, x: File, files: seq<File>)
    ensures multiset(Rooted(prefix, Sorting.Insert(x, files, FileLeq))) ==
              multiset(Rooted(prefix, files)) + multiset{InRoot(prefix, x)}
  {
    if files == [] || FileLeq(x, files[0]) {
      RootedPrepend(prefix, x, files);
    } else {
      var first, rest := files[0], files[1..];
      RootedInsert(prefix, x, rest);
      RootedPrepend(prefix, first, Sorting.Insert(x, rest, FileLeq));
      RootedPrepend(prefix, first, rest);
      assert files == [first] + rest;
    }
  }

  lemma {:induction false} RootedSort(prefix: string, files: seq<File>)
    ensures multiset(Rooted(prefix, Sorting.Sort(files, FileLeq))) == multiset(Rooted(prefix, files))
  {
    if files != [] {
      var first, rest := files[0], files[1..];
      RootedSort(prefix, rest);
      RootedInsert(prefix, first, Sorting.Sort(rest, FileLeq));
      RootedPrepend(prefix, first, rest);
      assert files == [first] + rest;
    }
  }

  // ---------------------------------------------------------------- names under the root

  /** What `name-version` looks like for valid metadata. */
  predicate PlainRoot(prefix: string) {
    && OrdinaryComponent(prefix)
    && forall i | 0 <= i < |prefix| :: prefix[i] !in {'/', '\\', ':'} && !IsControl(prefix[i])
  }

  /** A member name that means the same path to the builder and to the reader. */
  predicate PlainName(name: string) {
    name != "" && name[|name| - 1] != '/' && '\\' !in name
  }

  lemma {:induction false} SplitLast(s: string, sep: char)
    requires s != "" && s[|s| - 1] == sep
    ensures Split(s, sep)[|Split(s, sep)| - 1] == ""
  {
    if |s| > 1 {
      SplitLast(s[1..], sep);
    }
  }

  lemma RootedIsBare(prefix: string, name: string)
    requires PlainName(name)
    ensures Bare(prefix + "/" + name) == prefix + "/" + name
  {
    var full := prefix + "/" + name;
    assert full[|full| - 1] == name[|name| - 1];
    RStripCharOf(full, '/', 0);
    assert full + Repeat('/', 0) == full;
  }

  lemma RootedIsClean(prefix: string, name: string)
    requires PlainRoot(prefix) && PlainName(name)
    ensures CleanName(prefix + "/" + name) == prefix + "/" + name
    ensures Split(prefix + "/" + name, '/') == [prefix] + Split(name, '/')
  {
    var full := prefix + "/" + name;
    assert Replace(full, '\\', '/') == full;
    SplitHead(prefix, name, '/');
  }

  lemma RootedControl(prefix: string, name: string)
    requires PlainRoot(prefix)
    ensures HasControl(prefix + "/" + name) <==> HasControl(name)
  {
    var full := prefix + "/" + name;
    if i :| 0 <= i < |full| && IsControl(full[i]) {
      assert i > |prefix| && IsControl(name[i - |prefix| - 1]);
    }
    if i :| 0 <= i < |name| && IsControl(name[i]) {
      assert full[|prefix| + 1 + i] == name[i];
    }
  }

  lemma OrdinaryBelow(first: string, rest: seq<string>)
    requires OrdinaryComponent(first)
    ensures OrdinaryPath([first] + rest) <==> OrdinaryPath(rest)
  {
    if OrdinaryPath([first] + rest) {
      forall i | 0 <= i < |rest| ensures OrdinaryComponent(rest[i]) {
        assert ([first] + rest)[i + 1] == rest[i];
      }
    }
  }

  /** When the reader takes the name of a written member. */
  lemma RootedIsSafe(prefix: string, name: string)
    requires PlainRoot(prefix) && PlainName(name)
    ensures SafeName(prefix + "/" + name) <==>
              |prefix| + 1 + |name| <= MAX_MEMBER_NAME && !HasControl(name) && OrdinaryPath(Split(name, '/'))
  {
    RootedIsClean(prefix, name);
    RootedControl(prefix, name);
    OrdinaryBelow(prefix, Split(name, '/'));
  }

  /** The place of a written member. */
  lemma RootedPlace(prefix: string, f: File, e: Entry)
    requires PlainRoot(prefix) && PlainName(f.name) && e.name == prefix + "/" + f.name
    ensures Place(e) == [prefix] + Split(f.name, '/')
  {
    RootedIsBare(prefix, f.name);
    RootedIsClean(prefix, f.name);
  }

  // ---------------------------------------------------------------- write, then extract

  ghost predicate AllPlain(files: seq<File>) {
    forall f | f in files :: PlainName(f.name)
  }

  /** No file name is a directory on the way to another file. */
  ghost predicate NoFileIsFolder(files: seq<File>) {
    forall f, g | f in files && g in files && f != g :: !OnTheWay(f, g)
  }

  predicate OnTheWay(f: File, g: File) {
    Split(f.name, '/') <= Split(g.name, '/')
  }

  lemma {:induction false} StoredFileSize(files: seq<File>)
    ensures FileSize(Stored(files)) == TotalSize(Stored(files))
  {
    if files != [] {
      assert Stored(files)[1..] == Stored(files[1..]);
      StoredFileSize(files[1..]);
    }
  }

  lemma TarInventoryOfStored(files: seq<File>, casefold: string -> string)
    ensures TarInventory(Stored(files), casefold).Ok? <==> WithinReaderLimits(files, casefold)
  {
    StoredFileSize(files);
    SafeMembersDecides(WheelRecord.BareNames(Stored(files)), casefold);
  }

  lemma WrittenPlaces(prefix: string, files: seq<File>)
    requires PlainRoot(prefix) && AllPlain(files)
    ensures forall i | 0 <= i < |files| ::
              Place(Stored(Rooted(prefix, files))[i]) == [prefix] + Split(files[i].name, '/')
  {
    forall i | 0 <= i < |files|
      ensures Place(Stored(Rooted(prefix, files))[i]) == [prefix] + Split(files[i].name, '/')
    {
      RootedPlace(prefix, files[i], Stored(Rooted(prefix, files))[i]);
    }
  }

  lemma WrittenClash(prefix: string, f: File, g: File, a: Entry, b: Entry)
    requires PlainRoot(prefix) && PlainName(f.name) && PlainName(g.name)
    requires a.name == prefix + "/" + f.name && b.name == prefix + "/" + g.name && IsFile(a) && IsFile(b)
    ensures Clash(a, b) <==> OnTheWay(f, g) || OnTheWay(g, f)
  {
    RootedPlace(prefix, f, a);
    RootedPlace(prefix, g, b);
    PrefixOfSum([prefix], Split(f.name, '/'), Split(g.name, '/'));
    PrefixOfSum([prefix], Split(g.name, '/'), Split(f.name, '/'));
  }

  lemma NoClashMeansNoFolder(prefix: string, files: seq<File>, entries: seq<Entry>, i: nat, j: nat)
    requires PlainRoot(prefix) && AllPlain(files) && entries == Stored(Rooted(prefix, files))
    requires i < |files| && j < |files| && i != j && NoClash(entries)
    ensures !OnTheWay(files[i], files[j])
  {
    var low, high := if i < j then i else j, if i < j then j else i;
    WrittenClash(prefix, files[low], files[high], entries[low], entries[high]);
    assert !Clash(entries[low], entries[high]);
  }

  lemma WrittenNoClash(prefix: string, files: seq<File>)
    requires PlainRoot(prefix) && AllPlain(files) && Distinct(files)
    ensures NoClash(Stored(Rooted(prefix, files))) <==> NoFileIsFolder(files)
  {
    var entries := Stored(Rooted(prefix, files));
    if NoClash(entries) {
      forall f, g | f in files && g in files && f != g ensures !OnTheWay(f, g) {
        var i :| 0 <= i < |files| && files[i] == f;
        var j :| 0 <= j < |files| && files[j] == g;
        NoClashMeansNoFolder(prefix, files, entries, i, j);
      }
    }
    if NoFileIsFolder(files) {
      forall i, j | 0 <= i < j < |entries| ensures !Clash(entries[i], entries[j]) {
        WrittenClash(prefix, files[i], files[j], entries[i], entries[j]);
        assert files[i] in files && files[j] in files && files[i] != files[j];
      }
    }
  }

  ghost predicate IsMember(path: Path, content: seq<Byte>, root: Path, members: seq<File>) {
    exists f | f in members :: path == root + Split(f.name, '/') && f.content == content
  }

  /** The files, and nothing else that is not a folder, below the root. */
  ghost predicate ExactlyThese(tree: Tree, root: Path, members: seq<File>) {
    forall path, content :: path in tree && tree[path] == Data(content) <==> IsMember(path, content, root, members)
  }

  lemma HeldFiles(tree: Tree, dest: Path, prefix: string, files: seq<File>)
    requires PlainRoot(prefix) && AllPlain(files)
    requires Holds(tree, dest, Stored(Rooted(prefix, files)))
    ensures ExactlyThese(tree, dest + [prefix], files)
  {
    var entries := Stored(Rooted(prefix, files));
    WrittenPlaces(prefix, files);
    forall i | 0 <= i < |files| ensures Target(dest, entries[i]) == dest + [prefix] + Split(files[i].name, '/') {
      assert dest + ([prefix] + Split(files[i].name, '/')) == dest + [prefix] + Split(files[i].name, '/');
    }
    forall path, content
      ensures IsFileOf(path, content, dest, entries) <==> IsMember(path, content, dest + [prefix], files)
    {
      if i :| 0 <= i < |entries| && path == Target(dest, entries[i]) && entries[i].content == content {
        assert files[i] in files;
      }
      if f :| f in files && path == dest + [prefix] + Split(f.name, '/') && f.content == content {
        var i :| 0 <= i < |files| && files[i] == f;
        assert path == Target(dest, entries[i]);
      }
    }
  }

  lemma SortedFacts(members: seq<File>, sorted: seq<File>)
    requires sorted == Sorting.Sort(members, FileLeq)
    ensures forall f :: f in sorted <==> f in members
    ensures |sorted| == |members|
  {
    Sorting.SortKeepsElements(members, FileLeq);
    forall f ensures f in sorted <==> f in members {
      assert f in sorted <==> f in multiset(sorted);
      assert f in members <==> f in multiset(members);
    }
  }

  lemma SdistRootFolder(prefix: string, files: seq<File>)
    requires PlainRoot(prefix) && AllPlain(files)
    ensures files != [] ==> UnderOneRoot(Stored(Rooted(prefix, files)), prefix)
    ensures files == [] ==> forall root :: !UnderOneRoot(Stored(Rooted(prefix, files)), root)
    ensures forall root | UnderOneRoot(Stored(Rooted(prefix, files)), root) :: root == prefix
  {
    var entries := Stored(Rooted(prefix, files));
    WrittenPlaces(prefix, files);
    if files != [] {
      assert |Place(entries[0])| > 1;
    }
    forall root | UnderOneRoot(entries, root) ensures root == prefix {
      assert Place(entries[0])[0] == root;
    }
  }

  lemma DistinctNamesDistinctFiles(files: seq<File>)
    requires Distinct(FileNames(files))
    ensures Distinct(files)
  {
    forall i, j | 0 <= i < j < |files| ensures files[i] != files[j] {
      assert FileNames(files)[i] != FileNames(files)[j];
    }
  }

  lemma StoredSizesHold(files: seq<File>, casefold: string -> string)
    requires TarInventory(Stored(files), casefold).Ok?
    ensures SizesHold(Stored(files))
  {
    forall i | 0 <= i < |files| ensures Stored(files)[i].size <= MAX_UNCOMPRESSED_BYTES {
      SizeBelowTotal(Stored(files), i);
    }
  }

  lemma RoundTripInOrder(prefix: string, files: seq<File>, dest: Path, casefold: string -> string)
    requires PlainRoot(prefix) && AllPlain(files) && Distinct(files)
    ensures Extract(Stored(Rooted(prefix, files)), dest, false, casefold).Ok? <==>
              files != [] && WithinReaderLimits(Rooted(prefix, files), casefold) && NoFileIsFolder(files)
    ensures Extract(Stored(Rooted(prefix, files)), dest, false, casefold).Ok? ==>
              var r := Extract(Stored(Rooted(prefix, files)), dest, false, casefold).value;
              r.root == dest + [prefix] && ExactlyThese(r.tree, dest + [prefix], files)
  {
    var entries := Stored(Rooted(prefix, files));
    TarInventoryOfStored(Rooted(prefix, files), casefold);
    WrittenNoClash(prefix, files);
    SdistRootFolder(prefix, files);
    InventoryDecides(entries, casefold);
    ExtractDecides(entries, dest, false, casefold);
    if TarInventory(entries, casefold).Ok? {
      StoredSizesHold(Rooted(prefix, files), casefold);
    }
    if Extract(entries, dest, false, casefold).Ok? {
      HeldFiles(Extract(entries, dest, false, casefold).value.tree, dest, prefix, files);
    }
  }

  /** Extraction takes the archive, returns `dest/name-version`, and leaves exactly the members below it. */
  ghost predicate RoundTrips(prefix: string, members: seq<File>, archive: seq<Entry>, dest: Path,
                             casefold: string -> string)
  {
    var r := Extract(archive, dest, false, casefold);
    r.Ok? && r.value.root == dest + [prefix] && ExactlyThese(r.value.tree, dest + [prefix], members)
  }

  /** Write, then extract, for names without backslashes and trailing slashes: extraction either refuses or is exact. */
  lemma PlainSdistRoundTrip(prefix: string, members: seq<File>, dest: Path, casefold: string -> string)
    requires PlainRoot(prefix) && AllPlain(members) && Sdist(prefix, members).Ok?
    ensures Extract(Sdist(prefix, members).value, dest, false, casefold).Ok? <==>
              members != [] && WithinReaderLimits(Rooted(prefix, members), casefold) && NoFileIsFolder(members)
    ensures Extract(Sdist(prefix, members).value, dest, false, casefold).Ok? ==>
              RoundTrips(prefix, members, Sdist(prefix, members).value, dest, casefold)
  {
    var sorted := Sorting.Sort(members, FileLeq);
    SortedFacts(members, sorted);
    RootedSort(prefix, members);
    LimitsForgetOrder(Rooted(prefix, members), Rooted(prefix, sorted), casefold);
    DistinctNamesDistinctFiles(members);
    Sorting.SortKeepsElements(members, FileLeq);
    DistinctForgetsOrder(members, sorted);
    RoundTripInOrder(prefix, sorted, dest, casefold);
    SameMembers(members, sorted, dest + [prefix]);
  }

  lemma {:induction false} SplitKeepsCharacters(s: string, sep: char, c: char)
    requires c != sep
    ensures c in s <==> exists i | 0 <= i < |Split(s, sep)| :: c in Split(s, sep)[i]
  {
    if s != "" {
      var rest := Split(s[1..], sep);
      var parts := Split(s, sep);
      SplitKeepsCharacters(s[1..], sep, c);
      assert s == [s[0]] + s[1..];
      assert c in s <==> c == s[0] || c in s[1..];
      if s[0] == sep {
        assert forall i | 0 <= i < |rest| :: parts[i + 1] == rest[i];
        assert c !in parts[0];
        assert forall i | 1 <= i < |parts| :: parts[i] == rest[i - 1];
      } else {
        assert parts[0] == [s[0]] + rest[0];
        assert forall i | 1 <= i < |rest| :: parts[i] == rest[i];
      }
    }
  }

  /** The components of an extracted member are ordinary and hold no backslash. */
  lemma PlaceComponents(e: Entry)
    requires SafeName(Bare(e.name))
    ensures forall k | 0 <= k < |Place(e)| :: OrdinaryComponent(Place(e)[k]) && '\\' !in Place(e)[k]
  {
    PlaceIsTarget([], e);
    var name := CleanName(Bare(e.name));
    SplitKeepsCharacters(name, '/', '\\');
    assert '\\' !in name;
    forall k | 0 <= k < |Place(e)| ensures OrdinaryComponent(Place(e)[k]) && '\\' !in Place(e)[k] {
      assert '\\' in Split(name, '/')[k] ==> '\\' in name;
    }
  }

  lemma OrdinaryNameIsPlain(name: string)
    requires OrdinaryPath(Split(name, '/'))
    requires forall k | 0 <= k < |Split(name, '/')| :: '\\' !in Split(name, '/')[k]
    ensures PlainName(name)
  {
    SplitKeepsCharacters(name, '/', '\\');
    var parts := Split(name, '/');
    assert OrdinaryComponent(parts[|parts| - 1]);
    if name != "" && name[|name| - 1] == '/' {
      SplitLast(name, '/');
    }
  }

  lemma FileCameFrom(tree: Tree, dest: Path, entries: seq<Entry>, place: Path, content: seq<Byte>) returns (j: nat)
    requires Holds(tree, dest, entries)
    requires dest + place in tree && tree[dest + place] == Data(content)
    ensures j < |entries| && Place(entries[j]) == place
  {
    assert IsFileOf(dest + place, content, dest, entries);
    j :| 0 <= j < |entries| && dest + place == Target(dest, entries[j]);
    PrefixOfSum(dest, place, Place(entries[j]));
  }

  lemma RootedPath(dest: Path, prefix: string, rest: Path)
    ensures dest + [prefix] + rest == dest + ([prefix] + rest)
  {
  }

  /** A file that comes back is some extracted member, at the place its name asks for. */
  lemma ComesBackFrom(prefix: string, files: seq<File>, entries: seq<Entry>, dest: Path, tree: Tree, f: File)
    returns (j: nat)
    requires Holds(tree, dest, entries)
    requires ExactlyThese(tree, dest + [prefix], files) && f in files
    ensures j < |entries| && Place(entries[j]) == [prefix] + Split(f.name, '/')
  {
    assert IsMember(dest + [prefix] + Split(f.name, '/'), f.content, dest + [prefix], files);
    RootedPath(dest, prefix, Split(f.name, '/'));
    j := FileCameFrom(tree, dest, entries, [prefix] + Split(f.name, '/'), f.content);
  }

  /** Only plain names can come back as they went in. */
  lemma ComesBackPlain(prefix: string, files: seq<File>, entries: seq<Entry>, dest: Path, tree: Tree, f: File)
    requires Sound(entries) && Holds(tree, dest, entries)
    requires ExactlyThese(tree, dest + [prefix], files) && f in files
    ensures PlainName(f.name)
  {
    var j := ComesBackFrom(prefix, files, entries, dest, tree, f);
    var parts := Split(f.name, '/');
    PlaceComponents(entries[j]);
    forall k | 0 <= k < |parts| ensures OrdinaryComponent(parts[k]) && '\\' !in parts[k] {
      assert Place(entries[j])[k + 1] == parts[k];
    }
    OrdinaryNameIsPlain(f.name);
  }

  /**
   * Write, then extract, for all members. The files come back exactly as they went in, below
   * `dest/name-version`, if and only if there is one, the archived names and sizes keep the reader's limits,
   * no file is a folder on the way to another, and no name holds a backslash or ends in a slash.
   */
  lemma SdistRoundTrip(prefix: string, members: seq<File>, dest: Path, casefold: string -> string)
    requires PlainRoot(prefix) && Sdist(prefix, members).Ok?
    ensures RoundTrips(prefix, members, Sdist(prefix, members).value, dest, casefold) <==>
              && members != [] && WithinReaderLimits(Rooted(prefix, members), casefold)
              && NoFileIsFolder(members) && AllPlain(members)
  {
    var archive := Sdist(prefix, members).value;
    if RoundTrips(prefix, members, archive, dest, casefold) {
      InventoryDecides(archive, casefold);
      ExtractDecides(archive, dest, false, casefold);
      InventoryIsSound(archive, casefold);
      var tree := Extract(archive, dest, false, casefold).value.tree;
      forall f | f in members ensures PlainName(f.name) {
        ComesBackPlain(prefix, members, archive, dest, tree, f);
      }
    }
    if AllPlain(members) {
      PlainSdistRoundTrip(prefix, members, dest, casefold);
    }
  }

  lemma SameMembers(a: seq<File>, b: seq<File>, root: Path)
    requires forall f :: f in a <==> f in b
    ensures NoFileIsFolder(a) <==> NoFileIsFolder(b)
    ensures forall tree :: ExactlyThese(tree, root, a) <==> ExactlyThese(tree, root, b)
  {
    forall path, content ensures IsMember(path, content, root, a) <==> IsMember(path, content, root, b) {
    }
  }

  lemma {:induction false} SizeBelowTotal(entries: seq<Entry>, i: nat)
    requires i < |entries| && IsFile(entries[i])
    ensures entries[i].size <= FileSize(entries)
  {
    if i > 0 {
      SizeBelowTotal(entries[1..], i - 1);
    }
  }
}
