/** The builder's side of a wheel, and its agreement with the reader. */
module WheelBuilder {
  import opened Text
  import opened Sequences
  import opened Base64Url
  import opened Artifacts
  import opened WheelRecord
  import opened WheelMetadata
  import Csv
  import Sorting

  datatype File = File(name: string, content: seq<Byte>)

  /** Python compares tuples by name first and then by bytes. */
  predicate FileLeq(a: File, b: File) {
    if a.name == b.name then Sorting.Lex(a.content, b.content, ByteRank) else Sorting.StringLeq(a.name, b.name)
  }

  lemma FileOrder()
    ensures Sorting.TotalOrder(FileLeq)
  {
    Sorting.StringOrder();
    forall x: File, y: File ensures FileLeq(x, y) || FileLeq(y, x) {
      Sorting.LexTotal(x.content, y.content, ByteRank);
      assert Sorting.StringLeq(x.name, y.name) || Sorting.StringLeq(y.name, x.name);
    }
    forall x: File, y: File | FileLeq(x, y) && FileLeq(y, x) ensures x == y {
      if x.name == y.name {
        Sorting.LexAntisymmetric(x.content, y.content, ByteRank);
      }
    }
    forall x: File, y: File, z: File | FileLeq(x, y) && FileLeq(y, z) ensures FileLeq(x, z) {
      if x.name == y.name == z.name {
        Sorting.LexTransitive(x.content, y.content, z.content, ByteRank);
      }
    }
  }

  function FileNames(files: seq<File>): (names: seq<string>)
    ensures |names| == |files|
    ensures forall i | 0 <= i < |files| :: names[i] == files[i].name
  {
    seq(|files|, i requires 0 <= i < |files| => files[i].name)
  }

  // ---------------------------------------------------------------- added files

  function Optional(name: string, content: Option<seq<Byte>>): seq<File> {
    if content.Some? then [File(name, content.value)] else []
  }

  /** Everything the builder adds besides RECORD. */
  function AddedFiles(m: Metadata, entryPoints: Option<seq<Byte>>, license: Option<seq<Byte>>,
                      identity: Option<seq<Byte>>, p: Platform): seq<File>
  {
    var d := DistInfo(m);
    var expression := if license.Some? && license.value != [] then Some("Apache-2.0") else None;
    [File(d + "/METADATA", p.encode(CoreMetadata(m, expression))), File(d + "/WHEEL", p.encode(WHEEL_FILE))]
    + Optional(d + "/entry_points.txt", entryPoints)
    + Optional(d + "/licenses/LICENSE", license)
    + Optional(d + "/provider.json", identity)
  }

  // ---------------------------------------------------------------- RECORD and the archive

  function RecordRow(f: File, p: Platform): seq<string> {
    [f.name, WheelHash(f.content, p.sha256), Decimal(|f.content|)]
  }

  function RecordRows(files: seq<File>, record: string, p: Platform): (rows: seq<seq<string>>)
    ensures |rows| == |files| + 1
    ensures forall i | 0 <= i < |files| :: rows[i] == RecordRow(files[i], p)
    ensures rows[|files|] == [record, "", ""]
  {
    seq(|files|, i requires 0 <= i < |files| => RecordRow(files[i], p)) + [[record, "", ""]]
  }

  function RecordFile(files: seq<File>, record: string, p: Platform): File {
    File(record, p.encode(Csv.WriteRows(RecordRows(files, record, p))))
  }

  /** All files of the wheel: RECORD describes the others and comes last. */
  function WithRecord(files: seq<File>, record: string, p: Platform): seq<File> {
    files + [RecordFile(files, record, p)]
  }

  function Stored(files: seq<File>): (entries: seq<Entry>)
    ensures |entries| == |files|
    ensures forall i | 0 <= i < |files| ::
              entries[i] == Entry(files[i].name, Regular, |files[i].content|, files[i].content)
  {
    seq(|files|, i requires 0 <= i < |files| => Entry(files[i].name, Regular, |files[i].content|, files[i].content))
  }

  function Wheel(files: seq<File>, record: string, p: Platform): Result<seq<Entry>> {
    if !Distinct(FileNames(files)) then Err(DuplicateMembers)
    else Ok(Stored(Sorting.Sort(WithRecord(files, record, p), FileLeq)))
  }

  class FileList {
    var files: seq<File>

    constructor (files: seq<File>)
      ensures this.files == files
    {
      this.files := files;
    }
  }

  /** Extends the caller's list with the files the builder adds. */
  method AddFiles(list: FileList, m: Metadata, entryPoints: Option<seq<Byte>>, license: Option<seq<Byte>>,
                  identity: Option<seq<Byte>>, p: Platform)
    modifies list
    ensures list.files == old(list.files) + AddedFiles(m, entryPoints, license, identity, p)
  {
    var d := DistInfo(m);
    var expression := if license.Some? && license.value != [] then Some("Apache-2.0") else None;
    var metadata := File(d + "/METADATA", p.encode(CoreMetadata(m, expression)));
    var wheel := File(d + "/WHEEL", p.encode(WHEEL_FILE));
    list.files := list.files + [metadata, wheel];
    ghost var added := [metadata, wheel];
    if entryPoints.Some? {
      list.files := list.files + [File(d + "/entry_points.txt", entryPoints.value)];
    }
    added := added + Optional(d + "/entry_points.txt", entryPoints);
    assert list.files == old(list.files) + added;
    if license.Some? {
      list.files := list.files + [File(d + "/licenses/LICENSE", license.value)];
    }
    added := added + Optional(d + "/licenses/LICENSE", license);
    assert list.files == old(list.files) + added;
    if identity.Some? {
      list.files := list.files + [File(d + "/provider.json", identity.value)];
    }
    added := added + Optional(d + "/provider.json", identity);
    assert list.files == old(list.files) + added;
  }

  method HashRows(files: seq<File>, record: string, p: Platform) returns (rows: seq<seq<string>>)
    ensures rows == RecordRows(files, record, p)
  {
    rows := [];
    for k := 0 to |files|
      invariant |rows| == k && forall i | 0 <= i < k :: rows[i] == RecordRow(files[i], p)
    {
      rows := rows + [RecordRow(files[k], p)];
    }
    rows := rows + [[record, "", ""]];
  }

  method WriteMembers(files: seq<File>) returns (archive: seq<Entry>)
    ensures archive == Stored(files)
  {
    archive := [];
    for k := 0 to |files|
      invariant |archive| == k
      invariant forall i | 0 <= i < k ::
                  archive[i] == Entry(files[i].name, Regular, |files[i].content|, files[i].content)
    {
      archive := archive + [Entry(files[k].name, Regular, |files[k].content|, files[k].content)];
    }
  }

  /** Extends the caller's list in place, adds RECORD to it, then writes the sorted members. */
  method WriteWheel(list: FileList, m: Metadata, entryPoints: Option<seq<Byte>>, license: Option<seq<Byte>>,
                    identity: Option<seq<Byte>>, p: Platform) returns (r: Result<seq<Entry>>)
    modifies list
    ensures var own := old(list.files) + AddedFiles(m, entryPoints, license, identity, p);
            && r == Wheel(own, RecordName(m), p)
            && list.files == if r.Ok? then WithRecord(own, RecordName(m), p) else own
  {
    AddFiles(list, m, entryPoints, license, identity, p);
    if !Distinct(FileNames(list.files)) {
      return Err(DuplicateMembers);
    }
    var rows := HashRows(list.files, RecordName(m), p);
    list.files := list.files + [File(RecordName(m), p.encode(Csv.WriteRows(rows)))];
    var archive := WriteMembers(Sorting.Sort(list.files, FileLeq));
    r := Ok(archive);
  }

  // ---------------------------------------------------------------- build, then validate

  /** The reader's demands on the final files; the builder itself only rules out equal names. */
  ghost predicate WithinReaderLimits(files: seq<File>, casefold: string -> string) {
    && |files| <= MAX_MEMBERS
    && SafeNames(BareNames(Stored(files)))
    && CaseDistinct(BareNames(Stored(files)), casefold)
    && TotalSize(Stored(files)) <= MAX_UNCOMPRESSED_BYTES
  }

  function FoldedName(f: File, casefold: string -> string): string {
    casefold(CleanName(Bare(f.name)))
  }

  /** No clash of folded names, said without positions. */
  lemma CaseDistinctByFile(files: seq<File>, casefold: string -> string)
    ensures CaseDistinct(BareNames(Stored(files)), casefold) <==>
              Distinct(files) &&
              forall f, g | f in files && g in files && f != g ::
                FoldedName(f, casefold) != FoldedName(g, casefold)
  {
    var names := BareNames(Stored(files));
    forall i | 0 <= i < |files| ensures casefold(CleanName(names[i])) == FoldedName(files[i], casefold) {
    }
    if CaseDistinct(names, casefold) {
      forall i, j | 0 <= i < j < |files| ensures FoldedName(files[i], casefold) != FoldedName(files[j], casefold) {
        assert casefold(CleanName(names[i])) != casefold(CleanName(names[j]));
      }
    }
  }

  lemma {:induction false} InsertSize(x: File, files: seq<File>)
    ensures TotalSize(Stored(Sorting.Insert(x, files, FileLeq))) == |x.content| + TotalSize(Stored(files))
  {
    if files == [] || FileLeq(x, files[0]) {
      assert Stored([x] + files)[1..] == Stored(files);
    } else {
      var rest := Sorting.Insert(x, files[1..], FileLeq);
      InsertSize(x, files[1..]);
      assert Stored([files[0]] + rest)[1..] == Stored(rest);
      assert Stored(files)[1..] == Stored(files[1..]);
    }
  }

  lemma {:induction false} SortSize(files: seq<File>)
    ensures TotalSize(Stored(Sorting.Sort(files, FileLeq))) == TotalSize(Stored(files))
  {
    if files != [] {
      SortSize(files[1..]);
      InsertSize(files[0], Sorting.Sort(files[1..], FileLeq));
      assert Stored(files)[1..] == Stored(files[1..]);
    }
  }

  /** The limits do not depend on the order of the files. */
  lemma LimitsForgetOrder(a: seq<File>, b: seq<File>, casefold: string -> string)
    requires multiset(a) == multiset(b)
    ensures WithinReaderLimits(a, casefold) <==> WithinReaderLimits(b, casefold)
  {
    assert |a| == |multiset(a)| == |multiset(b)| == |b|;
    forall f ensures f in a <==> f in b {
      assert f in a <==> f in multiset(a);
    }
    CaseDistinctByFile(a, casefold);
    CaseDistinctByFile(b, casefold);
    DistinctForgetsOrder(a, b);
    FileOrder();
    Sorting.SortForgetsOrder(a, b, FileLeq);
    SortSize(a);
    SortSize(b);
    SafeByFile(a);
    SafeByFile(b);
  }

  lemma SafeByFile(files: seq<File>)
    ensures SafeNames(BareNames(Stored(files))) <==> forall f | f in files :: SafeName(Bare(f.name))
  {
    var names := BareNames(Stored(files));
    forall i | 0 <= i < |files| ensures names[i] == Bare(files[i].name) {
    }
    if SafeNames(names) {
      forall f | f in files ensures SafeName(Bare(f.name)) {
        var i :| 0 <= i < |files| && files[i] == f;
        assert SafeName(names[i]);
      }
    }
  }

  /** No file other than RECORD carries a RECORD name. */
  ghost predicate OneRecord(files: seq<File>) {
    forall i | 0 <= i < |files| :: !EndsWith(files[i].name, RECORD_SUFFIX)
  }

  lemma InventoryOfStored(files: seq<File>, casefold: string -> string)
    ensures ZipInventory(Stored(files), casefold).Ok? <==> WithinReaderLimits(files, casefold)
  {
    SafeMembersDecides(BareNames(Stored(files)), casefold);
  }

  lemma RecordNameEnds(m: Metadata)
    ensures EndsWith(RecordName(m), RECORD_SUFFIX)
  {
    var stem := Replace(m.name, '-', '_') + "-" + m.version;
    assert RecordName(m) == stem + RECORD_SUFFIX;
  }

  /** The stored entries and the files they came from. */
  lemma StoredHas(files: seq<File>, record: string, p: Platform, sorted: seq<File>)
    requires sorted == Sorting.Sort(WithRecord(files, record, p), FileLeq)
    ensures forall f | f in WithRecord(files, record, p) :: exists k | 0 <= k < |sorted| :: sorted[k] == f
    ensures forall k | 0 <= k < |sorted| :: sorted[k] in WithRecord(files, record, p)
    ensures |sorted| == |files| + 1
  {
    var all := WithRecord(files, record, p);
    Sorting.SortKeepsElements(all, FileLeq);
    forall f | f in all ensures exists k | 0 <= k < |sorted| :: sorted[k] == f {
      assert f in multiset(sorted);
    }
    forall k | 0 <= k < |sorted| ensures sorted[k] in all {
      assert sorted[k] in multiset(all);
    }
  }

  lemma ReadBack(files: seq<File>, record: string, p: Platform, sorted: seq<File>, f: File)
    requires sorted == Sorting.Sort(WithRecord(files, record, p), FileLeq)
    requires Distinct(Names(Stored(sorted)))
    requires f in WithRecord(files, record, p)
    ensures f.name in Names(Stored(sorted)) && Read(Stored(sorted), f.name) == f.content
  {
    StoredHas(files, record, p, sorted);
    var k :| 0 <= k < |sorted| && sorted[k] == f;
    ReadAt(Stored(sorted), k);
  }

  function FileNameSet(files: seq<File>): set<string> {
    set f | f in files :: f.name
  }

  lemma StoredNames(files: seq<File>)
    ensures NameSet(Stored(files)) == FileNameSet(files)
  {
    forall n | n in NameSet(Stored(files)) ensures n in FileNameSet(files) {
      var i :| 0 <= i < |files| && Stored(files)[i].name == n;
      assert files[i] in files && files[i].name == n;
    }
    forall n | n in FileNameSet(files) ensures n in NameSet(Stored(files)) {
      var f :| f in files && f.name == n;
      var i :| 0 <= i < |files| && files[i] == f;
      assert Stored(files)[i].name == n;
    }
  }

  lemma RowNames(files: seq<File>, record: string, p: Platform)
    ensures Listed(RecordRows(files, record, p)) == FileNameSet(WithRecord(files, record, p))
  {
    var all, rows := WithRecord(files, record, p), RecordRows(files, record, p);
    forall i | 0 <= i < |all| ensures |rows[i]| == 3 && rows[i][0] == all[i].name {
    }
    forall n | n in Listed(rows) ensures n in FileNameSet(all) {
      var i :| 0 <= i < |rows| && |rows[i]| == 3 && rows[i][0] == n;
      assert all[i] in all;
    }
    forall n | n in FileNameSet(all) ensures n in Listed(rows) {
      var f :| f in all && f.name == n;
      var i :| 0 <= i < |all| && all[i] == f;
      assert rows[i][0] == n;
    }
  }

  lemma ListedRows(files: seq<File>, record: string, p: Platform, sorted: seq<File>)
    requires sorted == Sorting.Sort(WithRecord(files, record, p), FileLeq)
    ensures Listed(RecordRows(files, record, p)) == NameSet(Stored(sorted))
  {
    var all := WithRecord(files, record, p);
    RowNames(files, record, p);
    StoredNames(sorted);
    StoredHas(files, record, p, sorted);
    assert forall f :: f in all <==> f in sorted;
  }

  /** What the builder wrote describes what the builder stored. */
  lemma BuiltRecordDescribes(files: seq<File>, record: string, p: Platform, sorted: seq<File>)
    requires p.Utf8()
    requires sorted == Sorting.Sort(WithRecord(files, record, p), FileLeq)
    requires Distinct(Names(Stored(sorted)))
    requires RecordNames(Names(Stored(sorted))) == [record]
    ensures Describes(RecordRows(files, record, p), record, Stored(sorted), p)
  {
    var all := WithRecord(files, record, p);
    var rows := RecordRows(files, record, p);
    var entries := Stored(sorted);
    assert RecordFile(files, record, p) in all by { assert all[|files|] == RecordFile(files, record, p); }
    ReadBack(files, record, p, sorted, RecordFile(files, record, p));
    Csv.RoundTrip(rows);
    ListedRows(files, record, p, sorted);
    forall i | 0 <= i < |rows| ensures RowMatches(rows[i], entries, record, p.sha256) {
      assert all[i] in all;
      ReadBack(files, record, p, sorted, all[i]);
      if i < |files| && files[i].name == record {
        SameNameTwice(files, record, p, sorted, i);
      }
    }
  }

  /** A file already called RECORD would make two stored names equal. */
  lemma SameNameTwice(files: seq<File>, record: string, p: Platform, sorted: seq<File>, i: nat)
    requires sorted == Sorting.Sort(WithRecord(files, record, p), FileLeq)
    requires i < |files| && files[i].name == record
    ensures !Distinct(Names(Stored(sorted)))
  {
    var all := WithRecord(files, record, p);
    if Distinct(Names(Stored(sorted))) {
      ReadBack(files, record, p, sorted, all[i]);
      assert all[|files|] == RecordFile(files, record, p);
      ReadBack(files, record, p, sorted, all[|files|]);
      Sorting.SortKeepsElements(all, FileLeq);
      assert all[i] == all[|files|];
      var front := all[..|files|];
      assert all == front + [all[|files|]] && front[i] == all[i];
      assert multiset(all)[all[i]] == multiset(front)[all[i]] + 1 && all[i] in front;
      assert multiset(sorted)[all[i]] >= 2;
      DistinctNamesCountOnce(sorted, all[i]);
    }
  }

  lemma DistinctNamesCountOnce(files: seq<File>, f: File)
    requires Distinct(FileNames(files))
    ensures multiset(files)[f] <= 1
  {
    forall i, j | 0 <= i < j < |files| ensures files[i] != files[j] {
      assert FileNames(files)[i] != FileNames(files)[j];
    }
    DistinctByCount(files);
  }

  lemma RecordIsRead(files: seq<File>, m: Metadata, p: Platform, sorted: seq<File>)
    requires sorted == Sorting.Sort(WithRecord(files, RecordName(m), p), FileLeq)
    requires Distinct(Names(Stored(sorted)))
    ensures RecordName(m) in Names(Stored(sorted))
    ensures RecordNames(Names(Stored(sorted))) == [RecordName(m)] <==> OneRecord(files)
    ensures |RecordNames(Names(Stored(sorted)))| == 1 ==> RecordNames(Names(Stored(sorted))) == [RecordName(m)]
  {
    var record := RecordName(m);
    var all := WithRecord(files, record, p);
    var names := Names(Stored(sorted));
    RecordNameEnds(m);
    StoredHas(files, record, p, sorted);
    assert all[|files|] == RecordFile(files, record, p);
    ReadBack(files, record, p, sorted, all[|files|]);
    SoleRecord(names, record);
    if OneRecord(files) {
      forall n | n in names && EndsWith(n, RECORD_SUFFIX) ensures n == record {
        var k :| 0 <= k < |names| && names[k] == n;
        var i :| 0 <= i < |all| && all[i] == sorted[k];
      }
    }
    if RecordNames(names) == [record] {
      forall i | 0 <= i < |files| ensures !EndsWith(files[i].name, RECORD_SUFFIX) {
        OtherNameIsOther(files, record, p, sorted, i);
      }
    }
  }

  lemma OtherNameIsOther(files: seq<File>, record: string, p: Platform, sorted: seq<File>, i: nat)
    requires sorted == Sorting.Sort(WithRecord(files, record, p), FileLeq)
    requires Distinct(Names(Stored(sorted)))
    requires i < |files|
    ensures files[i].name in Names(Stored(sorted)) && files[i].name != record
  {
    var all := WithRecord(files, record, p);
    assert all[i] in all;
    ReadBack(files, record, p, sorted, all[i]);
    if files[i].name == record {
      SameNameTwice(files, record, p, sorted, i);
    }
  }

  /**
   * Build, then validate. For all metadata and files, the reader accepts what the builder wrote
   * exactly when the final members keep the reader's limits and RECORD is the only RECORD.
   */
  lemma BuildThenValidate(m: Metadata, files: seq<File>, p: Platform)
    requires p.Utf8()
    requires Wheel(files, RecordName(m), p).Ok?
    ensures Verdict(Wheel(files, RecordName(m), p).value, p).Ok? <==>
              WithinReaderLimits(WithRecord(files, RecordName(m), p), p.casefold) && OneRecord(files)
  {
    var record := RecordName(m);
    var sorted := Sorting.Sort(WithRecord(files, record, p), FileLeq);
    var entries := Stored(sorted);
    InventoryOfStored(sorted, p.casefold);
    Sorting.SortKeepsElements(WithRecord(files, record, p), FileLeq);
    LimitsForgetOrder(WithRecord(files, record, p), sorted, p.casefold);
    InventoryDecides(entries, p.casefold);
    AcceptedMeans(entries, p);
    if ZipInventory(entries, p.casefold).Ok? {
      InventoryNamesDistinct(entries, p.casefold);
      RecordIsRead(files, m, p, sorted);
      if OneRecord(files) {
        BuiltRecordDescribes(files, record, p, sorted);
      }
    }
  }

  /**
   * The builder's own check is weaker: whatever else goes into the wheel, two of the caller's files whose names
   * differ but fold alike pass it, and the wheel is then refused.
   */
  lemma CaseClashIsBuiltAndRefused(m: Metadata, files: seq<File>, a: File, b: File, entryPoints: Option<seq<Byte>>,
                                   license: Option<seq<Byte>>, identity: Option<seq<Byte>>, p: Platform)
    requires p.Utf8()
    requires a in files && b in files
    requires a.name != b.name && FoldedName(a, p.casefold) == FoldedName(b, p.casefold)
    requires Distinct(FileNames(files + AddedFiles(m, entryPoints, license, identity, p)))
    ensures var own := files + AddedFiles(m, entryPoints, license, identity, p);
            && Wheel(own, RecordName(m), p).Ok?
            && Verdict(Wheel(own, RecordName(m), p).value, p).Err?
  {
    var own := files + AddedFiles(m, entryPoints, license, identity, p);
    var all := WithRecord(own, RecordName(m), p);
    BuildThenValidate(m, own, p);
    CaseDistinctByFile(all, p.casefold);
    assert a in all && b in all;
  }

  /** The name lies in the folder, and there starts with this character. */
  predicate InFolder(name: string, d: string, c: char) {
    |d| + 1 < |name| && name[|d|] == '/' && name[|d| + 1] == c
  }

  /** Files of the folder, in ascending order of the character they start with, all below `bound`. */
  ghost predicate Marked(files: seq<File>, d: string, bound: char) {
    && (forall f | f in files :: |d| + 1 < |f.name| && f.name[|d|] == '/' && f.name[|d| + 1] < bound)
    && forall i, j | 0 <= i < j < |files| :: files[i].name[|d| + 1] < files[j].name[|d| + 1]
  }

  lemma MarkedOptional(files: seq<File>, d: string, c: char, bound: char, name: string, content: Option<seq<Byte>>)
    requires Marked(files, d, c) && InFolder(name, d, c) && c < bound
    ensures Marked(files + Optional(name, content), d, bound)
  {
    if content.Some? {
      var all := files + [File(name, content.value)];
      forall i, j | 0 <= i < j < |all| ensures all[i].name[|d| + 1] < all[j].name[|d| + 1] {
        assert i < |files| && files[i] in files;
      }
    } else {
      assert files + [] == files;
    }
  }

  lemma MarkedDistinct(files: seq<File>, d: string, bound: char)
    requires Marked(files, d, bound)
    ensures Distinct(FileNames(files)) && forall f | f in files :: '/' in f.name
  {
    forall i, j | 0 <= i < j < |files| ensures FileNames(files)[i] != FileNames(files)[j] {
      assert files[i].name[|d| + 1] < files[j].name[|d| + 1];
    }
    forall f | f in files ensures '/' in f.name {
      assert f.name[|d|] == '/';
    }
  }

  lemma FolderName(d: string, rest: string)
    requires |rest| > 1 && rest[0] == '/'
    ensures InFolder(d + rest, d, rest[1])
  {
  }

  lemma MarkedList(first: File, second: File, d: string, names: (string, string, string),
                   contents: (Option<seq<Byte>>, Option<seq<Byte>>, Option<seq<Byte>>))
    requires InFolder(first.name, d, 'M') && InFolder(second.name, d, 'W')
    requires InFolder(names.0, d, 'e') && InFolder(names.1, d, 'l') && InFolder(names.2, d, 'p')
    ensures Marked([first, second] + Optional(names.0, contents.0) + Optional(names.1, contents.1)
                   + Optional(names.2, contents.2), d, 'q')
  {
    var two := [first, second];
    var three := two + Optional(names.0, contents.0);
    assert Marked(two, d, 'e');
    MarkedOptional(two, d, 'e', 'l', names.0, contents.0);
    MarkedOptional(three, d, 'l', 'p', names.1, contents.1);
    MarkedOptional(three + Optional(names.1, contents.1), d, 'p', 'q', names.2, contents.2);
  }

  /** The builder's own additions never clash with each other, nor with a name without a slash. */
  lemma AddedNamesDistinct(m: Metadata, entryPoints: Option<seq<Byte>>, license: Option<seq<Byte>>,
                           identity: Option<seq<Byte>>, p: Platform)
    ensures Distinct(FileNames(AddedFiles(m, entryPoints, license, identity, p)))
    ensures forall f | f in AddedFiles(m, entryPoints, license, identity, p) :: '/' in f.name
  {
    var d := DistInfo(m);
    var files := AddedFiles(m, entryPoints, license, identity, p);
    var names := (d + "/entry_points.txt", d + "/licenses/LICENSE", d + "/provider.json");
    FolderName(d, "/METADATA");
    FolderName(d, "/WHEEL");
    FolderName(d, "/entry_points.txt");
    FolderName(d, "/licenses/LICENSE");
    FolderName(d, "/provider.json");
    MarkedList(files[0], files[1], d, names, (entryPoints, license, identity));
    MarkedDistinct(files, d, 'q');
  }

  lemma TwoMoreDistinct(a: File, b: File, added: seq<File>)
    requires a.name != b.name && '/' !in a.name && '/' !in b.name
    requires Distinct(FileNames(added)) && forall f | f in added :: '/' in f.name
    ensures Distinct(FileNames([a, b] + added))
  {
    var all := [a, b] + added;
    forall i, j | 0 <= i < j < |all| ensures FileNames(all)[i] != FileNames(all)[j] {
      if i >= 2 {
        assert FileNames(added)[i - 2] != FileNames(added)[j - 2];
      } else if j >= 2 {
        assert all[j] == added[j - 2] && added[j - 2] in added;
      }
    }
  }

  /** Two files at the top that differ by case only are built into a wheel and refused, whatever else is added. */
  lemma CaseClashHappens(m: Metadata, a: File, b: File, entryPoints: Option<seq<Byte>>, license: Option<seq<Byte>>,
                         identity: Option<seq<Byte>>, p: Platform)
    requires p.Utf8() && '/' !in a.name && '/' !in b.name
    requires a.name != b.name && FoldedName(a, p.casefold) == FoldedName(b, p.casefold)
    ensures var own := [a, b] + AddedFiles(m, entryPoints, license, identity, p);
            && Wheel(own, RecordName(m), p).Ok?
            && Verdict(Wheel(own, RecordName(m), p).value, p).Err?
  {
    AddedNamesDistinct(m, entryPoints, license, identity, p);
    TwoMoreDistinct(a, b, AddedFiles(m, entryPoints, license, identity, p));
    CaseClashIsBuiltAndRefused(m, [a, b], a, b, entryPoints, license, identity, p);
  }

  // ---------------------------------------------------------------- what the wheel holds

  lemma {:induction false} ReadSole(entries: seq<Entry>, name: string, content: seq<Byte>)
    requires name in Names(entries)
    requires forall i | 0 <= i < |entries| && entries[i].name == name :: entries[i].content == content
    ensures Read(entries, name) == content
  {
    var n := |entries| - 1;
    if entries[n].name != name {
      var i :| 0 <= i < |entries| && Names(entries)[i] == name;
      assert Names(entries[..n])[i] == name;
      ReadSole(entries[..n], name, content);
    }
  }

  /** A file whose name is not RECORD's is read back from the wheel. */
  lemma FileIsRead(files: seq<File>, record: string, p: Platform, f: File)
    requires Wheel(files, record, p).Ok? && f in files && f.name != record
    ensures f.name in Names(Wheel(files, record, p).value) && Read(Wheel(files, record, p).value, f.name) == f.content
  {
    var all := WithRecord(files, record, p);
    var sorted := Sorting.Sort(all, FileLeq);
    var entries := Stored(sorted);
    StoredHas(files, record, p, sorted);
    assert f in all;
    var k :| 0 <= k < |sorted| && sorted[k] == f;
    assert Names(entries)[k] == f.name;
    forall i | 0 <= i < |entries| && entries[i].name == f.name ensures entries[i].content == f.content {
      assert sorted[i] in all && sorted[i] != RecordFile(files, record, p);
      SameFile(files, sorted[i], f);
    }
    ReadSole(entries, f.name, f.content);
  }

  lemma SameFile(files: seq<File>, f: File, g: File)
    requires Distinct(FileNames(files)) && f in files && g in files && f.name == g.name
    ensures f == g
  {
    var i :| 0 <= i < |files| && files[i] == f;
    var j :| 0 <= j < |files| && files[j] == g;
    assert FileNames(files)[i] == FileNames(files)[j];
  }

  /** What a wheel says under a name of its metadata folder. */
  function Member(archive: seq<Entry>, m: Metadata, name: string): Option<seq<Byte>> {
    if DistInfo(m) + name in Names(archive) then Some(Read(archive, DistInfo(m) + name)) else None
  }

  /** A file the builder adds is read back from the wheel. */
  lemma AddedIsRead(files: seq<File>, added: seq<File>, m: Metadata, p: Platform, name: string, content: seq<Byte>,
                    archive: seq<Entry>)
    requires Wheel(files + added, RecordName(m), p) == Ok(archive) && File(DistInfo(m) + name, content) in added
    requires |name| != |"/RECORD"|
    ensures Member(archive, m, name) == Some(content)
  {
    var f := File(DistInfo(m) + name, content);
    assert f in files + added;
    assert |f.name| != |RecordName(m)|;
    FileIsRead(files + added, RecordName(m), p, f);
  }

  /** The text of a member of the metadata folder, read as header lines. */
  function Headers(archive: seq<Entry>, m: Metadata, name: string, p: Platform): Option<seq<Header>> {
    var content := Member(archive, m, name);
    if content.None? then None
    else
      var text := p.decode(content.value);
      if text.None? then None else Some(ReadHeaders(text.value))
  }

  predicate Licensed(license: Option<seq<Byte>>) {
    license.Some? && license.value != []
  }

  function Expression(license: Option<seq<Byte>>): Option<string> {
    if Licensed(license) then Some("Apache-2.0") else None
  }

  lemma AddedHas(m: Metadata, entryPoints: Option<seq<Byte>>, license: Option<seq<Byte>>,
                 identity: Option<seq<Byte>>, p: Platform)
    ensures var added := AddedFiles(m, entryPoints, license, identity, p);
            && File(DistInfo(m) + "/METADATA", p.encode(CoreMetadata(m, Expression(license)))) in added
            && File(DistInfo(m) + "/WHEEL", p.encode(WHEEL_FILE)) in added
  {
    var added := AddedFiles(m, entryPoints, license, identity, p);
    assert added[0].name == DistInfo(m) + "/METADATA" && added[1].name == DistInfo(m) + "/WHEEL";
  }

  lemma OptionsAdded(m: Metadata, entryPoints: Option<seq<Byte>>, license: Option<seq<Byte>>,
                     identity: Option<seq<Byte>>, p: Platform)
    ensures var added := AddedFiles(m, entryPoints, license, identity, p);
            && (entryPoints.Some? ==> File(DistInfo(m) + "/entry_points.txt", entryPoints.value) in added)
            && (license.Some? ==> File(DistInfo(m) + "/licenses/LICENSE", license.value) in added)
            && (identity.Some? ==> File(DistInfo(m) + "/provider.json", identity.value) in added)
  {
    OptionalHas(DistInfo(m) + "/entry_points.txt", entryPoints);
    OptionalHas(DistInfo(m) + "/licenses/LICENSE", license);
    OptionalHas(DistInfo(m) + "/provider.json", identity);
  }

  lemma OptionalHas(name: string, content: Option<seq<Byte>>)
    ensures content.Some? ==> File(name, content.value) in Optional(name, content)
  {
  }

  lemma LicenseExpressionIsALine()
    ensures OneLine("Apache-2.0")
  {
  }

  /** The two text files in the built wheel are what the builder wrote. */
  lemma WheelTexts(m: Metadata, files: seq<File>, entryPoints: Option<seq<Byte>>, license: Option<seq<Byte>>,
                   identity: Option<seq<Byte>>, p: Platform, archive: seq<Entry>)
    requires Wheel(files + AddedFiles(m, entryPoints, license, identity, p), RecordName(m), p) == Ok(archive)
    ensures Member(archive, m, "/METADATA") == Some(p.encode(CoreMetadata(m, Expression(license))))
    ensures Member(archive, m, "/WHEEL") == Some(p.encode(WHEEL_FILE))
  {
    var added := AddedFiles(m, entryPoints, license, identity, p);
    AddedHas(m, entryPoints, license, identity, p);
    AddedIsRead(files, added, m, p, "/METADATA", p.encode(CoreMetadata(m, Expression(license))), archive);
    AddedIsRead(files, added, m, p, "/WHEEL", p.encode(WHEEL_FILE), archive);
  }

  lemma HeadersOf(archive: seq<Entry>, m: Metadata, name: string, p: Platform, text: string)
    requires p.Utf8() && Member(archive, m, name) == Some(p.encode(text))
    ensures Headers(archive, m, name, p) == Some(ReadHeaders(text))
  {
    assert p.decode(p.encode(text)) == Some(text);
  }

  /**
   * METADATA in the built wheel, decoded and read line by line, says the name, the version, the Python version and
   * the dependencies of the project, and a licence exactly if one is given that is not empty.
   */
  lemma WheelMetadataReads(m: Metadata, files: seq<File>, entryPoints: Option<seq<Byte>>, license: Option<seq<Byte>>,
                           identity: Option<seq<Byte>>, p: Platform, archive: seq<Entry>)
    requires p.Utf8() && OneLineFields(m, None)
    requires Wheel(files + AddedFiles(m, entryPoints, license, identity, p), RecordName(m), p) == Ok(archive)
    ensures var metadata := Headers(archive, m, "/METADATA", p);
            && metadata.Some?
            && Values(metadata.value, "Name") == [m.name] && Values(metadata.value, "Version") == [m.version]
            && Values(metadata.value, "Requires-Python") == [m.requiresPython]
            && Values(metadata.value, "Requires-Dist") == m.dependencies
            && Values(metadata.value, "License-Expression") == (if Licensed(license) then ["Apache-2.0"] else [])
            && Values(metadata.value, "License-File") == (if Licensed(license) then ["LICENSE"] else [])
    ensures Headers(archive, m, "/WHEEL", p) == Some(WheelHeaders())
  {
    WheelTexts(m, files, entryPoints, license, identity, p, archive);
    HeadersOf(archive, m, "/METADATA", p, CoreMetadata(m, Expression(license)));
    HeadersOf(archive, m, "/WHEEL", p, WHEEL_FILE);
    LicenseExpressionIsALine();
    MetadataValues(m, Expression(license));
    ReadWheelFile();
  }

  /** Entry points, licence and provider identity, where given, are in the wheel byte for byte. */
  lemma WheelOptionsRead(m: Metadata, files: seq<File>, entryPoints: Option<seq<Byte>>, license: Option<seq<Byte>>,
                         identity: Option<seq<Byte>>, p: Platform, archive: seq<Entry>)
    requires Wheel(files + AddedFiles(m, entryPoints, license, identity, p), RecordName(m), p) == Ok(archive)
    ensures entryPoints.Some? ==> Member(archive, m, "/entry_points.txt") == entryPoints
    ensures license.Some? ==> Member(archive, m, "/licenses/LICENSE") == license
    ensures identity.Some? ==> Member(archive, m, "/provider.json") == identity
  {
    var added := AddedFiles(m, entryPoints, license, identity, p);
    OptionsAdded(m, entryPoints, license, identity, p);
    if entryPoints.Some? {
      AddedIsRead(files, added, m, p, "/entry_points.txt", entryPoints.value, archive);
    }
    if license.Some? {
      AddedIsRead(files, added, m, p, "/licenses/LICENSE", license.value, archive);
    }
    if identity.Some? {
      AddedIsRead(files, added, m, p, "/provider.json", identity.value, archive);
    }
  }

  /** The caller's own files are in the wheel too, and nothing else is: three members and one for each option. */
  lemma WheelHoldsFiles(m: Metadata, files: seq<File>, entryPoints: Option<seq<Byte>>, license: Option<seq<Byte>>,
                        identity: Option<seq<Byte>>, p: Platform, archive: seq<Entry>)
    requires Wheel(files + AddedFiles(m, entryPoints, license, identity, p), RecordName(m), p) == Ok(archive)
    ensures |archive| == |files| + 3 + Given(entryPoints) + Given(license) + Given(identity)
    ensures forall f | f in files && f.name != RecordName(m) ::
              f.name in Names(archive) && Read(archive, f.name) == f.content
  {
    var own := files + AddedFiles(m, entryPoints, license, identity, p);
    var all := WithRecord(own, RecordName(m), p);
    StoredHas(own, RecordName(m), p, Sorting.Sort(all, FileLeq));
    forall f | f in files && f.name != RecordName(m)
      ensures f.name in Names(archive) && Read(archive, f.name) == f.content
    {
      assert f in own;
      FileIsRead(own, RecordName(m), p, f);
    }
  }

  function Given(content: Option<seq<Byte>>): nat {
    if content.Some? then 1 else 0
  }

  lemma {:induction false} StringLeqReflexive(s: string)
    ensures Sorting.StringLeq(s, s)
  {
    Sorting.LexTotal(s, s, Sorting.CharRank);
  }

  lemma SortedNames(files: seq<File>)
    ensures Sorting.Ordered(FileNames(Sorting.Sort(files, FileLeq)), Sorting.StringLeq)
  {
    FileOrder();
    Sorting.SortOrders(files, FileLeq);
    var sorted := Sorting.Sort(files, FileLeq);
    forall i, j | 0 <= i < j < |sorted| ensures Sorting.StringLeq(FileNames(sorted)[i], FileNames(sorted)[j]) {
      assert FileLeq(sorted[i], sorted[j]);
      StringLeqReflexive(sorted[i].name);
    }
  }

  /** Members are stored in ascending order of their names, as regular files of their real size. */
  lemma WheelIsSorted(files: seq<File>, record: string, p: Platform)
    requires Wheel(files, record, p).Ok?
    ensures Sorting.Ordered(Names(Wheel(files, record, p).value), Sorting.StringLeq)
    ensures forall e | e in Wheel(files, record, p).value :: e.kind == Regular && e.size == |e.content|
  {
    var sorted := Sorting.Sort(WithRecord(files, record, p), FileLeq);
    SortedNames(WithRecord(files, record, p));
    assert Names(Stored(sorted)) == FileNames(sorted);
  }
}
