/** The reader's side of a wheel: RECORD must list every member with its hash and size. */
module WheelRecord {
  import opened Text
  import opened Sequences
  import opened Base64Url
  import opened Artifacts
  import Csv

  const RECORD_SUFFIX := ".dist-info/RECORD"

  // ---------------------------------------------------------------- zip inventory

  function ZipInventory(entries: seq<Entry>, casefold: string -> string): Result<seq<string>> {
    var inventory := SafeMembers(BareNames(entries), casefold);
    if inventory.Err? then inventory
    else if exists i | 0 <= i < |entries| :: entries[i].kind == Other then Err(NonRegularMember)
    else if TotalSize(entries) > MAX_UNCOMPRESSED_BYTES then Err(ExpandedTooLarge)
    else inventory
  }

  function BareNames(entries: seq<Entry>): (names: seq<string>)
    ensures |names| == |entries|
    ensures forall i | 0 <= i < |entries| :: names[i] == Bare(entries[i].name)
  {
    seq(|entries|, i requires 0 <= i < |entries| => Bare(entries[i].name))
  }

  method InspectZip(entries: seq<Entry>, casefold: string -> string) returns (r: Result<seq<string>>)
    ensures r == ZipInventory(entries, casefold)
  {
    var inventory := SafeMembers(BareNames(entries), casefold);
    if inventory.Err? {
      return inventory;
    }
    var aggregate := 0;
    for k := 0 to |entries|
      invariant aggregate == TotalSize(entries[..k])
      invariant forall i | 0 <= i < k :: entries[i].kind != Other
    {
      aggregate := aggregate + entries[k].size;
      TotalSizeNext(entries, k);
      if entries[k].kind == Other {
        return Err(NonRegularMember);
      }
    }
    assert entries[..|entries|] == entries;
    if aggregate > MAX_UNCOMPRESSED_BYTES {
      return Err(ExpandedTooLarge);
    }
    return inventory;
  }

  // ---------------------------------------------------------------- RECORD

  /** The names of the RECORD files, in archive order. */
  function RecordNames(names: seq<string>): seq<string> {
    if names == [] then []
    else if EndsWith(names[0], RECORD_SUFFIX) then [names[0]] + RecordNames(names[1..])
    else RecordNames(names[1..])
  }

  /** `archive.read(name)`: of members with one name the last is read. */
  function Read(entries: seq<Entry>, name: string): seq<Byte>
    requires name in Names(entries)
  {
    var last := entries[|entries| - 1];
    if last.name == name then last.content
    else
      assert name in Names(entries[..|entries| - 1]) by {
        var i :| 0 <= i < |entries| && Names(entries)[i] == name;
        assert Names(entries[..|entries| - 1])[i] == name;
      }
      Read(entries[..|entries| - 1], name)
  }

  /** The digest column of a member. */
  function WheelHash(content: seq<Byte>, sha256: seq<Byte> -> seq<Byte>): string {
    "sha256=" + Unpadded(sha256(content))
  }

  function Listed(rows: seq<seq<string>>): set<string> {
    set i | 0 <= i < |rows| && |rows[i]| == 3 :: rows[i][0]
  }

  function NameSet(entries: seq<Entry>): set<string> {
    set i | 0 <= i < |entries| :: entries[i].name
  }

  predicate RowMatches(row: seq<string>, entries: seq<Entry>, record: string, sha256: seq<Byte> -> seq<Byte>) {
    && |row| == 3
    && row[0] in Names(entries)
    && if row[0] == record then row[1] == "" && row[2] == ""
       else row[1] == WheelHash(Read(entries, row[0]), sha256) && row[2] == Decimal(|Read(entries, row[0])|)
  }

  /** Going down the rows until one is wrong. */
  function CheckRows(rows: seq<seq<string>>, entries: seq<Entry>, record: string,
                     sha256: seq<Byte> -> seq<Byte>): Result<bool>
  {
    if rows == [] then Ok(true)
    else if |rows[0]| != 3 then Err(RowNotATriple)
    else if !RowMatches(rows[0], entries, record, sha256) then
      Err(if rows[0][0] == record then RecordSelfEntry else RecordMismatch)
    else CheckRows(rows[1..], entries, record, sha256)
  }

  function Verdict(entries: seq<Entry>, p: Platform): Result<bool> {
    var inventory := ZipInventory(entries, p.casefold);
    if inventory.Err? then Err(inventory.error)
    else
      var records := RecordNames(Names(entries));
      if |records| != 1 then Err(RecordMissingOrAmbiguous)
      else
        RecordNamesAreNames(Names(entries));
        var text := p.decode(Read(entries, records[0]));
        if text.None? then Err(NotUtf8)
        else
          var parsed := Csv.Read(text.value);
          if !parsed.Rows? then Err(NotCsv)
          else if Listed(parsed.rows) != NameSet(entries) then Err(RecordInventory)
          else CheckRows(parsed.rows, entries, records[0], p.sha256)
  }

  lemma {:induction false} RecordNamesAreNames(names: seq<string>)
    ensures forall r | r in RecordNames(names) :: r in names && EndsWith(r, RECORD_SUFFIX)
    ensures forall n | n in names && EndsWith(n, RECORD_SUFFIX) :: n in RecordNames(names)
    ensures |RecordNames(names)| <= |names|
  {
    if names != [] {
      RecordNamesAreNames(names[1..]);
      assert names == [names[0]] + names[1..];
    }
  }

  method ValidateWheelRecord(entries: seq<Entry>, p: Platform) returns (r: Result<bool>)
    ensures r == Verdict(entries, p)
  {
    var inventory := InspectZip(entries, p.casefold);
    if inventory.Err? {
      return Err(inventory.error);
    }
    var records := RecordNames(Names(entries));
    if |records| != 1 {
      return Err(RecordMissingOrAmbiguous);
    }
    RecordNamesAreNames(Names(entries));
    var text := p.decode(Read(entries, records[0]));
    if text.None? {
      return Err(NotUtf8);
    }
    var parsed := Csv.Read(text.value);
    if !parsed.Rows? {
      return Err(NotCsv);
    }
    var rows := parsed.rows;
    if Listed(rows) != NameSet(entries) {
      return Err(RecordInventory);
    }
    for k := 0 to |rows|
      invariant CheckRows(rows[k..], entries, records[0], p.sha256) == CheckRows(rows, entries, records[0], p.sha256)
    {
      var row := rows[k];
      assert rows[k..][0] == row && rows[k..][1..] == rows[k + 1..];
      if |row| != 3 {
        return Err(RowNotATriple);
      }
      assert row[0] in Names(entries) by {
        assert row[0] in NameSet(entries);
        var i :| 0 <= i < |entries| && entries[i].name == row[0];
        assert Names(entries)[i] == row[0];
      }
      if row[0] == records[0] {
        if row[1] != "" || row[2] != "" {
          return Err(RecordSelfEntry);
        }
        continue;
      }
      var content := Read(entries, row[0]);
      if row[1] != WheelHash(content, p.sha256) || row[2] != Decimal(|content|) {
        return Err(RecordMismatch);
      }
    }
    return Ok(true);
  }

  // ---------------------------------------------------------------- what acceptance means

  lemma {:induction false} CheckRowsDecides(rows: seq<seq<string>>, entries: seq<Entry>, record: string,
                                            sha256: seq<Byte> -> seq<Byte>)
    ensures CheckRows(rows, entries, record, sha256).Ok? <==>
              forall i | 0 <= i < |rows| :: RowMatches(rows[i], entries, record, sha256)
  {
    if rows != [] {
      CheckRowsDecides(rows[1..], entries, record, sha256);
      if forall i | 0 <= i < |rows| :: RowMatches(rows[i], entries, record, sha256) {
        forall i | 0 <= i < |rows[1..]| ensures RowMatches(rows[1..][i], entries, record, sha256) {
          assert rows[1..][i] == rows[i + 1];
        }
      } else {
        var i :| 0 <= i < |rows| && !RowMatches(rows[i], entries, record, sha256);
        if i > 0 {
          assert rows[1..][i - 1] == rows[i];
        }
      }
    }
  }

  /** `rows` is what the RECORD called `record` says, and it describes every member correctly. */
  ghost predicate Describes(rows: seq<seq<string>>, record: string, entries: seq<Entry>, p: Platform) {
    && RecordNames(Names(entries)) == [record]
    && record in Names(entries)
    && p.decode(Read(entries, record)).Some?
    && Csv.Read(p.decode(Read(entries, record)).value) == Csv.Rows(rows)
    && Listed(rows) == NameSet(entries)
    && forall i | 0 <= i < |rows| :: RowMatches(rows[i], entries, record, p.sha256)
  }

  /**
   * A clean inventory: at most 4096 members with safe names of which no two fold alike, no member that is neither
   * a file nor a directory, and a bounded total size. A zip mode without type bits is no obstacle.
   */
  ghost predicate CleanWheel(entries: seq<Entry>, casefold: string -> string) {
    && |entries| <= 4096
    && (forall i | 0 <= i < |entries| :: SafeName(Bare(entries[i].name)))
    && CaseDistinct(BareNames(entries), casefold)
    && (forall i | 0 <= i < |entries| :: entries[i].kind in {Regular, Directory, Unset})
    && TotalSize(entries) <= 128 * 1024 * 1024
  }

  lemma InventoryDecides(entries: seq<Entry>, casefold: string -> string)
    ensures ZipInventory(entries, casefold).Ok? <==> CleanWheel(entries, casefold)
  {
    var names := BareNames(entries);
    SafeMembersDecides(names, casefold);
    if SafeNames(names) {
      forall i | 0 <= i < |entries| ensures SafeName(Bare(entries[i].name)) {
        assert SafeName(names[i]);
      }
    }
    forall i | 0 <= i < |entries| ensures entries[i].kind != Other <==> entries[i].kind in {Regular, Directory, Unset} {
    }
  }

  /** Acceptance: a clean inventory and one RECORD that describes exactly the archive. */
  lemma AcceptedMeans(entries: seq<Entry>, p: Platform)
    ensures Verdict(entries, p).Ok? <==>
              CleanWheel(entries, p.casefold) && exists rows, record :: Describes(rows, record, entries, p)
  {
    var records := RecordNames(Names(entries));
    InventoryDecides(entries, p.casefold);
    RecordNamesAreNames(Names(entries));
    if Verdict(entries, p).Ok? {
      var rows := Csv.Read(p.decode(Read(entries, records[0])).value).rows;
      CheckRowsDecides(rows, entries, records[0], p.sha256);
      assert Describes(rows, records[0], entries, p);
    }
    if rows, record :| Describes(rows, record, entries, p) {
      CheckRowsDecides(rows, entries, record, p.sha256);
    }
  }

  /** A member that is neither a file nor a directory, such as a link, is never accepted. */
  lemma NoOtherAccepted(entries: seq<Entry>, p: Platform, i: nat)
    requires i < |entries| && entries[i].kind == Other
    ensures Verdict(entries, p).Err?
  {
    AcceptedMeans(entries, p);
  }

  /** Two archives that differ at most in which members are files, directories or of unset kind. */
  ghost predicate SameButKinds(a: seq<Entry>, b: seq<Entry>) {
    && |a| == |b|
    && forall i | 0 <= i < |a| ::
         a[i].(kind := Regular) == b[i].(kind := Regular) && a[i].kind != Other && b[i].kind != Other
  }

  lemma SameNames(a: seq<Entry>, b: seq<Entry>)
    requires SameButKinds(a, b)
    ensures Names(a) == Names(b) && BareNames(a) == BareNames(b) && NameSet(a) == NameSet(b)
  {
    forall i | 0 <= i < |a| ensures a[i].name == b[i].name {
      assert a[i].(kind := Regular).name == b[i].(kind := Regular).name;
    }
    assert Names(a) == Names(b) && BareNames(a) == BareNames(b);
    forall n ensures n in NameSet(a) <==> n in NameSet(b) {
      if i :| 0 <= i < |a| && a[i].name == n {
        assert b[i].name == n;
      }
      if i :| 0 <= i < |b| && b[i].name == n {
        assert a[i].name == n;
      }
    }
  }

  lemma {:induction false} SameSizes(a: seq<Entry>, b: seq<Entry>)
    requires SameButKinds(a, b)
    ensures TotalSize(a) == TotalSize(b)
  {
    if a != [] {
      assert a[0].(kind := Regular).size == b[0].(kind := Regular).size;
      SameSizes(a[1..], b[1..]);
    }
  }

  lemma {:induction false} SameReads(a: seq<Entry>, b: seq<Entry>, name: string)
    requires SameButKinds(a, b) && name in Names(a)
    ensures name in Names(b) && Read(a, name) == Read(b, name)
  {
    SameNames(a, b);
    var n := |a| - 1;
    assert a[n].(kind := Regular) == b[n].(kind := Regular);
    assert a[n].name == b[n].name && a[n].content == b[n].content;
    if a[n].name != name {
      var i :| 0 <= i < |a| && Names(a)[i] == name;
      assert Names(a[..n])[i] == name;
      SameReads(a[..n], b[..n], name);
    }
  }

  lemma SameDescriptions(a: seq<Entry>, b: seq<Entry>, rows: seq<seq<string>>, record: string, p: Platform)
    requires SameButKinds(a, b) && Describes(rows, record, a, p)
    ensures Describes(rows, record, b, p)
  {
    SameNames(a, b);
    SameReads(a, b, record);
    forall i | 0 <= i < |rows| ensures RowMatches(rows[i], b, record, p.sha256) {
      SameReads(a, b, rows[i][0]);
    }
  }

  lemma CleanStays(a: seq<Entry>, b: seq<Entry>, casefold: string -> string)
    requires SameButKinds(a, b) && CleanWheel(a, casefold)
    ensures CleanWheel(b, casefold)
  {
    SameNames(a, b);
    SameSizes(a, b);
    forall i | 0 <= i < |b| ensures SafeName(Bare(b[i].name)) {
      assert Names(a)[i] == Names(b)[i] && SafeName(Bare(a[i].name));
    }
  }

  lemma AcceptedStays(a: seq<Entry>, b: seq<Entry>, p: Platform)
    requires SameButKinds(a, b) && Verdict(a, p).Ok?
    ensures Verdict(b, p).Ok?
  {
    AcceptedMeans(a, p);
    AcceptedMeans(b, p);
    CleanStays(a, b, p.casefold);
    var rows, record :| Describes(rows, record, a, p);
    SameDescriptions(a, b, rows, record, p);
  }

  /** Directory entries, and modes without type bits, are judged like regular members. */
  lemma KindsMakeNoDifference(a: seq<Entry>, b: seq<Entry>, p: Platform)
    requires SameButKinds(a, b)
    ensures Verdict(a, p).Ok? <==> Verdict(b, p).Ok?
  {
    if Verdict(a, p).Ok? {
      AcceptedStays(a, b, p);
    }
    if Verdict(b, p).Ok? {
      AcceptedStays(b, a, p);
    }
  }

  lemma {:induction false} ReadAt(entries: seq<Entry>, i: nat)
    requires i < |entries| && Distinct(Names(entries))
    ensures entries[i].name in Names(entries)
    ensures Read(entries, entries[i].name) == entries[i].content
  {
    assert Names(entries)[i] == entries[i].name;
    var n := |entries| - 1;
    if i < n {
      assert Names(entries)[i] != Names(entries)[n];
      var front := entries[..n];
      assert Names(front) == Names(entries)[..n];
      forall a, b | 0 <= a < b < |Names(front)| ensures Names(front)[a] != Names(front)[b] {
        assert Names(front)[a] == Names(entries)[a] && Names(front)[b] == Names(entries)[b];
      }
      ReadAt(front, i);
    }
  }

  lemma InventoryNamesDistinct(entries: seq<Entry>, casefold: string -> string)
    requires ZipInventory(entries, casefold).Ok?
    ensures Distinct(Names(entries))
  {
    SafeMembersDecides(BareNames(entries), casefold);
    CaseDistinctIsDistinct(BareNames(entries), casefold);
    forall i, j | 0 <= i < j < |entries| ensures Names(entries)[i] != Names(entries)[j] {
      assert BareNames(entries)[i] != BareNames(entries)[j];
    }
  }

  // ---------------------------------------------------------------- acceptance without the validator's functions

  lemma {:induction false} SoleRecord(names: seq<string>, record: string)
    requires Distinct(names) && record in names && EndsWith(record, RECORD_SUFFIX)
    ensures RecordNames(names) == [record] <==> forall n | n in names && EndsWith(n, RECORD_SUFFIX) :: n == record
    ensures |RecordNames(names)| == 1 ==> RecordNames(names) == [record]
  {
    RecordNamesAreNames(names);
    assert record in RecordNames(names);
    if RecordNames(names) == [record] {
      forall n | n in names && EndsWith(n, RECORD_SUFFIX) ensures n == record {
        assert n in RecordNames(names);
      }
    }
    if forall n | n in names && EndsWith(n, RECORD_SUFFIX) :: n == record {
      OnlyOnce(names, record);
    }
  }

  lemma {:induction false} OnlyOnce(names: seq<string>, record: string)
    requires Distinct(names) && EndsWith(record, RECORD_SUFFIX)
    requires forall n | n in names && EndsWith(n, RECORD_SUFFIX) :: n == record
    ensures RecordNames(names) == if record in names then [record] else []
  {
    if names != [] {
      var rest := names[1..];
      assert names == [names[0]] + rest;
      assert Distinct(rest) by {
        forall i, j | 0 <= i < j < |rest| ensures rest[i] != rest[j] {
          assert names[i + 1] != names[j + 1];
        }
      }
      OnlyOnce(rest, record);
      forall i | 0 <= i < |rest| ensures rest[i] != names[0] {
        assert names[0] != names[i + 1];
      }
    }
  }

  /** A row says of a member what a RECORD has to say of it. */
  ghost predicate RowSays(row: seq<string>, e: Entry, record: string, sha256: seq<Byte> -> seq<Byte>)
    requires |row| == 3
  {
    if e.name == record then row[1] == "" && row[2] == ""
    else row[1] == "sha256=" + Unpadded(sha256(e.content)) && row[2] == Decimal(|e.content|)
  }

  ghost predicate HasName(entries: seq<Entry>, name: string) {
    exists k | 0 <= k < |entries| :: entries[k].name == name
  }

  /**
   * The member called `record` is the only RECORD, decodes to these rows, all of them triples, and the rows list
   * exactly the members, each row saying the right thing of its member.
   */
  ghost predicate RecordSays(rows: seq<seq<string>>, record: string, entries: seq<Entry>, p: Platform) {
    && EndsWith(record, ".dist-info/RECORD")
    && (forall k | 0 <= k < |entries| && EndsWith(entries[k].name, ".dist-info/RECORD") :: entries[k].name == record)
    && (exists k | 0 <= k < |entries| ::
          && entries[k].name == record && p.decode(entries[k].content).Some?
          && Csv.Read(p.decode(entries[k].content).value) == Csv.Rows(rows))
    && (forall i | 0 <= i < |rows| :: |rows[i]| == 3 && HasName(entries, rows[i][0]))
    && (forall k | 0 <= k < |entries| :: entries[k].name in Listed(rows))
    && (forall i, k | 0 <= i < |rows| && 0 <= k < |entries| && rows[i][0] == entries[k].name ::
          RowSays(rows[i], entries[k], record, p.sha256))
  }

  lemma RowMatchesSays(row: seq<string>, entries: seq<Entry>, k: nat, record: string, sha256: seq<Byte> -> seq<Byte>)
    requires Distinct(Names(entries)) && k < |entries| && |row| == 3 && row[0] == entries[k].name
    ensures RowMatches(row, entries, record, sha256) <==> RowSays(row, entries[k], record, sha256)
  {
    ReadAt(entries, k);
  }

  lemma DescribesSays(rows: seq<seq<string>>, record: string, entries: seq<Entry>, p: Platform)
    requires Distinct(Names(entries)) && Describes(rows, record, entries, p)
    ensures RecordSays(rows, record, entries, p)
  {
    var names := Names(entries);
    RecordNamesAreNames(names);
    assert record in [record];
    SoleRecord(names, record);
    var r :| 0 <= r < |entries| && names[r] == record;
    ReadAt(entries, r);
    forall k | 0 <= k < |entries| && EndsWith(entries[k].name, RECORD_SUFFIX) ensures entries[k].name == record {
      assert names[k] in names;
    }
    forall i | 0 <= i < |rows| ensures |rows[i]| == 3 && HasName(entries, rows[i][0]) {
      assert RowMatches(rows[i], entries, record, p.sha256);
      var k :| 0 <= k < |names| && names[k] == rows[i][0];
      assert entries[k].name == rows[i][0];
    }
    forall k | 0 <= k < |entries| ensures entries[k].name in Listed(rows) {
      assert entries[k].name in NameSet(entries);
    }
    forall i, k | 0 <= i < |rows| && 0 <= k < |entries| && rows[i][0] == entries[k].name
      ensures RowSays(rows[i], entries[k], record, p.sha256)
    {
      RowMatchesSays(rows[i], entries, k, record, p.sha256);
    }
  }

  lemma SaysDescribes(rows: seq<seq<string>>, record: string, entries: seq<Entry>, p: Platform)
    requires Distinct(Names(entries)) && RecordSays(rows, record, entries, p)
    ensures Describes(rows, record, entries, p)
  {
    var names := Names(entries);
    var r :| 0 <= r < |entries| && entries[r].name == record && p.decode(entries[r].content).Some? &&
      Csv.Read(p.decode(entries[r].content).value) == Csv.Rows(rows);
    ReadAt(entries, r);
    forall n | n in names && EndsWith(n, RECORD_SUFFIX) ensures n == record {
      var k :| 0 <= k < |names| && names[k] == n;
    }
    SoleRecord(names, record);
    forall i | 0 <= i < |rows| ensures RowMatches(rows[i], entries, record, p.sha256) {
      assert HasName(entries, rows[i][0]);
      var k :| 0 <= k < |entries| && entries[k].name == rows[i][0];
      RowMatchesSays(rows[i], entries, k, record, p.sha256);
    }
    ListedIsNames(rows, entries);
  }

  lemma ListedIsNames(rows: seq<seq<string>>, entries: seq<Entry>)
    requires forall i | 0 <= i < |rows| :: |rows[i]| == 3 && HasName(entries, rows[i][0])
    requires forall k | 0 <= k < |entries| :: entries[k].name in Listed(rows)
    ensures Listed(rows) == NameSet(entries)
  {
    forall n | n in Listed(rows) ensures n in NameSet(entries) {
      var i :| 0 <= i < |rows| && |rows[i]| == 3 && rows[i][0] == n;
      assert HasName(entries, rows[i][0]);
    }
  }

  /** Acceptance, said of members and rows alone. */
  lemma AcceptedSays(entries: seq<Entry>, p: Platform)
    ensures Verdict(entries, p).Ok? <==>
              CleanWheel(entries, p.casefold) && exists rows, record :: RecordSays(rows, record, entries, p)
  {
    AcceptedMeans(entries, p);
    InventoryDecides(entries, p.casefold);
    if CleanWheel(entries, p.casefold) {
      InventoryNamesDistinct(entries, p.casefold);
      if rows, record :| Describes(rows, record, entries, p) {
        DescribesSays(rows, record, entries, p);
      }
      if rows, record :| RecordSays(rows, record, entries, p) {
        SaysDescribes(rows, record, entries, p);
      }
    }
  }

  // ---------------------------------------------------------------- RECORD determines the archive

  /** Two different contents with one digest. */
  ghost predicate Collision(x: seq<Byte>, y: seq<Byte>, sha256: seq<Byte> -> seq<Byte>) {
    x != y && sha256(x) == sha256(y)
  }

  /** The digest column names its algorithm and, decoded, is the digest. */
  lemma WheelHashReads(content: seq<Byte>, sha256: seq<Byte> -> seq<Byte>)
    ensures var parts := Split(WheelHash(content, sha256), '=');
            && |parts| == 2 && parts[0] == "sha256"
            && AllChars(parts[1], IsSymbol) && Decode(parts[1]) == sha256(content)
  {
    var digest := Unpadded(sha256(content));
    RoundTrip(sha256(content));
    forall i | 0 <= i < |digest| ensures digest[i] != '=' {
      assert IsSymbol(digest[i]);
    }
    assert WheelHash(content, sha256) == "sha256" + ['='] + digest;
    SplitHead("sha256", digest, '=');
    SplitPlain(digest, '=');
  }

  lemma HashDetermines(x: seq<Byte>, y: seq<Byte>, sha256: seq<Byte> -> seq<Byte>)
    requires WheelHash(x, sha256) == WheelHash(y, sha256)
    ensures x == y || Collision(x, y, sha256)
  {
    var hx, hy := WheelHash(x, sha256), WheelHash(y, sha256);
    assert hx[7..] == Unpadded(sha256(x)) && hy[7..] == Unpadded(sha256(y));
    UnpaddedInjective(sha256(x), sha256(y));
  }

  /**
   * Two accepted archives whose RECORD files agree in name and bytes hold the same members:
   * equal names and, member by member, equal lengths and equal bytes, unless the two contents
   * are a SHA-256 collision.
   */
  lemma RecordDeterminesArchive(a: seq<Entry>, b: seq<Entry>, p: Platform, record: string)
    requires Verdict(a, p).Ok? && Verdict(b, p).Ok?
    requires RecordNames(Names(a)) == [record] && RecordNames(Names(b)) == [record]
    requires record in Names(a) && record in Names(b) && Read(a, record) == Read(b, record)
    ensures NameSet(a) == NameSet(b)
    ensures forall n | n in Names(a) ::
              && n in Names(b)
              && |Read(a, n)| == |Read(b, n)|
              && (Read(a, n) == Read(b, n) || Collision(Read(a, n), Read(b, n), p.sha256))
  {
    AcceptedMeans(a, p);
    AcceptedMeans(b, p);
    var rowsA, ra :| Describes(rowsA, ra, a, p);
    var rowsB, rb :| Describes(rowsB, rb, b, p);
    assert ra == [ra][0] == [record][0] && rb == [rb][0] == [record][0];
    assert rowsA == rowsB;
    forall n | n in Names(a)
      ensures n in Names(b) && |Read(a, n)| == |Read(b, n)|
      ensures Read(a, n) == Read(b, n) || Collision(Read(a, n), Read(b, n), p.sha256)
    {
      var j :| 0 <= j < |Names(a)| && Names(a)[j] == n;
      assert a[j].name == n && n in NameSet(a);
      var i :| 0 <= i < |rowsA| && |rowsA[i]| == 3 && rowsA[i][0] == n;
      assert RowMatches(rowsA[i], a, record, p.sha256) && RowMatches(rowsB[i], b, record, p.sha256);
      if n != record {
        DecimalInjective(|Read(a, n)|, |Read(b, n)|);
        HashDetermines(Read(a, n), Read(b, n), p.sha256);
      }
    }
  }
}
