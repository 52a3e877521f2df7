/** Archive members, their names, and the inventory every artifact reader starts from. */
module Artifacts {
  import opened Text
  import opened Sequences
  import opened Base64Url
  import Sorting

  const MAX_MEMBERS := 4096
  const MAX_MEMBER_NAME := 256
  const MAX_UNCOMPRESSED_BYTES := 128 * 1024 * 1024

  /** What the archive says a member is; `Unset` is a zip mode without file type bits. */
  datatype Kind = Regular | Directory | Unset | Other

  /** A member with the size its header declares and the bytes that can be read from it. */
  datatype Entry = Entry(name: string, kind: Kind, size: nat, content: seq<Byte>)

  datatype Error =
    | UnsafeMember
    | TooManyMembers
    | DuplicateMembers
    | NonRegularMember
    | ExpandedTooLarge
    | RecordMissingOrAmbiguous
    | NotUtf8
    | NotCsv
    | RecordInventory
    | RowNotATriple
    | RecordSelfEntry
    | RecordMismatch
    | TargetExists
    | MalformedRoot
    | MemberSize
    | FileSystem

  datatype Result<+T> = Ok(value: T) | Err(error: Error)

  /** The foreign functions the artifact code calls: hashing, UTF-8 and Unicode case folding. */
  datatype Platform = Platform(
    sha256: seq<Byte> -> seq<Byte>,
    encode: string -> seq<Byte>,
    decode: seq<Byte> -> Option<string>,
    casefold: string -> string)
  {
    /** Decoding undoes encoding. */
    ghost predicate Utf8() {
      forall s: string :: decode(encode(s)) == Some(s)
    }
  }

  // ---------------------------------------------------------------- one name

  predicate IsControl(c: char) {
    c < ' ' || c == '\U{7F}'
  }

  predicate HasControl(s: string) {
    exists i | 0 <= i < |s| :: IsControl(s[i])
  }

  /** `^[A-Za-z]:` */
  predicate HasDrive(s: string) {
    |s| >= 2 && IsLetter(s[0]) && s[1] == ':'
  }

  predicate OrdinaryComponent(c: string) {
    c != "" && c != "." && c != ".."
  }

  predicate OrdinaryPath(path: seq<string>) {
    forall i | 0 <= i < |path| :: OrdinaryComponent(path[i])
  }

  function NormaliseMember(name: string): Result<string> {
    if name == "" || |name| > MAX_MEMBER_NAME || HasControl(name)
      || name[0] == '/' || name[0] == '\\' || HasDrive(name)
    then Err(UnsafeMember)
    else
      var normalized := Replace(name, '\\', '/');
      if StartsWith(normalized, "//") || HasDrive(normalized) then Err(UnsafeMember)
      else
        var components := Split(normalized, '/');
        if !OrdinaryPath(components) then Err(UnsafeMember) else Ok(Join(components, '/'))
  }

  /** What the checks come to: the tests on slashes at the front are implied by the one on components. */
  predicate SafeName(name: string) {
    && 0 < |name| <= MAX_MEMBER_NAME
    && !HasControl(name)
    && !HasDrive(name)
    && OrdinaryPath(Split(Replace(name, '\\', '/'), '/'))
  }

  lemma SplitFirst(s: string, sep: char)
    requires s != "" && s[0] == sep
    ensures Split(s, sep)[0] == ""
  {
  }

  lemma NormaliseDecides(name: string)
    ensures NormaliseMember(name).Ok? <==> SafeName(name)
    ensures SafeName(name) ==> NormaliseMember(name) == Ok(Replace(name, '\\', '/'))
  {
    var normalized := Replace(name, '\\', '/');
    JoinSplit(normalized, '/');
    if name != "" && (name[0] == '/' || name[0] == '\\') {
      SplitFirst(normalized, '/');
    }
  }

  /** A normalised name is a fixed point and splits into ordinary components without either slash. */
  lemma NormaliseIdempotent(name: string)
    requires NormaliseMember(name).Ok?
    ensures NormaliseMember(NormaliseMember(name).value) == NormaliseMember(name)
    ensures OrdinaryPath(Split(NormaliseMember(name).value, '/'))
    ensures Join(Split(NormaliseMember(name).value, '/'), '/') == NormaliseMember(name).value
    ensures forall i | 0 <= i < |Split(NormaliseMember(name).value, '/')| ::
              '/' !in Split(NormaliseMember(name).value, '/')[i]
    ensures '\\' !in NormaliseMember(name).value
  {
    NormaliseDecides(name);
    var normalized := Replace(name, '\\', '/');
    assert Replace(normalized, '\\', '/') == normalized;
    assert !HasControl(normalized) by {
      forall i | 0 <= i < |normalized| ensures !IsControl(normalized[i]) {
        assert !IsControl(name[i]);
      }
    }
    NormaliseDecides(normalized);
    JoinSplit(normalized, '/');
  }

  // ---------------------------------------------------------------- inventories

  function Names(entries: seq<Entry>): (names: seq<string>)
    ensures |names| == |entries|
    ensures forall i | 0 <= i < |entries| :: names[i] == entries[i].name
  {
    seq(|entries|, i requires 0 <= i < |entries| => entries[i].name)
  }

  /** The name a member is checked under: trailing slashes mark directories and are dropped. */
  function Bare(name: string): string {
    RStripChar(name, '/')
  }

  function Cleaned(names: seq<string>): Result<seq<string>> {
    if names == [] then Ok([])
    else
      var first := NormaliseMember(names[0]);
      if first.Err? then Err(first.error)
      else
        var rest := Cleaned(names[1..]);
        if rest.Err? then rest else Ok([first.value] + rest.value)
  }

  function Folded(names: seq<string>, casefold: string -> string): (keys: seq<string>)
    ensures |keys| == |names|
    ensures forall i | 0 <= i < |names| :: keys[i] == casefold(names[i])
  {
    seq(|names|, i requires 0 <= i < |names| => casefold(names[i]))
  }

  function SafeMembers(names: seq<string>, casefold: string -> string): Result<seq<string>> {
    if |names| > MAX_MEMBERS then Err(TooManyMembers)
    else
      var cleaned := Cleaned(names);
      if cleaned.Err? then cleaned
      else if !Distinct(Folded(cleaned.value, casefold)) then Err(DuplicateMembers)
      else Ok(Sorting.Sort(cleaned.value, Sorting.StringLeq))
  }

  function TotalSize(entries: seq<Entry>): nat {
    if entries == [] then 0 else entries[0].size + TotalSize(entries[1..])
  }

  /** The cleaned name of a member, once its name is known to be safe. */
  function CleanName(name: string): string {
    Replace(name, '\\', '/')
  }

  predicate SafeNames(names: seq<string>) {
    forall i | 0 <= i < |names| :: SafeName(names[i])
  }

  predicate CaseDistinct(names: seq<string>, casefold: string -> string) {
    forall i, j | 0 <= i < j < |names| :: casefold(CleanName(names[i])) != casefold(CleanName(names[j]))
  }

  lemma {:induction false} CleanedDecides(names: seq<string>)
    ensures Cleaned(names).Ok? <==> SafeNames(names)
    ensures Cleaned(names).Ok? ==>
              && |Cleaned(names).value| == |names|
              && forall i | 0 <= i < |names| :: Cleaned(names).value[i] == CleanName(names[i])
  {
    if names != [] {
      NormaliseDecides(names[0]);
      CleanedDecides(names[1..]);
      assert SafeNames(names) <==> SafeName(names[0]) && SafeNames(names[1..]) by {
        if SafeNames(names) {
          forall i | 0 <= i < |names[1..]| ensures SafeName(names[1..][i]) {
            assert names[1..][i] == names[i + 1];
          }
        }
        if SafeName(names[0]) && SafeNames(names[1..]) {
          forall i | 0 <= i < |names| ensures SafeName(names[i]) {
            if i > 0 { assert names[i] == names[1..][i - 1]; }
          }
        }
      }
    }
  }

  lemma FoldedDistinct(names: seq<string>, cleaned: seq<string>, casefold: string -> string)
    requires |cleaned| == |names| && forall i | 0 <= i < |names| :: cleaned[i] == CleanName(names[i])
    ensures Distinct(Folded(cleaned, casefold)) <==> CaseDistinct(names, casefold)
  {
    var keys := Folded(cleaned, casefold);
    forall i | 0 <= i < |names| ensures keys[i] == casefold(CleanName(names[i])) {
    }
    if Distinct(keys) {
      forall i, j | 0 <= i < j < |names| ensures casefold(CleanName(names[i])) != casefold(CleanName(names[j])) {
        assert keys[i] != keys[j];
      }
    }
  }

  /** The inventory test, as one condition on the names. */
  lemma SafeMembersDecides(names: seq<string>, casefold: string -> string)
    ensures SafeMembers(names, casefold).Ok? <==>
              |names| <= MAX_MEMBERS && SafeNames(names) && CaseDistinct(names, casefold)
  {
    CleanedDecides(names);
    if Cleaned(names).Ok? {
      FoldedDistinct(names, Cleaned(names).value, casefold);
    }
  }

  /** The inventory itself: the cleaned names, each as often as it occurs, in order. */
  lemma SafeMembersInventory(names: seq<string>, casefold: string -> string)
    requires SafeMembers(names, casefold).Ok?
    ensures Sorting.Ordered(SafeMembers(names, casefold).value, Sorting.StringLeq)
    ensures multiset(SafeMembers(names, casefold).value) ==
              multiset(seq(|names|, i requires 0 <= i < |names| => CleanName(names[i])))
  {
    CleanedDecides(names);
    var cleaned := Cleaned(names).value;
    assert cleaned == seq(|names|, i requires 0 <= i < |names| => CleanName(names[i]));
    Sorting.StringOrder();
    Sorting.SortOrders(cleaned, Sorting.StringLeq);
    Sorting.SortKeepsElements(cleaned, Sorting.StringLeq);
  }

  /** Names that stay distinct after cleaning and folding were distinct to begin with. */
  lemma CaseDistinctIsDistinct(names: seq<string>, casefold: string -> string)
    requires CaseDistinct(names, casefold)
    ensures Distinct(names)
  {
    forall i, j | 0 <= i < j < |names| ensures names[i] != names[j] {
      assert casefold(CleanName(names[i])) != casefold(CleanName(names[j]));
    }
  }

  lemma {:induction false} TotalSizeAppend(a: seq<Entry>, b: seq<Entry>)
    ensures TotalSize(a + b) == TotalSize(a) + TotalSize(b)
  {
    if a == [] {
      assert a + b == b;
    } else {
      assert (a + b)[1..] == a[1..] + b;
      TotalSizeAppend(a[1..], b);
    }
  }

  lemma TotalSizeNext(entries: seq<Entry>, k: nat)
    requires k < |entries|
    ensures TotalSize(entries[..k + 1]) == TotalSize(entries[..k]) + entries[k].size
  {
    TotalSizeAppend(entries[..k], [entries[k]]);
    assert entries[..k + 1] == entries[..k] + [entries[k]];
  }
}
