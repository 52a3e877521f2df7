/** The dependency lock: continuation lines, pinned requirements with hashes, and unique names. */
module ContainerLock {
  import opened Text
  import opened Sequences
  import opened LockVersion

  datatype Error =
    | Interrupted | Unterminated
    | IndexOption | SourceRequirement | NotSha256 | NoHash | DuplicateHash
    | NotPinned | NotConcrete | DuplicateName | NothingInstallable

  datatype Locked = Locked(name: string, version: string, extras: set<string>, marker: Option<string>,
                           hashes: seq<string>)

  // ---------------------------------------------------------------- canonical names

  function SkipSeparators(s: string): string {
    if s != "" && IsSeparator(s[0]) then SkipSeparators(s[1..]) else s
  }

  lemma {:induction false} SkipShrinks(s: string)
    ensures |SkipSeparators(s)| <= |s|
    ensures SkipSeparators(s) == "" || !IsSeparator(SkipSeparators(s)[0])
  {
    if s != "" && IsSeparator(s[0]) {
      SkipShrinks(s[1..]);
    }
  }

  /** `re.sub(r"[-_.]+", "-", s)` */
  function Collapse(s: string): string
    decreases |s|
  {
    if s == "" then ""
    else if IsSeparator(s[0]) then
      SkipShrinks(s[1..]);
      "-" + Collapse(SkipSeparators(s[1..]))
    else [s[0]] + Collapse(s[1..])
  }

  function Canonical(name: string): string {
    LowerAscii(Collapse(name))
  }

  /** Lowercase, no dot or underscore, no two hyphens together. */
  predicate IsCanonical(s: string) {
    && (forall i | 0 <= i < |s| :: s[i] !in {'_', '.'} && !IsUpper(s[i]))
    && (forall i | 0 <= i < |s| - 1 :: s[i] != '-' || s[i + 1] != '-')
  }

  lemma {:induction false} CollapseShape(s: string)
    ensures forall i | 0 <= i < |Collapse(s)| :: Collapse(s)[i] !in {'_', '.'}
    ensures forall i | 0 <= i < |Collapse(s)| - 1 :: Collapse(s)[i] != '-' || Collapse(s)[i + 1] != '-'
    ensures s != "" && !IsSeparator(s[0]) ==> Collapse(s)[0] == s[0]
    decreases |s|
  {
    if s == "" {
    } else if IsSeparator(s[0]) {
      SkipShrinks(s[1..]);
      CollapseShape(SkipSeparators(s[1..]));
    } else {
      CollapseShape(s[1..]);
    }
  }

  lemma {:induction false} CollapseFixed(s: string)
    requires IsCanonical(s)
    ensures Collapse(s) == s
    decreases |s|
  {
    if s != "" {
      forall i | 0 <= i < |s[1..]| - 1 ensures s[1..][i] != '-' || s[1..][i + 1] != '-' {
        assert s[i + 1] != '-' || s[i + 1 + 1] != '-';
      }
      CollapseFixed(s[1..]);
      assert s == [s[0]] + s[1..];
      if s[0] == '-' && |s| > 1 {
        assert s[0 + 1] != '-';
        assert SkipSeparators(s[1..]) == s[1..];
      }
    }
  }

  /** The canonical names are exactly the fixed points, and every result is one. */
  lemma CanonicalNormalises(name: string)
    ensures IsCanonical(Canonical(name))
    ensures Canonical(Canonical(name)) == Canonical(name)
    ensures IsCanonical(name) <==> Canonical(name) == name
  {
    CollapseShape(name);
    var c := Canonical(name);
    CollapseFixed(c);
    assert LowerAscii(c) == c;
    if IsCanonical(name) {
      CollapseFixed(name);
      assert LowerAscii(name) == name;
    }
  }

  // ---------------------------------------------------------------- logical lines

  /** The loop's state: finished lines, errors, and the fragments of the requirement being continued. */
  datatype Lines = Lines(logical: seq<string>, errors: seq<Error>, current: seq<string>)

  predicate Blank(stripped: string) {
    stripped == "" || stripped[0] == '#'
  }

  /** " ".join(fragments) */
  function Spaced(fragments: seq<string>): string {
    if fragments == [] then "" else Join(fragments, ' ')
  }

  function AddLine(l: Lines, raw: string): Lines {
    var stripped := Strip(raw);
    if Blank(stripped) then
      if l.current != [] then l.(errors := l.errors + [Interrupted], current := []) else l
    else if stripped[|stripped| - 1] == '\\' then
      l.(current := l.current + [RStrip(stripped[..|stripped| - 1])])
    else l.(logical := l.logical + [Spaced(l.current + [stripped])], current := [])
  }

  function AddLines(l: Lines, raw: seq<string>): Lines
    decreases |raw|
  {
    if raw == [] then l else AddLines(AddLine(l, raw[0]), raw[1..])
  }

  function EndLines(l: Lines): (seq<string>, seq<Error>) {
    (l.logical, if l.current != [] then l.errors + [Unterminated] else l.errors)
  }

  function LogicalLines(raw: seq<string>): (seq<string>, seq<Error>) {
    EndLines(AddLines(Lines([], [], []), raw))
  }

  method LogicalRequirementLines(raw: seq<string>) returns (logical: seq<string>, errors: seq<Error>)
    ensures (logical, errors) == LogicalLines(raw)
  {
    logical, errors := [], [];
    var current := [];
    for k := 0 to |raw|
      invariant AddLines(Lines([], [], []), raw) == AddLines(Lines(logical, errors, current), raw[k..])
    {
      assert raw[k..][0] == raw[k] && raw[k..][1..] == raw[k + 1..];
      var stripped := Strip(raw[k]);
      if Blank(stripped) {
        if current != [] {
          errors := errors + [Interrupted];
          current := [];
        }
        continue;
      }
      var continued := stripped[|stripped| - 1] == '\\';
      var fragment := if continued then RStrip(stripped[..|stripped| - 1]) else stripped;
      current := current + [fragment];
      if !continued {
        logical := logical + [Spaced(current)];
        current := [];
      }
    }
    if current != [] {
      errors := errors + [Unterminated];
    }
  }

  // ---------------------------------------------------------------- hashes

  const HASH := "--hash="
  const SHA256 := "--hash=sha256:"

  predicate IsHex(c: char) { IsDigit(c) || 'a' <= c <= 'f' }

  predicate IsDigest(s: string) { |s| == 64 && AllChars(s, IsHex) }

  /** A token with a lowercase SHA-256 starts here. */
  predicate HashAt(s: string) {
    StartsWith(s, SHA256) && |s| >= 78 && IsDigest(s[14..78]) && (|s| == 78 || IsSpace(s[78]))
  }

  /** A token with some hash starts here. */
  predicate AnyHashAt(s: string) {
    StartsWith(s, HASH) && |s| > 7 && !IsSpace(s[7])
  }

  /** The digests of the SHA-256 tokens; `start` is true at the start of the line, where no white space is needed. */
  function Digests(s: string, start: bool): seq<string>
    decreases |s|
  {
    if s == "" then []
    else if start && HashAt(s) then [s[14..78]] + Digests(s[78..], false)
    else if IsSpace(s[0]) && HashAt(s[1..]) then [s[15..79]] + Digests(s[79..], false)
    else Digests(s[1..], false)
  }

  /** The line without its SHA-256 tokens, each removed together with the white space before it. */
  function WithoutHashes(s: string, start: bool): string
    decreases |s|
  {
    if s == "" then ""
    else if start && HashAt(s) then WithoutHashes(s[78..], false)
    else if IsSpace(s[0]) && HashAt(s[1..]) then WithoutHashes(s[79..], false)
    else [s[0]] + WithoutHashes(s[1..], false)
  }

  /** The number of tokens with some hash. */
  function CountHashes(s: string, start: bool): nat
    decreases |s|
  {
    if s == "" then 0
    else if start && AnyHashAt(s) then 1 + CountHashes(s[8..], false)
    else if IsSpace(s[0]) && AnyHashAt(s[1..]) then 1 + CountHashes(s[9..], false)
    else CountHashes(s[1..], false)
  }

  // ---------------------------------------------------------------- one requirement

  predicate AsciiAlnum(c: char) { IsLetter(c) || IsDigit(c) }

  predicate NameChar(c: char) { AsciiAlnum(c) || c in {'.', '_', '-'} }

  predicate ExtraChar(c: char) { NameChar(c) || c == ',' }

  predicate VersionText(c: char) { !IsSpace(c) && c != ';' }

  datatype Entry = Entry(name: string, extras: Option<string>, version: string, marker: Option<string>)

  function ParseVersion(name: string, extras: Option<string>, s: string): Option<Entry> {
    if !StartsWith(s, "==") then None
    else
      var text := s[2..];
      var n := Run(text, VersionText);
      if n == 0 then None
      else
        var tail := LStrip(text[n..]);
        if text[n..] == "" then Some(Entry(name, extras, text[..n], None))
        else if !StartsWith(tail, ";") then None
        else
          var marker := LStrip(tail[1..]);
          if marker == "" then None else Some(Entry(name, extras, text[..n], Some(marker)))
  }

  /** `name[extras]==version ; marker`, on text without white space at its ends. */
  function ParseEntry(s: string): Option<Entry> {
    if s == "" || !AsciiAlnum(s[0]) then None
    else
      var n := Run(s, NameChar);
      var rest := s[n..];
      if StartsWith(rest, "[") then
        var m := Run(rest[1..], ExtraChar);
        if m == 0 || !StartsWith(rest[m + 1..], "]") then None
        else ParseVersion(s[..n], Some(rest[1..m + 1]), rest[m + 2..])
      else ParseVersion(s[..n], None, rest)
  }

  predicate HasAt(s: string, i: nat, word: string) {
    i + |word| <= |s| && s[i..i + |word|] == word
  }

  predicate EditableAt(s: string, i: nat, word: string) {
    && (i == 0 || (i <= |s| && IsSpace(s[i - 1])))
    && HasAt(s, i, word) && i + |word| < |s| && (IsSpace(s[i + |word|]) || s[i + |word|] == '=')
  }

  predicate SourceAt(s: string, i: nat) {
    || EditableAt(s, i, "-e") || EditableAt(s, i, "--editable")
    || HasAt(s, i, "git+") || HasAt(s, i, "hg+") || HasAt(s, i, "svn+") || HasAt(s, i, "bzr+")
    || (i + 2 < |s| && IsSpace(s[i]) && s[i + 1] == '@' && IsSpace(s[i + 2]))
    || HasAt(s, i, "http://") || HasAt(s, i, "https://") || HasAt(s, i, "file://")
  }

  predicate ForbiddenSource(line: string) {
    exists i | 0 <= i < |line| :: SourceAt(LowerAscii(line), i)
  }

  predicate ForbiddenOption(line: string) {
    var s := LowerAscii(line);
    StartsWith(s, "--extra-index-url") || StartsWith(s, "--find-links") || StartsWith(s, "--index-url") ||
      StartsWith(s, "--trusted-host")
  }

  function Extras(raw: Option<string>): set<string> {
    if raw.None? then {}
    else
      var parts := Split(raw.value, ',');
      set i | 0 <= i < |parts| :: LowerAscii(Strip(parts[i]))
  }

  /** What one logical line adds: its errors and, unless one of them is fatal, a requirement under a new name. */
  datatype Reading = Reading(errors: seq<Error>, found: Option<Locked>)

  function HashErrors(line: string): seq<Error> {
    var digests := Digests(line, true);
    (if CountHashes(line, true) != |digests| then [NotSha256] else [])
    + (if digests == [] then [NoHash] else [])
    + (if !Distinct(digests) then [DuplicateHash] else [])
  }

  function ReadLine(line: string, seen: set<string>): Reading {
    if ForbiddenOption(line) then Reading([IndexOption], None)
    else if ForbiddenSource(line) then Reading([SourceRequirement], None)
    else
      var errors := HashErrors(line);
      var entry := ParseEntry(Strip(WithoutHashes(line, true)));
      if entry.None? then Reading(errors + [NotPinned], None)
      else if !IsConcrete(entry.value.version) then Reading(errors + [NotConcrete], None)
      else
        var name := Canonical(entry.value.name);
        if name in seen then Reading(errors + [DuplicateName], None)
        else
          Reading(errors, Some(Locked(name, entry.value.version, Extras(entry.value.extras), entry.value.marker,
                                      Digests(line, true))))
  }

  function Names(requirements: seq<Locked>): set<string> {
    set i | 0 <= i < |requirements| :: requirements[i].name
  }

  datatype Parsed = Parsed(requirements: seq<Locked>, errors: seq<Error>)

  /** Going down the lines with some way of reading one line. */
  function ReadAll(read: (string, set<string>) -> Reading, p: Parsed, lines: seq<string>): Parsed
    decreases |lines|
  {
    if lines == [] then p
    else
      var r := read(lines[0], Names(p.requirements));
      var requirements := if r.found.Some? then p.requirements + [r.found.value] else p.requirements;
      ReadAll(read, Parsed(requirements, p.errors + r.errors), lines[1..])
  }

  function Parse(raw: seq<string>): Parsed {
    var (logical, errors) := LogicalLines(raw);
    var p := ReadAll(ReadLine, Parsed([], errors), logical);
    if logical == [] then p.(errors := p.errors + [NothingInstallable]) else p
  }

  method ParseRequirements(raw: seq<string>) returns (requirements: seq<Locked>, errors: seq<Error>)
    ensures Parsed(requirements, errors) == Parse(raw)
  {
    var logical, lineErrors := LogicalRequirementLines(raw);
    requirements, errors := [], lineErrors;
    var seen := {};
    for k := 0 to |logical|
      invariant seen == Names(requirements)
      invariant ReadAll(ReadLine, Parsed([], lineErrors), logical) ==
                ReadAll(ReadLine, Parsed(requirements, errors), logical[k..])
    {
      var line := logical[k];
      assert logical[k..][0] == line && logical[k..][1..] == logical[k + 1..];
      var r := ReadLine(line, seen);
      errors := errors + r.errors;
      if r.found.Some? {
        NamesAppend(requirements, r.found.value);
        seen := seen + {r.found.value.name};
        requirements := requirements + [r.found.value];
      }
    }
    if logical == [] {
      errors := errors + [NothingInstallable];
    }
  }

  lemma NamesAppend(requirements: seq<Locked>, r: Locked)
    ensures Names(requirements + [r]) == Names(requirements) + {r.name}
  {
    var all := requirements + [r];
    forall n | n in Names(requirements) + {r.name} ensures n in Names(all) {
      if n in Names(requirements) {
        var i :| 0 <= i < |requirements| && requirements[i].name == n;
        assert all[i].name == n;
      } else {
        assert all[|requirements|].name == n;
      }
    }
  }
}

/** Writing a lock, and reading it back. */
module LockRoundTrip {
  import opened Text
  import opened Sequences
  import opened LockVersion
  import opened ContainerLock

  /** A pinned requirement as it is written: extras in their written order, and the comment lines that follow it. */
  datatype Pin = Pin(name: string, extras: seq<string>, version: string, marker: Option<string>, hashes: seq<string>,
                     comments: seq<string>)

  function PrintExtras(extras: seq<string>): string {
    if extras == [] then "" else "[" + Join(extras, ',') + "]"
  }

  function PrintMarker(marker: Option<string>): string {
    if marker.None? then "" else " ; " + marker.value
  }

  /** The first physical line, without the continuation mark. */
  function Head(p: Pin): string {
    p.name + AfterName(p)
  }

  function AfterName(p: Pin): string {
    PrintExtras(p.extras) + ("==" + (p.version + PrintMarker(p.marker)))
  }

  function PrintHashes(hashes: seq<string>): seq<string> {
    if hashes == [] then []
    else ["    " + SHA256 + hashes[0] + if |hashes| > 1 then " \\" else ""] + PrintHashes(hashes[1..])
  }

  function PrintPin(p: Pin): seq<string> {
    [Head(p) + " \\"] + PrintHashes(p.hashes) + p.comments
  }

  function Print(pins: seq<Pin>): seq<string> {
    if pins == [] then [] else PrintPin(pins[0]) + Print(pins[1..])
  }

  /** The hash tokens as they follow the head on the logical line. */
  function Tail(hashes: seq<string>): string {
    if hashes == [] then "" else " " + (SHA256 + hashes[0] + Tail(hashes[1..]))
  }

  function Logical(p: Pin): string {
    Head(p) + Tail(p.hashes)
  }

  // ---------------------------------------------------------------- well-formed pins

  predicate IsExtra(e: string) {
    e != "" && AllChars(e, NameChar)
  }

  /** The parts a line can be put together from and taken apart into. */
  predicate PlainParts(p: Pin) {
    && p.name != "" && AsciiAlnum(p.name[0])
    && p.version != "" && AllChars(p.version, VersionText)
    && (p.marker.Some? ==> p.marker.value != "" && Trimmed(p.marker.value))
  }

  predicate PlainFields(p: Pin) {
    && PlainParts(p)
    && AllChars(p.name, NameChar) && IsConcrete(p.version)
    && (forall i | 0 <= i < |p.extras| :: IsExtra(p.extras[i]))
  }

  predicate PlainHashes(p: Pin) {
    && p.hashes != [] && Distinct(p.hashes)
    && (forall i | 0 <= i < |p.hashes| :: IsDigest(p.hashes[i]))
    && CountHashes(Head(p), true) == 0
  }

  predicate WellFormed(p: Pin) {
    && PlainFields(p) && PlainHashes(p) && !ForbiddenSource(Logical(p))
    && (forall i | 0 <= i < |p.comments| :: Blank(Strip(p.comments[i])))
  }

  /** What the reader should make of a pin: the name in canonical form, the extras as a set in lowercase. */
  function LockedPin(p: Pin): Locked {
    Locked(Canonical(p.name), p.version, LoweredExtras(p.extras), p.marker, p.hashes)
  }

  function LoweredExtras(extras: seq<string>): set<string> {
    set i | 0 <= i < |extras| :: LowerAscii(extras[i])
  }

  function LockedPins(pins: seq<Pin>): (locked: seq<Locked>)
    ensures |locked| == |pins|
    ensures forall i | 0 <= i < |pins| :: locked[i] == LockedPin(pins[i])
  {
    seq(|pins|, i requires 0 <= i < |pins| => LockedPin(pins[i]))
  }

  // ---------------------------------------------------------------- physical lines to logical lines

  lemma {:induction false} AddLinesAppend(l: Lines, a: seq<string>, b: seq<string>)
    ensures AddLines(l, a + b) == AddLines(AddLines(l, a), b)
    decreases |a|
  {
    if a == [] {
      assert a + b == b;
    } else {
      assert (a + b)[0] == a[0] && (a + b)[1..] == a[1..] + b;
      AddLinesAppend(AddLine(l, a[0]), a[1..], b);
    }
  }

  lemma {:induction false} LStripBlanks(n: nat, s: string)
    requires s == "" || !IsSpace(s[0])
    ensures LStrip(Repeat(' ', n) + s) == s
  {
    if n == 0 {
      assert Repeat(' ', n) + s == s;
    } else {
      assert (Repeat(' ', n) + s)[1..] == Repeat(' ', n - 1) + s;
      LStripBlanks(n - 1, s);
    }
  }

  lemma TrimmedEnds(s: string)
    requires s != "" && Trimmed(s)
    ensures LStrip(s) == s && RStrip(s) == s
  {
  }

  /** A text with a continuation mark is one fragment more. */
  lemma AddContinued(l: Lines, indent: nat, s: string)
    requires s != "" && Trimmed(s) && s[0] != '#'
    ensures AddLine(l, Repeat(' ', indent) + s + " \\") == l.(current := l.current + [s])
  {
    var marked := s + " \\";
    var raw := Repeat(' ', indent) + s + " \\";
    assert raw == Repeat(' ', indent) + marked;
    LStripBlanks(indent, marked);
    assert Strip(raw) == marked;
    assert marked[..|marked| - 1] == s + " ";
    assert (s + " ")[..|s|] == s;
    assert RStrip(s + " ") == RStrip(s);
    TrimmedEnds(s);
  }

  /** A text without one finishes the requirement. */
  lemma AddFinal(l: Lines, indent: nat, s: string)
    requires s != "" && Trimmed(s) && s[0] != '#' && s[|s| - 1] != '\\'
    ensures AddLine(l, Repeat(' ', indent) + s) == l.(logical := l.logical + [Spaced(l.current + [s])], current := [])
  {
    LStripBlanks(indent, s);
    TrimmedEnds(s);
  }

  lemma {:induction false} SpacedAppend(fragments: seq<string>, s: string)
    requires fragments != []
    ensures Spaced(fragments + [s]) == Spaced(fragments) + " " + s
    decreases |fragments|
  {
    var all := fragments + [s];
    assert all[1..] == fragments[1..] + [s];
    assert Spaced(all) == all[0] + " " + Spaced(all[1..]);
    if |fragments| > 1 {
      SpacedAppend(fragments[1..], s);
      assert fragments[0] + " " + (Spaced(fragments[1..]) + " " + s) ==
        fragments[0] + " " + Spaced(fragments[1..]) + " " + s;
    } else {
      assert all[1..] == [s] && Spaced([s]) == s;
    }
  }

  lemma TokenIsPlain(h: string)
    requires IsDigest(h)
    ensures var t := SHA256 + h; Trimmed(t) && t[0] == '-' && t[|t| - 1] != '\\'
  {
    var t := SHA256 + h;
    assert t[|t| - 1] == h[63] && IsHex(h[63]);
  }

  lemma AddLastHash(l: Lines, h: string)
    requires l.current != [] && IsDigest(h)
    ensures AddLines(l, PrintHashes([h])) == l.(logical := l.logical + [Spaced(l.current) + Tail([h])], current := [])
  {
    var token := SHA256 + h;
    var lines := PrintHashes([h]);
    TokenIsPlain(h);
    SpacedAppend(l.current, token);
    assert Repeat(' ', 4) == "    ";
    assert [h][1..] == [];
    assert lines == ["    " + SHA256 + h + ""] + PrintHashes([]);
    assert lines[0] == Repeat(' ', 4) + token && lines[1..] == [];
    AddFinal(l, 4, token);
    assert Tail([h]) == " " + (SHA256 + h + Tail([]));
    assert Spaced(l.current) + Tail([h]) == Spaced(l.current) + " " + token;
    assert AddLines(l, lines) == AddLines(AddLine(l, lines[0]), []);
  }

  lemma AddOneHash(l: Lines, h: string, line: string)
    requires IsDigest(h) && line == "    " + SHA256 + h + " \\"
    ensures AddLine(l, line) == l.(current := l.current + [SHA256 + h])
  {
    TokenIsPlain(h);
    assert Repeat(' ', 4) == "    ";
    AddContinued(l, 4, SHA256 + h);
    assert line == Repeat(' ', 4) + (SHA256 + h) + " \\";
  }

  lemma TailStep(text: string, h: string, rest: seq<string>)
    ensures (text + " " + (SHA256 + h)) + Tail(rest) == text + Tail([h] + rest)
  {
    assert ([h] + rest)[1..] == rest;
    assert Tail([h] + rest) == " " + (SHA256 + h + Tail(rest));
  }

  /** The hash lines finish the requirement and put the tokens behind what is already there. */
  lemma {:induction false} AddHashes(l: Lines, hashes: seq<string>)
    requires l.current != [] && hashes != [] && forall i | 0 <= i < |hashes| :: IsDigest(hashes[i])
    ensures AddLines(l, PrintHashes(hashes)) ==
              l.(logical := l.logical + [Spaced(l.current) + Tail(hashes)], current := [])
    decreases |hashes|
  {
    var h, rest := hashes[0], hashes[1..];
    assert hashes == [h] + rest;
    if |hashes| == 1 {
      AddLastHash(l, h);
    } else {
      var lines := PrintHashes(hashes);
      assert lines[1..] == PrintHashes(rest);
      AddOneHash(l, h, lines[0]);
      var next := l.(current := l.current + [SHA256 + h]);
      AddHashes(next, rest);
      SpacedAppend(l.current, SHA256 + h);
      TailStep(Spaced(l.current), h, rest);
    }
  }

  lemma {:induction false} SkipComments(l: Lines, comments: seq<string>)
    requires l.current == [] && forall i | 0 <= i < |comments| :: Blank(Strip(comments[i]))
    ensures AddLines(l, comments) == l
    decreases |comments|
  {
    if comments != [] {
      SkipComments(l, comments[1..]);
    }
  }

  /** The end of a text is the end of its last part. */
  lemma TrimmedConcat(first: string, last: string)
    requires first != "" && !IsSpace(first[0]) && last != "" && !IsSpace(last[|last| - 1])
    ensures Trimmed(first + last)
  {
  }

  lemma AfterNameEnds(p: Pin)
    requires PlainParts(p)
    ensures AfterName(p) != "" && !IsSpace(AfterName(p)[|AfterName(p)| - 1])
  {
    var text := p.version + PrintMarker(p.marker);
    if p.marker.Some? {
      assert text[|text| - 1] == p.marker.value[|p.marker.value| - 1];
    } else {
      assert text == p.version && VersionText(text[|text| - 1]);
    }
    var pinned := "==" + text;
    assert pinned[|pinned| - 1] == text[|text| - 1];
    assert AfterName(p)[|AfterName(p)| - 1] == pinned[|pinned| - 1];
  }

  lemma HeadIsPlain(p: Pin)
    requires PlainParts(p)
    ensures Head(p) != "" && Head(p)[0] == p.name[0] && Head(p)[0] != '#' && Trimmed(Head(p))
  {
    AfterNameEnds(p);
    TrimmedConcat(p.name, AfterName(p));
  }

  lemma AddHead(l: Lines, p: Pin)
    requires PlainParts(p)
    ensures AddLines(l, [Head(p) + " \\"]) == l.(current := l.current + [Head(p)])
  {
    HeadIsPlain(p);
    AddContinued(l, 0, Head(p));
    assert Repeat(' ', 0) + Head(p) == Head(p);
    assert [Head(p) + " \\"][1..] == [];
  }

  lemma AddPin(l: Lines, p: Pin)
    requires l.current == [] && WellFormed(p)
    ensures AddLines(l, PrintPin(p)) == WithLogical(l, [Logical(p)])
  {
    var first := [Head(p) + " \\"];
    var begun := l.(current := [Head(p)]);
    AddHead(l, p);
    assert l.current + [Head(p)] == begun.current;
    assert Spaced([Head(p)]) == Head(p);
    AddHashes(begun, p.hashes);
    AddLinesAppend(l, first, PrintHashes(p.hashes));
    AddLinesAppend(l, first + PrintHashes(p.hashes), p.comments);
    SkipComments(WithLogical(l, [Logical(p)]), p.comments);
  }

  function LogicalOf(pins: seq<Pin>): seq<string> {
    if pins == [] then [] else [Logical(pins[0])] + LogicalOf(pins[1..])
  }

  function WithLogical(l: Lines, more: seq<string>): Lines {
    l.(logical := l.logical + more)
  }

  lemma WithLogicalTwice(l: Lines, x: seq<string>, more: seq<string>)
    ensures WithLogical(WithLogical(l, x), more) == WithLogical(l, x + more)
  {
    assert l.logical + x + more == l.logical + (x + more);
  }

  ghost predicate AllWellFormed(pins: seq<Pin>) {
    pins == [] || (WellFormed(pins[0]) && AllWellFormed(pins[1..]))
  }

  lemma {:induction false} AddPins(l: Lines, pins: seq<Pin>)
    requires l.current == [] && AllWellFormed(pins)
    ensures AddLines(l, Print(pins)) == WithLogical(l, LogicalOf(pins))
    decreases |pins|
  {
    if pins == [] {
      assert l.logical + [] == l.logical;
    } else {
      AddPin(l, pins[0]);
      AddPins(WithLogical(l, [Logical(pins[0])]), pins[1..]);
      AddLinesAppend(l, PrintPin(pins[0]), Print(pins[1..]));
      WithLogicalTwice(l, [Logical(pins[0])], LogicalOf(pins[1..]));
    }
  }

  // ---------------------------------------------------------------- hash tokens

  predicate StartsBlank(s: string) { s == "" || IsSpace(s[0]) }

  lemma PlainTailToken(h: string, rest: string)
    requires IsDigest(h) && StartsBlank(rest)
    ensures HashAt(SHA256 + h + rest) && AnyHashAt(SHA256 + h + rest)
    ensures (SHA256 + h + rest)[14..78] == h && (SHA256 + h + rest)[78..] == rest
  {
    var s := SHA256 + h + rest;
    assert |SHA256| == 14 && s[14..78] == h && s[78..] == rest;
    assert s[..7] == SHA256[..7] == HASH;
  }

  lemma {:induction false} CountInside(s: string, rest: string)
    requires forall i | 0 <= i < |s| :: !IsSpace(s[i])
    ensures CountHashes(s + rest, false) == CountHashes(rest, false)
    decreases |s|
  {
    if s == "" {
      assert s + rest == rest;
    } else {
      assert (s + rest)[1..] == s[1..] + rest;
      CountInside(s[1..], rest);
    }
  }

  /** Past the prefix that makes it a hash token, a token holds no white space. */
  lemma CountPastToken(h: string, rest: string)
    requires IsDigest(h)
    ensures (SHA256 + h + rest)[8..] == SHA256[8..] + h + rest
    ensures CountHashes(SHA256[8..] + h + rest, false) == CountHashes(rest, false)
  {
    var inside := SHA256[8..] + h;
    forall i | 0 <= i < |inside| ensures !IsSpace(inside[i]) {
      if i >= 6 {
        assert inside[i] == h[i - 6] && IsHex(h[i - 6]);
      }
    }
    CountInside(inside, rest);
  }

  lemma ReadToken(h: string, rest: string, text: string)
    requires IsDigest(h) && StartsBlank(rest) && text == " " + (SHA256 + h + rest)
    ensures Digests(text, false) == [h] + Digests(rest, false)
    ensures WithoutHashes(text, false) == WithoutHashes(rest, false)
    ensures CountHashes(text, false) == 1 + CountHashes(rest, false)
  {
    var token := SHA256 + h + rest;
    PlainTailToken(h, rest);
    CountPastToken(h, rest);
    assert text[1..] == token && text[79..] == token[78..] && text[15..79] == token[14..78] && text[9..] == token[8..];
  }

  lemma {:induction false} ReadTail(hashes: seq<string>)
    requires forall i | 0 <= i < |hashes| :: IsDigest(hashes[i])
    ensures StartsBlank(Tail(hashes))
    ensures Digests(Tail(hashes), false) == hashes
    ensures WithoutHashes(Tail(hashes), false) == ""
    ensures CountHashes(Tail(hashes), false) == |hashes|
    decreases |hashes|
  {
    if hashes != [] {
      var h, rest := hashes[0], Tail(hashes[1..]);
      ReadTail(hashes[1..]);
      ReadToken(h, rest, Tail(hashes));
      assert hashes == [h] + hashes[1..];
    }
  }

  /** White space after a text starts no token inside it. */
  lemma NoTokenAcross(s: string, rest: string)
    requires StartsBlank(rest) && !AnyHashAt(s)
    ensures !AnyHashAt(s + rest)
  {
    var all := s + rest;
    if |s| > 7 {
      assert s[..7] == all[..7] && s[7] == all[7];
    } else if rest != "" {
      assert all[|s|] == rest[0];
      if |s| < 7 <= |all| {
        assert all[..7][|s|] == rest[0] && !IsSpace(HASH[|s|]);
      }
    } else {
      assert all == s;
    }
  }

  lemma NotHash(s: string)
    ensures HashAt(s) ==> AnyHashAt(s)
  {
    if HashAt(s) {
      assert s[..7] == SHA256[..7] == HASH;
      assert s[7] == SHA256[7];
    }
  }

  /** Where no token starts, the three readers move on by one character. */
  lemma OneCharacter(all: string, start: bool)
    requires all != "" && (start ==> !AnyHashAt(all)) && (IsSpace(all[0]) ==> !AnyHashAt(all[1..]))
    ensures Digests(all, start) == Digests(all[1..], false)
    ensures WithoutHashes(all, start) == [all[0]] + WithoutHashes(all[1..], false)
    ensures CountHashes(all, start) == CountHashes(all[1..], false)
  {
    NotHash(all);
    NotHash(all[1..]);
  }

  lemma NoTokenHere(s: string, start: bool)
    requires s != "" && CountHashes(s, start) == 0
    ensures (start ==> !AnyHashAt(s)) && (IsSpace(s[0]) ==> !AnyHashAt(s[1..]))
    ensures CountHashes(s[1..], false) == 0
  {
  }

  lemma NoTokenHereStill(s: string, rest: string, start: bool)
    requires s != "" && StartsBlank(rest)
    requires (start ==> !AnyHashAt(s)) && (IsSpace(s[0]) ==> !AnyHashAt(s[1..]))
    ensures (s + rest)[0] == s[0] && (s + rest)[1..] == s[1..] + rest
    ensures (start ==> !AnyHashAt(s + rest)) && (IsSpace(s[0]) ==> !AnyHashAt(s[1..] + rest))
  {
    if start {
      NoTokenAcross(s, rest);
    }
    if IsSpace(s[0]) {
      NoTokenAcross(s[1..], rest);
    }
  }

  lemma PassOne(s: string, rest: string, start: bool)
    requires s != "" && StartsBlank(rest) && CountHashes(s, start) == 0
    ensures CountHashes(s[1..], false) == 0
    ensures Digests(s + rest, start) == Digests(s[1..] + rest, false)
    ensures WithoutHashes(s + rest, start) == [s[0]] + WithoutHashes(s[1..] + rest, false)
    ensures CountHashes(s + rest, start) == CountHashes(s[1..] + rest, false)
  {
    NoTokenHere(s, start);
    NoTokenHereStill(s, rest, start);
    OneCharacter(s + rest, start);
  }

  /** Text without hash tokens is passed over. */
  lemma {:induction false} PassOver(s: string, rest: string, start: bool)
    requires StartsBlank(rest) && CountHashes(s, start) == 0 && (start ==> s != "")
    ensures Digests(s + rest, start) == Digests(rest, false)
    ensures WithoutHashes(s + rest, start) == s + WithoutHashes(rest, false)
    ensures CountHashes(s + rest, start) == CountHashes(rest, false)
    decreases |s|
  {
    if s == "" {
      assert s + rest == rest && s + WithoutHashes(rest, false) == WithoutHashes(rest, false);
    } else {
      PassOne(s, rest, start);
      PassOver(s[1..], rest, false);
      FirstAndRest(s, WithoutHashes(rest, false));
    }
  }

  lemma FirstAndRest(s: string, t: string)
    requires s != ""
    ensures [s[0]] + (s[1..] + t) == s + t
  {
  }

  lemma ReadHashes(p: Pin)
    requires PlainFields(p) && PlainHashes(p)
    ensures Digests(Logical(p), true) == p.hashes
    ensures CountHashes(Logical(p), true) == |p.hashes|
    ensures Strip(WithoutHashes(Logical(p), true)) == Head(p)
  {
    HeadIsPlain(p);
    ReadTail(p.hashes);
    PassOver(Head(p), Tail(p.hashes), true);
    assert Head(p) + "" == Head(p);
    StripFixed(Head(p));
  }

  // ---------------------------------------------------------------- the head

  /** White space only. */
  predicate Blanks(s: string) {
    AllChars(s, IsSpace)
  }

  lemma {:induction false} SkipBlanks(blanks: string, s: string)
    requires Blanks(blanks) && (s == "" || !IsSpace(s[0]))
    ensures LStrip(blanks + s) == s
  {
    if blanks == "" {
      assert blanks + s == s;
    } else {
      assert (blanks + s)[1..] == blanks[1..] + s;
      SkipBlanks(blanks[1..], s);
    }
  }

  /** A marker behind its semicolon, with any white space on both sides of that. */
  function MarkerText(marker: Option<string>, a: string, b: string): string {
    if marker.None? then "" else a + (";" + (b + marker.value))
  }

  predicate PlainMarker(marker: Option<string>) {
    marker.Some? ==> marker.value != "" && !IsSpace(marker.value[0])
  }

  lemma ReadMarker(m: string, a: string, b: string)
    requires m != "" && !IsSpace(m[0]) && Blanks(a) && Blanks(b)
    ensures LStrip(MarkerText(Some(m), a, b)) == ";" + (b + m) && LStrip((";" + (b + m))[1..]) == m
    ensures MarkerText(Some(m), a, b) != "" && !VersionText(MarkerText(Some(m), a, b)[0])
  {
    SkipBlanks(a, ";" + (b + m));
    assert (";" + (b + m))[1..] == b + m;
    SkipBlanks(b, m);
    assert MarkerText(Some(m), a, b)[0] == if a == "" then ';' else a[0];
  }

  lemma ReadVersion(name: string, raw: Option<string>, version: string, marker: Option<string>, a: string, b: string)
    requires version != "" && AllChars(version, VersionText) && PlainMarker(marker) && Blanks(a) && Blanks(b)
    ensures ParseVersion(name, raw, "==" + (version + MarkerText(marker, a, b)))
         == Some(Entry(name, raw, version, marker))
  {
    var printed := MarkerText(marker, a, b);
    var text := version + printed;
    assert ("==" + text)[2..] == text;
    if marker.Some? {
      ReadMarker(marker.value, a, b);
    }
    RunOf(version, printed, VersionText);
    assert text[..|version|] == version && text[|version|..] == printed;
  }

  lemma {:induction false} JoinChars(extras: seq<string>)
    requires extras != [] && forall i | 0 <= i < |extras| :: IsExtra(extras[i])
    ensures Join(extras, ',') != "" && AllChars(Join(extras, ','), ExtraChar)
    decreases |extras|
  {
    if |extras| > 1 {
      assert forall i | 0 <= i < |extras[1..]| :: extras[1..][i] == extras[i + 1];
      JoinChars(extras[1..]);
      var tail := Join(extras[1..], ',');
      var all := extras[0] + [','] + tail;
      forall i | 0 <= i < |all| ensures ExtraChar(all[i]) {
        if i < |extras[0]| {
          assert all[i] == extras[0][i];
        } else if i > |extras[0]| {
          assert all[i] == tail[i - |extras[0]| - 1];
        }
      }
    }
  }

  lemma ExtraIsPlain(e: string)
    requires IsExtra(e)
    ensures ',' !in e && Strip(e) == e
  {
    assert NameChar(e[0]) && NameChar(e[|e| - 1]);
    StripFixed(e);
  }

  lemma ReadExtras(extras: seq<string>)
    requires extras != [] && forall i | 0 <= i < |extras| :: IsExtra(extras[i])
    ensures Extras(Some(Join(extras, ','))) == LoweredExtras(extras)
  {
    forall i | 0 <= i < |extras| ensures ',' !in extras[i] && Strip(extras[i]) == extras[i] {
      ExtraIsPlain(extras[i]);
    }
    SplitJoin(extras, ',');
    StrippedSet(extras);
  }

  lemma StrippedSet(extras: seq<string>)
    requires forall i | 0 <= i < |extras| :: Strip(extras[i]) == extras[i]
    ensures (set i | 0 <= i < |extras| :: LowerAscii(Strip(extras[i]))) == LoweredExtras(extras)
  {
  }

  function Raw(extras: seq<string>): Option<string> {
    if extras == [] then None else Some(Join(extras, ','))
  }

  lemma ReadBracketed(name: string, inner: string, version: string)
    requires name != "" && AsciiAlnum(name[0]) && AllChars(name, NameChar)
    requires inner != "" && AllChars(inner, ExtraChar)
    ensures ParseEntry(name + (("[" + inner + "]") + version)) == ParseVersion(name, Some(inner), version)
  {
    var rest := "[" + inner + "]" + version;
    var s := name + rest;
    assert s == name + (("[" + inner + "]") + version);
    RunOf(name, rest, NameChar);
    assert s[..|name|] == name && s[|name|..] == rest;
    assert rest[1..] == inner + ("]" + version);
    RunOf(inner, "]" + version, ExtraChar);
    assert rest[1..|inner| + 1] == inner;
    assert rest[|inner| + 1..] == "]" + version && rest[|inner| + 2..] == version;
  }

  lemma ReadBare(name: string, version: string)
    requires name != "" && AsciiAlnum(name[0]) && AllChars(name, NameChar)
    requires StartsWith(version, "=")
    ensures ParseEntry(name + version) == ParseVersion(name, None, version)
  {
    var s := name + version;
    RunOf(name, version, NameChar);
    assert s[..|name|] == name && s[|name|..] == version;
  }

  lemma ReadNamed(name: string, extras: seq<string>, version: string)
    requires name != "" && AsciiAlnum(name[0]) && AllChars(name, NameChar)
    requires forall i | 0 <= i < |extras| :: IsExtra(extras[i])
    requires StartsWith(version, "=")
    ensures ParseEntry(name + (PrintExtras(extras) + version)) == ParseVersion(name, Raw(extras), version)
  {
    if extras == [] {
      assert PrintExtras(extras) + version == version;
      ReadBare(name, version);
    } else {
      JoinChars(extras);
      ReadBracketed(name, Join(extras, ','), version);
    }
  }

  lemma PinnedStarts(text: string)
    ensures StartsWith("==" + text, "=")
  {
    assert ("==" + text)[..1] == "=";
  }

  lemma PrintedMarker(marker: Option<string>)
    ensures PrintMarker(marker) == MarkerText(marker, " ", " ") && Blanks(" ")
  {
    assert " ; " == " " + (";" + " ");
  }

  lemma ReadHead(p: Pin)
    requires PlainFields(p)
    ensures ParseEntry(Head(p)) == Some(Entry(p.name, Raw(p.extras), p.version, p.marker))
  {
    PrintedMarker(p.marker);
    PinnedStarts(p.version + PrintMarker(p.marker));
    ReadNamed(p.name, p.extras, "==" + (p.version + PrintMarker(p.marker)));
    ReadVersion(p.name, Raw(p.extras), p.version, p.marker, " ", " ");
  }

  // ---------------------------------------------------------------- main results

  /** A line whose parts are all in order. */
  lemma ReadGoodLine(line: string, seen: set<string>, entry: Entry, digests: seq<string>)
    requires !ForbiddenOption(line) && !ForbiddenSource(line)
    requires Digests(line, true) == digests && CountHashes(line, true) == |digests|
    requires digests != [] && Distinct(digests)
    requires ParseEntry(Strip(WithoutHashes(line, true))) == Some(entry)
    requires IsConcrete(entry.version) && Canonical(entry.name) !in seen
    ensures ReadLine(line, seen)
         == Reading([], Some(Locked(Canonical(entry.name), entry.version, Extras(entry.extras), entry.marker, digests)))
  {
  }

  lemma ReadPin(p: Pin, seen: set<string>)
    requires WellFormed(p) && Canonical(p.name) !in seen
    ensures ReadLine(Logical(p), seen) == Reading([], Some(LockedPin(p)))
  {
    ReadHashes(p);
    ReadHead(p);
    HeadIsPlain(p);
    NoOption(Logical(p));
    ReadGoodLine(Logical(p), seen, Entry(p.name, Raw(p.extras), p.version, p.marker), p.hashes);
    if p.extras != [] {
      ReadExtras(p.extras);
    }
    assert Extras(Raw(p.extras)) == LoweredExtras(p.extras);
  }

  lemma NoOption(line: string)
    requires line != "" && AsciiAlnum(line[0])
    ensures !ForbiddenOption(line)
  {
    assert LowerAscii(line)[0] != '-';
  }

  /** The line is read as this requirement unless its name was seen before. */
  ghost predicate ReadsTo(read: (string, set<string>) -> Reading, line: string, r: Locked) {
    forall seen: set<string> | r.name !in seen :: read(line, seen) == Reading([], Some(r))
  }

  lemma PinReadsTo(p: Pin)
    requires WellFormed(p)
    ensures ReadsTo(ReadLine, Logical(p), LockedPin(p))
  {
    forall seen: set<string> | Canonical(p.name) !in seen
      ensures ReadLine(Logical(p), seen) == Reading([], Some(LockedPin(p)))
    {
      ReadPin(p, seen);
    }
  }

  lemma ReadInTurn(read: (string, set<string>) -> Reading, p: Parsed, line: string, r: Locked, lines: seq<string>)
    requires ReadsTo(read, line, r) && r.name !in Names(p.requirements)
    ensures ReadAll(read, p, [line] + lines) == ReadAll(read, WithRequirements(p, [r]), lines)
  {
    assert p.errors + [] == p.errors;
    assert ([line] + lines)[0] == line && ([line] + lines)[1..] == lines;
  }

  ghost predicate FreshNames(locked: seq<Locked>, seen: set<string>) {
    locked == [] || (locked[0].name !in seen && FreshNames(locked[1..], seen + {locked[0].name}))
  }

  ghost predicate AllRead(read: (string, set<string>) -> Reading, lines: seq<string>, locked: seq<Locked>) {
    |lines| == |locked| && forall i | 0 <= i < |lines| :: ReadsTo(read, lines[i], locked[i])
  }

  lemma AllReadTail(read: (string, set<string>) -> Reading, lines: seq<string>, locked: seq<Locked>)
    requires AllRead(read, lines, locked) && lines != []
    ensures AllRead(read, lines[1..], locked[1..]) && ReadsTo(read, lines[0], locked[0])
  {
  }

  function WithRequirements(p: Parsed, more: seq<Locked>): Parsed {
    Parsed(p.requirements + more, p.errors)
  }

  lemma WithRequirementsTwice(p: Parsed, r: Locked, more: seq<Locked>)
    ensures WithRequirements(WithRequirements(p, [r]), more) == WithRequirements(p, [r] + more)
  {
    assert p.requirements + [r] + more == p.requirements + ([r] + more);
  }

  lemma {:induction false} ReadEach(read: (string, set<string>) -> Reading, p: Parsed, lines: seq<string>,
                                    locked: seq<Locked>)
    requires AllRead(read, lines, locked) && FreshNames(locked, Names(p.requirements))
    ensures ReadAll(read, p, lines) == WithRequirements(p, locked)
    decreases |lines|
  {
    if lines == [] {
      assert p.requirements + locked == p.requirements;
    } else {
      var r, rest := locked[0], locked[1..];
      assert lines == [lines[0]] + lines[1..];
      assert locked == [r] + rest;
      AllReadTail(read, lines, locked);
      ReadInTurn(read, p, lines[0], r, lines[1..]);
      NamesAppend(p.requirements, r);
      ReadEach(read, WithRequirements(p, [r]), lines[1..], rest);
      WithRequirementsTwice(p, r, rest);
    }
  }

  lemma {:induction false} LogicalAt(pins: seq<Pin>)
    ensures |LogicalOf(pins)| == |pins|
    ensures forall i | 0 <= i < |pins| :: LogicalOf(pins)[i] == Logical(pins[i])
  {
    if pins != [] {
      LogicalAt(pins[1..]);
      forall i | 0 <= i < |pins| ensures LogicalOf(pins)[i] == Logical(pins[i]) {
        if i > 0 {
          assert LogicalOf(pins)[i] == LogicalOf(pins[1..])[i - 1] && pins[i] == pins[1..][i - 1];
        }
      }
    }
  }

  lemma {:induction false} WellFormedAt(pins: seq<Pin>, i: nat)
    requires AllWellFormed(pins) && i < |pins|
    ensures WellFormed(pins[i])
  {
    if i > 0 {
      WellFormedAt(pins[1..], i - 1);
    }
  }

  lemma PinsRead(pins: seq<Pin>)
    requires AllWellFormed(pins)
    ensures AllRead(ReadLine, LogicalOf(pins), LockedPins(pins))
  {
    LogicalAt(pins);
    forall i | 0 <= i < |pins| ensures ReadsTo(ReadLine, Logical(pins[i]), LockedPin(pins[i])) {
      WellFormedAt(pins, i);
      PinReadsTo(pins[i]);
    }
  }

  /** No two pins have one canonical name. */
  ghost predicate DistinctNames(pins: seq<Pin>) {
    forall i, j | 0 <= i < j < |pins| :: Canonical(pins[i].name) != Canonical(pins[j].name)
  }

  lemma {:induction false} UniqueAreFresh(locked: seq<Locked>, seen: set<string>)
    requires UniqueNames(locked) && forall i | 0 <= i < |locked| :: locked[i].name !in seen
    ensures FreshNames(locked, seen)
    decreases |locked|
  {
    if locked != [] {
      var rest := locked[1..];
      assert forall i | 0 <= i < |rest| :: rest[i] == locked[i + 1];
      UniqueAreFresh(rest, seen + {locked[0].name});
    }
  }

  /** Header and comment lines. */
  predicate Preamble(lines: seq<string>) {
    forall i | 0 <= i < |lines| :: Blank(Strip(lines[i]))
  }

  lemma PrintedLines(preamble: seq<string>, pins: seq<Pin>)
    requires Preamble(preamble) && pins != [] && AllWellFormed(pins)
    ensures LogicalLines(preamble + Print(pins)) == (LogicalOf(pins), []) && LogicalOf(pins) != []
  {
    var none := Lines([], [], []);
    AddLinesAppend(none, preamble, Print(pins));
    SkipComments(none, preamble);
    AddPins(none, pins);
    assert none.logical + LogicalOf(pins) == LogicalOf(pins);
  }

  /**
   * Every list of well-formed pins with distinct canonical names, written over continuation lines behind any
   * header, is read back without errors.
   */
  lemma ParseInvertsPrint(preamble: seq<string>, pins: seq<Pin>)
    requires Preamble(preamble) && pins != [] && AllWellFormed(pins) && DistinctNames(pins)
    ensures Parse(preamble + Print(pins)) == Parsed(LockedPins(pins), [])
  {
    PrintedLines(preamble, pins);
    PinsRead(pins);
    assert Names([]) == {};
    UniqueAreFresh(LockedPins(pins), {});
    ReadEach(ReadLine, Parsed([], []), LogicalOf(pins), LockedPins(pins));
    assert [] + LockedPins(pins) == LockedPins(pins);
  }

  // ---------------------------------------------------------------- what a parse guarantees

  predicate UniqueNames(requirements: seq<Locked>) {
    forall i, j | 0 <= i < j < |requirements| :: requirements[i].name != requirements[j].name
  }

  /** Read requirements are canonical. */
  predicate Sound(r: Locked) {
    IsCanonical(r.name) && IsConcrete(r.version)
  }

  lemma ReadLineSound(line: string, seen: set<string>)
    requires ReadLine(line, seen).found.Some?
    ensures Sound(ReadLine(line, seen).found.value) && ReadLine(line, seen).found.value.name !in seen
  {
    CanonicalNormalises(ParseEntry(Strip(WithoutHashes(line, true))).value.name);
  }

  lemma UniqueAppend(requirements: seq<Locked>, r: Locked)
    requires UniqueNames(requirements) && r.name !in Names(requirements)
    ensures UniqueNames(requirements + [r])
  {
    forall i | 0 <= i < |requirements| ensures requirements[i].name != r.name {
      assert requirements[i].name in Names(requirements);
    }
  }

  ghost predicate AllSound(requirements: seq<Locked>) {
    forall i | 0 <= i < |requirements| :: Sound(requirements[i])
  }

  lemma {:induction false} ReadAllSound(p: Parsed, lines: seq<string>)
    requires UniqueNames(p.requirements) && AllSound(p.requirements)
    ensures UniqueNames(ReadAll(ReadLine, p, lines).requirements) && AllSound(ReadAll(ReadLine, p, lines).requirements)
    decreases |lines|
  {
    if lines != [] {
      var r := ReadLine(lines[0], Names(p.requirements));
      if r.found.Some? {
        ReadLineSound(lines[0], Names(p.requirements));
        UniqueAppend(p.requirements, r.found.value);
        ReadAllSound(Parsed(p.requirements + [r.found.value], p.errors + r.errors), lines[1..]);
      } else {
        ReadAllSound(Parsed(p.requirements, p.errors + r.errors), lines[1..]);
      }
    }
  }

  /** Whatever the text, the names that come out are canonical and unique. */
  lemma ParsedNamesUnique(raw: seq<string>)
    ensures UniqueNames(Parse(raw).requirements)
    ensures AllSound(Parse(raw).requirements)
  {
    var (logical, errors) := LogicalLines(raw);
    ReadAllSound(Parsed([], errors), logical);
  }

  const REQUIRED := {
    "apscheduler", "fastapi", "httpx", "numpy", "pandas", "passlib", "prometheus-client", "pydantic", "pyjwt",
    "python-dateutil", "python-dotenv", "python-multipart", "requests", "scikit-learn", "sqlmodel", "statsmodels",
    "streamlit", "uvicorn", "yfinance"
  }

  lemma {:induction false} UniqueNamesCount(requirements: seq<Locked>)
    requires UniqueNames(requirements)
    ensures |Names(requirements)| == |requirements|
  {
    if requirements != [] {
      var n := |requirements| - 1;
      var front, last := requirements[..n], requirements[n];
      assert requirements == front + [last];
      UniqueNamesCount(front);
      NamesAppend(front, last);
      assert last.name !in Names(front);
    }
  }

  lemma SubsetCount(a: set<string>, b: set<string>)
    requires a <= b
    ensures |a| <= |b|
  {
    assert b == a + (b - a);
  }

  /** With all required names present, the number of transitive requirements is not negative. */
  lemma TransitiveCountNotNegative(raw: seq<string>)
    requires REQUIRED <= Names(Parse(raw).requirements)
    ensures |Parse(raw).requirements| - |REQUIRED| >= 0
  {
    ParsedNamesUnique(raw);
    UniqueNamesCount(Parse(raw).requirements);
    SubsetCount(REQUIRED, Names(Parse(raw).requirements));
  }

  // ---------------------------------------------------------------- error-free locks

  /** A line that is hashed with SHA-256 only, from an index, and pinned to one concrete version. */
  predicate GoodLine(line: string) {
    && !ForbiddenOption(line) && !ForbiddenSource(line)
    && HashErrors(line) == []
    && ParseEntry(Strip(WithoutHashes(line, true))).Some?
    && IsConcrete(ParseEntry(Strip(WithoutHashes(line, true))).value.version)
  }

  function LineLock(line: string): Locked
    requires GoodLine(line)
  {
    var entry := ParseEntry(Strip(WithoutHashes(line, true))).value;
    Locked(Canonical(entry.name), entry.version, Extras(entry.extras), entry.marker, Digests(line, true))
  }

  lemma ReadLineDecides(line: string, seen: set<string>)
    ensures ReadLine(line, seen).errors == [] <==> GoodLine(line) && LineLock(line).name !in seen
    ensures ReadLine(line, seen).errors == [] ==> ReadLine(line, seen).found == Some(LineLock(line))
  {
  }

  /** Each line is good, and its name is new. */
  predicate GoodLines(lines: seq<string>, seen: set<string>)
    decreases |lines|
  {
    lines == [] ||
    (GoodLine(lines[0]) && LineLock(lines[0]).name !in seen && GoodLines(lines[1..], seen + {LineLock(lines[0]).name}))
  }

  function LineLocks(lines: seq<string>, seen: set<string>): seq<Locked>
    requires GoodLines(lines, seen)
    decreases |lines|
  {
    if lines == [] then [] else [LineLock(lines[0])] + LineLocks(lines[1..], seen + {LineLock(lines[0]).name})
  }

  lemma {:induction false} ReadAllDecides(p: Parsed, lines: seq<string>)
    ensures ReadAll(ReadLine, p, lines).errors == [] <==> p.errors == [] && GoodLines(lines, Names(p.requirements))
    ensures GoodLines(lines, Names(p.requirements)) ==>
              ReadAll(ReadLine, p, lines) == WithRequirements(p, LineLocks(lines, Names(p.requirements)))
    decreases |lines|
  {
    if lines == [] {
      assert p.requirements + [] == p.requirements;
    } else {
      var line, seen := lines[0], Names(p.requirements);
      var r := ReadLine(line, seen);
      ReadLineDecides(line, seen);
      if r.errors == [] {
        var lock := LineLock(line);
        assert p.errors + [] == p.errors;
        NamesAppend(p.requirements, lock);
        ReadAllDecides(WithRequirements(p, [lock]), lines[1..]);
        if GoodLines(lines[1..], seen + {lock.name}) {
          WithRequirementsTwice(p, lock, LineLocks(lines[1..], seen + {lock.name}));
        }
      } else {
        var requirements := if r.found.Some? then p.requirements + [r.found.value] else p.requirements;
        ReadAllDecides(Parsed(requirements, p.errors + r.errors), lines[1..]);
      }
    }
  }

  lemma {:induction false} DigestsAreDigests(s: string, start: bool)
    ensures forall i | 0 <= i < |Digests(s, start)| :: IsDigest(Digests(s, start)[i])
    decreases |s|
  {
    if s == "" {
    } else if start && HashAt(s) {
      DigestsAreDigests(s[78..], false);
    } else if IsSpace(s[0]) && HashAt(s[1..]) {
      assert s[1..][14..78] == s[15..79];
      DigestsAreDigests(s[79..], false);
    } else {
      DigestsAreDigests(s[1..], false);
    }
  }

  /** At least one digest, each of them a SHA-256, none twice. */
  predicate HashLocked(r: Locked) {
    r.hashes != [] && Distinct(r.hashes) && forall i | 0 <= i < |r.hashes| :: IsDigest(r.hashes[i])
  }

  lemma GoodLineIsLocked(line: string)
    requires GoodLine(line)
    ensures HashLocked(LineLock(line))
  {
    DigestsAreDigests(line, true);
  }

  lemma {:induction false} LineLocksAreLocked(lines: seq<string>, seen: set<string>)
    requires GoodLines(lines, seen)
    ensures |LineLocks(lines, seen)| == |lines|
    ensures forall r | r in LineLocks(lines, seen) :: HashLocked(r)
    decreases |lines|
  {
    if lines != [] {
      LineLocksAreLocked(lines[1..], seen + {LineLock(lines[0]).name});
      GoodLineIsLocked(lines[0]);
    }
  }

  /**
   * A text parses without errors if and only if its continuations are complete, something is installable and
   * every logical line is good with a name of its own.
   */
  lemma ErrorFreeDecides(raw: seq<string>)
    ensures Parse(raw).errors == [] <==>
              LogicalLines(raw).1 == [] && LogicalLines(raw).0 != [] && GoodLines(LogicalLines(raw).0, {})
  {
    assert Names([]) == {};
    ReadAllDecides(Parsed([], LogicalLines(raw).1), LogicalLines(raw).0);
  }

  /** Without errors nothing is dropped, and every requirement is locked by distinct SHA-256 digests. */
  lemma ErrorFreeIsLocked(raw: seq<string>)
    requires Parse(raw).errors == []
    ensures |Parse(raw).requirements| == |LogicalLines(raw).0| > 0
    ensures forall r | r in Parse(raw).requirements :: HashLocked(r)
  {
    var lines := LogicalLines(raw).0;
    assert Names([]) == {};
    ErrorFreeDecides(raw);
    ReadAllDecides(Parsed([], LogicalLines(raw).1), lines);
    LineLocksAreLocked(lines, {});
    assert Parse(raw).requirements == [] + LineLocks(lines, {}) == LineLocks(lines, {});
  }

}
