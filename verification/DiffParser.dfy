/** Reading the new-side line numbers out of a zero-context unified diff, already split into lines. */
module DiffParser {
  import opened Text

  datatype Error = UnsupportedHunk | HunkBeforeFile

  /** The dictionary built so far and the file the next hunks belong to. */
  datatype State = State(changed: map<string, set<nat>>, current: Option<string>)

  datatype Outcome = Ok(state: State) | Err(error: Error)

  const Fresh := State(map[], None)

  // ---------------------------------------------------------------- paths

  function DropDotSlash(s: string): string {
    if StartsWith(s, "./") then DropDotSlash(s[2..]) else s
  }

  function LStripSlash(s: string): string {
    if s != "" && s[0] == '/' then LStripSlash(s[1..]) else s
  }

  function NormalizePath(value: string): string {
    LStripSlash(DropDotSlash(Strip(Replace(value, '\\', '/'))))
  }

  // ---------------------------------------------------------------- hunk headers

  function DigitRun(s: string): (n: nat)
    ensures n <= |s| && AllChars(s[..n], IsDigit)
    ensures n < |s| ==> !IsDigit(s[n])
  {
    if s == "" || !IsDigit(s[0]) then 0
    else
      var n := DigitRun(s[1..]);
      assert s[..n + 1] == [s[0]] + s[1..][..n];
      n + 1
  }

  function TakeNumber(s: string): Option<(nat, string)> {
    var n := DigitRun(s);
    if n == 0 then None else Some((Value(s[..n]), s[n..]))
  }

  /** The optional `,count`; where it is left out the count is 1. */
  function TakeCount(s: string): (nat, string) {
    if StartsWith(s, ",") && TakeNumber(s[1..]).Some? then TakeNumber(s[1..]).value else (1, s)
  }

  function TakeRange(s: string): Option<((nat, nat), string)> {
    var start := TakeNumber(s);
    if start.None? then None
    else
      var count := TakeCount(start.value.1);
      Some(((start.value.0, count.0), count.1))
  }

  /** `@@ -a[,b] +c[,d] @@...`: the pair (c, d). */
  function ParseHunk(line: string): Option<(nat, nat)> {
    if !StartsWith(line, "@@ -") then None
    else
      var old_ := TakeRange(line[4..]);
      if old_.None? || !StartsWith(old_.value.1, " +") then None
      else
        var new_ := TakeRange(old_.value.1[2..]);
        if new_.None? || !StartsWith(new_.value.1, " @@") then None else Some(new_.value.0)
  }

  // ---------------------------------------------------------------- lines

  predicate InRange(n: nat, start: nat, count: nat) {
    start <= n < start + count
  }

  function Range(start: nat, count: nat): set<nat> {
    set n: nat | n < start + count && InRange(n, start, count)
  }

  /** `setdefault` and `update`. */
  function AddLines(changed: map<string, set<nat>>, path: string, lines: set<nat>): map<string, set<nat>> {
    changed[path := (if path in changed then changed[path] else {}) + lines]
  }

  /** The path named by what follows "+++ " on a line; none for a deleted file. */
  function NamedPath(text: string): Option<string> {
    var marker := Strip(text);
    if marker == "/dev/null" then None
    else Some(NormalizePath(if StartsWith(marker, "b/") then marker[2..] else marker))
  }

  /** From here on hunks belong to this path, which is known from now on. */
  function Turn(st: State, path: Option<string>): State {
    match path
    case None => st.(current := None)
    case Some(p) => State(AddLines(st.changed, p, {}), path)
  }

  function ReadLine(st: State, line: string): Outcome {
    if StartsWith(line, "diff --git ") then Ok(st.(current := None))
    else if StartsWith(line, "+++ ") then Ok(Turn(st, NamedPath(line[4..])))
    else if !StartsWith(line, "@@ ") then Ok(st)
    else
      var hunk := ParseHunk(line);
      if hunk.None? then Err(UnsupportedHunk)
      else if st.current.None? then (if hunk.value.1 == 0 then Ok(st) else Err(HunkBeforeFile))
      else if hunk.value.1 == 0 then Ok(st)
      else Ok(st.(changed := AddLines(st.changed, st.current.value, Range(hunk.value.0, hunk.value.1))))
  }

  function ReadLines(st: State, lines: seq<string>): Outcome
    decreases |lines|
  {
    if lines == [] then Ok(st)
    else
      var next := ReadLine(st, lines[0]);
      if next.Err? then next else ReadLines(next.state, lines[1..])
  }

  method ParseChangedLines(lines: seq<string>) returns (r: Outcome)
    ensures r == ReadLines(Fresh, lines)
  {
    var changed: map<string, set<nat>> := map[];
    var current: Option<string> := None;
    for k := 0 to |lines|
      invariant ReadLines(Fresh, lines) == ReadLines(State(changed, current), lines[k..])
    {
      var line := lines[k];
      assert lines[k..][0] == line && lines[k..][1..] == lines[k + 1..];
      if StartsWith(line, "diff --git ") {
        current := None;
        continue;
      }
      if StartsWith(line, "+++ ") {
        var marker := Strip(line[4..]);
        if marker == "/dev/null" {
          current := None;
          continue;
        }
        if StartsWith(marker, "b/") {
          marker := marker[2..];
        }
        var path := NormalizePath(marker);
        current := Some(path);
        changed := AddLines(changed, path, {});
        continue;
      }
      if !StartsWith(line, "@@ ") {
        continue;
      }
      var hunk := ParseHunk(line);
      if hunk.None? {
        return Err(UnsupportedHunk);
      }
      var (start, count) := hunk.value;
      if current.None? {
        if count == 0 {
          continue;
        }
        return Err(HunkBeforeFile);
      }
      if count != 0 {
        changed := AddLines(changed, current.value, Range(start, count));
      }
    }
    return Ok(State(changed, current));
  }

  lemma {:induction false} ReadLinesAppend(st: State, a: seq<string>, b: seq<string>)
    ensures ReadLines(st, a + b) ==
              var first := ReadLines(st, a); if first.Err? then first else ReadLines(first.state, b)
    decreases |a|
  {
    if a == [] {
      assert a + b == b;
    } else {
      assert (a + b)[0] == a[0] && (a + b)[1..] == a[1..] + b;
      var next := ReadLine(st, a[0]);
      if next.Ok? {
        ReadLinesAppend(next.state, a[1..], b);
      }
    }
  }
}

/** Printing a diff, and reading it back. */
module DiffRoundTrip {
  import opened Text
  import opened DiffParser

  /** A count as the header shows it: left out, or given. */
  datatype Count = Omitted | Given(n: nat)

  /** One hunk with its section heading and its removed, added and "\ No newline" lines. */
  datatype Hunk = Hunk(oldStart: nat, oldCount: Count, newStart: nat, newCount: Count, heading: string,
                       body: seq<string>)

  datatype Target = NoTarget | Deleted | Path(path: string)

  /** One file: the rest of its `diff --git` line, its extended header, its target and its hunks. */
  datatype Section = Section(title: string, header: seq<string>, target: Target, hunks: seq<Hunk>)

  function PrintCount(c: Count): string {
    match c
    case Omitted => ""
    case Given(n) => "," + Decimal(n)
  }

  function CountOf(c: Count): nat {
    if c.Given? then c.n else 1
  }

  function PrintRange(start: nat, count: Count): string {
    Decimal(start) + PrintCount(count)
  }

  /** The header from its new-side range on. */
  function PrintNewSide(h: Hunk): string {
    PrintRange(h.newStart, h.newCount) + (" @@" + h.heading)
  }

  /** The header from its old-side range on. */
  function PrintSides(h: Hunk): string {
    PrintRange(h.oldStart, h.oldCount) + (" +" + PrintNewSide(h))
  }

  function PrintHeader(h: Hunk): string {
    "@@ -" + PrintSides(h)
  }

  function PrintHunk(h: Hunk): seq<string> {
    [PrintHeader(h)] + h.body
  }

  function PrintHunks(hunks: seq<Hunk>): seq<string> {
    if hunks == [] then [] else PrintHunk(hunks[0]) + PrintHunks(hunks[1..])
  }

  function PrintTarget(t: Target): seq<string> {
    match t
    case NoTarget => []
    case Deleted => ["+++ /dev/null"]
    case Path(path) => ["+++ " + ("b/" + path)]
  }

  function PrintSection(s: Section): seq<string> {
    ["diff --git " + s.title] + (s.header + (PrintTarget(s.target) + PrintHunks(s.hunks)))
  }

  function Print(sections: seq<Section>): seq<string> {
    if sections == [] then [] else PrintSection(sections[0]) + Print(sections[1..])
  }

  // ---------------------------------------------------------------- well-formed diffs

  /** A line the parser passes over. */
  predicate Inert(line: string) {
    !StartsWith(line, "diff --git ") && !StartsWith(line, "+++ ") && !StartsWith(line, "@@ ")
  }

  /** A removed line, an added line or a note. */
  predicate BodyLine(line: string) {
    line != "" && line[0] in {'-', '+', '\\'}
  }

  predicate Body(lines: seq<string>) {
    forall i | 0 <= i < |lines| :: BodyLine(lines[i])
  }

  predicate Bodies(hunks: seq<Hunk>) {
    forall h | h in hunks :: Body(h.body)
  }

  predicate WellFormed(s: Section) {
    && (forall i | 0 <= i < |s.header| :: Inert(s.header[i]))
    && Bodies(s.hunks)
    && (s.target.Path? ==> NormalizePath(s.target.path) == s.target.path)
  }

  predicate AllWellFormed(sections: seq<Section>) {
    forall s | s in sections :: WellFormed(s)
  }

  // ---------------------------------------------------------------- what a diff says

  /** Hunks that belong to one path, or to none. */
  datatype Piece = Piece(path: Option<string>, hunks: seq<Hunk>)

  /** The line is on the new side of a hunk. */
  predicate InHunk(h: Hunk, line: nat) {
    h.newStart <= line < h.newStart + CountOf(h.newCount)
  }

  ghost predicate InHunks(hunks: seq<Hunk>, line: nat) {
    exists h | h in hunks :: InHunk(h, line)
  }

  ghost predicate Touches(pieces: seq<Piece>, path: string) {
    exists p | p in pieces :: p.path == Some(path)
  }

  ghost predicate Changes(pieces: seq<Piece>, path: string, line: nat) {
    exists p | p in pieces :: p.path == Some(path) && InHunks(p.hunks, line)
  }

  /** Hunks without a path add nothing. */
  predicate Attached(p: Piece) {
    p.path.Some? || forall h | h in p.hunks :: CountOf(h.newCount) == 0
  }

  predicate AllAttached(pieces: seq<Piece>) {
    forall p | p in pieces :: Attached(p)
  }

  /** The dictionary says what the pieces say, on top of what it said before. */
  ghost predicate Says(after: map<string, set<nat>>, before: map<string, set<nat>>, pieces: seq<Piece>) {
    && (forall path :: path in after <==> path in before || Touches(pieces, path))
    && (forall path, line | path in after :: line in after[path] <==>
          (path in before && line in before[path]) || Changes(pieces, path, line))
  }

  function PathOf(t: Target): Option<string> {
    if t.Path? then Some(t.path) else None
  }

  /** What a section means: all its hunks belong to its own target. */
  function Whole(s: Section): Piece {
    Piece(PathOf(s.target), s.hunks)
  }

  function Wholes(sections: seq<Section>): seq<Piece> {
    if sections == [] then [] else [Whole(sections[0])] + Wholes(sections[1..])
  }

  /** A body line the parser takes for a file header: an added line whose text starts with "++ ". */
  predicate IsHeader(line: string) {
    StartsWith(line, "+++ ")
  }

  function AddHunk(h: Hunk, pieces: seq<Piece>): seq<Piece>
    requires pieces != []
  {
    [Piece(pieces[0].path, [h] + pieces[0].hunks)] + pieces[1..]
  }

  /** Hunks behind the rest of a body, cut at every body line that reads as a file header. */
  function Cut(path: Option<string>, body: seq<string>, hunks: seq<Hunk>): (pieces: seq<Piece>)
    ensures pieces != [] && pieces[0].path == path
    decreases |hunks|, |body|
  {
    if body != [] then
      if IsHeader(body[0]) then [Piece(path, [])] + Cut(NamedPath(body[0][4..]), body[1..], hunks)
      else Cut(path, body[1..], hunks)
    else if hunks == [] then [Piece(path, [])]
    else AddHunk(hunks[0], Cut(path, hunks[0].body, hunks[1..]))
  }

  function Pieces(s: Section): seq<Piece> {
    Cut(PathOf(s.target), [], s.hunks)
  }

  function AllPieces(sections: seq<Section>): seq<Piece> {
    if sections == [] then [] else Pieces(sections[0]) + AllPieces(sections[1..])
  }

  // ---------------------------------------------------------------- header round trip

  lemma {:induction false} DigitRunOf(digits: string, rest: string)
    requires AllChars(digits, IsDigit) && (rest == "" || !IsDigit(rest[0]))
    ensures DigitRun(digits + rest) == |digits|
  {
    if digits == "" {
      assert digits + rest == rest;
    } else {
      assert (digits + rest)[1..] == digits[1..] + rest;
      DigitRunOf(digits[1..], rest);
    }
  }

  lemma TakePrintedNumber(n: nat, rest: string)
    requires rest == "" || !IsDigit(rest[0])
    ensures TakeNumber(Decimal(n) + rest) == Some((n, rest))
  {
    DecimalRoundTrip(n);
    DigitRunOf(Decimal(n), rest);
    assert (Decimal(n) + rest)[..|Decimal(n)|] == Decimal(n);
  }

  lemma TakePrintedCount(count: Count, rest: string)
    requires StartsWith(rest, " ")
    ensures PrintCount(count) + rest != "" && !IsDigit((PrintCount(count) + rest)[0])
    ensures TakeCount(PrintCount(count) + rest) == (CountOf(count), rest)
  {
    var tail := PrintCount(count) + rest;
    match count {
      case Omitted => assert tail == rest;
      case Given(n) =>
        assert tail[0] == ',' && tail[1..] == Decimal(n) + rest;
        assert tail[..1] == ",";
        TakePrintedNumber(n, rest);
    }
  }

  lemma RangeOfParts(text: string, start: nat, tail: string, count: nat, rest: string)
    requires TakeNumber(text) == Some((start, tail)) && TakeCount(tail) == (count, rest)
    ensures TakeRange(text) == Some(((start, count), rest))
  {
  }

  lemma TakePrintedRange(start: nat, count: Count, rest: string)
    requires StartsWith(rest, " ")
    ensures TakeRange(PrintRange(start, count) + rest) == Some(((start, CountOf(count)), rest))
  {
    var digits, shown := Decimal(start), PrintCount(count);
    TakePrintedCount(count, rest);
    TakePrintedNumber(start, shown + rest);
    RangeOfParts(digits + (shown + rest), start, shown + rest, CountOf(count), rest);
    Regrouped(digits, shown, rest);
  }

  lemma PrefixAndRest(prefix: string, rest: string)
    ensures StartsWith(prefix + rest, prefix) && (prefix + rest)[|prefix|..] == rest
  {
  }

  lemma HunkOfParts(line: string, old_: (nat, nat), mid: string, new_: (nat, nat), end: string)
    requires StartsWith(line, "@@ -") && TakeRange(line[4..]) == Some((old_, mid))
    requires StartsWith(mid, " +") && TakeRange(mid[2..]) == Some((new_, end))
    requires StartsWith(end, " @@")
    ensures ParseHunk(line) == Some(new_)
  {
  }

  lemma HunkMark(sides: string)
    ensures StartsWith("@@ -" + sides, "@@ ")
  {
    assert ("@@ -" + sides)[..3] == "@@ ";
  }

  /** The header line of any hunk is read back as its new side. */
  lemma ParsePrintedHeader(h: Hunk)
    ensures StartsWith(PrintHeader(h), "@@ ")
    ensures ParseHunk(PrintHeader(h)) == Some((h.newStart, CountOf(h.newCount)))
  {
    var end, mid := " @@" + h.heading, " +" + PrintNewSide(h);
    PrefixAndRest(" @@", h.heading);
    TakePrintedRange(h.newStart, h.newCount, end);
    PrefixAndRest(" +", PrintNewSide(h));
    TakePrintedRange(h.oldStart, h.oldCount, mid);
    PrefixAndRest("@@ -", PrintSides(h));
    HunkMark(PrintSides(h));
    HunkOfParts(PrintHeader(h), (h.oldStart, CountOf(h.oldCount)), mid, (h.newStart, CountOf(h.newCount)), end);
  }

  // ---------------------------------------------------------------- path round trip

  lemma {:induction false} DropDotSlashShrinks(s: string)
    ensures |DropDotSlash(s)| <= |s|
  {
    if StartsWith(s, "./") {
      DropDotSlashShrinks(s[2..]);
    }
  }

  lemma {:induction false} LStripSlashShrinks(s: string)
    ensures |LStripSlash(s)| <= |s|
  {
    if s != "" && s[0] == '/' {
      LStripSlashShrinks(s[1..]);
    }
  }

  /** A normalised path has no white space at its end. */
  lemma NormalizedIsTrimmed(path: string)
    requires NormalizePath(path) == path
    ensures Trimmed(path)
  {
    var slashed := Replace(path, '\\', '/');
    DropDotSlashShrinks(Strip(slashed));
    LStripSlashShrinks(DropDotSlash(Strip(slashed)));
    LStripSuffix(slashed);
    RStripPrefix(LStrip(slashed));
    assert |Strip(slashed)| == |slashed|;
    assert Strip(slashed) == slashed;
    StripFixed(slashed);
  }

  lemma TargetNamesPath(path: string)
    requires NormalizePath(path) == path
    ensures NamedPath("b/" + path) == Some(path)
  {
    NormalizedIsTrimmed(path);
    assert Trimmed("b/" + path);
    StripFixed("b/" + path);
    assert ("b/" + path)[2..] == path;
    assert ("b/" + path)[0] != "/dev/null"[0];
  }

  /** A header line turns to the path it names. */
  lemma ReadHeader(st: State, text: string)
    ensures IsHeader("+++ " + text) && ("+++ " + text)[4..] == text
    ensures ReadLine(st, "+++ " + text) == Ok(Turn(st, NamedPath(text)))
  {
    var line := "+++ " + text;
    assert line[..4] == "+++ " && line[4..] == text;
    assert line[0] == '+' && !StartsWith(line, "diff --git ");
  }

  // ---------------------------------------------------------------- meanings

  lemma TouchesConcat(a: seq<Piece>, b: seq<Piece>, path: string)
    ensures Touches(a + b, path) <==> Touches(a, path) || Touches(b, path)
  {
  }

  lemma ChangesConcat(a: seq<Piece>, b: seq<Piece>, path: string, line: nat)
    ensures Changes(a + b, path, line) <==> Changes(a, path, line) || Changes(b, path, line)
  {
  }

  lemma SaysCompose(after: map<string, set<nat>>, mid: map<string, set<nat>>, before: map<string, set<nat>>,
                    first: seq<Piece>, rest: seq<Piece>)
    requires Says(mid, before, first) && Says(after, mid, rest)
    ensures Says(after, before, first + rest)
  {
    forall path ensures Touches(first + rest, path) <==> Touches(first, path) || Touches(rest, path) {
      TouchesConcat(first, rest, path);
    }
    forall path, line
      ensures Changes(first + rest, path, line) <==> Changes(first, path, line) || Changes(rest, path, line)
    {
      ChangesConcat(first, rest, path, line);
    }
  }

  lemma InHunksCons(h: Hunk, hunks: seq<Hunk>, line: nat)
    ensures InHunks([h] + hunks, line) <==> InHunk(h, line) || InHunks(hunks, line)
  {
    assert h in [h] + hunks;
  }

  lemma AddHunkSays(h: Hunk, pieces: seq<Piece>)
    requires pieces != []
    ensures forall path :: Touches(AddHunk(h, pieces), path) <==> Touches(pieces, path)
    ensures forall path, line :: Changes(AddHunk(h, pieces), path, line) <==>
              (pieces[0].path == Some(path) && InHunk(h, line)) || Changes(pieces, path, line)
    ensures AllAttached(AddHunk(h, pieces)) <==>
              AllAttached(pieces) && (pieces[0].path.Some? || CountOf(h.newCount) == 0)
  {
    var p, rest := pieces[0], pieces[1..];
    var q := Piece(p.path, [h] + p.hunks);
    assert pieces == [p] + rest && AddHunk(h, pieces) == [q] + rest;
    assert Attached(q) <==> Attached(p) && (p.path.Some? || CountOf(h.newCount) == 0) by {
      assert h in q.hunks;
    }
    forall path ensures Touches([q] + rest, path) <==> Touches([p] + rest, path) {
      TouchesConcat([q], rest, path);
      TouchesConcat([p], rest, path);
      assert q in [q] && p in [p];
    }
    forall path, line
      ensures Changes([q] + rest, path, line) <==>
                (p.path == Some(path) && InHunk(h, line)) || Changes([p] + rest, path, line)
    {
      ChangesConcat([q], rest, path, line);
      ChangesConcat([p], rest, path, line);
      InHunksCons(h, p.hunks, line);
      assert q in [q] && p in [p];
    }
  }

  /** Turning to a path the pieces start with says nothing they do not say. */
  lemma TurnSays(after: map<string, set<nat>>, st: State, path: Option<string>, pieces: seq<Piece>)
    requires pieces != [] && pieces[0].path == path
    requires Says(after, Turn(st, path).changed, pieces)
    ensures Says(after, st.changed, pieces)
  {
    if path.Some? {
      assert pieces[0] in pieces && Touches(pieces, path.value);
    }
  }

  /** A path that is known already may be left without hunks. */
  lemma EmptyPieceSays(after: map<string, set<nat>>, before: map<string, set<nat>>, path: Option<string>,
                       pieces: seq<Piece>)
    requires Says(after, before, pieces) && (path.Some? ==> path.value in before)
    ensures Says(after, before, [Piece(path, [])] + pieces)
    ensures AllAttached([Piece(path, [])] + pieces) <==> AllAttached(pieces)
  {
    var empty := Piece(path, []);
    assert Says(before, before, [empty]) by {
      forall p | Touches([empty], p) ensures p in before {
      }
    }
    SaysCompose(after, before, before, [empty], pieces);
  }

  // ---------------------------------------------------------------- reading the pieces

  lemma BodyLineReads(st: State, line: string)
    requires BodyLine(line)
    ensures ReadLine(st, line) == Ok(if IsHeader(line) then Turn(st, NamedPath(line[4..])) else st)
  {
  }

  lemma {:induction false} SkipInert(st: State, lines: seq<string>)
    requires forall i | 0 <= i < |lines| :: Inert(lines[i])
    ensures ReadLines(st, lines) == Ok(st)
    decreases |lines|
  {
    if lines != [] {
      SkipInert(st, lines[1..]);
    }
  }

  lemma ReadHunkLine(st: State, line: string, start: nat, count: nat)
    requires StartsWith(line, "@@ ") && ParseHunk(line) == Some((start, count))
    ensures ReadLine(st, line) ==
              if count == 0 then Ok(st)
              else if st.current.None? then Err(HunkBeforeFile)
              else Ok(st.(changed := AddLines(st.changed, st.current.value, Range(start, count))))
  {
    assert line[0] == '@';
  }

  lemma ReadHunkHeader(st: State, h: Hunk)
    ensures var count := CountOf(h.newCount);
            ReadLine(st, PrintHeader(h)) ==
              if count == 0 then Ok(st)
              else if st.current.None? then Err(HunkBeforeFile)
              else Ok(st.(changed := AddLines(st.changed, st.current.value, Range(h.newStart, count))))
  {
    ParsePrintedHeader(h);
    ReadHunkLine(st, PrintHeader(h), h.newStart, CountOf(h.newCount));
  }

  /** The current path is known. */
  predicate Known(st: State) {
    st.current.Some? ==> st.current.value in st.changed
  }

  /** What reading some lines should come to: success exactly when all pieces are attached, and then what they say. */
  ghost predicate ReadsAs(r: Outcome, st: State, pieces: seq<Piece>) {
    && (r.Ok? <==> AllAttached(pieces))
    && (r.Ok? ==> Says(r.state.changed, st.changed, pieces))
  }

  lemma ReadFirst(st: State, line: string, rest: seq<string>)
    ensures ReadLines(st, [line] + rest) ==
              var next := ReadLine(st, line); if next.Err? then next else ReadLines(next.state, rest)
  {
    assert ([line] + rest)[0] == line && ([line] + rest)[1..] == rest;
  }

  lemma ReadHidden(st: State, text: string, r: Outcome, pieces: seq<Piece>)
    requires Known(st) && pieces != [] && pieces[0].path == NamedPath(text)
    requires ReadsAs(r, Turn(st, NamedPath(text)), pieces)
    ensures ReadsAs(r, st, [Piece(st.current, [])] + pieces)
  {
    if r.Ok? {
      TurnSays(r.state.changed, st, NamedPath(text), pieces);
      EmptyPieceSays(r.state.changed, st.changed, st.current, pieces);
    } else {
      var all := [Piece(st.current, [])] + pieces;
      var p :| p in pieces && !Attached(p);
      assert p in all;
    }
  }

  lemma RangeSays(after: map<string, set<nat>>, st: State, h: Hunk, pieces: seq<Piece>)
    requires pieces != [] && pieces[0].path == st.current && st.current.Some? && Known(st)
    requires Says(after, AddLines(st.changed, st.current.value, Range(h.newStart, CountOf(h.newCount))), pieces)
    ensures Says(after, st.changed, AddHunk(h, pieces))
  {
    AddHunkSays(h, pieces);
    var path, range := st.current.value, Range(h.newStart, CountOf(h.newCount));
    forall line ensures line in range <==> InHunk(h, line) {
    }
    var mid := AddLines(st.changed, path, range);
    assert mid.Keys == st.changed.Keys;
  }

  lemma ReadAttachedHunk(st: State, h: Hunk, r: Outcome, pieces: seq<Piece>)
    requires Known(st) && pieces != [] && pieces[0].path == st.current
    requires ReadLine(st, PrintHeader(h)).Ok? && ReadsAs(r, ReadLine(st, PrintHeader(h)).state, pieces)
    ensures ReadsAs(r, st, AddHunk(h, pieces))
  {
    ReadHunkHeader(st, h);
    AddHunkSays(h, pieces);
    if r.Ok? && CountOf(h.newCount) > 0 {
      RangeSays(r.state.changed, st, h, pieces);
    }
  }

  lemma CutHunk(path: Option<string>, hunks: seq<Hunk>)
    requires hunks != []
    ensures Cut(path, [], hunks) == AddHunk(hunks[0], Cut(path, hunks[0].body, hunks[1..]))
  {
  }

  lemma CutLine(path: Option<string>, line: string, rest: seq<string>, hunks: seq<Hunk>)
    ensures Cut(path, [line] + rest, hunks) ==
              if IsHeader(line) then [Piece(path, [])] + Cut(NamedPath(line[4..]), rest, hunks)
              else Cut(path, rest, hunks)
  {
    assert ([line] + rest)[0] == line && ([line] + rest)[1..] == rest;
  }

  lemma FirstLine(line: string, rest: seq<string>, more: seq<string>)
    ensures [line] + rest + more == [line] + (rest + more)
  {
  }

  /** One body line, given what the lines behind it come to. */
  lemma ReadCutLine(st: State, line: string, rest: seq<string>, hunks: seq<Hunk>)
    requires Known(st) && BodyLine(line)
    requires var next := if IsHeader(line) then Turn(st, NamedPath(line[4..])) else st;
             ReadsAs(ReadLines(next, rest + PrintHunks(hunks)), next, Cut(next.current, rest, hunks))
    ensures ReadsAs(ReadLines(st, [line] + rest + PrintHunks(hunks)), st, Cut(st.current, [line] + rest, hunks))
  {
    var lines := rest + PrintHunks(hunks);
    FirstLine(line, rest, PrintHunks(hunks));
    CutLine(st.current, line, rest, hunks);
    ReadFirst(st, line, lines);
    BodyLineReads(st, line);
    if IsHeader(line) {
      var next := Turn(st, NamedPath(line[4..]));
      ReadHidden(st, line[4..], ReadLines(next, lines), Cut(next.current, rest, hunks));
    }
  }

  /** One hunk, given what its body and the hunks behind it come to, if it can be read at all. */
  lemma ReadCutHunk(st: State, h: Hunk, rest: seq<Hunk>)
    requires Known(st)
    requires var next := ReadLine(st, PrintHeader(h));
             next.Ok? ==>
               ReadsAs(ReadLines(next.state, h.body + PrintHunks(rest)), next.state, Cut(st.current, h.body, rest))
    ensures ReadsAs(ReadLines(st, PrintHunks([h] + rest)), st, Cut(st.current, [], [h] + rest))
  {
    var lines := h.body + PrintHunks(rest);
    assert ([h] + rest)[0] == h && ([h] + rest)[1..] == rest;
    assert PrintHunks([h] + rest) == [PrintHeader(h)] + lines;
    ReadFirst(st, PrintHeader(h), lines);
    ReadHunkHeader(st, h);
    CutHunk(st.current, [h] + rest);
    var next := ReadLine(st, PrintHeader(h));
    if next.Ok? {
      ReadAttachedHunk(st, h, ReadLines(next.state, lines), Cut(st.current, h.body, rest));
    } else {
      AddHunkSays(h, Cut(st.current, h.body, rest));
    }
  }

  lemma {:induction false} ReadCut(st: State, body: seq<string>, hunks: seq<Hunk>)
    requires Known(st) && Body(body) && Bodies(hunks)
    ensures ReadsAs(ReadLines(st, body + PrintHunks(hunks)), st, Cut(st.current, body, hunks))
    decreases |hunks|, |body|
  {
    if body != [] {
      var line, rest := body[0], body[1..];
      var next := if IsHeader(line) then Turn(st, NamedPath(line[4..])) else st;
      assert body == [line] + rest;
      ReadCut(next, rest, hunks);
      ReadCutLine(st, line, rest, hunks);
    } else if hunks == [] {
      assert body + PrintHunks(hunks) == [];
      EmptySays(st);
    } else {
      var h, rest := hunks[0], hunks[1..];
      assert hunks == [h] + rest && body + PrintHunks(hunks) == PrintHunks(hunks);
      ReadHunkHeader(st, h);
      var next := ReadLine(st, PrintHeader(h));
      if next.Ok? {
        ReadCut(next.state, h.body, rest);
      }
      ReadCutHunk(st, h, rest);
    }
  }

  lemma EmptySays(st: State)
    requires Known(st)
    ensures Says(st.changed, st.changed, [Piece(st.current, [])]) && AllAttached([Piece(st.current, [])])
  {
    assert Says(st.changed, st.changed, []);
    EmptyPieceSays(st.changed, st.changed, st.current, []);
    assert [Piece(st.current, [])] + [] == [Piece(st.current, [])];
  }

  lemma ReadTargetLines(st: State, t: Target)
    requires st.current == None && (t.Path? ==> NormalizePath(t.path) == t.path)
    ensures ReadLines(st, PrintTarget(t)) == Ok(Turn(st, PathOf(t)))
  {
    match t {
      case NoTarget =>
      case Deleted =>
        StripFixed("/dev/null");
        ReadHeader(st, "/dev/null");
        ReadFirst(st, "+++ " + "/dev/null", []);
      case Path(path) =>
        TargetNamesPath(path);
        ReadHeader(st, "b/" + path);
        ReadFirst(st, "+++ " + ("b/" + path), []);
    }
  }

  lemma ReadTitle(st: State, title: string, rest: seq<string>)
    ensures ReadLines(st, ["diff --git " + title] + rest) == ReadLines(st.(current := None), rest)
  {
    assert StartsWith("diff --git " + title, "diff --git ");
    ReadFirst(st, "diff --git " + title, rest);
  }

  lemma ReadSectionHead(st: State, s: Section)
    requires WellFormed(s)
    ensures ReadLines(st, PrintSection(s)) == ReadLines(Turn(st, PathOf(s.target)), PrintHunks(s.hunks))
  {
    var clean := st.(current := None);
    var hunks := PrintHunks(s.hunks);
    ReadTitle(st, s.title, s.header + (PrintTarget(s.target) + hunks));
    SkipInert(clean, s.header);
    ReadLinesAppend(clean, s.header, PrintTarget(s.target) + hunks);
    ReadTargetLines(clean, s.target);
    ReadLinesAppend(clean, PrintTarget(s.target), hunks);
  }

  lemma ReadSection(st: State, s: Section)
    requires WellFormed(s)
    ensures ReadsAs(ReadLines(st, PrintSection(s)), st, Pieces(s))
  {
    var head := Turn(st, PathOf(s.target));
    ReadSectionHead(st, s);
    ReadCut(head, [], s.hunks);
    assert [] + PrintHunks(s.hunks) == PrintHunks(s.hunks);
    var r := ReadLines(st, PrintSection(s));
    if r.Ok? {
      TurnSays(r.state.changed, st, PathOf(s.target), Pieces(s));
    }
  }

  lemma AttachedConcat(a: seq<Piece>, b: seq<Piece>)
    ensures AllAttached(a + b) <==> AllAttached(a) && AllAttached(b)
  {
    if AllAttached(a + b) {
      forall p | p in a ensures Attached(p) { assert p in a + b; }
      forall p | p in b ensures Attached(p) { assert p in a + b; }
    }
  }

  lemma {:induction false} ReadPrinted(st: State, sections: seq<Section>)
    requires AllWellFormed(sections)
    ensures ReadsAs(ReadLines(st, Print(sections)), st, AllPieces(sections))
    decreases |sections|
  {
    if sections != [] {
      var s, rest := sections[0], sections[1..];
      ReadLinesAppend(st, PrintSection(s), Print(rest));
      ReadSection(st, s);
      AttachedConcat(Pieces(s), AllPieces(rest));
      var mid := ReadLines(st, PrintSection(s));
      if mid.Ok? {
        ReadPrinted(mid.state, rest);
        var r := ReadLines(mid.state, Print(rest));
        if r.Ok? {
          SaysCompose(r.state.changed, mid.state.changed, st.changed, Pieces(s), AllPieces(rest));
        }
      }
    }
  }

  // ---------------------------------------------------------------- main results

  /** The dictionary knows exactly the paths of the pieces, each with exactly its lines. */
  ghost predicate Means(changed: map<string, set<nat>>, pieces: seq<Piece>) {
    && (forall path :: path in changed <==> Touches(pieces, path))
    && (forall path, line | path in changed :: line in changed[path] <==> Changes(pieces, path, line))
  }

  /**
   * What the parser makes of any printed diff. It succeeds exactly when no piece without a path adds lines,
   * and it then knows exactly the paths and lines of the pieces.
   */
  lemma ParseReadsPieces(sections: seq<Section>)
    requires AllWellFormed(sections)
    ensures ReadLines(Fresh, Print(sections)).Ok? <==> AllAttached(AllPieces(sections))
    ensures ReadLines(Fresh, Print(sections)).Ok? ==>
              Means(ReadLines(Fresh, Print(sections)).state.changed, AllPieces(sections))
  {
    ReadPrinted(Fresh, sections);
  }

  ghost predicate SameMeaning(a: seq<Piece>, b: seq<Piece>) {
    && (forall path :: Touches(a, path) <==> Touches(b, path))
    && (forall path, line :: Changes(a, path, line) <==> Changes(b, path, line))
  }

  /** The diff is read as what its sections say. */
  ghost predicate ReadAsSaid(sections: seq<Section>) {
    var r := ReadLines(Fresh, Print(sections));
    r.Ok? && Means(r.state.changed, Wholes(sections))
  }

  lemma ChangesTouches(pieces: seq<Piece>, path: string, line: nat)
    requires Changes(pieces, path, line)
    ensures Touches(pieces, path)
  {
  }

  lemma MeansDetermines(changed: map<string, set<nat>>, a: seq<Piece>, b: seq<Piece>)
    requires Means(changed, a)
    ensures Means(changed, b) <==> SameMeaning(a, b)
  {
    if Means(changed, b) {
      forall path, line ensures Changes(a, path, line) <==> Changes(b, path, line) {
        if Changes(a, path, line) {
          ChangesTouches(a, path, line);
        }
        if Changes(b, path, line) {
          ChangesTouches(b, path, line);
        }
      }
    }
  }

  /**
   * Print, then parse. A diff is read as what its sections say if and only if no piece without a path adds
   * lines and the pieces touch the same paths and change the same lines as the sections.
   */
  lemma ParseInvertsPrint(sections: seq<Section>)
    requires AllWellFormed(sections)
    ensures ReadAsSaid(sections) <==>
              AllAttached(AllPieces(sections)) && SameMeaning(AllPieces(sections), Wholes(sections))
  {
    ParseReadsPieces(sections);
    var r := ReadLines(Fresh, Print(sections));
    if r.Ok? {
      MeansDetermines(r.state.changed, AllPieces(sections), Wholes(sections));
    }
  }

  /** Every body line that reads as a file header names the section's own path. */
  predicate OwnHeaders(path: Option<string>, body: seq<string>) {
    forall i | 0 <= i < |body| && IsHeader(body[i]) :: NamedPath(body[i][4..]) == path
  }

  predicate OnlyOwnHeaders(s: Section) {
    forall h | h in s.hunks :: OwnHeaders(PathOf(s.target), h.body)
  }

  /** The pieces together say what one piece with all the hunks would. */
  ghost predicate LikeOne(pieces: seq<Piece>, path: Option<string>, hunks: seq<Hunk>) {
    && (AllAttached(pieces) <==> Attached(Piece(path, hunks)))
    && (forall p :: Touches(pieces, p) <==> path == Some(p))
    && (forall p, line :: Changes(pieces, p, line) <==> path == Some(p) && InHunks(hunks, line))
  }

  lemma LikeOneEmpty(path: Option<string>)
    ensures LikeOne([Piece(path, [])], path, [])
  {
    var one := Piece(path, []);
    assert one in [one];
  }

  lemma LikeOneCons(pieces: seq<Piece>, path: Option<string>, hunks: seq<Hunk>)
    requires LikeOne(pieces, path, hunks)
    ensures LikeOne([Piece(path, [])] + pieces, path, hunks)
  {
    var one := Piece(path, []);
    AttachedConcat([one], pieces);
    assert one in [one];
    forall p ensures Touches([one] + pieces, p) <==> path == Some(p) {
      TouchesConcat([one], pieces, p);
    }
    forall p, line ensures Changes([one] + pieces, p, line) <==> Changes(pieces, p, line) {
      ChangesConcat([one], pieces, p, line);
    }
  }

  lemma LikeOneAdd(h: Hunk, pieces: seq<Piece>, path: Option<string>, hunks: seq<Hunk>)
    requires pieces != [] && pieces[0].path == path && LikeOne(pieces, path, hunks)
    ensures LikeOne(AddHunk(h, pieces), path, [h] + hunks)
  {
    AddHunkSays(h, pieces);
    assert h in [h] + hunks;
    assert Attached(Piece(path, [h] + hunks)) <==>
             Attached(Piece(path, hunks)) && (path.Some? || CountOf(h.newCount) == 0);
    forall line ensures InHunks([h] + hunks, line) <==> InHunk(h, line) || InHunks(hunks, line) {
      InHunksCons(h, hunks, line);
    }
  }

  lemma {:induction false} OwnCut(path: Option<string>, body: seq<string>, hunks: seq<Hunk>)
    requires OwnHeaders(path, body) && forall h | h in hunks :: OwnHeaders(path, h.body)
    ensures LikeOne(Cut(path, body, hunks), path, hunks)
    decreases |hunks|, |body|
  {
    if body != [] {
      assert forall i | 0 <= i < |body[1..]| :: body[1..][i] == body[i + 1];
      OwnCut(path, body[1..], hunks);
      if IsHeader(body[0]) {
        LikeOneCons(Cut(path, body[1..], hunks), path, hunks);
      }
    } else if hunks == [] {
      LikeOneEmpty(path);
    } else {
      OwnCut(path, hunks[0].body, hunks[1..]);
      LikeOneAdd(hunks[0], Cut(path, hunks[0].body, hunks[1..]), path, hunks[1..]);
      assert hunks == [hunks[0]] + hunks[1..];
    }
  }

  lemma {:induction false} OwnPieces(sections: seq<Section>)
    requires forall s | s in sections :: OnlyOwnHeaders(s)
    ensures AllAttached(AllPieces(sections)) <==> AllAttached(Wholes(sections))
    ensures SameMeaning(AllPieces(sections), Wholes(sections))
    decreases |sections|
  {
    if sections != [] {
      var s, rest := sections[0], sections[1..];
      assert s in sections && OnlyOwnHeaders(s);
      OwnCut(PathOf(s.target), [], s.hunks);
      OwnPieces(rest);
      AttachedConcat(Pieces(s), AllPieces(rest));
      AttachedConcat([Whole(s)], Wholes(rest));
      assert Whole(s) in [Whole(s)];
      forall path ensures Touches(AllPieces(sections), path) <==> Touches(Wholes(sections), path) {
        TouchesConcat(Pieces(s), AllPieces(rest), path);
        TouchesConcat([Whole(s)], Wholes(rest), path);
      }
      forall path, line ensures Changes(AllPieces(sections), path, line) <==> Changes(Wholes(sections), path, line) {
        ChangesConcat(Pieces(s), AllPieces(rest), path, line);
        ChangesConcat([Whole(s)], Wholes(rest), path, line);
      }
    }
  }

  /**
   * While no body line reads as the header of another file, the parser succeeds exactly when no hunk adds
   * lines to a deleted file, and it then returns what the sections say.
   */
  lemma PlainParseInvertsPrint(sections: seq<Section>)
    requires AllWellFormed(sections) && forall s | s in sections :: OnlyOwnHeaders(s)
    ensures ReadLines(Fresh, Print(sections)).Ok? <==> AllAttached(Wholes(sections))
    ensures ReadAsSaid(sections) <==> AllAttached(Wholes(sections))
  {
    ParseReadsPieces(sections);
    ParseInvertsPrint(sections);
    OwnPieces(sections);
  }

  // ---------------------------------------------------------------- one stray header

  lemma {:induction false} CutPlain(path: Option<string>, body: seq<string>, text: string, hunks: seq<Hunk>)
    requires forall i | 0 <= i < |body| :: !IsHeader(body[i])
    ensures Cut(path, body, hunks) == Cut(path, [], hunks)
    ensures Cut(path, body + ["+++ " + text], hunks) == [Piece(path, [])] + Cut(NamedPath(text), [], hunks)
    decreases |body|
  {
    ReadHeader(Fresh, text);
    var line := "+++ " + text;
    if body == [] {
      assert body + [line] == [line] && [line][1..] == [];
    } else {
      assert forall i | 0 <= i < |body[1..]| :: body[1..][i] == body[i + 1];
      assert (body + [line])[0] == body[0] && (body + [line])[1..] == body[1..] + [line];
      CutPlain(path, body[1..], text, hunks);
    }
  }

  lemma CutOne(path: Option<string>, h: Hunk)
    requires forall i | 0 <= i < |h.body| :: !IsHeader(h.body[i])
    ensures Cut(path, [], [h]) == [Piece(path, [h])]
  {
    CutPlain(path, h.body, "", []);
    assert [h][1..] == [];
    CutHunk(path, [h]);
    assert [h] + [] == [h];
  }

  /** A file whose first hunk ends in an added line with the text "++ " and more, and whose second hunk is plain. */
  predicate Stray(s: Section, own: string, body: seq<string>, text: string) {
    && s.target == Path(own) && |s.hunks| == 2
    && s.hunks[0].body == body + ["+++ " + text]
    && (forall i | 0 <= i < |body| :: !IsHeader(body[i]))
    && (forall i | 0 <= i < |s.hunks[1].body| :: !IsHeader(s.hunks[1].body[i]))
  }

  lemma StrayPieces(s: Section, own: string, body: seq<string>, text: string)
    requires Stray(s, own, body, text)
    ensures Pieces(s) == [Piece(Some(own), [s.hunks[0]]), Piece(NamedPath(text), [s.hunks[1]])]
  {
    var first, second := s.hunks[0], s.hunks[1];
    assert s.hunks[1..] == [second];
    CutHunk(Some(own), s.hunks);
    CutPlain(Some(own), body, text, [second]);
    CutOne(NamedPath(text), second);
    assert [first] + [] == [first];
  }

  /**
   * Such a line is taken for a file header and captures the next hunk. The file is still read as it should be
   * if and only if the line names the file itself, or no file and the next hunk adds nothing.
   */
  lemma AddedLineTakenForHeader(s: Section, own: string, body: seq<string>, text: string)
    requires WellFormed(s) && Stray(s, own, body, text)
    ensures ReadAsSaid([s]) <==>
              NamedPath(text) == Some(own) || (NamedPath(text) == None && CountOf(s.hunks[1].newCount) == 0)
    ensures NamedPath(text).Some? && NamedPath(text) != Some(own) ==>
              var r, other := ReadLines(Fresh, Print([s])), NamedPath(text).value;
              && r.Ok? && r.state.changed.Keys == {own, other}
              && (forall line :: line in r.state.changed[own] <==> InHunk(s.hunks[0], line))
              && (forall line :: line in r.state.changed[other] <==> InHunk(s.hunks[1], line))
  {
    var named, first, second := NamedPath(text), s.hunks[0], s.hunks[1];
    StrayPieces(s, own, body, text);
    assert s.hunks == [first, second];
    assert [s][1..] == [] && AllPieces([s]) == Pieces(s) + [] == Pieces(s);
    assert Wholes([s]) == [Whole(s)] + [] == [Whole(s)];
    ParseReadsPieces([s]);
    ParseInvertsPrint([s]);
    StrayMeaning(own, first, second, named);
    StrayComparison(own, first, second, named);
  }

  lemma StrayComparison(own: string, first: Hunk, second: Hunk, named: Option<string>)
    ensures var a, b := Piece(Some(own), [first]), Piece(named, [second]);
            AllAttached([a, b]) && SameMeaning([a, b], [Piece(Some(own), [first, second])]) <==>
              named == Some(own) || (named == None && CountOf(second.newCount) == 0)
  {
    var a, b, whole := Piece(Some(own), [first]), Piece(named, [second]), Piece(Some(own), [first, second]);
    StrayMeaning(own, first, second, named);
    if named.Some? && named != Some(own) {
      assert Touches([a, b], named.value) && !Touches([whole], named.value);
    }
    if named == None && CountOf(second.newCount) == 0 {
      assert forall line :: !InHunk(second, line);
    }
  }

  lemma StrayMeaning(own: string, first: Hunk, second: Hunk, named: Option<string>)
    ensures var a, b := Piece(Some(own), [first]), Piece(named, [second]);
            && (forall path :: Touches([a, b], path) <==> path == own || named == Some(path))
            && (forall path, line :: Changes([a, b], path, line) <==>
                  (path == own && InHunk(first, line)) || (named == Some(path) && InHunk(second, line)))
            && (AllAttached([a, b]) <==> named.Some? || CountOf(second.newCount) == 0)
    ensures var whole := Piece(Some(own), [first, second]);
            && (forall path :: Touches([whole], path) <==> path == own)
            && (forall path, line :: Changes([whole], path, line) <==>
                  path == own && (InHunk(first, line) || InHunk(second, line)))
  {
    var a, b, whole := Piece(Some(own), [first]), Piece(named, [second]), Piece(Some(own), [first, second]);
    assert a in [a, b] && b in [a, b] && whole in [whole];
    assert first in [first] && second in [second] && first in [first, second] && second in [first, second];
  }

  lemma OneLetterNames(c: char)
    requires IsLetter(c)
    ensures NormalizePath([c]) == [c] && NamedPath([c]) == Some([c])
  {
    assert Replace([c], '\\', '/') == [c];
    StripFixed([c]);
  }

  /** A file y that adds the line "++ x" on line 1 and a line 5: the second is reported for a file x. */
  lemma StrayHappens() returns (s: Section)
    ensures WellFormed(s) && s.target == Path("y") && !ReadAsSaid([s])
    ensures var r := ReadLines(Fresh, Print([s])); r.Ok? && "x" in r.state.changed && 5 in r.state.changed["x"]
  {
    var first := Hunk(0, Given(0), 1, Omitted, "", ["+++ " + "x"]);
    var second := Hunk(0, Given(0), 5, Omitted, "", []);
    s := Section("", [], Path("y"), [first, second]);
    OneLetterNames('x');
    OneLetterNames('y');
    assert ("+++ " + "x")[0] == '+';
    assert WellFormed(s);
    assert Stray(s, "y", [], "x");
    AddedLineTakenForHeader(s, "y", [], "x");
    assert InHunk(second, 5);
  }

  // ---------------------------------------------------------------- which lines are hunk headers

  /** A range as it is written: numbers may have leading zeros, a count may be left out. */
  datatype Span = Span(start: string, count: Option<string>)

  predicate Number(s: string) {
    s != "" && AllChars(s, IsDigit)
  }

  predicate PlainSpan(a: Span) {
    Number(a.start) && (a.count.Some? ==> Number(a.count.value))
  }

  function PrintSpan(a: Span): string {
    a.start + if a.count.None? then "" else "," + a.count.value
  }

  function Length(a: Span): nat
    requires PlainSpan(a)
  {
    if a.count.None? then 1 else Value(a.count.value)
  }

  function HeaderText(a: Span, b: Span, heading: string): string {
    "@@ -" + (PrintSpan(a) + (" +" + (PrintSpan(b) + (" @@" + heading))))
  }

  lemma ReadNumber(digits: string, rest: string)
    requires Number(digits) && (rest == "" || !IsDigit(rest[0]))
    ensures TakeNumber(digits + rest) == Some((Value(digits), rest))
  {
    DigitRunOf(digits, rest);
    assert (digits + rest)[..|digits|] == digits;
  }

  lemma ReadSpan(a: Span, rest: string)
    requires PlainSpan(a) && StartsWith(rest, " ")
    ensures TakeRange(PrintSpan(a) + rest) == Some(((Value(a.start), Length(a)), rest))
  {
    if a.count.None? {
      assert PrintSpan(a) + rest == a.start + rest;
      ReadNumber(a.start, rest);
    } else {
      var tail := "," + (a.count.value + rest);
      assert PrintSpan(a) + rest == a.start + tail;
      ReadNumber(a.start, tail);
      assert tail[1..] == a.count.value + rest;
      ReadNumber(a.count.value, rest);
    }
  }

  lemma FindNumber(s: string) returns (digits: string)
    requires TakeNumber(s).Some?
    ensures Number(digits) && TakeNumber(s).value.0 == Value(digits) && s == digits + TakeNumber(s).value.1
  {
    digits := s[..DigitRun(s)];
  }

  lemma FindSpan(s: string) returns (a: Span)
    requires TakeRange(s).Some?
    ensures PlainSpan(a) && TakeRange(s).value.0 == (Value(a.start), Length(a))
    ensures s == PrintSpan(a) + TakeRange(s).value.1
  {
    var start := FindNumber(s);
    var tail := TakeNumber(s).value.1;
    if StartsWith(tail, ",") && TakeNumber(tail[1..]).Some? {
      var count := FindNumber(tail[1..]);
      a := Span(start, Some(count));
      assert tail == "," + tail[1..];
    } else {
      a := Span(start, None);
    }
  }

  lemma HeaderIsRead(a: Span, b: Span, heading: string)
    requires PlainSpan(a) && PlainSpan(b)
    ensures ParseHunk(HeaderText(a, b, heading)) == Some((Value(b.start), Length(b)))
  {
    var line := HeaderText(a, b, heading);
    var side := PrintSpan(b) + (" @@" + heading);
    assert line[4..] == PrintSpan(a) + (" +" + side);
    assert StartsWith(" +" + side, " ") && StartsWith(" @@" + heading, " ");
    ReadSpan(a, " +" + side);
    assert (" +" + side)[2..] == side;
    ReadSpan(b, " @@" + heading);
  }

  lemma CutPrefix(s: string, prefix: string)
    requires StartsWith(s, prefix)
    ensures s == prefix + s[|prefix|..]
  {
  }

  lemma FindNewSide(text: string) returns (b: Span, heading: string)
    requires TakeRange(text).Some? && StartsWith(TakeRange(text).value.1, " @@")
    ensures PlainSpan(b) && text == PrintSpan(b) + (" @@" + heading)
    ensures TakeRange(text).value.0 == (Value(b.start), Length(b))
  {
    b := FindSpan(text);
    heading := TakeRange(text).value.1[3..];
    CutPrefix(TakeRange(text).value.1, " @@");
  }

  lemma FindHeader(line: string) returns (a: Span, b: Span, heading: string)
    requires ParseHunk(line).Some?
    ensures PlainSpan(a) && PlainSpan(b) && line == HeaderText(a, b, heading)
    ensures ParseHunk(line).value == (Value(b.start), Length(b))
  {
    a := FindSpan(line[4..]);
    var tail := TakeRange(line[4..]).value.1;
    b, heading := FindNewSide(tail[2..]);
    CutPrefix(line, "@@ -");
    CutPrefix(tail, " +");
  }

  /** A line is read as a hunk of these new-side lines if and only if it is written as one, whatever the old side. */
  lemma HunkIsHeader(line: string, start: nat, count: nat)
    ensures ParseHunk(line) == Some((start, count)) <==>
              exists a, b, heading ::
                && PlainSpan(a) && PlainSpan(b) && line == HeaderText(a, b, heading)
                && Value(b.start) == start && Length(b) == count
  {
    if ParseHunk(line) == Some((start, count)) {
      var a, b, heading := FindHeader(line);
    }
    forall a, b, heading | PlainSpan(a) && PlainSpan(b) && line == HeaderText(a, b, heading)
      ensures ParseHunk(line) == Some((Value(b.start), Length(b)))
    {
      HeaderIsRead(a, b, heading);
    }
  }

  // ---------------------------------------------------------------- which paths are normal

  lemma {:induction false} DropShrinks(s: string)
    ensures |DropDotSlash(s)| <= |s|
    ensures DropDotSlash(s) == s <==> !StartsWith(s, "./")
    ensures |DropDotSlash(s)| == |s| ==> DropDotSlash(s) == s
    ensures !StartsWith(DropDotSlash(s), "./")
  {
    if StartsWith(s, "./") {
      DropShrinks(s[2..]);
    }
  }

  lemma {:induction false} SlashShrinks(s: string)
    ensures |LStripSlash(s)| <= |s|
    ensures |LStripSlash(s)| == |s| ==> LStripSlash(s) == s
    ensures LStripSlash(s) == "" || LStripSlash(s)[0] != '/'
    ensures s == "" || s[0] != '/' ==> LStripSlash(s) == s
  {
    if s != "" && s[0] == '/' {
      SlashShrinks(s[1..]);
    }
  }

  lemma StripOfSameLength(s: string)
    requires |Strip(s)| == |s|
    ensures Strip(s) == s
  {
    LStripSuffix(s);
    RStripPrefix(LStrip(s));
  }

  /** The normal paths, which reading leaves as they are. */
  lemma NormalPaths(path: string)
    ensures NormalizePath(path) == path <==>
              Trimmed(path) && '\\' !in path && !StartsWith(path, "./") && !StartsWith(path, "/")
  {
    var slashed := Replace(path, '\\', '/');
    var stripped := Strip(slashed);
    StripTrims(slashed);
    DropShrinks(stripped);
    SlashShrinks(DropDotSlash(stripped));
    if NormalizePath(path) == path {
      StripOfSameLength(slashed);
      assert slashed == path;
      StripFixed(path);
      assert forall i | 0 <= i < |path| :: path[i] != '\\';
    }
    if Trimmed(path) && '\\' !in path && !StartsWith(path, "./") && !StartsWith(path, "/") {
      assert slashed == path;
      StripFixed(path);
      assert path == "" || path[0] != '/' by {
        assert path != "" ==> path[..1] == [path[0]];
      }
    }
  }
}
