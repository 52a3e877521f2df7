/** What the lock's reader accepts, in terms of words, parts and lines instead of its own steps. */
module LockMeaning {
  import opened Text
  import opened Sequences
  import opened LockVersion
  import opened ContainerLock
  import opened LockRoundTrip

  // ---------------------------------------------------------------- continuation lines

  predicate IsContinued(raw: string) {
    var s := Strip(raw);
    !Blank(s) && s[|s| - 1] == '\\'
  }

  /** Every continued line has a next line, and that one is neither blank nor a comment. */
  predicate Continues(raw: seq<string>) {
    forall i | 0 <= i < |raw| && IsContinued(raw[i]) :: i + 1 < |raw| && !Blank(Strip(raw[i + 1]))
  }

  lemma {:induction false} ErrorsOnlyGrow(l: Lines, raw: seq<string>)
    ensures l.errors <= AddLines(l, raw).errors
    decreases |raw|
  {
    if raw != [] {
      ErrorsOnlyGrow(AddLine(l, raw[0]), raw[1..]);
    }
  }

  lemma ContinuesTail(raw: seq<string>)
    requires raw != []
    ensures Continues(raw) <==>
              Continues(raw[1..]) && (IsContinued(raw[0]) ==> |raw| > 1 && !Blank(Strip(raw[1])))
  {
    var rest := raw[1..];
    if Continues(raw) {
      forall i | 0 <= i < |rest| && IsContinued(rest[i]) ensures i + 1 < |rest| && !Blank(Strip(rest[i + 1])) {
        assert raw[i + 1] == rest[i];
      }
    }
    if Continues(rest) && (IsContinued(raw[0]) ==> |raw| > 1 && !Blank(Strip(raw[1]))) {
      forall i | 0 <= i < |raw| && IsContinued(raw[i]) ensures i + 1 < |raw| && !Blank(Strip(raw[i + 1])) {
        if i > 0 {
          assert rest[i - 1] == raw[i];
        }
      }
    }
  }

  lemma {:induction false} LinesErrorFree(l: Lines, raw: seq<string>)
    ensures EndLines(AddLines(l, raw)).1 == [] <==>
              l.errors == [] && Continues(raw) && (l.current != [] ==> raw != [] && !Blank(Strip(raw[0])))
    decreases |raw|
  {
    if raw != [] {
      ContinuesTail(raw);
      LinesErrorFree(AddLine(l, raw[0]), raw[1..]);
    }
  }

  /** The logical lines come without errors if and only if every continuation is continued. */
  lemma ContinuationsDecide(raw: seq<string>)
    ensures LogicalLines(raw).1 == [] <==> Continues(raw)
  {
    LinesErrorFree(Lines([], [], []), raw);
  }

  // ---------------------------------------------------------------- words and hashes

  predicate NotSpace(c: char) { !IsSpace(c) }

  /** `s.split()` */
  function Words(s: string): seq<string>
    decreases |s|
  {
    if s == "" then []
    else if IsSpace(s[0]) then Words(s[1..])
    else
      var n := Run(s, NotSpace);
      if n == 0 then [] else [s[..n]] + Words(s[n..])
  }

  /** An option with some hash. */
  predicate IsHashWord(w: string) {
    StartsWith(w, HASH) && |w| > |HASH|
  }

  predicate IsSha256Word(w: string) {
    StartsWith(w, SHA256) && IsDigest(w[|SHA256|..])
  }

  function Sha256Words(words: seq<string>): seq<string> {
    if words == [] then []
    else (if IsSha256Word(words[0]) then [words[0][|SHA256|..]] else []) + Sha256Words(words[1..])
  }

  function HashWords(words: seq<string>): nat {
    if words == [] then 0 else (if IsHashWord(words[0]) then 1 else 0) + HashWords(words[1..])
  }

  function OtherWords(words: seq<string>): seq<string> {
    if words == [] then []
    else (if IsSha256Word(words[0]) then [] else [words[0]]) + OtherWords(words[1..])
  }

  /** The first word of a text that starts with one. */
  lemma FirstWord(s: string)
    requires s != "" && !IsSpace(s[0])
    ensures var n := Run(s, NotSpace);
            0 < n && Words(s) == [s[..n]] + Words(s[n..]) && StartsBlank(s[n..]) && AllChars(s[..n], NotSpace)
  {
    RunChars(s, NotSpace);
  }

  lemma DigestHasNoSpace(d: string)
    requires IsDigest(d)
    ensures AllChars(d, NotSpace)
  {
    forall i | 0 <= i < |d| ensures NotSpace(d[i]) {
      assert IsHex(d[i]);
    }
  }

  lemma Sha256HasNoSpace()
    ensures AllChars(SHA256, NotSpace) && |SHA256| == 14 && SHA256[..7] == HASH && AllChars(HASH, NotSpace)
  {
  }

  lemma {:induction false} RunIs(s: string, n: nat)
    requires n <= |s| && AllChars(s[..n], NotSpace) && StartsBlank(s[n..])
    ensures Run(s, NotSpace) == n
  {
    RunOf(s[..n], s[n..], NotSpace);
    assert s[..n] + s[n..] == s;
  }

  lemma TokenIsWord(s: string)
    requires HashAt(s)
    ensures Run(s, NotSpace) == 78 && IsSha256Word(s[..78]) && s[..78][14..] == s[14..78]
  {
    Sha256HasNoSpace();
    DigestHasNoSpace(s[14..78]);
    assert s[..14] == SHA256;
    assert s[..78] == SHA256 + s[14..78];
    RunIs(s, 78);
  }

  lemma WordIsToken(s: string)
    requires IsSha256Word(s[..Run(s, NotSpace)])
    ensures HashAt(s)
  {
    var n := Run(s, NotSpace);
    RunChars(s, NotSpace);
    Sha256HasNoSpace();
    assert s[..n][14..] == s[14..n];
    assert SHA256 <= s[..n] <= s;
  }

  /** A SHA-256 token starts here exactly if the first word is one. */
  lemma HashAtIsWord(s: string)
    requires s != "" && !IsSpace(s[0])
    ensures HashAt(s) <==> IsSha256Word(s[..Run(s, NotSpace)])
    ensures HashAt(s) ==> Run(s, NotSpace) == 78 && s[..78][14..] == s[14..78]
  {
    if HashAt(s) {
      TokenIsWord(s);
    }
    if IsSha256Word(s[..Run(s, NotSpace)]) {
      WordIsToken(s);
    }
  }

  lemma AnyHashAtIsWord(s: string)
    requires s != "" && !IsSpace(s[0])
    ensures AnyHashAt(s) <==> IsHashWord(s[..Run(s, NotSpace)])
    ensures AnyHashAt(s) ==> Run(s, NotSpace) >= 8
  {
    var n := Run(s, NotSpace);
    RunChars(s, NotSpace);
    Sha256HasNoSpace();
    if AnyHashAt(s) {
      forall i | 0 <= i < 8 ensures NotSpace(s[i]) {
        if i < 7 {
          assert s[i] == s[..7][i] == HASH[i];
        }
      }
      assert n >= 8;
      assert s[..n][..7] == s[..7];
    }
    if IsHashWord(s[..n]) {
      assert s[..n][..7] == s[..7] && s[..n][7] == s[7];
    }
  }

  lemma BlankIsNoToken(s: string)
    requires StartsBlank(s)
    ensures !HashAt(s) && !AnyHashAt(s)
  {
    assert !IsSpace(HASH[0]) && !IsSpace(SHA256[0]);
  }

  /** The readers, from a place where a word may start or, inside a word, from the end of that word on. */
  lemma {:induction false} ReadersInside(s: string)
    ensures var rest := s[Run(s, NotSpace)..];
            && Digests(s, false) == Digests(rest, false)
            && CountHashes(s, false) == CountHashes(rest, false)
            && WithoutHashes(s, false) == s[..Run(s, NotSpace)] + WithoutHashes(rest, false)
    decreases |s|
  {
    if s == "" || IsSpace(s[0]) {
      assert s[0..] == s;
    } else {
      ReadersInside(s[1..]);
      var n := Run(s[1..], NotSpace);
      assert s[1..][n..] == s[n + 1..];
      assert s[..n + 1] == [s[0]] + s[1..][..n];
    }
  }

  lemma WordThen(w: string, rest: string)
    requires w != "" && AllChars(w, NotSpace) && StartsBlank(rest)
    ensures Words(w + rest) == [w] + Words(rest)
  {
    RunOf(w, rest, NotSpace);
    assert (w + rest)[..|w|] == w && (w + rest)[|w|..] == rest;
  }

  /** A blank, a word, and what follows the word. */
  predicate BlankWord(s: string, w: string, rest: string) {
    && s != "" && IsSpace(s[0]) && w != "" && AllChars(w, NotSpace) && StartsBlank(rest)
    && s[1..] == w + rest && Run(s[1..], NotSpace) == |w|
  }

  lemma CutWord(s: string) returns (w: string, rest: string)
    requires s != "" && IsSpace(s[0]) && !StartsBlank(s[1..])
    ensures BlankWord(s, w, rest) && Words(s) == [w] + Words(rest) && |rest| < |s|
  {
    var n := Run(s[1..], NotSpace);
    FirstWord(s[1..]);
    w, rest := s[1..][..n], s[1..][n..];
  }

  lemma ReadersThroughWord(s: string, w: string, rest: string)
    requires BlankWord(s, w, rest)
    ensures Digests(s[1..], false) == Digests(rest, false)
    ensures CountHashes(s[1..], false) == CountHashes(rest, false)
    ensures WithoutHashes(s[1..], false) == w + WithoutHashes(rest, false)
  {
    ReadersInside(s[1..]);
    assert s[1..][|w|..] == rest && s[1..][..|w|] == w;
  }

  lemma HashAtWord(s: string, w: string, rest: string)
    requires BlankWord(s, w, rest)
    ensures HashAt(s[1..]) <==> IsSha256Word(w)
    ensures HashAt(s[1..]) ==> s[15..79] == w[14..] && s[79..] == rest
  {
    HashAtIsWord(s[1..]);
    assert s[1..][..|w|] == w;
    if HashAt(s[1..]) {
      assert s[1..][78..] == rest && s[79..] == s[1..][78..];
      assert s[15..79] == s[1..][14..78];
    }
  }

  lemma DigestsThroughWord(s: string, w: string, rest: string)
    requires BlankWord(s, w, rest)
    ensures Digests(s, false) == (if IsSha256Word(w) then [w[14..]] else []) + Digests(rest, false)
    ensures WithoutHashes(s, false) == (if IsSha256Word(w) then "" else [s[0]] + w) + WithoutHashes(rest, false)
  {
    HashAtWord(s, w, rest);
    ReadersThroughWord(s, w, rest);
    if IsSha256Word(w) {
      assert "" + WithoutHashes(rest, false) == WithoutHashes(rest, false);
    } else {
      assert Digests(s, false) == Digests(s[1..], false);
      assert [] + Digests(rest, false) == Digests(rest, false);
      Regrouped([s[0]], w, WithoutHashes(rest, false));
    }
  }

  lemma CountThroughWord(s: string, w: string, rest: string)
    requires BlankWord(s, w, rest)
    ensures CountHashes(s, false) == (if IsHashWord(w) then 1 else 0) + CountHashes(rest, false)
  {
    AnyHashAtIsWord(s[1..]);
    assert s[1..][..|w|] == w;
    ReadersThroughWord(s, w, rest);
    if IsHashWord(w) {
      var t := s[9..];
      assert t == w[8..] + rest;
      RunOf(w[8..], rest, NotSpace);
      ReadersInside(t);
      assert t[|w| - 8..] == rest;
    }
  }

  lemma BlankThen(c: char, s: string)
    requires IsSpace(c)
    ensures Words([c] + s) == Words(s) && StartsBlank([c] + s)
  {
    assert ([c] + s)[1..] == s;
  }

  lemma WithoutWord(c: char, w: string, without: string, words: seq<string>)
    requires IsSpace(c) && w != "" && AllChars(w, NotSpace) && StartsBlank(without)
    requires Words(without) == OtherWords(words)
    ensures var more := (if IsSha256Word(w) then "" else [c] + w) + without;
            Words(more) == OtherWords([w] + words) && StartsBlank(more)
  {
    OneWordMore(w, words);
    if IsSha256Word(w) {
      assert "" + without == without;
    } else {
      WordThen(w, without);
      BlankThen(c, w + without);
      assert [c] + w + without == [c] + (w + without);
    }
  }

  /** From a blank on, the readers go by words. */
  lemma {:induction false} ReadersByWord(s: string)
    requires StartsBlank(s)
    ensures Digests(s, false) == Sha256Words(Words(s))
    ensures CountHashes(s, false) == HashWords(Words(s))
    ensures Words(WithoutHashes(s, false)) == OtherWords(Words(s)) && StartsBlank(WithoutHashes(s, false))
    decreases |s|
  {
    if s == "" {
    } else if StartsBlank(s[1..]) {
      ReadersByWord(s[1..]);
      OneBlank(s);
    } else {
      var w, rest := CutWord(s);
      ReadersByWord(rest);
      DigestsThroughWord(s, w, rest);
      CountThroughWord(s, w, rest);
      OneWordMore(w, Words(rest));
      WithoutWord(s[0], w, WithoutHashes(rest, false), Words(rest));
    }
  }

  lemma OneBlank(s: string)
    requires s != "" && IsSpace(s[0]) && StartsBlank(s[1..])
    ensures Digests(s, false) == Digests(s[1..], false) && CountHashes(s, false) == CountHashes(s[1..], false)
    ensures Words(s) == Words(s[1..])
    ensures Words(WithoutHashes(s, false)) == Words(WithoutHashes(s[1..], false))
    ensures StartsBlank(WithoutHashes(s, false))
  {
    BlankIsNoToken(s[1..]);
    BlankThen(s[0], WithoutHashes(s[1..], false));
  }

  lemma OneWordMore(w: string, words: seq<string>)
    ensures Sha256Words([w] + words) == (if IsSha256Word(w) then [w[14..]] else []) + Sha256Words(words)
    ensures HashWords([w] + words) == (if IsHashWord(w) then 1 else 0) + HashWords(words)
    ensures OtherWords([w] + words) == (if IsSha256Word(w) then [] else [w]) + OtherWords(words)
  {
    Sha256HasNoSpace();
    assert ([w] + words)[1..] == words;
  }

  lemma StartIsBlank(line: string)
    requires line != ""
    ensures Digests(line, true) == Digests(" " + line, false)
    ensures CountHashes(line, true) == CountHashes(" " + line, false)
    ensures Words(WithoutHashes(line, true)) == Words(WithoutHashes(" " + line, false))
    ensures Words(" " + line) == Words(line)
  {
    var s := " " + line;
    assert s[1..] == line;
    if HashAt(line) {
      assert s[15..79] == line[14..78] && s[79..] == line[78..];
    } else {
      assert WithoutHashes(line, true) == WithoutHashes(line, false);
      BlankThen(' ', WithoutHashes(line, false));
    }
    if AnyHashAt(line) {
      assert s[9..] == line[8..];
    }
  }

  /** On a whole line: the digests are those of the words that are SHA-256 tokens, and every hash word is counted. */
  lemma ReadersGoByWords(line: string)
    ensures Digests(line, true) == Sha256Words(Words(line))
    ensures CountHashes(line, true) == HashWords(Words(line))
    ensures Words(WithoutHashes(line, true)) == OtherWords(Words(line))
  {
    if line != "" {
      StartIsBlank(line);
      ReadersByWord(" " + line);
    }
  }

  // ---------------------------------------------------------------- entries

  predicate PlainEntry(e: Entry) {
    && e.name != "" && AsciiAlnum(e.name[0]) && AllChars(e.name, NameChar)
    && (e.extras.Some? ==> e.extras.value != "" && AllChars(e.extras.value, ExtraChar))
    && e.version != "" && AllChars(e.version, VersionText) && PlainMarker(e.marker)
  }

  function Bracketed(extras: Option<string>): string {
    if extras.None? then "" else "[" + extras.value + "]"
  }

  function PrintVersion(version: string, marker: Option<string>, a: string, b: string): string {
    "==" + (version + MarkerText(marker, a, b))
  }

  /** The entry with the white space `a` and `b` around the marker's semicolon. */
  function PrintEntry(e: Entry, a: string, b: string): string {
    e.name + (Bracketed(e.extras) + PrintVersion(e.version, e.marker, a, b))
  }

  lemma ReadPrintedEntry(e: Entry, a: string, b: string)
    requires PlainEntry(e) && Blanks(a) && Blanks(b)
    ensures ParseEntry(PrintEntry(e, a, b)) == Some(e)
  {
    var rest := PrintVersion(e.version, e.marker, a, b);
    ReadVersion(e.name, e.extras, e.version, e.marker, a, b);
    if e.extras.None? {
      PinnedStarts(e.version + MarkerText(e.marker, a, b));
      assert Bracketed(e.extras) + rest == rest;
      ReadBare(e.name, rest);
    } else {
      ReadBracketed(e.name, e.extras.value, rest);
    }
  }

  lemma {:induction false} FindBlanks(s: string) returns (blanks: string)
    ensures Blanks(blanks) && s == blanks + LStrip(s)
  {
    blanks := "";
    if s != "" && IsSpace(s[0]) {
      var more := FindBlanks(s[1..]);
      blanks := [s[0]] + more;
      Regrouped([s[0]], more, LStrip(s));
      assert s == [s[0]] + s[1..];
    }
  }

  lemma FindMarker(s: string) returns (marker: Option<string>, a: string, b: string)
    requires s == "" || (StartsWith(LStrip(s), ";") && LStrip(LStrip(s)[1..]) != "")
    ensures marker == if s == "" then None else Some(LStrip(LStrip(s)[1..]))
    ensures PlainMarker(marker) && Blanks(a) && Blanks(b) && s == MarkerText(marker, a, b)
  {
    if s == "" {
      return None, "", "";
    }
    var tail := LStrip(s);
    marker := Some(LStrip(tail[1..]));
    a := FindBlanks(s);
    b := FindBlanks(tail[1..]);
    LStripSuffix(tail[1..]);
    assert tail == ";" + tail[1..];
  }

  lemma FindVersion(name: string, extras: Option<string>, s: string) returns (a: string, b: string)
    requires ParseVersion(name, extras, s).Some?
    ensures var e := ParseVersion(name, extras, s).value;
            && e.name == name && e.extras == extras && e.version != "" && AllChars(e.version, VersionText)
            && PlainMarker(e.marker) && Blanks(a) && Blanks(b) && s == PrintVersion(e.version, e.marker, a, b)
  {
    var text := s[2..];
    var n := Run(text, VersionText);
    var marker;
    RunChars(text, VersionText);
    marker, a, b := FindMarker(text[n..]);
    Cut(s, "==");
    CutAt(text, n);
  }

  lemma Cut(s: string, prefix: string)
    requires StartsWith(s, prefix)
    ensures s == prefix + s[|prefix|..]
  {
  }

  lemma CutAt(s: string, n: nat)
    requires n <= |s|
    ensures s == s[..n] + s[n..]
  {
  }

  /** What stands in brackets at the start of a text. */
  lemma FindBracketed(rest: string, m: nat)
    requires StartsWith(rest, "[") && m == Run(rest[1..], ExtraChar) && m > 0 && StartsWith(rest[m + 1..], "]")
    ensures AllChars(rest[1..m + 1], ExtraChar)
    ensures rest == Bracketed(Some(rest[1..m + 1])) + rest[m + 2..]
  {
    RunChars(rest[1..], ExtraChar);
    assert rest[1..m + 1] == rest[1..][..m];
    assert rest[m + 1] == ']';
    assert rest == "[" + rest[1..m + 1] + "]" + rest[m + 2..];
  }

  lemma FindExtras(name: string, rest: string) returns (extras: Option<string>, a: string, b: string)
    requires StartsWith(rest, "[")
    requires var m := Run(rest[1..], ExtraChar);
             m > 0 && StartsWith(rest[m + 1..], "]") && ParseVersion(name, Some(rest[1..m + 1]), rest[m + 2..]).Some?
    ensures var m := Run(rest[1..], ExtraChar);
            var e := ParseVersion(name, Some(rest[1..m + 1]), rest[m + 2..]).value;
            && extras == Some(rest[1..m + 1]) && extras.value != "" && AllChars(extras.value, ExtraChar)
            && e.name == name && e.extras == extras && e.version != "" && AllChars(e.version, VersionText)
            && PlainMarker(e.marker) && Blanks(a) && Blanks(b)
            && rest == Bracketed(e.extras) + PrintVersion(e.version, e.marker, a, b)
  {
    var m := Run(rest[1..], ExtraChar);
    extras := Some(rest[1..m + 1]);
    FindBracketed(rest, m);
    a, b := FindVersion(name, extras, rest[m + 2..]);
  }

  lemma FindEntry(s: string) returns (a: string, b: string)
    requires ParseEntry(s).Some?
    ensures PlainEntry(ParseEntry(s).value) && Blanks(a) && Blanks(b) && s == PrintEntry(ParseEntry(s).value, a, b)
  {
    var n := Run(s, NameChar);
    var rest := s[n..];
    RunChars(s, NameChar);
    CutAt(s, n);
    if StartsWith(rest, "[") {
      var extras;
      extras, a, b := FindExtras(s[..n], rest);
    } else {
      a, b := FindVersion(s[..n], None, rest);
      assert Bracketed(None) + rest == rest;
    }
  }

  /** An entry is read from exactly the texts it can be written as. */
  lemma EntryIsPrinted(s: string, e: Entry)
    ensures ParseEntry(s) == Some(e) <==>
              exists a, b :: PlainEntry(e) && Blanks(a) && Blanks(b) && s == PrintEntry(e, a, b)
  {
    if ParseEntry(s) == Some(e) {
      var a, b := FindEntry(s);
    }
    forall a, b | PlainEntry(e) && Blanks(a) && Blanks(b) && s == PrintEntry(e, a, b) ensures ParseEntry(s) == Some(e) {
      ReadPrintedEntry(e, a, b);
    }
  }

  // ---------------------------------------------------------------- forbidden words

  const SCHEMES := {"git+", "hg+", "svn+", "bzr+", "http://", "https://", "file://"}

  /** An editable option stands at the start or after white space, and white space or an equals sign follows. */
  predicate Editable(before: string, word: string, after: string) {
    && word in {"-e", "--editable"}
    && (before == "" || IsSpace(before[|before| - 1]))
    && after != "" && (IsSpace(after[0]) || after[0] == '=')
  }

  predicate SpacedAt(word: string) {
    |word| == 3 && IsSpace(word[0]) && word[1] == '@' && IsSpace(word[2])
  }

  predicate SourceWord(before: string, word: string, after: string) {
    word in SCHEMES || SpacedAt(word) || Editable(before, word, after)
  }

  lemma WordAt(before: string, word: string, after: string)
    ensures HasAt(before + word + after, |before|, word)
  {
    var s := before + word + after;
    assert s[|before|..|before| + |word|] == word;
  }

  lemma SchemeFound(s: string, i: nat, word: string)
    requires word in SCHEMES && HasAt(s, i, word)
    ensures SourceAt(s, i) && i < |s|
  {
  }

  lemma EditableFound(before: string, word: string, after: string)
    requires Editable(before, word, after)
    ensures EditableAt(before + word + after, |before|, word)
  {
    WordAt(before, word, after);
    var s := before + word + after;
    assert s[|before| + |word|] == after[0];
    assert before != "" ==> s[|before| - 1] == before[|before| - 1];
  }

  lemma SpacedFound(before: string, word: string, after: string)
    requires SpacedAt(word)
    ensures SourceAt(before + word + after, |before|)
  {
    var s := before + word + after;
    assert s[|before|] == word[0] && s[|before| + 1] == word[1] && s[|before| + 2] == word[2];
  }

  /** A source is found wherever it stands. */
  lemma SourceIsFound(line: string, before: string, word: string, after: string)
    requires LowerAscii(line) == before + word + after && SourceWord(before, word, after)
    ensures ForbiddenSource(line)
  {
    var s := before + word + after;
    assert SourceAt(s, |before|) by {
      if word in SCHEMES {
        WordAt(before, word, after);
        SchemeFound(s, |before|, word);
      } else if SpacedAt(word) {
        SpacedFound(before, word, after);
      } else {
        EditableFound(before, word, after);
      }
    }
    assert word != "" by {
      if word in SCHEMES {
        WordAt("", word, "");
        SchemeFound("" + word + "", 0, word);
      }
    }
  }

  lemma CutAround(s: string, i: nat, n: nat)
    requires i + n <= |s|
    ensures s == s[..i] + s[i..i + n] + s[i + n..]
  {
  }

  lemma FindScheme(s: string, i: nat) returns (word: string)
    requires SourceAt(s, i) && !EditableAt(s, i, "-e") && !EditableAt(s, i, "--editable")
    ensures i + |word| <= |s| && s[i..i + |word|] == word && (word in SCHEMES || SpacedAt(word))
  {
    if HasAt(s, i, "git+") {
      word := "git+";
    } else if HasAt(s, i, "hg+") {
      word := "hg+";
    } else if HasAt(s, i, "svn+") {
      word := "svn+";
    } else if HasAt(s, i, "bzr+") {
      word := "bzr+";
    } else if HasAt(s, i, "http://") {
      word := "http://";
    } else if HasAt(s, i, "https://") {
      word := "https://";
    } else if HasAt(s, i, "file://") {
      word := "file://";
    } else {
      word := s[i..i + 3];
    }
  }

  lemma FindEditable(s: string, i: nat, word: string)
    requires EditableAt(s, i, word) && word in {"-e", "--editable"}
    ensures i + |word| <= |s| && s[i..i + |word|] == word && Editable(s[..i], word, s[i + |word|..])
  {
  }

  lemma FindWord(s: string, i: nat) returns (word: string)
    requires SourceAt(s, i)
    ensures i + |word| <= |s| && s[i..i + |word|] == word && SourceWord(s[..i], word, s[i + |word|..])
  {
    if EditableAt(s, i, "-e") {
      word := "-e";
      FindEditable(s, i, word);
    } else if EditableAt(s, i, "--editable") {
      word := "--editable";
      FindEditable(s, i, word);
    } else {
      word := FindScheme(s, i);
    }
  }

  lemma FindSource(line: string) returns (before: string, word: string, after: string)
    requires ForbiddenSource(line)
    ensures LowerAscii(line) == before + word + after && SourceWord(before, word, after)
  {
    var s := LowerAscii(line);
    var i :| 0 <= i < |line| && SourceAt(s, i);
    word := FindWord(s, i);
    before, after := s[..i], s[i + |word|..];
    CutAround(s, i, |word|);
  }

  /** A line is refused for its source if and only if it holds a source word, in any letter case. */
  lemma SourceIsWord(line: string)
    ensures ForbiddenSource(line) <==>
              exists before, word, after :: LowerAscii(line) == before + word + after && SourceWord(before, word, after)
  {
    if ForbiddenSource(line) {
      var before, word, after := FindSource(line);
    }
    forall before, word, after | LowerAscii(line) == before + word + after && SourceWord(before, word, after)
      ensures ForbiddenSource(line)
    {
      SourceIsFound(line, before, word, after);
    }
  }

  const INDEX_OPTIONS := {"--extra-index-url", "--find-links", "--index-url", "--trusted-host"}

  lemma OptionIsWord(line: string)
    ensures ForbiddenOption(line) <==> exists option :: option in INDEX_OPTIONS && StartsWith(LowerAscii(line), option)
  {
    var s := LowerAscii(line);
    assert "--extra-index-url" in INDEX_OPTIONS && "--find-links" in INDEX_OPTIONS;
    assert "--index-url" in INDEX_OPTIONS && "--trusted-host" in INDEX_OPTIONS;
  }

  // ---------------------------------------------------------------- good lines and error-free locks

  lemma {:induction false} HashWordsAreSha256(words: seq<string>)
    ensures HashWords(words) >= |Sha256Words(words)|
    ensures HashWords(words) == |Sha256Words(words)| <==> forall w | w in words && IsHashWord(w) :: IsSha256Word(w)
    decreases |words|
  {
    if words != [] {
      HashWordsAreSha256(words[1..]);
      Sha256IsHash(words[0]);
      assert words == [words[0]] + words[1..];
    }
  }

  lemma Sha256IsHash(w: string)
    ensures IsSha256Word(w) ==> IsHashWord(w)
  {
    Sha256HasNoSpace();
    if IsSha256Word(w) {
      assert w[..7] == w[..14][..7];
    }
  }

  /** Every hash is a SHA-256, there is one, and none stands twice. */
  ghost predicate WellHashed(words: seq<string>) {
    && (forall w | w in words && IsHashWord(w) :: IsSha256Word(w))
    && Sha256Words(words) != [] && Distinct(Sha256Words(words))
  }

  lemma HashErrorsAre(line: string)
    ensures HashErrors(line) == [] <==> WellHashed(Words(line))
  {
    ReadersGoByWords(line);
    HashWordsAreSha256(Words(line));
  }

  ghost predicate Concrete(version: string) {
    exists v :: PlainVersion(v) && LowerAscii(version) == PrintParts(v)
  }

  ghost predicate HoldsSource(line: string) {
    exists before, word, after :: LowerAscii(line) == before + word + after && SourceWord(before, word, after)
  }

  ghost predicate HoldsIndexOption(line: string) {
    exists option :: option in INDEX_OPTIONS && StartsWith(LowerAscii(line), option)
  }

  ghost predicate IsPinText(text: string) {
    exists e, a, b :: PlainEntry(e) && Blanks(a) && Blanks(b) && Concrete(e.version) && text == PrintEntry(e, a, b)
  }

  lemma PinTextIsEntry(text: string)
    ensures IsPinText(text) <==> ParseEntry(text).Some? && IsConcrete(ParseEntry(text).value.version)
  {
    if ParseEntry(text).Some? {
      var a, b := FindEntry(text);
      ConcreteIsPrinted(ParseEntry(text).value.version);
    }
    forall e, a, b | PlainEntry(e) && Blanks(a) && Blanks(b) && Concrete(e.version) && text == PrintEntry(e, a, b)
      ensures ParseEntry(text).Some? && IsConcrete(ParseEntry(text).value.version)
    {
      ReadPrintedEntry(e, a, b);
      ConcreteIsPrinted(e.version);
    }
  }

  /** What makes a logical line good, without the reader. */
  lemma GoodLineMeans(line: string)
    ensures GoodLine(line) <==>
              && !HoldsIndexOption(line) && !HoldsSource(line) && WellHashed(Words(line))
              && IsPinText(Strip(WithoutHashes(line, true)))
  {
    OptionIsWord(line);
    SourceIsWord(line);
    HashErrorsAre(line);
    PinTextIsEntry(Strip(WithoutHashes(line, true)));
  }

  /** The name a good line pins. */
  function NameOn(line: string): Option<string> {
    if GoodLine(line) then Some(LineLock(line).name) else None
  }

  /** Every line pins a name of its own. */
  predicate OwnNames(lines: seq<string>, seen: set<string>) {
    && (forall i | 0 <= i < |lines| :: NameOn(lines[i]).Some? && NameOn(lines[i]).value !in seen)
    && (forall i, j | 0 <= i < j < |lines| :: NameOn(lines[i]) != NameOn(lines[j]))
  }

  lemma OwnNamesTail(lines: seq<string>, seen: set<string>, name: string)
    requires lines != [] && NameOn(lines[0]) == Some(name)
    ensures OwnNames(lines, seen) ==> OwnNames(lines[1..], seen + {name})
  {
    var rest := lines[1..];
    if OwnNames(lines, seen) {
      forall i | 0 <= i < |rest| ensures NameOn(rest[i]).Some? && NameOn(rest[i]).value !in seen + {name} {
        assert rest[i] == lines[i + 1];
        assert NameOn(lines[0]) != NameOn(lines[i + 1]);
      }
    }
  }

  lemma OwnNamesFront(lines: seq<string>, seen: set<string>, name: string)
    requires lines != [] && NameOn(lines[0]) == Some(name) && name !in seen
    ensures OwnNames(lines[1..], seen + {name}) ==> OwnNames(lines, seen)
  {
    var rest := lines[1..];
    if OwnNames(rest, seen + {name}) {
      forall i | 0 <= i < |lines| ensures NameOn(lines[i]).Some? && NameOn(lines[i]).value !in seen {
        if i > 0 {
          assert lines[i] == rest[i - 1];
        }
      }
      forall i, j | 0 <= i < j < |lines| ensures NameOn(lines[i]) != NameOn(lines[j]) {
        assert lines[j] == rest[j - 1];
        if i > 0 {
          assert lines[i] == rest[i - 1];
        }
      }
    }
  }

  lemma {:induction false} GoodLinesAre(lines: seq<string>, seen: set<string>)
    ensures GoodLines(lines, seen) <==> OwnNames(lines, seen)
    decreases |lines|
  {
    if lines != [] && GoodLine(lines[0]) {
      var name := LineLock(lines[0]).name;
      GoodLinesAre(lines[1..], seen + {name});
      OwnNamesTail(lines, seen, name);
      if name !in seen {
        OwnNamesFront(lines, seen, name);
      }
    }
  }

  /**
   * A lock parses without errors if and only if every continuation is continued, something is installable, every
   * logical line is good, and no two of them have one canonical name.
   */
  lemma ErrorFreeMeans(raw: seq<string>)
    ensures Parse(raw).errors == [] <==>
              Continues(raw) && LogicalLines(raw).0 != [] && OwnNames(LogicalLines(raw).0, {})
  {
    ErrorFreeDecides(raw);
    ContinuationsDecide(raw);
    GoodLinesAre(LogicalLines(raw).0, {});
  }

  // ---------------------------------------------------------------- pins without a marker

  predicate QuietChar(c: char) {
    c !in {'@', '/', ';'} && !IsSpace(c)
  }

  /** No white space and no character of a direct reference, and a plus sign only behind a digit. */
  predicate Quiet(s: string) {
    AllChars(s, QuietChar) && forall i | 0 <= i < |s| && s[i] == '+' :: i > 0 && IsDigit(s[i - 1])
  }

  lemma QuietAppend(a: string, b: string)
    requires Quiet(a) && Quiet(b)
    ensures Quiet(a + b)
  {
    var s := a + b;
    forall i | 0 <= i < |s| && s[i] == '+' ensures i > 0 && IsDigit(s[i - 1]) {
      if i >= |a| {
        assert b[i - |a|] == '+';
        assert s[i - 1] == b[i - |a| - 1];
      }
    }
  }

  /** Behind a digit the text may start with a plus sign. */
  predicate QuietAfterDigit(s: string) {
    && AllChars(s, QuietChar)
    && forall i | 0 < i < |s| && s[i] == '+' :: IsDigit(s[i - 1])
  }

  lemma QuietBehind(t: string, n: string, s: string)
    requires Quiet(t) && Number(n) && QuietAfterDigit(s)
    ensures Quiet(t + n + s) && QuietAfterDigit(t + n + s)
  {
    var all := t + n + s;
    var k := |t| + |n|;
    forall i | 0 <= i < |all| ensures QuietChar(all[i]) {
      assert all[i] == if i < |t| then t[i] else if i < k then n[i - |t|] else s[i - k];
    }
    assert forall i | 0 <= i < |n| :: all[|t| + i] == n[i];
    assert forall i | |t| <= i < k :: IsDigit(all[i]) && all[i] == n[i - |t|];
    forall i | 0 <= i < |all| && all[i] == '+' ensures i > 0 && IsDigit(all[i - 1]) {
      if i < |t| {
        assert t[i] == '+' && all[i - 1] == t[i - 1];
      } else if i > k {
        assert s[i - k] == '+' && all[i - 1] == s[i - k - 1];
      }
    }
  }

  lemma {:induction false} QuietRelease(release: seq<string>, s: string)
    requires (forall i | 0 <= i < |release| :: Number(release[i])) && QuietAfterDigit(s)
    ensures QuietAfterDigit(PrintRelease(release) + s)
  {
    if release == [] {
      assert PrintRelease(release) + s == s;
    } else {
      QuietRelease(release[1..], s);
      var more := PrintRelease(release[1..]) + s;
      QuietBehind(".", release[0], more);
      assert PrintRelease(release) + s == "." + release[0] + more;
    }
  }

  lemma QuietTagged(tag: string, number: Option<string>, s: string)
    requires (number.Some? ==> Number(number.value)) && QuietAfterDigit(s) && Quiet(tag)
    ensures QuietAfterDigit(Tagged(tag, number) + s)
  {
    if number.None? {
      assert Tagged(tag, number) + s == s;
    } else {
      QuietBehind(tag, number.value, s);
    }
  }

  lemma QuietTags()
    ensures Quiet(".post") && Quiet(".dev") && Quiet("a") && Quiet("b") && Quiet("rc") && Quiet("") && Quiet("==")
  {
  }

  lemma QuietPre(pre: Option<Pre>, s: string)
    requires (pre.Some? ==> Quiet(pre.value.tag) && Number(pre.value.number)) && QuietAfterDigit(s)
    ensures QuietAfterDigit(PrintPre(pre) + s)
  {
    if pre.None? {
      assert PrintPre(pre) + s == s;
    } else {
      QuietTagged(pre.value.tag, Some(pre.value.number), s);
    }
  }

  lemma QuietLocal(local: seq<Local>)
    requires PlainLocal(local)
    ensures QuietAfterDigit(PrintLocal(local))
  {
    var s := PrintLocal(local);
    ReadLocal(local);
    forall i | 0 <= i < |s| ensures QuietChar(s[i]) && (i > 0 ==> s[i] != '+') {
      assert i > 0 ==> LocalChar(s[i]) || IsSeparator(s[i]);
    }
  }

  lemma QuietPreTag(pre: Option<Pre>)
    requires pre.Some? ==> pre.value.tag in {"a", "b", "rc"}
    ensures pre.Some? ==> Quiet(pre.value.tag)
  {
    QuietTags();
  }

  lemma QuietAfterFirst(v: Parts)
    requires PlainVersion(v)
    ensures QuietAfterDigit(AfterFirst(v))
  {
    var local := PrintLocal(v.local);
    var dev := Tagged(".dev", v.dev) + local;
    var post := Tagged(".post", v.post) + dev;
    QuietTags();
    QuietLocal(v.local);
    QuietTagged(".dev", v.dev, local);
    QuietTagged(".post", v.post, dev);
    QuietPreTag(v.pre);
    QuietPre(v.pre, post);
    QuietRelease(v.release, PrintPre(v.pre) + post);
  }

  lemma QuietVersion(v: Parts)
    requires PlainVersion(v)
    ensures Quiet(PrintParts(v)) && PrintParts(v) != ""
  {
    QuietTags();
    QuietAfterFirst(v);
    QuietBehind("", v.first, AfterFirst(v));
    assert "" + v.first + AfterFirst(v) == v.first + AfterFirst(v);
    var body := v.first + AfterFirst(v);
    if v.epoch.None? {
      assert PrintEpoch(v.epoch) + body == body;
    } else {
      QuietBehind("", v.epoch.value, "!");
      assert "" + v.epoch.value + "!" == v.epoch.value + "!";
      QuietAppend(v.epoch.value + "!", body);
    }
  }

  /** Letter case does not matter here. */
  lemma QuietLower(s: string)
    ensures Quiet(LowerAscii(s)) <==> Quiet(s)
  {
    var t := LowerAscii(s);
    assert forall i | 0 <= i < |s| :: QuietChar(t[i]) <==> QuietChar(s[i]);
    assert forall i | 0 <= i < |s| :: (t[i] == '+' <==> s[i] == '+') && (IsDigit(t[i]) <==> IsDigit(s[i]));
  }

  lemma ConcreteIsQuiet(version: string)
    requires IsConcrete(version)
    ensures Quiet(version) && version != "" && AllChars(version, VersionText)
  {
    var v := FindParts(version);
    QuietVersion(v);
    QuietLower(version);
    assert forall i | 0 <= i < |version| :: QuietChar(version[i]);
  }

  lemma QuietExtras(extras: seq<string>)
    requires forall i | 0 <= i < |extras| :: IsExtra(extras[i])
    ensures Quiet(PrintExtras(extras))
  {
    if extras != [] {
      JoinChars(extras);
      var inner := Join(extras, ',');
      var s := "[" + inner + "]";
      forall i | 0 <= i < |s| ensures QuietChar(s[i]) && s[i] != '+' {
        if 0 < i < |s| - 1 {
          assert s[i] == inner[i - 1] && ExtraChar(inner[i - 1]);
        }
      }
    }
  }

  lemma QuietName(name: string)
    requires AllChars(name, NameChar)
    ensures Quiet(name)
  {
    forall i | 0 <= i < |name| ensures QuietChar(name[i]) && name[i] != '+' {
      assert NameChar(name[i]);
    }
  }

  lemma QuietHead(p: Pin)
    requires PlainFields(p) && p.marker.None?
    ensures Quiet(Head(p))
  {
    ConcreteIsQuiet(p.version);
    QuietTags();
    QuietExtras(p.extras);
    QuietName(p.name);
    assert p.version + PrintMarker(p.marker) == p.version;
    QuietAppend("==", p.version);
    QuietAppend(PrintExtras(p.extras), "==" + p.version);
    QuietAppend(p.name, AfterName(p));
  }

  /** As before, but white space may precede a hash option. */
  predicate Calm(s: string) {
    && (forall i | 0 <= i < |s| :: s[i] != '@' && s[i] != '/')
    && (forall i | 0 <= i < |s| && s[i] == '+' :: i > 0 && IsDigit(s[i - 1]))
    && (forall i | 0 <= i < |s| && IsSpace(s[i]) :: BeforeHash(s, i))
  }

  predicate BeforeHash(s: string, i: nat) {
    i + 3 < |s| && s[i + 1] == '-' && s[i + 2] == '-' && s[i + 3] == 'h'
  }

  lemma CalmAppend(a: string, b: string)
    requires Calm(a) && Calm(b)
    ensures Calm(a + b)
  {
    var s := a + b;
    forall i | 0 <= i < |s| && s[i] == '+' ensures i > 0 && IsDigit(s[i - 1]) {
      if i >= |a| {
        assert b[i - |a|] == '+';
        assert s[i - 1] == b[i - |a| - 1];
      }
    }
    forall i | 0 <= i < |s| && IsSpace(s[i]) ensures BeforeHash(s, i) {
      if i >= |a| {
        assert BeforeHash(b, i - |a|);
      } else {
        assert BeforeHash(a, i);
      }
    }
  }

  lemma QuietIsCalm(s: string)
    requires Quiet(s)
    ensures Calm(s) && AllChars(s, NotSpace)
  {
    assert forall i | 0 <= i < |s| :: QuietChar(s[i]);
  }

  lemma TokenIsCalm(h: string)
    requires IsDigest(h)
    ensures Calm(" " + SHA256 + h)
  {
    var s := " " + SHA256 + h;
    Sha256HasNoSpace();
    assert SHA256[0] == '-' && SHA256[1] == '-' && SHA256[2] == 'h';
    forall i | 1 <= i < |s| ensures !IsSpace(s[i]) && s[i] !in {'@', '/', '+'} {
      if i < 15 {
        assert s[i] == SHA256[i - 1];
      } else {
        assert s[i] == h[i - 15] && IsHex(h[i - 15]);
      }
    }
  }

  lemma {:induction false} TailIsCalm(hashes: seq<string>)
    requires forall i | 0 <= i < |hashes| :: IsDigest(hashes[i])
    ensures Calm(Tail(hashes))
  {
    if hashes != [] {
      var token := " " + SHA256 + hashes[0];
      TailIsCalm(hashes[1..]);
      TokenIsCalm(hashes[0]);
      CalmAppend(token, Tail(hashes[1..]));
      assert Tail(hashes) == token + Tail(hashes[1..]);
    }
  }

  lemma CalmLower(s: string)
    requires Calm(s)
    ensures Calm(LowerAscii(s))
  {
    var t := LowerAscii(s);
    forall i | 0 <= i < |t| && t[i] == '+' ensures i > 0 && IsDigit(t[i - 1]) {
      assert s[i] == '+';
    }
    forall i | 0 <= i < |t| && IsSpace(t[i]) ensures BeforeHash(t, i) {
      assert IsSpace(s[i]);
      assert BeforeHash(s, i);
    }
  }

  predicate Alarming(word: string, k: nat) {
    k < |word| && (word[k] == '/' || (word[k] == '+' && k > 0 && !IsDigit(word[k - 1])))
  }

  lemma SchemeIsNotCalm(word: string) returns (k: nat)
    requires word in SCHEMES
    ensures Alarming(word, k)
  {
    if word == "http://" || word == "file://" {
      k := 5;
    } else if word == "https://" {
      k := 6;
    } else if word == "hg+" {
      k := 2;
    } else {
      k := 3;
    }
  }

  lemma SchemeBreaksCalm(before: string, word: string, after: string)
    requires word in SCHEMES
    ensures !Calm(before + word + after)
  {
    var s, n := before + word + after, |before|;
    var k := SchemeIsNotCalm(word);
    assert s[n + k] == word[k];
    assert k > 0 ==> s[n + k - 1] == word[k - 1];
  }

  lemma EditableBreaksCalm(before: string, word: string, after: string)
    requires Editable(before, word, after) && before != ""
    ensures !Calm(before + word + after)
  {
    var s, n := before + word + after, |before|;
    assert IsSpace(s[n - 1]);
    assert s[n + 1] == word[1];
    assert word == "--editable" ==> s[n + 2] == word[2];
    assert !BeforeHash(s, n - 1);
  }

  lemma FirstOf(before: string, word: string, after: string)
    requires word != ""
    ensures before == "" ==> (before + word + after)[0] == word[0]
  {
  }

  lemma CalmHasNoSource(before: string, word: string, after: string)
    requires SourceWord(before, word, after)
    requires var s := before + word + after;
             s != "" && s[0] != '-'
    ensures !Calm(before + word + after)
  {
    if word in SCHEMES {
      SchemeBreaksCalm(before, word, after);
    } else if SpacedAt(word) {
      assert (before + word + after)[|before| + 1] == '@';
    } else {
      FirstOf(before, word, after);
      EditableBreaksCalm(before, word, after);
    }
  }

  lemma CalmLine(line: string)
    requires Calm(line) && line != "" && line[0] != '-'
    ensures !ForbiddenSource(line)
  {
    CalmLower(line);
    if ForbiddenSource(line) {
      var before, word, after := FindSource(line);
      CalmHasNoSource(before, word, after);
    }
  }

  /** A well-formed pin without a marker, with any name, extras, concrete version and distinct digests. */
  lemma MarkerFreeIsWellFormed(p: Pin)
    requires PlainFields(p) && p.marker.None?
    requires p.hashes != [] && Distinct(p.hashes) && forall i | 0 <= i < |p.hashes| :: IsDigest(p.hashes[i])
    requires forall i | 0 <= i < |p.comments| :: Blank(Strip(p.comments[i]))
    ensures WellFormed(p)
  {
    var line := Logical(p);
    QuietHead(p);
    QuietIsCalm(Head(p));
    HeadCounts(p);
    TailIsCalm(p.hashes);
    CalmAppend(Head(p), Tail(p.hashes));
    assert line[0] == p.name[0] && AsciiAlnum(line[0]);
    CalmLine(line);
  }

  lemma HeadCounts(p: Pin)
    requires PlainParts(p) && AllChars(Head(p), NotSpace)
    ensures CountHashes(Head(p), true) == 0
  {
    var s := Head(p);
    assert s[0] == p.name[0] && AsciiAlnum(s[0]);
    forall i | 0 <= i < |s[1..]| ensures !IsSpace(s[1..][i]) {
      assert NotSpace(s[i + 1]);
    }
    CountInside(s[1..], "");
    assert s[1..] + "" == s[1..];
  }

  /** A lock of one plain pin. */
  function OnePin(name: string, version: string, hashes: seq<string>): Pin {
    Pin(name, [], version, None, hashes, [])
  }

  /** Every concrete version is read back under every name, with every list of distinct digests. */
  lemma OnePinIsReadBack(name: string, version: string, hashes: seq<string>)
    requires name != "" && AsciiAlnum(name[0]) && AllChars(name, NameChar) && IsConcrete(version)
    requires hashes != [] && Distinct(hashes) && forall i | 0 <= i < |hashes| :: IsDigest(hashes[i])
    ensures Parse(Print([OnePin(name, version, hashes)]))
         == Parsed([Locked(Canonical(name), version, {}, None, hashes)], [])
  {
    var p := OnePin(name, version, hashes);
    ConcreteIsQuiet(version);
    MarkerFreeIsWellFormed(p);
    assert AllWellFormed([p]) by { assert [p][1..] == []; }
    ParseInvertsPrint([], [p]);
    assert [] + Print([p]) == Print([p]);
    assert LoweredExtras([]) == {};
    assert LockedPins([p]) == [LockedPin(p)];
  }

  /** Post releases among them. */
  lemma PostReleaseIsReadBack(hashes: seq<string>)
    requires hashes != [] && Distinct(hashes) && forall i | 0 <= i < |hashes| :: IsDigest(hashes[i])
    ensures Parse(Print([OnePin("pytz", "2026.3.post1", hashes)]))
         == Parsed([Locked("pytz", "2026.3.post1", {}, None, hashes)], [])
  {
    PostIsConcrete();
    PytzName();
    OnePinIsReadBack("pytz", "2026.3.post1", hashes);
  }

  lemma PytzName()
    ensures AllChars("pytz", NameChar) && Canonical("pytz") == "pytz"
  {
    CanonicalNormalises("pytz");
  }

  lemma PostIsConcrete()
    ensures IsConcrete("2026.3.post1")
  {
    var v := Parts(None, "2026", ["3"], None, Some("1"), None, []);
    PrintPost(v);
    assert LowerAscii("2026.3.post1") == "2026.3.post1";
    PrintedIsConcrete(v, "2026.3.post1");
  }

  lemma PrintPost(v: Parts)
    requires v == Parts(None, "2026", ["3"], None, Some("1"), None, [])
    ensures PrintParts(v) == "2026.3.post1"
  {
    assert ["3"] == ["3"] + [];
    PrintMoreRelease("3", []);
    assert PrintRelease(v.release) == ".3";
    assert Tagged(".post", v.post) == ".post1";
    assert AfterFirst(v) == ".3" + ("" + (".post1" + ("" + "")));
  }
}
