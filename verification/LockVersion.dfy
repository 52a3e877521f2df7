/** The concrete versions of the lock: reading one from the left, and the parts it is written from. */
module LockVersion {
  import opened Text

  predicate IsSeparator(c: char) { c in {'-', '_', '.'} }

  function Run(s: string, p: char -> bool): (n: nat)
    ensures n <= |s|
  {
    if s != "" && p(s[0]) then 1 + Run(s[1..], p) else 0
  }

  function SkipDigits(s: string): string {
    s[Run(s, IsDigit)..]
  }

  predicate StartsWithDigit(s: string) { s != "" && IsDigit(s[0]) }

  function SkipEpoch(s: string): string {
    var rest := SkipDigits(s);
    if StartsWithDigit(s) && StartsWith(rest, "!") then rest[1..] else s
  }

  function SkipRelease(s: string): string
    decreases |s|
  {
    if StartsWith(s, ".") && StartsWithDigit(s[1..]) then
      SkipRelease(SkipDigits(s[1..]))
    else s
  }

  function SkipTagged(s: string, tag: string): string {
    if StartsWith(s, tag) && StartsWithDigit(s[|tag|..]) then SkipDigits(s[|tag|..]) else s
  }

  function SkipPre(s: string): string {
    if SkipTagged(s, "a") != s then SkipTagged(s, "a")
    else if SkipTagged(s, "b") != s then SkipTagged(s, "b")
    else SkipTagged(s, "rc")
  }

  predicate LocalChar(c: char) { IsLower(c) || IsDigit(c) }

  /** `+` and runs of letters and digits joined by single separators. */
  predicate IsLocal(s: string) {
    && |s| >= 2 && s[0] == '+' && LocalChar(s[1]) && LocalChar(s[|s| - 1])
    && (forall i | 1 <= i < |s| :: LocalChar(s[i]) || IsSeparator(s[i]))
    && (forall i | 1 <= i < |s| - 1 :: LocalChar(s[i]) || LocalChar(s[i + 1]))
  }

  predicate IsConcrete(version: string) {
    var s := SkipEpoch(LowerAscii(version));
    StartsWithDigit(s) &&
    var rest := SkipTagged(SkipTagged(SkipPre(SkipRelease(SkipDigits(s))), ".post"), ".dev");
    rest == "" || IsLocal(rest)
  }

  // ---------------------------------------------------------------- parts

  datatype Pre = Pre(tag: string, number: string)

  datatype Local = Local(separator: char, word: string)

  /** Numbers are kept as written: leading zeros are allowed. */
  datatype Parts = Parts(epoch: Option<string>, first: string, release: seq<string>, pre: Option<Pre>,
                         post: Option<string>, dev: Option<string>, local: seq<Local>)

  function PrintEpoch(epoch: Option<string>): string {
    if epoch.None? then "" else epoch.value + "!"
  }

  function PrintRelease(release: seq<string>): string {
    if release == [] then "" else "." + release[0] + PrintRelease(release[1..])
  }

  function Tagged(tag: string, number: Option<string>): string {
    if number.None? then "" else tag + number.value
  }

  function PrintPre(pre: Option<Pre>): string {
    if pre.None? then "" else Tagged(pre.value.tag, Some(pre.value.number))
  }

  function PrintLocal(local: seq<Local>): string {
    if local == [] then "" else [local[0].separator] + local[0].word + PrintLocal(local[1..])
  }

  /** What follows the first number of the release. */
  function AfterFirst(v: Parts): string {
    PrintRelease(v.release)
    + (PrintPre(v.pre) + (Tagged(".post", v.post) + (Tagged(".dev", v.dev) + PrintLocal(v.local))))
  }

  function PrintParts(v: Parts): string {
    PrintEpoch(v.epoch) + (v.first + AfterFirst(v))
  }

  predicate Number(s: string) {
    s != "" && AllChars(s, IsDigit)
  }

  predicate IsWord(l: Local) {
    l.word != "" && AllChars(l.word, LocalChar)
  }

  /** Words after the first follow one separator. */
  predicate MoreLocal(local: seq<Local>) {
    forall i | 0 <= i < |local| :: IsWord(local[i]) && IsSeparator(local[i].separator)
  }

  predicate PlainLocal(local: seq<Local>) {
    local == [] || (local[0].separator == '+' && IsWord(local[0]) && MoreLocal(local[1..]))
  }

  predicate PlainVersion(v: Parts) {
    && (v.epoch.Some? ==> Number(v.epoch.value))
    && Number(v.first) && (forall i | 0 <= i < |v.release| :: Number(v.release[i]))
    && (v.pre.Some? ==> v.pre.value.tag in {"a", "b", "rc"} && Number(v.pre.value.number))
    && (v.post.Some? ==> Number(v.post.value))
    && (v.dev.Some? ==> Number(v.dev.value))
    && PlainLocal(v.local)
  }

  // ---------------------------------------------------------------- reading what was printed

  lemma {:induction false} RunOf(s: string, rest: string, p: char -> bool)
    requires AllChars(s, p) && (rest == "" || !p(rest[0]))
    ensures Run(s + rest, p) == |s|
  {
    if s == "" {
      assert s + rest == rest;
    } else {
      assert (s + rest)[1..] == s[1..] + rest;
      assert forall i | 0 <= i < |s[1..]| :: s[1..][i] == s[i + 1];
      RunOf(s[1..], rest, p);
    }
  }

  lemma ReadNumber(n: string, rest: string)
    requires Number(n) && !StartsWithDigit(rest)
    ensures SkipDigits(n + rest) == rest && StartsWithDigit(n + rest)
  {
    RunOf(n, rest, IsDigit);
  }

  lemma ReadTagged(tag: string, number: Option<string>, rest: string)
    requires number.Some? ==> Number(number.value)
    requires !StartsWithDigit(rest) && (number.None? ==> !StartsWith(rest, tag))
    ensures SkipTagged(Tagged(tag, number) + rest, tag) == rest
  {
    var s := Tagged(tag, number) + rest;
    if number.Some? {
      assert s == tag + (number.value + rest);
      assert s[|tag|..] == number.value + rest;
      ReadNumber(number.value, rest);
    } else {
      assert s == rest;
    }
  }

  /** Nothing, or one of the characters, or a dot and then one of the others. */
  predicate Begins(s: string, chars: set<char>, dotted: set<char>) {
    s == "" || s[0] in chars || (|s| > 1 && s[0] == '.' && s[1] in dotted)
  }

  predicate AfterRelease(s: string) {
    Begins(s, {'a', 'b', 'r', '+'}, {'p', 'd'})
  }

  lemma NoRelease(rest: string)
    requires AfterRelease(rest)
    ensures SkipRelease(rest) == rest && !StartsWithDigit(rest)
  {
  }

  lemma OneReleaseNumber(n: string, more: string)
    requires Number(n) && !StartsWithDigit(more)
    ensures SkipRelease("." + n + more) == SkipRelease(more)
  {
    var s := "." + n + more;
    assert s[1..] == n + more;
    ReadNumber(n, more);
  }

  lemma {:induction false} ReadRelease(release: seq<string>, rest: string)
    requires forall i | 0 <= i < |release| :: Number(release[i])
    requires AfterRelease(rest)
    ensures SkipRelease(PrintRelease(release) + rest) == rest
    ensures !StartsWithDigit(PrintRelease(release) + rest)
  {
    if release == [] {
      assert PrintRelease(release) + rest == rest;
      NoRelease(rest);
    } else {
      var more := PrintRelease(release[1..]) + rest;
      ReadRelease(release[1..], rest);
      OneReleaseNumber(release[0], more);
      assert PrintRelease(release) + rest == "." + release[0] + more;
      assert (PrintRelease(release) + rest)[0] == '.';
    }
  }

  lemma ReadPre(pre: Option<Pre>, rest: string)
    requires pre.Some? ==> pre.value.tag in {"a", "b", "rc"} && Number(pre.value.number)
    requires Begins(rest, {'+'}, {'p', 'd'})
    ensures SkipPre(PrintPre(pre) + rest) == rest
  {
    var s := PrintPre(pre) + rest;
    if pre.None? {
      assert s == rest;
    } else {
      var tag := pre.value.tag;
      ReadTagged(tag, Some(pre.value.number), rest);
      assert s[0] == tag[0];
      assert s != rest by { assert |s| > |rest|; }
    }
  }

  lemma BeginsTagged(letter: char, tag: string, number: Option<string>, rest: string, chars: set<char>,
                     dotted: set<char>)
    requires |tag| > 1 && tag[0] == '.' && tag[1] == letter && Begins(rest, chars, dotted)
    ensures Begins(Tagged(tag, number) + rest, chars, dotted + {letter})
  {
    if number.None? {
      assert Tagged(tag, number) + rest == rest;
    }
  }

  lemma BeginsPre(pre: Option<Pre>, rest: string)
    requires pre.Some? ==> pre.value.tag in {"a", "b", "rc"}
    requires Begins(rest, {'+'}, {'p', 'd'})
    ensures AfterRelease(PrintPre(pre) + rest)
  {
    if pre.None? {
      assert PrintPre(pre) + rest == rest;
    } else {
      assert (PrintPre(pre) + rest)[0] == pre.value.tag[0];
    }
  }

  lemma {:induction false} MoreLocalShape(local: seq<Local>)
    requires MoreLocal(local)
    ensures LocalTail(PrintLocal(local))
  {
    if local != [] {
      MoreLocalShape(local[1..]);
      OneMoreWord(local[0], PrintLocal(local[1..]));
    }
  }

  /** Words behind single separators. */
  predicate LocalTail(s: string) {
    && (s != "" ==> |s| >= 2 && IsSeparator(s[0]) && LocalChar(s[|s| - 1]))
    && (forall i | 0 <= i < |s| :: LocalChar(s[i]) || IsSeparator(s[i]))
    && (forall i | 0 <= i < |s| - 1 :: LocalChar(s[i]) || LocalChar(s[i + 1]))
  }

  lemma OneMoreWord(l: Local, rest: string)
    requires IsWord(l) && IsSeparator(l.separator) && LocalTail(rest)
    ensures LocalTail([l.separator] + l.word + rest)
  {
    var s := [l.separator] + l.word + rest;
    var n := 1 + |l.word|;
    forall i | 0 <= i < |s| ensures LocalChar(s[i]) || IsSeparator(s[i]) {
      assert s[i] == if i == 0 then l.separator else if i < n then l.word[i - 1] else rest[i - n];
    }
    forall i | 0 <= i < |s| - 1 ensures LocalChar(s[i]) || LocalChar(s[i + 1]) {
      if i >= n {
        assert s[i] == rest[i - n] && s[i + 1] == rest[i - n + 1];
      } else if i > 0 {
        assert s[i] == l.word[i - 1];
      } else {
        assert s[i + 1] == l.word[0];
      }
    }
  }

  lemma ReadLocal(local: seq<Local>)
    requires PlainLocal(local)
    ensures PrintLocal(local) == "" || IsLocal(PrintLocal(local))
    ensures Begins(PrintLocal(local), {'+'}, {})
  {
    if local != [] {
      var l, rest := local[0], PrintLocal(local[1..]);
      MoreLocalShape(local[1..]);
      OneMoreWord(Local('-', l.word), rest);
      var s, t := ['+'] + l.word + rest, ['-'] + l.word + rest;
      assert PrintLocal(local) == s;
      assert forall i | 1 <= i < |s| :: s[i] == t[i];
    }
  }

  lemma ReadAfterFirst(v: Parts)
    requires PlainVersion(v)
    ensures SkipTagged(SkipTagged(SkipPre(SkipRelease(AfterFirst(v))), ".post"), ".dev") == PrintLocal(v.local)
    ensures !StartsWithDigit(AfterFirst(v)) && !StartsWith(AfterFirst(v), "!")
  {
    var local := PrintLocal(v.local);
    var dev := Tagged(".dev", v.dev) + local;
    var post := Tagged(".post", v.post) + dev;
    var pre := PrintPre(v.pre) + post;
    ReadLocal(v.local);
    BeginsTagged('d', ".dev", v.dev, local, {'+'}, {});
    BeginsTagged('p', ".post", v.post, dev, {'+'}, {} + {'d'});
    assert {} + {'d'} + {'p'} == {'p', 'd'};
    BeginsPre(v.pre, post);
    ReadRelease(v.release, pre);
    ReadPre(v.pre, post);
    ReadTagged(".post", v.post, dev);
    ReadTagged(".dev", v.dev, local);
    ReleaseBegins(v.release, pre);
  }

  lemma ReleaseBegins(release: seq<string>, rest: string)
    requires AfterRelease(rest)
    ensures !StartsWith(PrintRelease(release) + rest, "!")
  {
    if release == [] {
      assert PrintRelease(release) + rest == rest;
    } else {
      assert (PrintRelease(release) + rest)[0] == '.';
    }
  }

  lemma ReadEpoch(epoch: Option<string>, first: string, rest: string)
    requires (epoch.Some? ==> Number(epoch.value)) && Number(first)
    requires !StartsWithDigit(rest) && !StartsWith(rest, "!")
    ensures SkipEpoch(PrintEpoch(epoch) + (first + rest)) == first + rest
  {
    var body := first + rest;
    var s := PrintEpoch(epoch) + body;
    if epoch.None? {
      assert s == body;
      ReadNumber(first, rest);
    } else {
      assert s == epoch.value + ("!" + body);
      ReadNumber(epoch.value, "!" + body);
      assert ("!" + body)[1..] == body;
    }
  }

  lemma PrintedIsConcrete(v: Parts, version: string)
    requires PlainVersion(v) && LowerAscii(version) == PrintParts(v)
    ensures IsConcrete(version)
  {
    ReadAfterFirst(v);
    ReadNumber(v.first, AfterFirst(v));
    ReadEpoch(v.epoch, v.first, AfterFirst(v));
    ReadLocal(v.local);
  }

  // ---------------------------------------------------------------- finding the parts

  lemma {:induction false} RunChars(s: string, p: char -> bool)
    ensures AllChars(s[..Run(s, p)], p)
    ensures Run(s, p) < |s| ==> !p(s[Run(s, p)])
  {
    if s != "" && p(s[0]) {
      RunChars(s[1..], p);
      assert s[..Run(s, p)] == [s[0]] + s[1..][..Run(s[1..], p)];
    }
  }

  /** The digits at the start, and the rest. */
  lemma FindNumber(s: string) returns (n: string)
    requires StartsWithDigit(s)
    ensures Number(n) && s == n + SkipDigits(s)
  {
    RunChars(s, IsDigit);
    n := s[..Run(s, IsDigit)];
  }

  lemma FindTagged(s: string, tag: string) returns (number: Option<string>)
    ensures number.Some? ==> Number(number.value)
    ensures s == Tagged(tag, number) + SkipTagged(s, tag)
    ensures number.Some? <==> StartsWith(s, tag) && StartsWithDigit(s[|tag|..])
  {
    number := None;
    if StartsWith(s, tag) && StartsWithDigit(s[|tag|..]) {
      var n := FindNumber(s[|tag|..]);
      assert s == tag + s[|tag|..];
      number := Some(n);
    }
  }

  lemma PrintMoreRelease(n: string, rest: seq<string>)
    ensures PrintRelease([n] + rest) == "." + n + PrintRelease(rest)
  {
    assert ([n] + rest)[1..] == rest;
  }

  lemma ReleaseStep(s: string, n: string, printed: string, end: string)
    requires StartsWith(s, ".") && s[1..] == n + (printed + end)
    ensures s == "." + n + printed + end
  {
    assert s == "." + s[1..];
  }

  lemma {:induction false} FindRelease(s: string) returns (release: seq<string>)
    ensures forall i | 0 <= i < |release| :: Number(release[i])
    ensures s == PrintRelease(release) + SkipRelease(s)
    decreases |s|
  {
    release := [];
    if StartsWith(s, ".") && StartsWithDigit(s[1..]) {
      var n := FindNumber(s[1..]);
      var rest := FindRelease(SkipDigits(s[1..]));
      release := [n] + rest;
      PrintMoreRelease(n, rest);
      ReleaseStep(s, n, PrintRelease(rest), SkipRelease(s));
    }
  }

  lemma FindPre(s: string) returns (pre: Option<Pre>)
    ensures pre.Some? ==> pre.value.tag in {"a", "b", "rc"} && Number(pre.value.number)
    ensures s == PrintPre(pre) + SkipPre(s)
  {
    var tag := if SkipTagged(s, "a") != s then "a" else if SkipTagged(s, "b") != s then "b" else "rc";
    var number := FindTagged(s, tag);
    pre := if number.None? then None else Some(Pre(tag, number.value));
  }

  lemma {:induction false} FindMoreLocal(s: string) returns (local: seq<Local>)
    requires LocalTail(s)
    ensures MoreLocal(local) && PrintLocal(local) == s
    decreases |s|
  {
    if s == "" {
      return [];
    }
    var n := 1 + Run(s[1..], LocalChar);
    RunChars(s[1..], LocalChar);
    var rest := s[n..];
    if rest != "" {
      assert rest[|rest| - 1] == s[|s| - 1];
      assert rest[0] == s[1..][n - 1];
      assert LocalChar(s[1]);
      assert |rest| > 1;
    }
    forall i | 0 <= i < |rest| - 1 ensures LocalChar(rest[i]) || LocalChar(rest[i + 1]) {
      assert rest[i] == s[n + i] && rest[i + 1] == s[n + i + 1];
    }
    var more := FindMoreLocal(rest);
    var word := s[1..n];
    assert word == s[1..][..n - 1];
    local := [Local(s[0], word)] + more;
    assert local[1..] == more;
    assert s == [s[0]] + word + rest;
  }

  lemma LocalIsTail(s: string, dashed: string)
    requires IsLocal(s) && dashed == ['-'] + s[1..]
    ensures LocalTail(dashed)
  {
    assert forall i | 1 <= i < |s| :: dashed[i] == s[i];
  }

  lemma FindLocal(s: string) returns (local: seq<Local>)
    requires s == "" || IsLocal(s)
    ensures PlainLocal(local) && PrintLocal(local) == s
  {
    if s == "" {
      return [];
    }
    var dashed := ['-'] + s[1..];
    LocalIsTail(s, dashed);
    var found := FindMoreLocal(dashed);
    local := [found[0].(separator := '+')] + found[1..];
    FirstSeparator(found, local, '+');
    assert s == ['+'] + dashed[1..];
  }

  lemma DropFirst(c: char, a: string, b: string)
    ensures ([c] + a + b)[1..] == a + b && [c] + a + b == [c] + (a + b)
  {
  }

  lemma PrintFirst(l: Local, rest: seq<Local>)
    ensures PrintLocal([l] + rest) == [l.separator] + l.word + PrintLocal(rest)
  {
    assert ([l] + rest)[1..] == rest;
  }

  lemma FirstSeparator(found: seq<Local>, local: seq<Local>, c: char)
    requires found != [] && local == [found[0].(separator := c)] + found[1..]
    ensures local[1..] == found[1..] && PrintLocal(local) == [c] + PrintLocal(found)[1..]
  {
    PrintFirst(found[0].(separator := c), found[1..]);
    DropFirst(c, found[0].word, PrintLocal(found[1..]));
    DropFirst(found[0].separator, found[0].word, PrintLocal(found[1..]));
  }

  lemma FindAfterFirst(s: string) returns (v: Parts)
    requires var rest := SkipTagged(SkipTagged(SkipPre(SkipRelease(s)), ".post"), ".dev");
             rest == "" || IsLocal(rest)
    ensures PlainVersion(v) && s == AfterFirst(v)
  {
    var t := SkipRelease(s);
    var u := SkipTagged(SkipPre(t), ".post");
    var release := FindRelease(s);
    var pre := FindPre(t);
    var post := FindTagged(SkipPre(t), ".post");
    var dev := FindTagged(u, ".dev");
    var local := FindLocal(SkipTagged(u, ".dev"));
    v := Parts(None, "0", release, pre, post, dev, local);
  }

  lemma FindEpoch(s: string) returns (epoch: Option<string>)
    ensures epoch.Some? ==> Number(epoch.value)
    ensures s == PrintEpoch(epoch) + SkipEpoch(s)
  {
    epoch := None;
    if StartsWithDigit(s) && StartsWith(SkipDigits(s), "!") {
      var e := FindNumber(s);
      epoch := Some(e);
    }
  }

  lemma FindParts(version: string) returns (v: Parts)
    requires IsConcrete(version)
    ensures PlainVersion(v) && LowerAscii(version) == PrintParts(v)
  {
    var s := SkipEpoch(LowerAscii(version));
    var epoch := FindEpoch(LowerAscii(version));
    var first := FindNumber(s);
    var after := FindAfterFirst(SkipDigits(s));
    v := after.(epoch := epoch, first := first);
    assert AfterFirst(v) == AfterFirst(after);
  }

  /**
   * A version is concrete if and only if, in lowercase, it is written from an optional epoch, numbers joined by dots,
   * an optional alpha, beta or candidate number, optional post and development numbers, and local words.
   */
  lemma ConcreteIsPrinted(version: string)
    ensures IsConcrete(version) <==> exists v :: PlainVersion(v) && LowerAscii(version) == PrintParts(v)
  {
    if IsConcrete(version) {
      var v := FindParts(version);
    }
    forall v | PlainVersion(v) && LowerAscii(version) == PrintParts(v) ensures IsConcrete(version) {
      PrintedIsConcrete(v, version);
    }
  }
}
