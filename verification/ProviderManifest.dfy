/** Provider manifests: validation and the normal form it produces. */
module ProviderManifest {
  import opened Text
  import opened Sequences
  import Sorting

  datatype Error =
    | FieldMissing | FieldTooLong | EmptyEntry
    | BadKey | BadVersion | BadSdkVersion | BadFactory | BadApiMajor
    | NoCapability | DuplicateCapability | UnsupportedCapability
    | BadNetworkPolicy | BadDataClassification
    | DuplicateCredential | BadCredential | CredentialNeedsNetwork | HomepageNotHttps

  datatype Result<+T> = Ok(value: T) | Err(error: Error)

  /** The arguments of the constructor. */
  datatype Draft = Draft(
    key: Option<string>, name: Option<string>, version: Option<string>, apiMajor: int, capabilities: seq<string>,
    factory: Option<string>, sdkVersion: Option<string>,
    description: Option<string>, homepage: Option<string>, license: Option<string>,
    networkPolicy: string, credentials: seq<string>, dataClassification: string)

  /** The fields after validation. */
  datatype Manifest = Manifest(
    key: string, name: string, version: string, apiMajor: int, capabilities: seq<string>,
    factory: string, sdkVersion: string,
    description: Option<string>, homepage: Option<string>, license: Option<string>,
    networkPolicy: string, credentials: seq<string>, dataClassification: string)

  const SUPPORTED_CAPABILITIES := {"bank", "fx", "macro", "market", "tax"}
  const NETWORK_POLICIES := {"none", "https"}
  const DATA_CLASSIFICATIONS := {"controlled-sample", "external-service", "public-reference"}

  // ---------------------------------------------------------------- patterns

  predicate LowerAlnum(c: char) { IsLower(c) || IsDigit(c) }

  /** One or more runs of lowercase letters and digits, joined by single separators. */
  predicate Runs(s: string, separators: set<char>) {
    && s != "" && LowerAlnum(s[0]) && LowerAlnum(s[|s| - 1])
    && (forall i | 0 <= i < |s| :: LowerAlnum(s[i]) || s[i] in separators)
    && (forall i | 0 <= i < |s| - 1 :: LowerAlnum(s[i]) || LowerAlnum(s[i + 1]))
  }

  /** `namespace:slug` */
  predicate IsKey(s: string) {
    var parts := Split(s, ':');
    |parts| == 2 && parts[0] != "" && AllChars(parts[0], LowerAlnum) && Runs(parts[1], {'-', '_'})
  }

  /** What follows a leading number, if there is one. */
  function AfterDigits(s: string): string {
    if s != "" && IsDigit(s[0]) then AfterDigits(s[1..]) else s
  }

  function AfterNumber(s: string): Option<string> {
    if s != "" && IsDigit(s[0]) then Some(AfterDigits(s)) else None
  }

  /** A number, and then a dot. */
  function AfterNumberDot(s: string): Option<string> {
    var rest := AfterNumber(s);
    if rest.Some? && StartsWith(rest.value, ".") then Some(rest.value[1..]) else None
  }

  predicate SuffixChar(c: char) { IsDigit(c) || IsLetter(c) || c == '.' || c == '-' }

  predicate IsVersionSuffix(s: string) {
    s == "" || (|s| > 1 && s[0] in {'-', '+'} && AllChars(s[1..], SuffixChar))
  }

  /** Three numbers and an optional suffix. */
  predicate IsVersion(s: string) {
    var minor := AfterNumberDot(s);
    minor.Some? &&
    var patch := AfterNumberDot(minor.value);
    patch.Some? &&
    var suffix := AfterNumber(patch.value);
    suffix.Some? && IsVersionSuffix(suffix.value)
  }

  predicate IsSdkVersion(s: string) {
    var minor := AfterNumberDot(s);
    minor.Some? && AfterNumber(minor.value) == Some("")
  }

  predicate IdentifierStart(c: char) { IsLetter(c) || c == '_' }

  predicate IdentifierChar(c: char) { IdentifierStart(c) || IsDigit(c) }

  predicate IsIdentifier(s: string) {
    s != "" && IdentifierStart(s[0]) && AllChars(s, IdentifierChar)
  }

  predicate IsEnvironmentName(s: string) {
    && 0 < |s| <= 128 && IsUpper(s[0])
    && forall i | 0 <= i < |s| :: IsUpper(s[i]) || IsDigit(s[i]) || s[i] == '_'
  }

  // ---------------------------------------------------------------- normalisation

  function NormaliseText(value: Option<string>, maximum: nat, required: bool): Result<Option<string>> {
    if value.None? then (if required then Err(FieldMissing) else Ok(None))
    else
      var cleaned := Strip(value.value);
      if required && cleaned == "" then Err(FieldMissing)
      else if cleaned == "" then Ok(None)
      else if |cleaned| > maximum then Err(FieldTooLong)
      else Ok(Some(cleaned))
  }

  function StripAll(values: seq<string>): (r: seq<string>)
    ensures |r| == |values|
    ensures forall i | 0 <= i < |values| :: r[i] == Strip(values[i])
  {
    seq(|values|, i requires 0 <= i < |values| => Strip(values[i]))
  }

  function NormaliseValues(values: seq<string>): Result<seq<string>> {
    if "" in StripAll(values) then Err(EmptyEntry) else Ok(Sorting.Sort(StripAll(values), Sorting.StringLeq))
  }

  method CollectValues(values: seq<string>) returns (r: Result<seq<string>>)
    ensures r == NormaliseValues(values)
  {
    var cleaned := [];
    for k := 0 to |values|
      invariant cleaned == StripAll(values)[..k] && "" !in cleaned
    {
      var item := Strip(values[k]);
      assert item == StripAll(values)[k];
      if item == "" {
        return Err(EmptyEntry);
      }
      cleaned := cleaned + [item];
    }
    assert cleaned == StripAll(values);
    return Ok(Sorting.Sort(cleaned, Sorting.StringLeq));
  }

  type Cleaned = Result<Option<string>>

  /** The pattern checks on the required fields, the key's before the others are looked at. */
  function CheckFields(key: Cleaned, name: Cleaned, version: Cleaned, factory: Cleaned, sdk: Cleaned,
                       apiMajor: int): Option<Error>
  {
    if key.Err? then Some(key.error)
    else if key.value.None? || !IsKey(key.value.value) then Some(BadKey)
    else if name.Err? then Some(name.error)
    else if version.Err? then Some(version.error)
    else if factory.Err? then Some(factory.error)
    else if sdk.Err? then Some(sdk.error)
    else if version.value.None? || !IsVersion(version.value.value) then Some(BadVersion)
    else if sdk.value.None? || !IsSdkVersion(sdk.value.value) then Some(BadSdkVersion)
    else if factory.value.None? || !IsIdentifier(factory.value.value) then Some(BadFactory)
    else if !(0 <= apiMajor <= 999) then Some(BadApiMajor)
    else None
  }

  function CheckIdentity(d: Draft): Option<Error> {
    CheckFields(NormaliseText(d.key, 96, true), NormaliseText(d.name, 128, true), NormaliseText(d.version, 64, true),
                NormaliseText(d.factory, 64, true), NormaliseText(d.sdkVersion, 16, true), d.apiMajor)
  }

  /** The cleaned text of a field that is known to be there. */
  function Clean(value: Option<string>): string {
    if value.Some? then Strip(value.value) else ""
  }

  function CheckCapabilities(values: seq<string>): Result<seq<string>> {
    var capabilities := NormaliseValues(values);
    if capabilities.Err? then capabilities
    else if capabilities.value == [] then Err(NoCapability)
    else if !Distinct(capabilities.value) then Err(DuplicateCapability)
    else if exists i | 0 <= i < |capabilities.value| :: capabilities.value[i] !in SUPPORTED_CAPABILITIES
      then Err(UnsupportedCapability)
    else capabilities
  }

  function CheckCredentialNames(names: seq<string>, networkPolicy: string): Option<Error> {
    if !Distinct(names) then Some(DuplicateCredential)
    else if exists i | 0 <= i < |names| :: !IsEnvironmentName(names[i]) then Some(BadCredential)
    else if names != [] && networkPolicy == "none" then Some(CredentialNeedsNetwork)
    else None
  }

  function CheckCredentials(values: seq<string>, networkPolicy: string): Result<seq<string>> {
    var credentials := if values == [] then Ok([]) else NormaliseValues(values);
    if credentials.Err? then credentials
    else
      var error := CheckCredentialNames(credentials.value, networkPolicy);
      if error.Some? then Err(error.value) else credentials
  }

  function CheckTexts(d: Draft): Result<(Option<string>, Option<string>, Option<string>)> {
    var description, homepage := NormaliseText(d.description, 512, false), NormaliseText(d.homepage, 256, false);
    var license := NormaliseText(d.license, 64, false);
    if description.Err? then Err(description.error)
    else if homepage.Err? then Err(homepage.error)
    else if license.Err? then Err(license.error)
    else if homepage.value.Some? && !StartsWith(homepage.value.value, "https://") then Err(HomepageNotHttps)
    else Ok((description.value, homepage.value, license.value))
  }

  function Build(d: Draft): Result<Manifest> {
    var identity := CheckIdentity(d);
    if identity.Some? then Err(identity.value)
    else
      var capabilities := CheckCapabilities(d.capabilities);
      if capabilities.Err? then Err(capabilities.error)
      else if d.networkPolicy !in NETWORK_POLICIES then Err(BadNetworkPolicy)
      else if d.dataClassification !in DATA_CLASSIFICATIONS then Err(BadDataClassification)
      else
        var credentials := CheckCredentials(d.credentials, d.networkPolicy);
        if credentials.Err? then Err(credentials.error)
        else
          var texts := CheckTexts(d);
          if texts.Err? then Err(texts.error)
          else
            Ok(Manifest(Clean(d.key), Clean(d.name), Clean(d.version), d.apiMajor, capabilities.value,
                        Clean(d.factory), Clean(d.sdkVersion), texts.value.0, texts.value.1, texts.value.2,
                        d.networkPolicy, credentials.value, d.dataClassification))
  }

  /** `to_dict`, read as constructor arguments again. */
  function ToDraft(m: Manifest): Draft {
    Draft(Some(m.key), Some(m.name), Some(m.version), m.apiMajor, m.capabilities, Some(m.factory), Some(m.sdkVersion),
          m.description, m.homepage, m.license, m.networkPolicy, m.credentials, m.dataClassification)
  }

  // ---------------------------------------------------------------- normal form

  lemma NormaliseTextFixed(value: Option<string>, maximum: nat, required: bool)
    requires NormaliseText(value, maximum, required).Ok?
    ensures var n := NormaliseText(value, maximum, required).value;
            NormaliseText(n, maximum, required) == Ok(n) && (required ==> n.Some?)
  {
    if value.Some? {
      StripIdempotent(value.value);
    }
  }

  lemma NormaliseValuesFixed(values: seq<string>)
    requires NormaliseValues(values).Ok?
    ensures NormaliseValues(NormaliseValues(values).value) == NormaliseValues(values)
    ensures |NormaliseValues(values).value| == |values|
  {
    var stripped := StripAll(values);
    var sorted := Sorting.Sort(stripped, Sorting.StringLeq);
    Sorting.StringOrder();
    Sorting.SortKeepsElements(stripped, Sorting.StringLeq);
    Sorting.SortOrders(stripped, Sorting.StringLeq);
    forall i | 0 <= i < |sorted| ensures Strip(sorted[i]) == sorted[i] && sorted[i] != "" {
      assert sorted[i] in multiset(stripped);
      var j :| 0 <= j < |stripped| && stripped[j] == sorted[i];
      StripIdempotent(values[j]);
    }
    assert StripAll(sorted) == sorted;
    Sorting.SortFixed(sorted, Sorting.StringLeq);
  }

  lemma CapabilitiesFixed(values: seq<string>)
    requires CheckCapabilities(values).Ok?
    ensures CheckCapabilities(CheckCapabilities(values).value) == CheckCapabilities(values)
  {
    NormaliseValuesFixed(values);
  }

  lemma CredentialsFixed(values: seq<string>, networkPolicy: string)
    requires CheckCredentials(values, networkPolicy).Ok?
    ensures CheckCredentials(CheckCredentials(values, networkPolicy).value, networkPolicy) ==
              CheckCredentials(values, networkPolicy)
  {
    if values != [] {
      NormaliseValuesFixed(values);
    }
  }

  lemma CleanFixed(value: Option<string>, maximum: nat)
    ensures Clean(Some(Clean(value))) == Clean(value)
    ensures NormaliseText(value, maximum, true).Ok? ==>
              NormaliseText(Some(Clean(value)), maximum, true) == NormaliseText(value, maximum, true)
  {
    if value.Some? {
      StripIdempotent(value.value);
    }
    StripFixed("");
  }

  lemma IdentityTexts(d: Draft)
    requires CheckIdentity(d).None?
    ensures NormaliseText(d.key, 96, true).Ok? && NormaliseText(d.name, 128, true).Ok? &&
              NormaliseText(d.version, 64, true).Ok?
    ensures NormaliseText(d.factory, 64, true).Ok? && NormaliseText(d.sdkVersion, 16, true).Ok?
  {
  }

  lemma CleanIdentityFixed(d: Draft, e: Draft)
    requires CheckIdentity(d).None?
    requires e.key == Some(Clean(d.key)) && e.name == Some(Clean(d.name)) && e.version == Some(Clean(d.version))
    requires e.factory == Some(Clean(d.factory)) && e.sdkVersion == Some(Clean(d.sdkVersion)) &&
               e.apiMajor == d.apiMajor
    ensures CheckIdentity(e).None?
    ensures Clean(e.key) == Clean(d.key) && Clean(e.name) == Clean(d.name) && Clean(e.version) == Clean(d.version)
    ensures Clean(e.factory) == Clean(d.factory) && Clean(e.sdkVersion) == Clean(d.sdkVersion)
  {
    IdentityTexts(d);
    CleanFixed(d.key, 96);
    CleanFixed(d.name, 128);
    CleanFixed(d.version, 64);
    CleanFixed(d.factory, 64);
    CleanFixed(d.sdkVersion, 16);
    assert CheckIdentity(e) == CheckFields(NormaliseText(d.key, 96, true), NormaliseText(d.name, 128, true),
      NormaliseText(d.version, 64, true), NormaliseText(d.factory, 64, true), NormaliseText(d.sdkVersion, 16, true),
      d.apiMajor);
  }

  lemma TextsFixed(d: Draft, m: Manifest)
    requires Build(d) == Ok(m)
    ensures CheckTexts(ToDraft(m)) == CheckTexts(d)
  {
    NormaliseTextFixed(d.description, 512, false);
    NormaliseTextFixed(d.homepage, 256, false);
    NormaliseTextFixed(d.license, 64, false);
  }

  /** Rebuilding a manifest from its own dictionary gives the same manifest. */
  lemma RebuildIsIdentity(d: Draft)
    requires Build(d).Ok?
    ensures Build(ToDraft(Build(d).value)) == Build(d)
  {
    var m := Build(d).value;
    CleanIdentityFixed(d, ToDraft(m));
    TextsFixed(d, m);
    CapabilitiesFixed(d.capabilities);
    CredentialsFixed(d.credentials, d.networkPolicy);
  }

  lemma NormaliseValuesForgetOrder(a: seq<string>, b: seq<string>)
    requires multiset(StripAll(a)) == multiset(StripAll(b))
    ensures NormaliseValues(a) == NormaliseValues(b)
    ensures a == [] <==> b == []
  {
    assert |multiset(StripAll(a))| == |a| && |multiset(StripAll(b))| == |b|;
    assert "" in StripAll(a) <==> "" in multiset(StripAll(a));
    assert "" in StripAll(b) <==> "" in multiset(StripAll(b));
    Sorting.StringOrder();
    Sorting.SortForgetsOrder(StripAll(a), StripAll(b), Sorting.StringLeq);
  }

  /**
   * Reordering capabilities and credential names, or padding them with white space, gives the same manifest or the
   * same error.
   */
  lemma OrderAndPaddingIrrelevant(a: Draft, b: Draft)
    requires b == a.(capabilities := b.capabilities, credentials := b.credentials)
    requires multiset(StripAll(a.capabilities)) == multiset(StripAll(b.capabilities))
    requires multiset(StripAll(a.credentials)) == multiset(StripAll(b.credentials))
    ensures Build(a) == Build(b)
  {
    NormaliseValuesForgetOrder(a.capabilities, b.capabilities);
    NormaliseValuesForgetOrder(a.credentials, b.credentials);
    assert CheckIdentity(a) == CheckIdentity(b);
    assert CheckTexts(a) == CheckTexts(b);
    assert CheckCapabilities(a.capabilities) == CheckCapabilities(b.capabilities);
    assert CheckCredentials(a.credentials, a.networkPolicy) == CheckCredentials(b.credentials, a.networkPolicy);
  }

  // ---------------------------------------------------------------- what acceptance guarantees

  /** Strictly ascending: sorted and without repetition. */
  ghost predicate StrictlyAscending(s: seq<string>) {
    forall i, j | 0 <= i < j < |s| :: Sorting.StringLeq(s[i], s[j]) && s[i] != s[j]
  }

  lemma NormalisedAreOrdered(values: seq<string>)
    requires NormaliseValues(values).Ok? && Distinct(NormaliseValues(values).value)
    ensures StrictlyAscending(NormaliseValues(values).value)
  {
    Sorting.StringOrder();
    Sorting.SortOrders(StripAll(values), Sorting.StringLeq);
  }

  lemma {:induction false} DistinctWithin(s: seq<string>, within: set<string>)
    requires Distinct(s) && forall i | 0 <= i < |s| :: s[i] in within
    ensures |s| <= |within|
    decreases |s|
  {
    if s != [] {
      var n := |s| - 1;
      forall i | 0 <= i < n ensures s[..n][i] in within - {s[n]} {
        assert s[i] != s[n];
      }
      DistinctWithin(s[..n], within - {s[n]});
    }
  }

  lemma CapabilityList(values: seq<string>)
    requires CheckCapabilities(values).Ok?
    ensures var list := CheckCapabilities(values).value;
            && StrictlyAscending(list) && 1 <= |list| <= 5
            && forall i | 0 <= i < |list| :: list[i] in SUPPORTED_CAPABILITIES
  {
    NormalisedAreOrdered(values);
    DistinctWithin(CheckCapabilities(values).value, SUPPORTED_CAPABILITIES);
    SupportedCount();
  }

  lemma CredentialList(values: seq<string>, networkPolicy: string)
    requires CheckCredentials(values, networkPolicy).Ok?
    ensures var list := CheckCredentials(values, networkPolicy).value;
            StrictlyAscending(list) && (list != [] ==> networkPolicy != "none")
  {
    if values != [] {
      NormalisedAreOrdered(values);
    }
  }

  /**
   * An accepted manifest lists one to five capabilities, all supported, in strictly ascending order; credentials
   * likewise ascend and need a network.
   */
  lemma AcceptedLists(d: Draft)
    requires Build(d).Ok?
    ensures var m := Build(d).value;
            && StrictlyAscending(m.capabilities) && 1 <= |m.capabilities| <= 5
            && (forall i | 0 <= i < |m.capabilities| :: m.capabilities[i] in SUPPORTED_CAPABILITIES)
            && StrictlyAscending(m.credentials) && (m.credentials != [] ==> m.networkPolicy == "https")
  {
    CapabilityList(d.capabilities);
    CredentialList(d.credentials, d.networkPolicy);
  }

  lemma SupportedCount()
    ensures |SUPPORTED_CAPABILITIES| <= 5
  {
    SmallSet("bank", {"fx", "macro", "market", "tax"});
    SmallSet("fx", {"macro", "market", "tax"});
    SmallSet("macro", {"market", "tax"});
    SmallSet("market", {"tax"});
    assert SUPPORTED_CAPABILITIES == {"bank"} + {"fx", "macro", "market", "tax"};
    assert {"fx", "macro", "market", "tax"} == {"fx"} + {"macro", "market", "tax"};
    assert {"macro", "market", "tax"} == {"macro"} + {"market", "tax"};
    assert {"market", "tax"} == {"market"} + {"tax"};
  }

  lemma SmallSet(x: string, rest: set<string>)
    ensures |{x} + rest| <= 1 + |rest|
  {
  }

  // ---------------------------------------------------------------- patterns, as texts are written

  predicate Number(s: string) {
    s != "" && AllChars(s, IsDigit)
  }

  lemma {:induction false} SkipNumber(n: string, rest: string)
    requires AllChars(n, IsDigit) && (rest == "" || !IsDigit(rest[0]))
    ensures AfterDigits(n + rest) == rest
  {
    if n == "" {
      assert n + rest == rest;
    } else {
      assert (n + rest)[1..] == n[1..] + rest;
      SkipNumber(n[1..], rest);
    }
  }

  lemma {:induction false} FindDigits(s: string) returns (n: string)
    ensures AllChars(n, IsDigit) && s == n + AfterDigits(s)
    ensures s != "" && IsDigit(s[0]) ==> n != ""
  {
    n := "";
    if s != "" && IsDigit(s[0]) {
      var more := FindDigits(s[1..]);
      n := [s[0]] + more;
      Regrouped([s[0]], more, AfterDigits(s));
      assert s == [s[0]] + s[1..];
    }
  }

  lemma ReadNumberDot(n: string, rest: string)
    requires Number(n)
    ensures AfterNumberDot(n + ("." + rest)) == Some(rest)
  {
    SkipNumber(n, "." + rest);
    assert ("." + rest)[1..] == rest;
  }

  lemma FindNumberDot(s: string) returns (n: string)
    requires AfterNumberDot(s).Some?
    ensures Number(n) && s == n + ("." + AfterNumberDot(s).value)
  {
    n := FindDigits(s);
    assert AfterDigits(s) == "." + AfterDigits(s)[1..];
  }

  function PrintVersion(major: string, minor: string, patch: string, suffix: string): string {
    major + ("." + (minor + ("." + (patch + suffix))))
  }

  lemma ReadVersion(major: string, minor: string, patch: string, suffix: string)
    requires Number(major) && Number(minor) && Number(patch) && IsVersionSuffix(suffix)
    ensures IsVersion(PrintVersion(major, minor, patch, suffix))
  {
    ReadNumberDot(major, minor + ("." + (patch + suffix)));
    ReadNumberDot(minor, patch + suffix);
    SkipNumber(patch, suffix);
  }

  lemma FindVersion(s: string) returns (major: string, minor: string, patch: string, suffix: string)
    requires IsVersion(s)
    ensures Number(major) && Number(minor) && Number(patch) && IsVersionSuffix(suffix)
    ensures s == PrintVersion(major, minor, patch, suffix)
  {
    var t := AfterNumberDot(s).value;
    var u := AfterNumberDot(t).value;
    major := FindNumberDot(s);
    minor := FindNumberDot(t);
    patch := FindDigits(u);
    suffix := AfterDigits(u);
  }

  /** A version is three numbers joined by dots, and an optional suffix behind a hyphen or plus sign. */
  lemma VersionIsPrinted(s: string)
    ensures IsVersion(s) <==>
              exists major, minor, patch, suffix ::
                && Number(major) && Number(minor) && Number(patch) && IsVersionSuffix(suffix)
                && s == PrintVersion(major, minor, patch, suffix)
  {
    if IsVersion(s) {
      var major, minor, patch, suffix := FindVersion(s);
    }
    forall major, minor, patch, suffix |
      && Number(major) && Number(minor) && Number(patch) && IsVersionSuffix(suffix)
      && s == PrintVersion(major, minor, patch, suffix)
      ensures IsVersion(s)
    {
      ReadVersion(major, minor, patch, suffix);
    }
  }

  function PrintSdkVersion(major: string, minor: string): string {
    major + ("." + minor)
  }

  lemma SdkVersionIsPrinted(s: string)
    ensures IsSdkVersion(s) <==>
              exists major, minor :: Number(major) && Number(minor) && s == PrintSdkVersion(major, minor)
  {
    if IsSdkVersion(s) {
      var major := FindNumberDot(s);
      var minor := FindDigits(AfterNumberDot(s).value);
      assert minor + "" == minor;
      assert s == PrintSdkVersion(major, minor);
    }
    forall major, minor | Number(major) && Number(minor) && s == PrintSdkVersion(major, minor) ensures IsSdkVersion(s) {
      ReadNumberDot(major, minor);
      SkipNumber(minor, "");
      assert minor + "" == minor;
    }
  }

  /** A key is written as a namespace of lowercase letters and digits, a colon, and a slug. */
  lemma KeyIsPrinted(s: string)
    ensures IsKey(s) <==>
              exists namespace, slug ::
                && namespace != "" && AllChars(namespace, LowerAlnum) && Runs(slug, {'-', '_'})
                && s == namespace + [':'] + slug
  {
    if IsKey(s) {
      var parts := Split(s, ':');
      JoinSplit(s, ':');
      assert parts[1..] == [parts[1]];
      assert s == parts[0] + [':'] + parts[1];
    }
    forall namespace, slug |
      && namespace != "" && AllChars(namespace, LowerAlnum) && Runs(slug, {'-', '_'})
      && s == namespace + [':'] + slug
      ensures IsKey(s)
    {
      assert ':' !in namespace && ':' !in slug;
      SplitHead(namespace, slug, ':');
      SplitPlain(slug, ':');
    }
  }

  // ---------------------------------------------------------------- which drafts are accepted

  /** A required field: there, not blank, and not too long without the white space around it. */
  predicate Filled(value: Option<string>, maximum: nat) {
    value.Some? && 1 <= |Strip(value.value)| <= maximum
  }

  predicate AtMost(value: Option<string>, maximum: nat) {
    value.Some? ==> |Strip(value.value)| <= maximum
  }

  /** An optional text: blank is as good as left out. */
  function Kept(value: Option<string>): Option<string> {
    if Clean(value) == "" then None else Some(Clean(value))
  }

  predicate GoodIdentity(d: Draft) {
    && Filled(d.key, 96) && IsKey(Clean(d.key)) && Filled(d.name, 128)
    && Filled(d.version, 64) && IsVersion(Clean(d.version))
    && Filled(d.factory, 64) && IsIdentifier(Clean(d.factory))
    && Filled(d.sdkVersion, 16) && IsSdkVersion(Clean(d.sdkVersion)) && 0 <= d.apiMajor <= 999
  }

  predicate GoodCapabilities(values: seq<string>) {
    && values != [] && Distinct(StripAll(values))
    && forall v | v in StripAll(values) :: v in SUPPORTED_CAPABILITIES
  }

  predicate GoodCredentials(values: seq<string>, networkPolicy: string) {
    && Distinct(StripAll(values)) && (values != [] ==> networkPolicy == "https")
    && forall v | v in StripAll(values) :: IsEnvironmentName(v)
  }

  predicate GoodTexts(d: Draft) {
    && AtMost(d.description, 512) && AtMost(d.homepage, 256) && AtMost(d.license, 64)
    && (Clean(d.homepage) != "" ==> StartsWith(Clean(d.homepage), "https://"))
  }

  lemma IdentityDecides(d: Draft)
    ensures CheckIdentity(d).None? <==> GoodIdentity(d)
  {
  }

  lemma TextsDecide(d: Draft)
    ensures CheckTexts(d).Ok? <==> GoodTexts(d)
  {
  }

  lemma SortedHas(values: seq<string>)
    requires NormaliseValues(values).Ok?
    ensures multiset(NormaliseValues(values).value) == multiset(StripAll(values))
    ensures forall v :: v in NormaliseValues(values).value <==> v in StripAll(values)
    ensures Distinct(NormaliseValues(values).value) <==> Distinct(StripAll(values))
    ensures |NormaliseValues(values).value| == |values|
  {
    var stripped := StripAll(values);
    var sorted := NormaliseValues(values).value;
    Sorting.SortKeepsElements(stripped, Sorting.StringLeq);
    DistinctForgetsOrder(stripped, sorted);
    forall v ensures v in sorted <==> v in stripped {
      assert v in sorted <==> v in multiset(sorted);
      assert v in stripped <==> v in multiset(stripped);
    }
    assert |multiset(sorted)| == |multiset(stripped)|;
  }

  lemma EmptyIsUnsupported()
    ensures "" !in SUPPORTED_CAPABILITIES && !IsEnvironmentName("")
  {
  }

  lemma CapabilitiesDecide(values: seq<string>)
    ensures CheckCapabilities(values).Ok? <==> GoodCapabilities(values)
  {
    EmptyIsUnsupported();
    if NormaliseValues(values).Ok? {
      SortedHas(values);
      var sorted := NormaliseValues(values).value;
      assert forall i | 0 <= i < |sorted| :: sorted[i] in sorted;
    }
  }

  lemma CredentialsDecide(values: seq<string>, networkPolicy: string)
    requires networkPolicy in NETWORK_POLICIES
    ensures CheckCredentials(values, networkPolicy).Ok? <==> GoodCredentials(values, networkPolicy)
  {
    EmptyIsUnsupported();
    if values != [] && NormaliseValues(values).Ok? {
      SortedHas(values);
      var sorted := NormaliseValues(values).value;
      assert forall i | 0 <= i < |sorted| :: sorted[i] in sorted;
    }
  }

  /** A draft is accepted if and only if every field, as written or without white space around it, is in order. */
  lemma AcceptedMeans(d: Draft)
    ensures Build(d).Ok? <==>
              && GoodIdentity(d) && GoodCapabilities(d.capabilities) && GoodTexts(d)
              && d.networkPolicy in NETWORK_POLICIES && d.dataClassification in DATA_CLASSIFICATIONS
              && GoodCredentials(d.credentials, d.networkPolicy)
  {
    IdentityDecides(d);
    TextsDecide(d);
    CapabilitiesDecide(d.capabilities);
    if d.networkPolicy in NETWORK_POLICIES {
      CredentialsDecide(d.credentials, d.networkPolicy);
    }
  }

  lemma TextsKept(d: Draft)
    requires CheckTexts(d).Ok?
    ensures CheckTexts(d).value == (Kept(d.description), Kept(d.homepage), Kept(d.license))
  {
  }

  /** An accepted manifest says what the draft says, without white space around it and in order. */
  lemma AcceptedSays(d: Draft)
    requires Build(d).Ok?
    ensures var m := Build(d).value;
            && m.key == Clean(d.key) && m.name == Clean(d.name) && m.version == Clean(d.version)
            && m.factory == Clean(d.factory) && m.sdkVersion == Clean(d.sdkVersion) && m.apiMajor == d.apiMajor
            && multiset(m.capabilities) == multiset(StripAll(d.capabilities))
            && multiset(m.credentials) == multiset(StripAll(d.credentials))
            && m.networkPolicy == d.networkPolicy && m.dataClassification == d.dataClassification
            && m.description == Kept(d.description) && m.homepage == Kept(d.homepage)
            && m.license == Kept(d.license)
  {
    TextsKept(d);
    SortedHas(d.capabilities);
    if d.credentials != [] {
      SortedHas(d.credentials);
    }
  }

  // ---------------------------------------------------------------- keys and the smallest manifest

  /**
   * A key is lowercase letters, digits and separators, starts and ends with a letter or digit, and no two
   * separators meet.
   */
  lemma KeyShape(key: string)
    requires IsKey(key)
    ensures Runs(key, {':', '-', '_'})
  {
    var parts := Split(key, ':');
    JoinSplit(key, ':');
    var ns, slug := parts[0], parts[1];
    assert parts[1..] == [slug];
    assert key == ns + [':'] + slug;
    forall i | 0 <= i < |key| ensures LowerAlnum(key[i]) || key[i] in {':', '-', '_'} {
      if i < |ns| {
        assert key[i] == ns[i];
      } else if i > |ns| {
        assert key[i] == slug[i - |ns| - 1];
      }
    }
    forall i | 0 <= i < |key| - 1 ensures LowerAlnum(key[i]) || LowerAlnum(key[i + 1]) {
      if i < |ns| {
        assert key[i] == ns[i];
      } else if i == |ns| {
        assert key[i + 1] == slug[0];
      } else {
        assert key[i] == slug[i - |ns| - 1] && key[i + 1] == slug[i - |ns|];
      }
    }
  }

  /** Besides its key and capability the draft says as little as it may. */
  function Smallest(key: string, capability: string): Draft {
    Draft(Some(key), Some("n"), Some("1.0.0"), 1, [capability], Some("F"), Some("1.0"), None, None, None, "none", [],
          "public-reference")
  }

  lemma ShortKeys()
    ensures IsKey("a:b") && IsKey("1:b")
  {
    assert "a:b" == "a" + [':'] + "b" && "1:b" == "1" + [':'] + "b";
    SplitHead("a", "b", ':');
    SplitHead("1", "b", ':');
    SplitPlain("b", ':');
  }

  lemma SmallestVersions()
    ensures IsVersion("1.0.0") && IsSdkVersion("1.0")
  {
    assert AfterDigits("1.0.0") == ".0.0" by { assert "1.0.0"[1..] == ".0.0"; }
    assert ".0.0"[1..] == "0.0";
    assert AfterDigits("0.0") == ".0" by { assert "0.0"[1..] == ".0"; }
    assert ".0"[1..] == "0";
    assert AfterDigits("0") == "" by { assert "0"[1..] == ""; }
    assert AfterDigits("1.0") == ".0" by { assert "1.0"[1..] == ".0"; }
    assert ".0.0"[..1] == "." && ".0"[..1] == ".";
    assert AfterNumberDot("1.0.0") == Some("0.0") && AfterNumberDot("0.0") == Some("0");
    assert AfterNumberDot("1.0") == Some("0");
  }

  lemma SmallestTexts()
    ensures Strip("n") == "n" && Strip("1.0.0") == "1.0.0" && Strip("F") == "F" && Strip("1.0") == "1.0"
  {
    StripFixed("n");
    StripFixed("1.0.0");
    StripFixed("F");
    StripFixed("1.0");
  }

  lemma KeyIsTrimmed(key: string)
    requires IsKey(key)
    ensures key != "" && Strip(key) == key
  {
    KeyShape(key);
    StripFixed(key);
  }

  lemma SmallestIdentity(key: string, capability: string)
    requires IsKey(key) && |key| <= 96
    ensures CheckIdentity(Smallest(key, capability)).None?
  {
    KeyIsTrimmed(key);
    SmallestVersions();
    SmallestTexts();
    assert IsIdentifier("F");
  }

  lemma SmallestCapabilities(capability: string)
    requires capability in SUPPORTED_CAPABILITIES
    ensures CheckCapabilities([capability]) == Ok([capability])
  {
    assert Trimmed(capability) && capability != "";
    StripFixed(capability);
    assert StripAll([capability]) == [capability];
    assert [capability][1..] == [];
    assert Sorting.Sort([capability], Sorting.StringLeq) == [capability];
  }

  /** There is an accepted manifest for every key of at most 96 characters and every supported capability. */
  lemma SmallestHasKey(key: string, capability: string)
    requires IsKey(key) && |key| <= 96 && capability in SUPPORTED_CAPABILITIES
    ensures Build(Smallest(key, capability)).Ok?
    ensures Build(Smallest(key, capability)).value.key == key
    ensures Build(Smallest(key, capability)).value.capabilities == [capability]
  {
    SmallestIdentity(key, capability);
    SmallestCapabilities(capability);
    KeyIsTrimmed(key);
    assert CheckCredentials([], "none") == Ok([]);
    assert CheckTexts(Smallest(key, capability)).Ok?;
  }
}
