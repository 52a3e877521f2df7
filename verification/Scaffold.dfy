/** Generated provider projects, and the metadata checks of the build backend that must accept them. */
module Scaffold {
  import opened Text
  import opened ProviderManifest
  import Artifacts
  import SdistBuilder
  import Sorting

  const SDK_NAME := "modular-accounting-provider-sdk"
  const SDK_REQUIREMENT := "modular-accounting-provider-sdk==0.5.0"
  const BACKEND := "modular_accounting_provider_sdk.build_backend"
  const PYTHON_REQUIREMENT := ">=3.12"

  /** The tables of a project file the backend looks at. */
  datatype Project = Project(
    name: string, version: string, requiresPython: string, dependencies: seq<string>,
    buildRequires: seq<string>, buildBackend: string,
    key: string, modulePath: string, capabilities: seq<string>)

  // ---------------------------------------------------------------- scaffold

  predicate PackageStart(c: char) { IsLower(c) || c == '_' }

  predicate PackageChar(c: char) { PackageStart(c) || IsDigit(c) }

  predicate IsPackage(s: string) {
    s != "" && PackageStart(s[0]) && AllChars(s, PackageChar)
  }

  function NormaliseProviderPackage(key: string): Option<string> {
    var package := Replace(Replace(key, ':', '_'), '-', '_');
    if IsPackage(package) then Some(package) else None
  }

  function NormaliseDistributionName(value: string): Option<string> {
    var distribution := Replace(LowerAscii(Strip(value)), '_', '-');
    if |distribution| > 96 || !Runs(distribution, {'-'}) then None else Some(distribution)
  }

  /** An argument that is absent or empty falls back to the derived name. */
  function Given(argument: Option<string>): Option<string> {
    if argument.Some? && argument.value != "" then argument else None
  }

  function ScaffoldProject(m: Manifest, package: Option<string>, distribution: Option<string>): Option<Project> {
    var packageName := if Given(package).Some? then package else NormaliseProviderPackage(m.key);
    if packageName.None? || !IsPackage(packageName.value) || |packageName.value| > 96 then None
    else
      var wanted := if Given(distribution).Some? then distribution.value else Replace(packageName.value, '_', '-');
      var distributionName := NormaliseDistributionName(wanted);
      if distributionName.None? then None
      else
        Some(Project(distributionName.value, m.version, PYTHON_REQUIREMENT, [SDK_REQUIREMENT],
                     [SDK_REQUIREMENT], BACKEND, m.key, packageName.value + ".provider", m.capabilities))
  }

  // ---------------------------------------------------------------- backend

  function ValidateProviderModule(value: string): Option<string> {
    var modulePath := Strip(value);
    if modulePath == "" || |modulePath| > 256 || Artifacts.HasControl(modulePath)
      || '/' in modulePath || '\\' in modulePath || ':' in modulePath
    then None
    else
      var segments := Split(modulePath, '.');
      if |segments| < 2 || segments[|segments| - 1] != "provider" ||
        exists i | 0 <= i < |segments| :: !IsIdentifier(segments[i])
      then None
      else Some(modulePath)
  }

  datatype ProviderMetadata = ProviderMetadata(name: string, version: string, modulePath: string, key: string,
                                               capabilities: seq<string>)

  function CheckMetadata(p: Project): Option<ProviderMetadata> {
    if !Runs(p.name, {'-'}) || !IsVersion(p.version) || p.requiresPython != PYTHON_REQUIREMENT then None
    else if p.name == SDK_NAME || p.dependencies != [SDK_REQUIREMENT] then None
    else if p.buildBackend != BACKEND || p.buildRequires != [SDK_REQUIREMENT] then None
    else
      var modulePath := ValidateProviderModule(p.modulePath);
      if modulePath.None? then None
      else if p.key == "" || |p.key| > 96 then None
      else if p.capabilities == [] || "" in p.capabilities then None
      else Some(ProviderMetadata(p.name, p.version, modulePath.value, p.key,
                                 Sorting.Sort(p.capabilities, Sorting.StringLeq)))
  }

  // ---------------------------------------------------------------- what the scaffold guarantees

  lemma PackageIsIdentifier(package: string)
    requires IsPackage(package)
    ensures IsIdentifier(package) && '.' !in package
  {
    forall i | 0 <= i < |package| ensures IdentifierChar(package[i]) && package[i] != '.' {
      assert PackageChar(package[i]);
    }
  }

  lemma ModuleSegments(package: string)
    requires IsPackage(package)
    ensures Split(package + ".provider", '.') == [package, "provider"]
  {
    assert package + ".provider" == package + ['.'] + "provider";
    PackageIsIdentifier(package);
    SplitHead(package, "provider", '.');
    SplitPlain("provider", '.');
  }

  lemma ModuleChars(package: string)
    requires IsPackage(package)
    ensures Strip(package + ".provider") == package + ".provider"
    ensures forall i | 0 <= i < |package + ".provider"| ::
              !Artifacts.IsControl((package + ".provider")[i]) && (package + ".provider")[i] !in {'/', '\\', ':'}
  {
    var modulePath := package + ".provider";
    StripFixed(modulePath);
    forall i | 0 <= i < |modulePath| ensures !Artifacts.IsControl(modulePath[i]) && modulePath[i] !in {'/', '\\', ':'} {
      if i < |package| {
        assert PackageChar(package[i]);
      }
    }
  }

  lemma PackageModuleIsValid(package: string)
    requires IsPackage(package) && |package| <= 96
    ensures ValidateProviderModule(package + ".provider") == Some(package + ".provider")
  {
    ModuleChars(package);
    ModuleSegments(package);
    PackageIsIdentifier(package);
    assert IsIdentifier("provider");
  }

  /** What validation leaves in the fields the scaffold uses. */
  lemma ValidManifest(d: Draft)
    requires Build(d).Ok?
    ensures var m := Build(d).value;
            && IsKey(m.key) && 0 < |m.key| <= 96 && IsVersion(m.version)
            && m.capabilities != [] && "" !in m.capabilities
            && Sorting.Sort(m.capabilities, Sorting.StringLeq) == m.capabilities
  {
    var m := Build(d).value;
    IdentityTexts(d);
    var stripped := StripAll(d.capabilities);
    Sorting.StringOrder();
    Sorting.SortOrders(stripped, Sorting.StringLeq);
    Sorting.SortKeepsElements(stripped, Sorting.StringLeq);
    Sorting.SortFixed(m.capabilities, Sorting.StringLeq);
    assert "" in m.capabilities <==> "" in multiset(m.capabilities);
    assert "" in stripped <==> "" in multiset(stripped);
  }

  /**
   * Every project the scaffold writes for a valid manifest passes the backend's checks, unless its distribution
   * took the SDK's own name; key, module and capabilities come back unchanged.
   */
  lemma ScaffoldedProjectIsAccepted(d: Draft, package: Option<string>, distribution: Option<string>)
    requires Build(d).Ok? && ScaffoldProject(Build(d).value, package, distribution).Some?
    ensures var m, p := Build(d).value, ScaffoldProject(Build(d).value, package, distribution).value;
            && (CheckMetadata(p).Some? <==> p.name != SDK_NAME)
            && (CheckMetadata(p).Some? ==>
              CheckMetadata(p) == Some(ProviderMetadata(p.name, m.version, p.modulePath, m.key, m.capabilities)))
  {
    ValidManifest(d);
    var p := ScaffoldProject(Build(d).value, package, distribution).value;
    var packageName := if Given(package).Some? then package else NormaliseProviderPackage(Build(d).value.key);
    PackageModuleIsValid(packageName.value);
  }

  function DerivedPackage(key: string): string {
    Replace(Replace(key, ':', '_'), '-', '_')
  }

  /** The distribution name derived from a key: every separator becomes a hyphen. */
  function DerivedName(key: string): string {
    Replace(DerivedPackage(key), '_', '-')
  }

  lemma DerivedDistribution(key: string)
    requires IsKey(key) && |key| <= 96
    ensures NormaliseDistributionName(DerivedName(key)) == Some(DerivedName(key))
  {
    KeyShape(key);
    var name := DerivedName(key);
    forall i | 0 <= i < |key| ensures name[i] == if LowerAlnum(key[i]) then key[i] else '-' {
    }
    assert Trimmed(name);
    StripFixed(name);
    assert LowerAscii(name) == name;
    assert Replace(name, '_', '-') == name;
    assert Runs(name, {'-'}) by {
      forall i | 0 <= i < |name| - 1 ensures LowerAlnum(name[i]) || LowerAlnum(name[i + 1]) {
        assert LowerAlnum(key[i]) || LowerAlnum(key[i + 1]);
      }
    }
  }

  /**
   * With derived names the scaffold succeeds exactly for keys that start with a letter; the digit is refused
   * because the package name would not be an identifier.
   */
  lemma DerivedNamesWork(d: Draft)
    requires Build(d).Ok?
    ensures var m := Build(d).value;
            && (ScaffoldProject(m, None, None).Some? <==> IsLower(m.key[0]))
            && (IsLower(m.key[0]) ==> ScaffoldProject(m, None, None).value.name == DerivedName(m.key))
  {
    ValidManifest(d);
    var key := Build(d).value.key;
    KeyShape(key);
    DerivedDistribution(key);
    var package := DerivedPackage(key);
    forall i | 0 <= i < |key| ensures PackageChar(package[i]) {
    }
    assert package[0] == key[0];
  }

  /** What the backend makes of a draft's project, with derived names: nothing if it cannot be scaffolded. */
  function Built(d: Draft): Option<ProviderMetadata>
    requires Build(d).Ok?
  {
    var p := ScaffoldProject(Build(d).value, None, None);
    if p.Some? then CheckMetadata(p.value) else None
  }

  /**
   * Generated projects are buildable: with derived names a valid manifest is scaffolded and the backend accepts
   * the project if and only if its key starts with a letter and is not the SDK's own name up to separators. Key,
   * version and capabilities then come back unchanged.
   */
  lemma DerivedProjectIsBuildable(d: Draft)
    requires Build(d).Ok?
    ensures var m := Build(d).value;
            && (Built(d).Some? <==> IsLower(m.key[0]) && DerivedName(m.key) != SDK_NAME)
            && (Built(d).Some? ==>
                 Built(d) == Some(ProviderMetadata(DerivedName(m.key), m.version, DerivedPackage(m.key) + ".provider",
                                                   m.key, m.capabilities)))
  {
    DerivedNamesWork(d);
    if ScaffoldProject(Build(d).value, None, None).Some? {
      ScaffoldedProjectIsAccepted(d, None, None);
    }
  }

  /** For every capability some project is scaffolded and accepted. */
  lemma SmallestIsBuildable(capability: string)
    requires capability in SUPPORTED_CAPABILITIES
    ensures Build(Smallest("a:b", capability)).Ok? && Built(Smallest("a:b", capability)).Some?
  {
    ShortKeys();
    SmallestHasKey("a:b", capability);
    DerivedProjectIsBuildable(Smallest("a:b", capability));
    assert |DerivedName("a:b")| == 3;
  }

  /** A key may start with a digit, and then nothing can be scaffolded under derived names. */
  lemma DigitKeyIsRefused(capability: string)
    requires capability in SUPPORTED_CAPABILITIES
    ensures Build(Smallest("1:b", capability)).Ok?
    ensures ScaffoldProject(Build(Smallest("1:b", capability)).value, None, None) == None
  {
    ShortKeys();
    SmallestHasKey("1:b", capability);
    DerivedNamesWork(Smallest("1:b", capability));
  }

  const SDK_SLUG := "accounting" + "-" + "provider" + "-" + "sdk"

  /** modular:accounting-provider-sdk */
  const SDK_KEY := "modular" + [':'] + SDK_SLUG

  lemma WordRuns(word: string, separators: set<char>)
    requires word != "" && AllChars(word, LowerAlnum)
    ensures Runs(word, separators)
  {
  }

  lemma JoinedRuns(a: string, b: string, separators: set<char>)
    requires Runs(a, separators) && Runs(b, separators) && '-' in separators
    ensures Runs(a + "-" + b, separators)
  {
    var s := a + "-" + b;
    forall i | 0 <= i < |s| ensures LowerAlnum(s[i]) || s[i] in separators {
      if i > |a| {
        assert s[i] == b[i - |a| - 1];
      }
    }
    forall i | 0 <= i < |s| - 1 ensures LowerAlnum(s[i]) || LowerAlnum(s[i + 1]) {
      if i > |a| {
        assert s[i] == b[i - |a| - 1] && s[i + 1] == b[i - |a|];
      }
    }
  }

  /** `namespace:slug` is a key. */
  lemma KeyOfParts(ns: string, slug: string)
    requires ns != "" && AllChars(ns, LowerAlnum) && Runs(slug, {'-', '_'})
    ensures IsKey(ns + [':'] + slug)
  {
    SplitHead(ns, slug, ':');
    SplitPlain(slug, ':');
  }

  lemma SdkSlugRuns(separators: set<char>)
    requires '-' in separators
    ensures Runs(SDK_SLUG, separators)
  {
    WordRuns("accounting", separators);
    WordRuns("provider", separators);
    WordRuns("sdk", separators);
    JoinedRuns("accounting", "provider", separators);
    JoinedRuns("accounting" + "-" + "provider", "sdk", separators);
  }

  lemma SdkKeyShape()
    ensures IsKey(SDK_KEY) && |SDK_KEY| <= 96
  {
    SdkSlugRuns({'-', '_'});
    KeyOfParts("modular", SDK_SLUG);
  }

  lemma DerivedConcat(a: string, b: string)
    ensures DerivedName(a + b) == DerivedName(a) + DerivedName(b)
  {
  }

  lemma DerivedKeeps(s: string)
    requires AllChars(s, c => LowerAlnum(c) || c == '-')
    ensures DerivedName(s) == s
  {
  }

  lemma {:induction false} RunsChars(s: string)
    requires Runs(s, {'-'})
    ensures AllChars(s, c => LowerAlnum(c) || c == '-')
  {
    forall i | 0 <= i < |s| ensures LowerAlnum(s[i]) || s[i] == '-' {
    }
  }

  lemma SdkKeyDerivesSdkName()
    ensures DerivedName(SDK_KEY) == SDK_NAME
  {
    SdkSlugRuns({'-'});
    RunsChars(SDK_SLUG);
    DerivedKeeps(SDK_SLUG);
    DerivedKeeps("modular");
    DerivedConcat("modular" + [':'], SDK_SLUG);
    DerivedConcat("modular", [':']);
    assert DerivedName([':']) == "-";
    SdkNameParts();
  }

  lemma SdkNameParts()
    ensures SDK_NAME == "modular" + "-" + SDK_SLUG
  {
    assert SDK_SLUG == "accounting-provider-sdk";
    assert "modular" + "-" + "accounting-provider-sdk" == "modular-accounting-provider-sdk";
  }

  /** A valid key whose derived distribution is the SDK's own name: scaffolded, and then refused by the backend. */
  lemma SdkNameIsRefused(capability: string)
    requires capability in SUPPORTED_CAPABILITIES
    ensures Build(Smallest(SDK_KEY, capability)).Ok?
    ensures ScaffoldProject(Build(Smallest(SDK_KEY, capability)).value, None, None).Some?
    ensures Built(Smallest(SDK_KEY, capability)) == None
  {
    SdkKeyShape();
    SdkKeyDerivesSdkName();
    SmallestHasKey(SDK_KEY, capability);
    assert IsLower(SDK_KEY[0]);
    DerivedNamesWork(Smallest(SDK_KEY, capability));
    DerivedProjectIsBuildable(Smallest(SDK_KEY, capability));
  }

  // ---------------------------------------------------------------- the archive root

  predicate VersionChar(c: char) { IsDigit(c) || IsLetter(c) || c in {'.', '-', '+'} }

  lemma {:induction false} AfterDigitsChars(s: string)
    requires AllChars(AfterDigits(s), VersionChar)
    ensures AllChars(s, VersionChar)
  {
    if s != "" && IsDigit(s[0]) {
      AfterDigitsChars(s[1..]);
      assert s == [s[0]] + s[1..];
      forall i | 0 <= i < |s| ensures VersionChar(s[i]) {
        if i > 0 {
          assert s[i] == s[1..][i - 1];
        }
      }
    }
  }

  lemma DotChars(s: string)
    requires AfterNumberDot(s).Some? && AllChars(AfterNumberDot(s).value, VersionChar)
    ensures AllChars(s, VersionChar)
  {
    var rest := AfterNumber(s).value;
    forall i | 0 <= i < |rest| ensures VersionChar(rest[i]) {
      if i > 0 {
        assert rest[i] == rest[1..][i - 1];
      } else {
        assert rest[0] == '.';
      }
    }
    AfterDigitsChars(s);
  }

  lemma VersionChars(s: string)
    requires IsVersion(s)
    ensures s != "" && AllChars(s, VersionChar)
  {
    var minor := AfterNumberDot(s).value;
    var patch := AfterNumberDot(minor).value;
    var suffix := AfterNumber(patch).value;
    forall i | 0 <= i < |suffix| ensures VersionChar(suffix[i]) {
      if i > 0 {
        assert SuffixChar(suffix[1..][i - 1]);
      }
    }
    AfterDigitsChars(patch);
    DotChars(minor);
    DotChars(s);
  }

  /** Accepted metadata names an archive root the reader's path rules leave alone. */
  lemma AcceptedRootIsPlain(p: Project)
    requires CheckMetadata(p).Some?
    ensures SdistBuilder.PlainRoot(p.name + "-" + p.version)
  {
    var prefix := p.name + "-" + p.version;
    VersionChars(p.version);
    assert prefix[|p.name|] == '-';
    forall i | 0 <= i < |prefix| ensures prefix[i] !in {'/', '\\', ':'} && !Artifacts.IsControl(prefix[i]) {
      if i < |p.name| {
        assert prefix[i] == p.name[i];
      } else if i > |p.name| {
        assert VersionChar(p.version[i - |p.name| - 1]);
      }
    }
  }
}
