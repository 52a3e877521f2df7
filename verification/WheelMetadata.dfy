/** The text files a wheel describes itself with, and a reader of their header lines. */
module WheelMetadata {
  import opened Text

  datatype Metadata = Metadata(name: string, version: string, requiresPython: string, dependencies: seq<string>)

  function Requirements(dependencies: seq<string>): string {
    if dependencies == [] then ""
    else "Requires-Dist: " + dependencies[0] + "\n" + Requirements(dependencies[1..])
  }

  function LicenseLines(license: Option<string>): string {
    if license.Some? && license.value != ""
    then "License-Expression: " + license.value + "\nLicense-File: LICENSE\n"
    else ""
  }

  function CoreMetadata(m: Metadata, license: Option<string>): string {
    "Metadata-Version: 2.4\n"
    + ("Name: " + m.name + "\n")
    + ("Version: " + m.version + "\n")
    + ("Requires-Python: " + m.requiresPython + "\n")
    + (LicenseLines(license) + Requirements(m.dependencies))
  }

  const GENERATOR := "modular-accounting-provider-sdk 0.5.0"

  const WHEEL_FILE :=
    "Wheel-Version: 1.0\n" + ("Generator: " + GENERATOR + "\n") + ("Root-Is-Purelib: true\n" + "Tag: py3-none-any\n")

  function DistInfo(m: Metadata): string {
    Replace(m.name, '-', '_') + "-" + m.version + ".dist-info"
  }

  function RecordName(m: Metadata): string {
    DistInfo(m) + "/RECORD"
  }

  // ---------------------------------------------------------------- reading headers

  datatype Header = Header(name: string, value: string)

  /** Where the character is first found, or the length of the text. */
  function Find(s: string, c: char): (n: nat)
    ensures n <= |s| && c !in s[..n] && (n < |s| ==> s[n] == c)
  {
    if s == "" || s[0] == c then 0
    else
      var n := Find(s[1..], c);
      assert s[..n + 1] == [s[0]] + s[1..][..n];
      n + 1
  }

  /** A line `name: value`; without a colon it is a name with an empty value. */
  function ReadHeader(line: string): Header {
    var n := Find(line, ':');
    Header(line[..n], if n + 2 <= |line| then line[n + 2..] else "")
  }

  /** The header lines, each up to its line feed. */
  function ReadHeaders(text: string): seq<Header>
    decreases |text|
  {
    if text == "" then []
    else
      var n := Find(text, '\n');
      [ReadHeader(text[..n])] + if n < |text| then ReadHeaders(text[n + 1..]) else []
  }

  /** The values under a name, in order. */
  function Values(headers: seq<Header>, name: string): seq<string> {
    if headers == [] then []
    else (if headers[0].name == name then [headers[0].value] else []) + Values(headers[1..], name)
  }

  function HeaderLine(name: string, value: string): string {
    name + ": " + value + "\n"
  }

  lemma {:induction false} FindAt(before: string, c: char, after: string)
    requires c !in before
    ensures Find(before + [c] + after, c) == |before|
  {
    var s := before + [c] + after;
    if before != "" {
      assert s[1..] == before[1..] + [c] + after;
      FindAt(before[1..], c, after);
    }
  }

  lemma ReadHeaderLine(name: string, value: string)
    requires ':' !in name
    ensures ReadHeader(name + ": " + value) == Header(name, value)
  {
    var line := name + ": " + value;
    assert line == name + [':'] + (" " + value);
    FindAt(name, ':', " " + value);
    assert line[..|name|] == name && line[|name| + 2..] == value;
  }

  /** A header line in front of a text is read as one more header. */
  lemma ReadOneHeader(name: string, value: string, rest: string)
    requires ':' !in name && '\n' !in name && '\n' !in value
    ensures ReadHeaders(HeaderLine(name, value) + rest) == [Header(name, value)] + ReadHeaders(rest)
  {
    var line := name + ": " + value;
    var text := HeaderLine(name, value) + rest;
    assert '\n' !in line;
    assert text == line + ['\n'] + rest;
    FindAt(line, '\n', rest);
    assert text[..|line|] == line && text[|line| + 1..] == rest;
    ReadHeaderLine(name, value);
  }

  function PrintHeaders(headers: seq<Header>): string {
    if headers == [] then "" else HeaderLine(headers[0].name, headers[0].value) + PrintHeaders(headers[1..])
  }

  predicate OneLine(s: string) {
    '\n' !in s
  }

  predicate Printable(h: Header) {
    ':' !in h.name && OneLine(h.name) && OneLine(h.value)
  }

  /** Printed headers are read back. */
  lemma {:induction false} ReadPrinted(headers: seq<Header>)
    requires forall i | 0 <= i < |headers| :: Printable(headers[i])
    ensures ReadHeaders(PrintHeaders(headers)) == headers
  {
    if headers != [] {
      var first, rest := headers[0], headers[1..];
      ReadPrinted(rest);
      ReadOneHeader(first.name, first.value, PrintHeaders(rest));
      assert [first] + rest == headers;
    }
  }

  lemma {:induction false} PrintConcat(a: seq<Header>, b: seq<Header>)
    ensures PrintHeaders(a + b) == PrintHeaders(a) + PrintHeaders(b)
  {
    if a == [] {
      assert a + b == b;
    } else {
      assert (a + b)[0] == a[0] && (a + b)[1..] == a[1..] + b;
      PrintConcat(a[1..], b);
      Regrouped(HeaderLine(a[0].name, a[0].value), PrintHeaders(a[1..]), PrintHeaders(b));
    }
  }

  lemma PrintOne(h: Header)
    ensures PrintHeaders([h]) == HeaderLine(h.name, h.value)
  {
    assert [h][1..] == [];
  }

  function RequirementHeaders(dependencies: seq<string>): seq<Header> {
    if dependencies == [] then []
    else [Header("Requires-Dist", dependencies[0])] + RequirementHeaders(dependencies[1..])
  }

  lemma RequirementLine(value: string)
    ensures "Requires-Dist: " + value + "\n" == HeaderLine("Requires-Dist", value)
  {
    assert "Requires-Dist" + ": " == "Requires-Dist: ";
  }

  lemma {:induction false} RequirementsArePrinted(dependencies: seq<string>)
    ensures Requirements(dependencies) == PrintHeaders(RequirementHeaders(dependencies))
  {
    if dependencies != [] {
      RequirementLine(dependencies[0]);
      RequirementsArePrinted(dependencies[1..]);
    }
  }

  function LicenseHeaders(license: Option<string>): seq<Header> {
    if license.Some? && license.value != ""
    then [Header("License-Expression", license.value)] + [Header("License-File", "LICENSE")]
    else []
  }

  lemma LicenseLine(value: string)
    ensures "License-Expression: " + value + "\nLicense-File: LICENSE\n" ==
              HeaderLine("License-Expression", value) + HeaderLine("License-File", "LICENSE")
  {
    assert "License-Expression" + ": " == "License-Expression: ";
    assert "License-File" + ": " + "LICENSE" + "\n" == "License-File: LICENSE\n";
    assert "\n" + "License-File: LICENSE\n" == "\nLicense-File: LICENSE\n";
  }

  lemma LicenseIsPrinted(license: Option<string>)
    ensures LicenseLines(license) == PrintHeaders(LicenseHeaders(license))
  {
    if license.Some? && license.value != "" {
      var first, second := Header("License-Expression", license.value), Header("License-File", "LICENSE");
      LicenseLine(license.value);
      PrintConcat([first], [second]);
      PrintOne(first);
      PrintOne(second);
    }
  }

  function FixedHeaders(m: Metadata): seq<Header> {
    [Header("Metadata-Version", "2.4")] + [Header("Name", m.name)] + [Header("Version", m.version)]
    + [Header("Requires-Python", m.requiresPython)]
  }

  lemma FixedLines(m: Metadata)
    ensures "Metadata-Version: 2.4\n" == HeaderLine("Metadata-Version", "2.4")
    ensures "Name: " + m.name + "\n" == HeaderLine("Name", m.name)
    ensures "Version: " + m.version + "\n" == HeaderLine("Version", m.version)
    ensures "Requires-Python: " + m.requiresPython + "\n" == HeaderLine("Requires-Python", m.requiresPython)
  {
    assert "Name" + ": " == "Name: " && "Version" + ": " == "Version: ";
    assert "Requires-Python" + ": " == "Requires-Python: ";
    assert "Metadata-Version" + ": " == "Metadata-Version: ";
  }

  lemma FixedIsPrinted(m: Metadata)
    ensures "Metadata-Version: 2.4\n" + ("Name: " + m.name + "\n") + ("Version: " + m.version + "\n")
            + ("Requires-Python: " + m.requiresPython + "\n") == PrintHeaders(FixedHeaders(m))
  {
    var a, b := Header("Metadata-Version", "2.4"), Header("Name", m.name);
    var c, d := Header("Version", m.version), Header("Requires-Python", m.requiresPython);
    FixedLines(m);
    PrintOne(a);
    PrintOne(b);
    PrintOne(c);
    PrintOne(d);
    PrintConcat([a], [b]);
    PrintConcat([a] + [b], [c]);
    PrintConcat([a] + [b] + [c], [d]);
  }

  function MetadataHeaders(m: Metadata, license: Option<string>): seq<Header> {
    FixedHeaders(m) + (LicenseHeaders(license) + RequirementHeaders(m.dependencies))
  }

  /** METADATA is a list of headers. */
  lemma MetadataIsPrinted(m: Metadata, license: Option<string>)
    ensures CoreMetadata(m, license) == PrintHeaders(MetadataHeaders(m, license))
  {
    FixedIsPrinted(m);
    LicenseIsPrinted(license);
    RequirementsArePrinted(m.dependencies);
    PrintConcat(LicenseHeaders(license), RequirementHeaders(m.dependencies));
    PrintConcat(FixedHeaders(m), LicenseHeaders(license) + RequirementHeaders(m.dependencies));
  }

  /** No field breaks its line. */
  predicate OneLineFields(m: Metadata, license: Option<string>) {
    && OneLine(m.name) && OneLine(m.version) && OneLine(m.requiresPython)
    && (forall i | 0 <= i < |m.dependencies| :: OneLine(m.dependencies[i]))
    && (license.Some? ==> OneLine(license.value))
  }

  lemma {:induction false} RequirementsPrintable(dependencies: seq<string>)
    requires forall i | 0 <= i < |dependencies| :: OneLine(dependencies[i])
    ensures forall h | h in RequirementHeaders(dependencies) :: Printable(h)
  {
    if dependencies != [] {
      RequirementsPrintable(dependencies[1..]);
    }
  }

  lemma NamePrintable(value: string)
    requires OneLine(value)
    ensures Printable(Header("Name", value)) && Printable(Header("Version", value))
  {
  }

  lemma PythonPrintable(value: string)
    requires OneLine(value)
    ensures Printable(Header("Requires-Python", value))
  {
  }

  lemma LicensePrintable(value: string)
    requires OneLine(value)
    ensures Printable(Header("License-Expression", value))
  {
  }

  lemma VersionPrintable()
    ensures Printable(Header("Metadata-Version", "2.4"))
  {
  }

  lemma LicenseFilePrintable()
    ensures Printable(Header("License-File", "LICENSE"))
  {
  }

  lemma MetadataPrintable(m: Metadata, license: Option<string>)
    requires OneLineFields(m, license)
    ensures forall h | h in MetadataHeaders(m, license) :: Printable(h)
  {
    VersionPrintable();
    NamePrintable(m.name);
    NamePrintable(m.version);
    PythonPrintable(m.requiresPython);
    if license.Some? {
      LicensePrintable(license.value);
    }
    LicenseFilePrintable();
    RequirementsPrintable(m.dependencies);
  }

  /** METADATA is read as what it was written from. */
  lemma ReadMetadata(m: Metadata, license: Option<string>)
    requires OneLineFields(m, license)
    ensures ReadHeaders(CoreMetadata(m, license)) == MetadataHeaders(m, license)
  {
    var headers := MetadataHeaders(m, license);
    MetadataIsPrinted(m, license);
    MetadataPrintable(m, license);
    ReadAllPrintable(headers);
  }

  lemma {:induction false} ValuesConcat(a: seq<Header>, b: seq<Header>, name: string)
    ensures Values(a + b, name) == Values(a, name) + Values(b, name)
  {
    if a == [] {
      assert a + b == b;
    } else {
      assert (a + b)[0] == a[0] && (a + b)[1..] == a[1..] + b;
      ValuesConcat(a[1..], b, name);
    }
  }

  lemma {:induction false} RequirementValues(dependencies: seq<string>, name: string)
    ensures Values(RequirementHeaders(dependencies), name) == if name == "Requires-Dist" then dependencies else []
  {
    if dependencies != [] {
      RequirementValues(dependencies[1..], name);
      assert [dependencies[0]] + dependencies[1..] == dependencies;
    }
  }

  lemma FixedValues(m: Metadata, name: string)
    ensures Values(FixedHeaders(m), name) ==
              if name == "Metadata-Version" then ["2.4"]
              else if name == "Name" then [m.name]
              else if name == "Version" then [m.version]
              else if name == "Requires-Python" then [m.requiresPython]
              else []
  {
    var a, b := Header("Metadata-Version", "2.4"), Header("Name", m.name);
    var c, d := Header("Version", m.version), Header("Requires-Python", m.requiresPython);
    ValuesConcat([a], [b], name);
    ValuesConcat([a] + [b], [c], name);
    ValuesConcat([a] + [b] + [c], [d], name);
  }

  lemma LicenseValues(license: Option<string>, name: string)
    requires license.Some? && license.value != ""
    ensures Values(LicenseHeaders(license), name) ==
              if name == "License-Expression" then [license.value]
              else if name == "License-File" then ["LICENSE"]
              else []
  {
    ValuesConcat([Header("License-Expression", license.value)], [Header("License-File", "LICENSE")], name);
  }

  /** What a reader of METADATA finds under each name. */
  lemma MetadataValues(m: Metadata, license: Option<string>)
    requires OneLineFields(m, license)
    ensures var headers := ReadHeaders(CoreMetadata(m, license));
            && Values(headers, "Name") == [m.name] && Values(headers, "Version") == [m.version]
            && Values(headers, "Requires-Python") == [m.requiresPython]
            && Values(headers, "Requires-Dist") == m.dependencies
            && Values(headers, "License-Expression") ==
                 (if license.Some? && license.value != "" then [license.value] else [])
            && Values(headers, "License-File") ==
                 (if license.Some? && license.value != "" then ["LICENSE"] else [])
            && Values(headers, "Metadata-Version") == ["2.4"]
  {
    ReadMetadata(m, license);
    ValueOf(m, license, "Name");
    ValueOf(m, license, "Version");
    ValueOf(m, license, "Requires-Python");
    ValueOf(m, license, "Requires-Dist");
    ValueOf(m, license, "License-Expression");
    ValueOf(m, license, "License-File");
    ValueOf(m, license, "Metadata-Version");
  }

  lemma ValueOf(m: Metadata, license: Option<string>, name: string)
    ensures Values(MetadataHeaders(m, license), name) ==
              Values(FixedHeaders(m), name) + (Values(LicenseHeaders(license), name)
                                               + if name == "Requires-Dist" then m.dependencies else [])
    ensures Values(FixedHeaders(m), name) ==
              if name == "Metadata-Version" then ["2.4"]
              else if name == "Name" then [m.name]
              else if name == "Version" then [m.version]
              else if name == "Requires-Python" then [m.requiresPython]
              else []
    ensures Values(LicenseHeaders(license), name) ==
              if license.None? || license.value == "" then []
              else if name == "License-Expression" then [license.value]
              else if name == "License-File" then ["LICENSE"]
              else []
  {
    FixedValues(m, name);
    if license.Some? && license.value != "" {
      LicenseValues(license, name);
    }
    RequirementValues(m.dependencies, name);
    ValuesConcat(LicenseHeaders(license), RequirementHeaders(m.dependencies), name);
    ValuesConcat(FixedHeaders(m), LicenseHeaders(license) + RequirementHeaders(m.dependencies), name);
  }

  // ---------------------------------------------------------------- the WHEEL file and the folder

  function WheelHeaders(): seq<Header> {
    [Header("Wheel-Version", "1.0")] + [Header("Generator", GENERATOR)]
    + ([Header("Root-Is-Purelib", "true")] + [Header("Tag", "py3-none-any")])
  }

  lemma WheelLines()
    ensures "Wheel-Version: 1.0\n" == HeaderLine("Wheel-Version", "1.0")
    ensures "Root-Is-Purelib: true\n" == HeaderLine("Root-Is-Purelib", "true")
    ensures "Tag: py3-none-any\n" == HeaderLine("Tag", "py3-none-any")
  {
  }

  lemma GeneratorLine()
    ensures "Generator: " + GENERATOR + "\n" == HeaderLine("Generator", GENERATOR)
  {
    assert "Generator" + ": " == "Generator: ";
  }

  lemma WheelIsPrinted()
    ensures WHEEL_FILE == PrintHeaders(WheelHeaders())
  {
    var a, b := Header("Wheel-Version", "1.0"), Header("Generator", GENERATOR);
    var c, d := Header("Root-Is-Purelib", "true"), Header("Tag", "py3-none-any");
    WheelLines();
    GeneratorLine();
    PrintOne(a);
    PrintOne(b);
    PrintOne(c);
    PrintOne(d);
    PrintConcat([a], [b]);
    PrintConcat([c], [d]);
    PrintConcat([a] + [b], [c] + [d]);
  }

  lemma GeneratorPrintable()
    ensures Printable(Header("Generator", GENERATOR))
  {
  }

  lemma TagPrintable()
    ensures Printable(Header("Wheel-Version", "1.0")) && Printable(Header("Tag", "py3-none-any"))
  {
  }

  lemma PurelibPrintable()
    ensures Printable(Header("Root-Is-Purelib", "true"))
  {
  }

  lemma WheelPrintable()
    ensures forall h | h in WheelHeaders() :: Printable(h)
  {
    GeneratorPrintable();
    TagPrintable();
    PurelibPrintable();
  }

  lemma ReadAllPrintable(headers: seq<Header>)
    requires forall h | h in headers :: Printable(h)
    ensures ReadHeaders(PrintHeaders(headers)) == headers
  {
    forall i | 0 <= i < |headers| ensures Printable(headers[i]) {
      assert headers[i] in headers;
    }
    ReadPrinted(headers);
  }

  /** The WHEEL file declares a pure wheel for every Python 3. */
  lemma ReadWheelFile()
    ensures ReadHeaders(WHEEL_FILE) == WheelHeaders()
  {
    WheelIsPrinted();
    WheelPrintable();
    ReadAllPrintable(WheelHeaders());
  }

  /** The folder name holds the distribution, with underscores, up to the first hyphen, and the version behind it. */
  lemma DistInfoReads(m: Metadata)
    ensures var d := DistInfo(m);
            var n := Find(d, '-');
            && d[..n] == Replace(m.name, '-', '_') && n < |d|
            && d[n + 1..] == m.version + ".dist-info"
  {
    var name := Replace(m.name, '-', '_');
    assert '-' !in name;
    assert DistInfo(m) == name + ['-'] + (m.version + ".dist-info");
    FindAt(name, '-', m.version + ".dist-info");
  }
}
