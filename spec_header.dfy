// The first pass over a spec file: every line is classified by its leading tag or
// section marker; Name:, Release: and Summary: values are validated on the spot,
// the presence of each tag and marker is recorded, and the License: value is kept.
// A second step turns what is absent (or present but deprecated) into findings.

module SpecHeader {
  import opened Text
  import opened Findings

  /** How a stripped line is recognised: its lower-cased text begins with a tag and
      its colon, it begins with "source" and holds a colon somewhere, or it is
      exactly a section marker. */
  datatype HeaderTest = TagPrefix(tag: string) | SourceTag | WholeLine(marker: string)

  /** The tests in the order the source tries them; the first that holds decides. */
  const HeaderTests: seq<(Key, HeaderTest)> := [
    (Name, TagPrefix("name:")),
    (Version, TagPrefix("version:")),
    (Release, TagPrefix("release:")),
    (Summary, TagPrefix("summary:")),
    (License, TagPrefix("license:")),
    (Url, TagPrefix("url:")),
    (Source, SourceTag),
    (BuildRoot, TagPrefix("buildroot:")),
    (Description, WholeLine("%description")),
    (ChangelogSection, WholeLine("%changelog")),
    (Clean, WholeLine("%clean"))
  ]

  /** s begins with kw once lower-cased: the test lower.startswith(kw) the source
      makes, written one character at a time. */
  predicate TagAt(s: string, kw: string)
    decreases kw
  {
    kw == [] || (s != [] && LowerChar(s[0]) == kw[0] && TagAt(s[1..], kw[1..]))
  }

  lemma {:induction false} TagAtIsLowerPrefix(s: string, kw: string)
    ensures TagAt(s, kw) <==> StartsWith(ToLower(s), kw)
    decreases kw
  {
    if kw != [] && s != [] {
      TagAtIsLowerPrefix(s[1..], kw[1..]);
      var l := ToLower(s);
      assert l == [LowerChar(s[0])] + ToLower(s[1..]);
      if |kw| <= |s| {
        assert l[..|kw|] == [l[0]] + ToLower(s[1..])[..|kw| - 1];
        assert kw == [kw[0]] + kw[1..];
      }
    }
  }

  predicate Passes(stripped: string, t: HeaderTest) {
    match t
    case TagPrefix(kw) => TagAt(stripped, kw)
    case SourceTag => TagAt(stripped, "source") && ':' in stripped
    case WholeLine(m) => stripped == m
  }

  /** What one line of a spec file is to the header pass: the tag or marker it
      carries, with the stripped line, or nothing. */
  datatype HeaderLine = Tagged(key: Key, stripped: string) | OtherLine

  /** The key of the first test in tests that the stripped line passes. */
  function FirstPassed(stripped: string, tests: seq<(Key, HeaderTest)>): HeaderLine
    decreases |tests|
  {
    if tests == [] then OtherLine
    else if Passes(stripped, tests[0].1) then Tagged(tests[0].0, stripped)
    else FirstPassed(stripped, tests[1..])
  }

  function ClassifyHeader(line: string): HeaderLine {
    FirstPassed(Strip(line), HeaderTests)
  }

  /** The first test that holds decides: a line carries key k exactly when the test
      for k holds and no earlier test does. */
  lemma {:induction false} FirstPassedMeaning(stripped: string, tests: seq<(Key, HeaderTest)>, j: nat)
    requires j < |tests|
    requires forall i :: 0 <= i < j ==> !Passes(stripped, tests[i].1)
    ensures Passes(stripped, tests[j].1) ==> FirstPassed(stripped, tests) == Tagged(tests[j].0, stripped)
    ensures !Passes(stripped, tests[j].1) ==> FirstPassed(stripped, tests) == FirstPassed(stripped, tests[j + 1..])
    decreases j
  {
    if j > 0 {
      assert !Passes(stripped, tests[0].1);
      forall i | 0 <= i < j - 1 ensures !Passes(stripped, tests[1..][i].1) {
        assert tests[1..][i] == tests[i + 1];
      }
      FirstPassedMeaning(stripped, tests[1..], j - 1);
      assert tests[1..][j - 1] == tests[j];
      assert tests[1..][j..] == tests[j + 1..];
    }
  }

  /** Nothing recognised: no test holds. */
  lemma {:induction false} NonePassed(stripped: string, tests: seq<(Key, HeaderTest)>)
    ensures FirstPassed(stripped, tests) == OtherLine <==> forall i :: 0 <= i < |tests| ==> !Passes(stripped, tests[i].1)
    decreases |tests|
  {
    if tests != [] {
      NonePassed(stripped, tests[1..]);
      if !Passes(stripped, tests[0].1) {
        forall i | 0 <= i < |tests| ensures (forall i :: 0 <= i < |tests[1..]| ==> !Passes(stripped, tests[1..][i].1)) ==> !Passes(stripped, tests[i].1) {
          if i > 0 {
            assert tests[i] == tests[1..][i - 1];
          }
        }
      }
    }
  }

  /** The text after the first colon of a stripped line, stripped in turn. */
  function TagValue(stripped: string): string {
    Strip(AfterFirst(stripped, ':'))
  }

  function NameFindings(v: string): seq<Finding> {
    (if ToLower(v) != v then [Finding(Naming, Warning, v, UppercasePackageName, About(v), Advice)] else [])
    + (if ' ' in v then [Finding(Naming, Error, v, SpaceInPackageName, Message, Advice)] else [])
  }

  function ReleaseFindings(v: string): seq<Finding> {
    if !Contains(v, "%{?dist}") then [Rule(SpecQuality, Warning, MissingDistTag, Message)] else []
  }

  function SummaryFindings(v: string): seq<Finding> {
    (if EndsWith(v, ".") then [Rule(SpecQuality, Warning, SummaryEndsWithDot, Message)] else [])
    + (if |v| > 80 then [Rule(SpecQuality, Warning, SummaryTooLong, Message)] else [])
  }

  /** What a classified line contributes: the Name:, Release: and Summary: values
      are validated, every other line contributes nothing. */
  function Contribution(h: HeaderLine): seq<Finding> {
    if h.Tagged? then KeyFindings(h.key, TagValue(h.stripped)) else []
  }

  function KeyFindings(k: Key, v: string): seq<Finding> {
    match k
    case Name => NameFindings(v)
    case Release => ReleaseFindings(v)
    case Summary => SummaryFindings(v)
    case _ => []
  }

  /** What one line contributes while it is read. */
  function LineFindings(line: string): seq<Finding> {
    Contribution(ClassifyHeader(line))
  }

  function HeaderFindings(lines: seq<string>): seq<Finding> {
    FlatMap(lines, LineFindings)
  }

  /** The tag or marker a classified line records as present. */
  function Marks(h: HeaderLine): set<Key> {
    if h.Tagged? then {h.key} else {}
  }

  function LineMarks(line: string): set<Key> {
    Marks(ClassifyHeader(line))
  }

  /** The tags and markers seen so far. */
  function Present(lines: seq<string>): set<Key> {
    Union(lines, LineMarks)
  }

  predicate IsLicenseLine(h: HeaderLine) {
    h.Tagged? && h.key == License
  }

  /** The License: value held after the lines: each License: line overwrites it. */
  function LicenseValue(lines: seq<string>): string {
    if lines == [] then []
    else
      var h := ClassifyHeader(lines[|lines| - 1]);
      if IsLicenseLine(h) then TagValue(h.stripped) else LicenseValue(lines[..|lines| - 1])
  }

  /** The checks made on the value of one tag line, in the order they are made. */
  method CheckValue(k: Key, v: string) returns (found: seq<Finding>)
    ensures found == KeyFindings(k, v)
  {
    found := [];
    match k {
      case Name =>
        if ToLower(v) != v {
          found := found + [Finding(Naming, Warning, v, UppercasePackageName, About(v), Advice)];
        }
        if ' ' in v {
          found := found + [Finding(Naming, Error, v, SpaceInPackageName, Message, Advice)];
        }
      case Release =>
        if !Contains(v, "%{?dist}") {
          found := found + [Rule(SpecQuality, Warning, MissingDistTag, Message)];
        }
      case Summary =>
        if EndsWith(v, ".") {
          found := found + [Rule(SpecQuality, Warning, SummaryEndsWithDot, Message)];
        }
        if |v| > 80 {
          found := found + [Rule(SpecQuality, Warning, SummaryTooLong, Message)];
        }
      case _ =>
    }
  }

  /** The header pass: one loop over the lines, appending as it goes. */
  method ScanHeader(lines: seq<string>) returns (results: seq<Finding>, present: set<Key>, license: string)
    ensures results == HeaderFindings(lines)
    ensures present == Present(lines)
    ensures license == LicenseValue(lines)
  {
    results, present, license := [], {}, [];
    for i := 0 to |lines|
      invariant results == FlatMap(lines[..i], LineFindings)
      invariant present == Present(lines[..i])
      invariant license == LicenseValue(lines[..i])
    {
      assert lines[..i + 1][..i] == lines[..i];
      var h := ClassifyHeader(lines[i]);
      if h.Tagged? {
        var v := TagValue(h.stripped);
        var found := CheckValue(h.key, v);
        results := results + found;
        if h.key == License {
          license := v;
        }
      }
      present := present + Marks(h);
    }
    assert lines[..|lines|] == lines;
  }

  // ---- What the header pass means, line by line ----

  /** The value a Name:, Release: or Summary: line carries. */
  function ValueOf(h: HeaderLine): string
    requires h.Tagged?
  {
    TagValue(h.stripped)
  }

  predicate UpperName(h: HeaderLine) {
    h.Tagged? && h.key == Name && HasUpper(ValueOf(h))
  }

  predicate SpacedName(h: HeaderLine) {
    h.Tagged? && h.key == Name && ' ' in ValueOf(h)
  }

  predicate UndistRelease(h: HeaderLine) {
    h.Tagged? && h.key == Release && !Contains(ValueOf(h), "%{?dist}")
  }

  predicate DottedSummary(h: HeaderLine) {
    h.Tagged? && h.key == Summary && EndsWith(ValueOf(h), ".")
  }

  predicate LongSummary(h: HeaderLine) {
    h.Tagged? && h.key == Summary && |ValueOf(h)| > 80
  }

  predicate NameHasUpper(line: string) {
    UpperName(ClassifyHeader(line))
  }

  predicate NameHasSpace(line: string) {
    SpacedName(ClassifyHeader(line))
  }

  predicate ReleaseWithoutDist(line: string) {
    UndistRelease(ClassifyHeader(line))
  }

  predicate SummaryWithDot(line: string) {
    DottedSummary(ClassifyHeader(line))
  }

  predicate SummaryOverLong(line: string) {
    LongSummary(ClassifyHeader(line))
  }

  /** How many findings tagged t the rules promise for a k line with value v: one
      for each rule the value breaks. */
  function RuleCount(k: Key, v: string, t: Tag): nat {
    (if k == Name && HasUpper(v) && t == UppercasePackageName then 1 else 0)
    + (if k == Name && ' ' in v && t == SpaceInPackageName then 1 else 0)
    + (if k == Release && !Contains(v, "%{?dist}") && t == MissingDistTag then 1 else 0)
    + (if k == Summary && EndsWith(v, ".") && t == SummaryEndsWithDot then 1 else 0)
    + (if k == Summary && |v| > 80 && t == SummaryTooLong then 1 else 0)
  }

  /** A name is flagged once for holding an upper-case letter and once for a space. */
  lemma NameShape(v: string)
    ensures forall t :: CountTag(NameFindings(v), t) == RuleCount(Name, v, t)
  {
    LowerChangesIffUpper(v);
    var upper, spaced := ToLower(v) != v, ' ' in v;
    var fu := Finding(Naming, Warning, v, UppercasePackageName, About(v), Advice);
    var fs := Finding(Naming, Error, v, SpaceInPackageName, Message, Advice);
    forall t: Tag ensures CountTag(NameFindings(v), t) == RuleCount(Name, v, t) {
      CountTagAppend(if upper then [fu] else [], if spaced then [fs] else [], t);
      CountTagIf(upper, fu, t);
      CountTagIf(spaced, fs, t);
    }
  }

  /** A summary is flagged once for a final dot and once for passing 80 characters. */
  lemma SummaryShape(v: string)
    ensures forall t :: CountTag(SummaryFindings(v), t) == RuleCount(Summary, v, t)
  {
    var dotted, long := EndsWith(v, "."), |v| > 80;
    var fd := Rule(SpecQuality, Warning, SummaryEndsWithDot, Message);
    var fl := Rule(SpecQuality, Warning, SummaryTooLong, Message);
    forall t: Tag ensures CountTag(SummaryFindings(v), t) == RuleCount(Summary, v, t) {
      CountTagAppend(if dotted then [fd] else [], if long then [fl] else [], t);
      CountTagIf(dotted, fd, t);
      CountTagIf(long, fl, t);
    }
  }

  /** A release is flagged once when it lacks the dist tag. */
  lemma ReleaseShape(v: string)
    ensures forall t :: CountTag(ReleaseFindings(v), t) == RuleCount(Release, v, t)
  {
    var c := !Contains(v, "%{?dist}");
    var f := Rule(SpecQuality, Warning, MissingDistTag, Message);
    forall t: Tag ensures CountTag(ReleaseFindings(v), t) == RuleCount(Release, v, t) {
      CountTagIf(c, f, t);
    }
  }

  /** Each rule contributes one finding when its condition holds and none otherwise;
      the upper-case rule fires exactly when the name holds an upper-case letter. */
  lemma KeyShape(k: Key, v: string)
    ensures forall t :: CountTag(KeyFindings(k, v), t) == RuleCount(k, v, t)
  {
    if k == Name {
      NameShape(v);
    } else if k == Summary {
      SummaryShape(v);
    } else if k == Release {
      ReleaseShape(v);
    } else {
      assert KeyFindings(k, v) == [];
    }
  }

  /** Every Name:, Release: and Summary: line is validated, not only the first:
      each rule fires once per line that breaks it. */
  lemma HeaderCounts(lines: seq<string>)
    ensures CountTag(HeaderFindings(lines), UppercasePackageName) == CountIf(lines, NameHasUpper)
    ensures CountTag(HeaderFindings(lines), SpaceInPackageName) == CountIf(lines, NameHasSpace)
    ensures CountTag(HeaderFindings(lines), MissingDistTag) == CountIf(lines, ReleaseWithoutDist)
    ensures CountTag(HeaderFindings(lines), SummaryEndsWithDot) == CountIf(lines, SummaryWithDot)
    ensures CountTag(HeaderFindings(lines), SummaryTooLong) == CountIf(lines, SummaryOverLong)
  {
    forall x | x in lines
      ensures CountTag(LineFindings(x), UppercasePackageName) == (if NameHasUpper(x) then 1 else 0)
      ensures CountTag(LineFindings(x), SpaceInPackageName) == (if NameHasSpace(x) then 1 else 0)
      ensures CountTag(LineFindings(x), MissingDistTag) == (if ReleaseWithoutDist(x) then 1 else 0)
      ensures CountTag(LineFindings(x), SummaryEndsWithDot) == (if SummaryWithDot(x) then 1 else 0)
      ensures CountTag(LineFindings(x), SummaryTooLong) == (if SummaryOverLong(x) then 1 else 0)
    {
      var h := ClassifyHeader(x);
      if h.Tagged? {
        KeyShape(h.key, ValueOf(h));
        assert CountTag(LineFindings(x), UppercasePackageName) == RuleCount(h.key, ValueOf(h), UppercasePackageName);
      }
    }
    CountTagFlatMap(lines, LineFindings, UppercasePackageName, NameHasUpper);
    CountTagFlatMap(lines, LineFindings, SpaceInPackageName, NameHasSpace);
    CountTagFlatMap(lines, LineFindings, MissingDistTag, ReleaseWithoutDist);
    CountTagFlatMap(lines, LineFindings, SummaryEndsWithDot, SummaryWithDot);
    CountTagFlatMap(lines, LineFindings, SummaryTooLong, SummaryOverLong);
  }

  /** A tag or marker is recorded exactly when some line carries it. */
  lemma PresentIffSomeLine(lines: seq<string>, k: Key)
    ensures k in Present(lines) <==> exists i :: 0 <= i < |lines| && k in Marks(ClassifyHeader(lines[i]))
  {
    InUnion(lines, LineMarks, k);
  }

  /** The License: value is the one on the last License: line. */
  lemma {:induction false} LicenseLastWins(lines: seq<string>, j: nat)
    requires j < |lines| && IsLicenseLine(ClassifyHeader(lines[j]))
    requires forall k :: j < k < |lines| ==> !IsLicenseLine(ClassifyHeader(lines[k]))
    ensures LicenseValue(lines) == ValueOf(ClassifyHeader(lines[j]))
  {
    if j < |lines| - 1 {
      var init := lines[..|lines| - 1];
      assert init[j] == lines[j];
      forall k | j < k < |init| ensures !IsLicenseLine(ClassifyHeader(init[k])) {
        assert init[k] == lines[k];
      }
      LicenseLastWins(init, j);
    }
  }

  /** Without a License: line the value stays empty. */
  lemma {:induction false} NoLicenseLine(lines: seq<string>)
    requires forall k :: 0 <= k < |lines| ==> !IsLicenseLine(ClassifyHeader(lines[k]))
    ensures LicenseValue(lines) == []
  {
    if lines != [] {
      var init := lines[..|lines| - 1];
      forall k | 0 <= k < |init| ensures !IsLicenseLine(ClassifyHeader(init[k])) {
        assert init[k] == lines[k];
      }
      NoLicenseLine(init);
    }
  }

  /** The value of a tag line is the stripped text after the tag's own colon: the
      tag name itself can hold no colon, so the first colon is the tag's. */
  lemma TagValueAfterTag(stripped: string, n: nat)
    requires 0 < n <= |stripped| && ToLower(stripped)[n - 1] == ':'
    requires forall i :: 0 <= i < n - 1 ==> ToLower(stripped)[i] != ':'
    ensures TagValue(stripped) == Strip(stripped[n..])
  {
    var lower := ToLower(stripped);
    assert stripped[n - 1] == ':';
    forall i | 0 <= i < n - 1 ensures stripped[i] != ':' {
      assert lower[i] == LowerChar(stripped[i]);
    }
    var r := AfterFirst(stripped, ':');
    var i :| 0 <= i < |stripped| && stripped[i] == ':' && ':' !in stripped[..i] && r == stripped[i + 1..];
  }

  // ---- Absent and deprecated tags ----

  /** How a required field is named in the missing-field detail. */
  function FieldLabel(k: Key): string {
    match k
    case Name => "Name"
    case Version => "Version"
    case Release => "Release"
    case Summary => "Summary"
    case License => "License"
    case _ => ""
  }

  /** The label is the field's name capitalized, as field.capitalize() gives it. */
  lemma FieldLabelCapitalized(k: Key)
    requires k in RequiredKeys
    ensures FieldLabel(k) == Capitalize(KeyName(k))
  {
    match k
    case Name => CapitalizeWord("name", "Name");
    case Version => CapitalizeWord("version", "Version");
    case Release => CapitalizeWord("release", "Release");
    case Summary => CapitalizeWord("summary", "Summary");
    case License => CapitalizeWord("license", "License");
  }

  /** The detail quotes the field's label. */
  function MissingFinding(k: Key): Finding {
    Rule(SpecQuality, Error, Missing(k), About(FieldLabel(k)))
  }

  /** One Error per required field that is absent, in the order of keys. */
  function MissingRequired(keys: seq<Key>, present: set<Key>): seq<Finding> {
    if keys == [] then []
    else
      var k := keys[|keys| - 1];
      MissingRequired(keys[..|keys| - 1], present) + (if k !in present then [MissingFinding(k)] else [])
  }

  /** A tag whose absence (or, for a deprecated one, whose presence) is reported. */
  datatype Expectation = Expectation(key: Key, reportWhenPresent: bool, finding: Finding)

  /** The tests made after the required fields, in the source's order. */
  const Expectations: seq<Expectation> := [
    Expectation(Url, false, Rule(SpecQuality, Warning, MissingUrl, Message)),
    Expectation(Source, false, Rule(SpecQuality, Warning, MissingSource, Message)),
    Expectation(Description, false, Rule(SpecQuality, Error, MissingDescription, Message)),
    Expectation(ChangelogSection, false, Rule(Changelog, Warning, MissingChangelog, Message)),
    Expectation(BuildRoot, true, Rule(SpecQuality, Info, DeprecatedBuildroot, Message)),
    Expectation(Clean, true, Rule(SpecQuality, Info, DeprecatedCleanSection, Message))
  ]

  predicate Fires(e: Expectation, present: set<Key>) {
    (e.key in present) == e.reportWhenPresent
  }

  /** The findings of the expectations that fire, in order. */
  function Triggered(es: seq<Expectation>, present: set<Key>): seq<Finding> {
    if es == [] then []
    else
      var e := es[|es| - 1];
      Triggered(es[..|es| - 1], present) + (if Fires(e, present) then [e.finding] else [])
  }

  /** Required fields first, then the other expectations. */
  function PresenceFindings(present: set<Key>): seq<Finding> {
    MissingRequired(RequiredKeys, present) + Triggered(Expectations, present)
  }

  /** The loop over the required fields, then the remaining tests. */
  method CheckPresence(present: set<Key>) returns (results: seq<Finding>)
    ensures results == PresenceFindings(present)
  {
    results := [];
    for i := 0 to |RequiredKeys|
      invariant results == MissingRequired(RequiredKeys[..i], present)
    {
      assert RequiredKeys[..i + 1][..i] == RequiredKeys[..i];
      var k := RequiredKeys[i];
      if k !in present {
        results := results + [MissingFinding(k)];
      }
    }
    assert RequiredKeys[..|RequiredKeys|] == RequiredKeys;
    results := results + Triggered(Expectations, present);
  }

  lemma {:induction false} MissingRequiredIff(keys: seq<Key>, present: set<Key>, k: Key)
    ensures MissingFinding(k) in MissingRequired(keys, present) <==> k in keys && k !in present
  {
    if keys != [] {
      var init := keys[..|keys| - 1];
      MissingRequiredIff(init, present, k);
      assert keys == init + [keys[|keys| - 1]];
    }
  }

  lemma {:induction false} MissingRequiredOnlyMissing(keys: seq<Key>, present: set<Key>, f: Finding)
    requires f in MissingRequired(keys, present)
    ensures f.tag.Missing? && f == MissingFinding(f.tag.field)
  {
    if keys != [] {
      var init := keys[..|keys| - 1];
      if f in MissingRequired(init, present) {
        MissingRequiredOnlyMissing(init, present, f);
      }
    }
  }

  lemma {:induction false} TriggeredIff(es: seq<Expectation>, present: set<Key>, f: Finding)
    ensures f in Triggered(es, present) <==> exists i :: 0 <= i < |es| && es[i].finding == f && Fires(es[i], present)
  {
    if es != [] {
      var init := es[..|es| - 1];
      TriggeredIff(init, present, f);
      if exists i :: 0 <= i < |es| && es[i].finding == f && Fires(es[i], present) {
        var i :| 0 <= i < |es| && es[i].finding == f && Fires(es[i], present);
        if i < |init| {
          assert init[i] == es[i];
        }
      }
      if exists i :: 0 <= i < |init| && init[i].finding == f && Fires(init[i], present) {
        var i :| 0 <= i < |init| && init[i].finding == f && Fires(init[i], present);
        assert es[i] == init[i];
      }
    }
  }

  /** Each required field is reported exactly when it is absent, and every finding
      the required-field loop makes is such a report. */
  lemma RequiredMeaning(present: set<Key>, k: Key)
    ensures MissingFinding(k) in PresenceFindings(present) <==> k in RequiredKeys && k !in present
  {
    MissingRequiredIff(RequiredKeys, present, k);
    TriggeredIff(Expectations, present, MissingFinding(k));
    var es := Expectations;
    assert forall i :: 0 <= i < |es| ==> !es[i].finding.tag.Missing?;
  }

  /** Each of the other tests reports exactly when its tag is absent (present, for a
      deprecated one). */
  lemma ExpectationMeaning(present: set<Key>, i: nat)
    requires i < |Expectations|
    ensures Expectations[i].finding in PresenceFindings(present) <==> Fires(Expectations[i], present)
  {
    var es := Expectations;
    var f := es[i].finding;
    TriggeredIff(es, present, f);
    assert forall j :: 0 <= j < |es| && es[j].finding == f ==> j == i;
    if f in MissingRequired(RequiredKeys, present) {
      MissingRequiredOnlyMissing(RequiredKeys, present, f);
    }
  }

  /** With nothing present, every required field is reported, in the order name,
      version, release, summary, license, before the four absent recommended ones. */
  lemma NothingPresent()
    ensures PresenceFindings({}) == [
      MissingFinding(Name), MissingFinding(Version), MissingFinding(Release),
      MissingFinding(Summary), MissingFinding(License),
      Rule(SpecQuality, Warning, MissingUrl, Message),
      Rule(SpecQuality, Warning, MissingSource, Message),
      Rule(SpecQuality, Error, MissingDescription, Message),
      Rule(Changelog, Warning, MissingChangelog, Message)]
  {
    AllRequiredMissing();
    NoExpectationMet();
  }

  lemma AllRequiredMissing()
    ensures MissingRequired(RequiredKeys, {}) == [
      MissingFinding(Name), MissingFinding(Version), MissingFinding(Release),
      MissingFinding(Summary), MissingFinding(License)]
  {
    var keys := RequiredKeys;
    var none: set<Key> := {};
    assert keys[..1][..0] == [];
    assert MissingRequired(keys[..1], none) == [MissingFinding(Name)];
    assert keys[..2][..1] == keys[..1];
    assert MissingRequired(keys[..2], none) == [MissingFinding(Name), MissingFinding(Version)];
    assert keys[..3][..2] == keys[..2];
    assert MissingRequired(keys[..3], none) == [MissingFinding(Name), MissingFinding(Version), MissingFinding(Release)];
    assert keys[..4][..3] == keys[..3];
    assert MissingRequired(keys[..4], none)
      == [MissingFinding(Name), MissingFinding(Version), MissingFinding(Release), MissingFinding(Summary)];
    assert keys[..5][..4] == keys[..4] && keys[..5] == keys;
    assert MissingRequired(keys, none) == [MissingFinding(Name), MissingFinding(Version), MissingFinding(Release),
      MissingFinding(Summary), MissingFinding(License)];
  }

  lemma NoExpectationMet()
    ensures Triggered(Expectations, {}) == [
      Rule(SpecQuality, Warning, MissingUrl, Message),
      Rule(SpecQuality, Warning, MissingSource, Message),
      Rule(SpecQuality, Error, MissingDescription, Message),
      Rule(Changelog, Warning, MissingChangelog, Message)]
  {
    var none: set<Key> := {};
    var es := Expectations;
    assert es[..1][..0] == [];
    assert Triggered(es[..1], none) == [es[0].finding];
    assert es[..2][..1] == es[..1];
    assert Triggered(es[..2], none) == [es[0].finding, es[1].finding];
    assert es[..3][..2] == es[..2];
    assert Triggered(es[..3], none) == [es[0].finding, es[1].finding, es[2].finding];
    assert es[..4][..3] == es[..3];
    assert Triggered(es[..4], none) == [es[0].finding, es[1].finding, es[2].finding, es[3].finding];
    assert es[..5][..4] == es[..4];
    assert Triggered(es[..5], none) == [es[0].finding, es[1].finding, es[2].finding, es[3].finding];
    assert es[..6][..5] == es[..5] && es[..6] == es;
    assert Triggered(es, none) == [es[0].finding, es[1].finding, es[2].finding, es[3].finding];
  }
}
