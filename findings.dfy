// The finding record every checker emits, and the small toolkit for reasoning about
// lists of findings built line by line.

module Findings {

  /** The groups findings are displayed under. */
  datatype Category =
    | Naming | SpecQuality | Dependencies | FilePlacement | Licensing
    | Scriptlets | Macros | Changelog | Rpmlint | General

  function CategoryName(c: Category): string {
    match c
    case Naming => "naming"
    case SpecQuality => "spec-quality"
    case Dependencies => "dependencies"
    case FilePlacement => "file-placement"
    case Licensing => "licensing"
    case Scriptlets => "scriptlets"
    case Macros => "macros"
    case Changelog => "changelog"
    case Rpmlint => "rpmlint"
    case General => "general"
  }

  /** A severity is a one-letter code: the checkers use E, W and I, and findings
      copied from the linter keep whatever letter the linter printed. */
  type Severity = char

  const Error: Severity := 'E'
  const Warning: Severity := 'W'
  const Info: Severity := 'I'

  /** The spec-file header tags and section markers whose presence is recorded. */
  datatype Key =
    | Name | Version | Release | Summary | License
    | Url | Source | BuildRoot | Description | ChangelogSection | Clean

  /** The fields whose absence is an Error, in the order they are reported. */
  const RequiredKeys: seq<Key> := [Name, Version, Release, Summary, License]

  function KeyName(k: Key): string {
    match k
    case Name => "name"
    case Version => "version"
    case Release => "release"
    case Summary => "summary"
    case License => "license"
    case Url => "url"
    case Source => "source"
    case BuildRoot => "buildroot"
    case Description => "description"
    case ChangelogSection => "changelog"
    case Clean => "clean"
  }

  /** One constructor per rule; Reported carries a tag copied from linter output. */
  datatype Tag =
    | SpecReadError
    | UppercasePackageName | SpaceInPackageName | MissingDistTag
    | SummaryEndsWithDot | SummaryTooLong
    | Missing(field: Key)
    | MissingUrl | MissingSource | MissingDescription | MissingChangelog
    | DeprecatedBuildroot | DeprecatedCleanSection
    | OldLicenseIdentifier | UnknownLicenseIdentifier
    | HardcodedLibraryPath | HardcodedBindir | HardcodedDatadir | HardcodedSysconfdir
    | DangerousRmInScriptlet | ExitInScriptlet
    | MalformedChangelogEntry
    | RpmQueryFailed | MissingUrlInRpm | FileInUsrLocal | FileInTmp | FileDependency
    | RpmNotInstalled | RpmError
    | RpmlintNotInstalled | RpmlintError
    | UnknownFileType
    | Reported(name: string)

  function TagName(t: Tag): string {
    match t
    case SpecReadError => "spec-read-error"
    case UppercasePackageName => "uppercase-package-name"
    case SpaceInPackageName => "space-in-package-name"
    case MissingDistTag => "missing-dist-tag"
    case SummaryEndsWithDot => "summary-ends-with-dot"
    case SummaryTooLong => "summary-too-long"
    case Missing(k) => "missing-" + KeyName(k)
    case MissingUrl => "missing-url"
    case MissingSource => "missing-source"
    case MissingDescription => "missing-description"
    case MissingChangelog => "missing-changelog"
    case DeprecatedBuildroot => "deprecated-buildroot"
    case DeprecatedCleanSection => "deprecated-clean-section"
    case OldLicenseIdentifier => "old-license-identifier"
    case UnknownLicenseIdentifier => "unknown-license-identifier"
    case HardcodedLibraryPath => "hardcoded-library-path"
    case HardcodedBindir => "hardcoded-bindir"
    case HardcodedDatadir => "hardcoded-datadir"
    case HardcodedSysconfdir => "hardcoded-sysconfdir"
    case DangerousRmInScriptlet => "dangerous-rm-in-scriptlet"
    case ExitInScriptlet => "exit-in-scriptlet"
    case MalformedChangelogEntry => "malformed-changelog-entry"
    case RpmQueryFailed => "rpm-query-failed"
    case MissingUrlInRpm => "missing-url-in-rpm"
    case FileInUsrLocal => "file-in-usr-local"
    case FileInTmp => "file-in-tmp"
    case FileDependency => "file-dependency"
    case RpmNotInstalled => "rpm-not-installed"
    case RpmError => "rpm-error"
    case RpmlintNotInstalled => "rpmlint-not-installed"
    case RpmlintError => "rpmlint-error"
    case UnknownFileType => "unknown-file-type"
    case Reported(name) => name
  }

  /** The human-readable description. Its wording is translated text and is left
      abstract; what is kept is the 1-based line number, the value a message quotes,
      or the raw text the source passes through unchanged. */
  datatype Detail =
    | Message
    | AtLine(line: nat)
    | About(subject: string)
    | Verbatim(text: string)

  /** The remediation text: a fixed translated sentence, or the empty string. */
  datatype Recommendation = Blank | Advice

  datatype Finding = Finding(
    category: Category,
    severity: Severity,
    package: string,
    tag: Tag,
    detail: Detail,
    recommendation: Recommendation)

  /** A finding of one of the checkers, with no package and a fixed recommendation. */
  function Rule(category: Category, severity: Severity, tag: Tag, detail: Detail): Finding {
    Finding(category, severity, "", tag, detail, Advice)
  }

  /** The findings of each item in turn, concatenated in order. */
  function FlatMap<T>(items: seq<T>, f: T -> seq<Finding>): seq<Finding> {
    if items == [] then []
    else FlatMap(items[..|items| - 1], f) + f(items[|items| - 1])
  }

  /** How many items satisfy p. */
  function CountIf<T>(items: seq<T>, p: T -> bool): nat {
    if items == [] then 0
    else CountIf(items[..|items| - 1], p) + (if p(items[|items| - 1]) then 1 else 0)
  }

  /** How many findings carry tag t. */
  function CountTag(fs: seq<Finding>, t: Tag): nat {
    if fs == [] then 0
    else CountTag(fs[..|fs| - 1], t) + (if fs[|fs| - 1].tag == t then 1 else 0)
  }

  lemma {:induction false} CountTagAppend(a: seq<Finding>, b: seq<Finding>, t: Tag)
    ensures CountTag(a + b, t) == CountTag(a, t) + CountTag(b, t)
    decreases |b|
  {
    if b != [] {
      assert (a + b)[..|a + b| - 1] == a + b[..|b| - 1];
      CountTagAppend(a, b[..|b| - 1], t);
    } else {
      assert a + b == a;
    }
  }

  /** A finding added under a condition counts once when the condition holds and
      its tag is t. */
  lemma CountTagIf(c: bool, f: Finding, t: Tag)
    ensures CountTag(if c then [f] else [], t) == (if c && f.tag == t then 1 else 0)
  {
    if c {
      assert [f][..0] == [];
    }
  }

  /** When every item contributes one finding tagged t exactly when it satisfies p,
      the concatenation holds one such finding per satisfying item. */
  lemma {:induction false} CountTagFlatMap<T>(items: seq<T>, f: T -> seq<Finding>, t: Tag, p: T -> bool)
    requires forall x :: x in items ==> CountTag(f(x), t) == (if p(x) then 1 else 0)
    ensures CountTag(FlatMap(items, f), t) == CountIf(items, p)
  {
    if items != [] {
      var init := items[..|items| - 1];
      CountTagFlatMap(init, f, t, p);
      CountTagAppend(FlatMap(init, f), f(items[|items| - 1]), t);
    }
  }

  /** When every item contributes exactly one finding when it satisfies p and none
      otherwise, the concatenation is as long as the number of satisfying items. */
  lemma {:induction false} LengthFlatMap<T>(items: seq<T>, f: T -> seq<Finding>, p: T -> bool)
    requires forall x :: x in items ==> |f(x)| == (if p(x) then 1 else 0)
    ensures |FlatMap(items, f)| == CountIf(items, p)
  {
    if items != [] {
      LengthFlatMap(items[..|items| - 1], f, p);
    }
  }

  /** A finding is in the concatenation exactly when some item contributed it. */
  lemma {:induction false} InFlatMap<T>(items: seq<T>, f: T -> seq<Finding>, x: Finding)
    ensures x in FlatMap(items, f) <==> exists i :: 0 <= i < |items| && x in f(items[i])
  {
    if items != [] {
      var init := items[..|items| - 1];
      InFlatMap(init, f, x);
      if x in f(items[|items| - 1]) {
        assert x in f(items[|items| - 1 ]);
      }
      if exists i :: 0 <= i < |items| && x in f(items[i]) {
        var i :| 0 <= i < |items| && x in f(items[i]);
        if i < |items| - 1 {
          assert init[i] == items[i];
        }
      }
    }
  }

  /** Taking one more item appends its findings. */
  lemma FlatMapPrefix<T>(items: seq<T>, i: nat, f: T -> seq<Finding>)
    requires i < |items|
    ensures FlatMap(items[..i + 1], f) == FlatMap(items[..i], f) + f(items[i])
  {
    assert items[..i + 1][..i] == items[..i];
  }

  /** One item contributes exactly its own findings. */
  lemma FlatMapSingle<T>(x: T, f: T -> seq<Finding>)
    ensures FlatMap([x], f) == f(x)
  {
    assert [x][..0] == [];
  }

  /** The union of f over items, gathered from the front. */
  function Union<T, K>(items: seq<T>, f: T -> set<K>): set<K> {
    if items == [] then {} else Union(items[..|items| - 1], f) + f(items[|items| - 1])
  }

  lemma {:induction false} InUnion<T, K>(items: seq<T>, f: T -> set<K>, k: K)
    ensures k in Union(items, f) <==> exists i :: 0 <= i < |items| && k in f(items[i])
  {
    if items != [] {
      var init := items[..|items| - 1];
      InUnion(init, f, k);
      if exists i :: 0 <= i < |items| && k in f(items[i]) {
        var i :| 0 <= i < |items| && k in f(items[i]);
        if i < |init| {
          assert init[i] == items[i];
        }
      }
      if exists i :: 0 <= i < |init| && k in f(init[i]) {
        var i :| 0 <= i < |init| && k in f(init[i]);
        assert items[i] == init[i];
      }
    }
  }
}
