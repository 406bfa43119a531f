// The entry point that picks the checks for a path: by its suffix, or, for any other
// path, by sniffing its first line. Reading the file and running the external
// programs are left out: each outcome is an input.

module Dispatcher {
  import opened Text
  import opened Findings
  import SpecFile
  import RpmFile
  import Linter

  /** The first line of a path with neither known suffix, or the failure to read it. */
  datatype FirstLine = Line(text: string) | Unreadable

  /** Everything the checks would observe of the outside world for one path. */
  datatype Observed = Observed(
    spec: SpecFile.SpecRead,
    info: RpmFile.Query,
    files: RpmFile.Query,
    deps: RpmFile.Query,
    lint: Linter.LintRun,
    first: FirstLine)

  const UnknownFinding: Finding := Rule(General, Error, UnknownFileType, Message)

  /** A first line that mentions a Name: tag or holds a `%` is taken for a spec file. */
  predicate LooksLikeSpec(line: string) {
    Contains(line, "Name:") || '%' in line
  }

  /** Which checks a path gets. */
  datatype Route = SpecByName | RpmByName | SpecBySniff | Unknown

  function RouteOf(path: string, first: FirstLine): Route {
    if EndsWith(path, ".spec") then SpecByName
    else if EndsWith(path, ".rpm") then RpmByName
    else if first.Line? && LooksLikeSpec(first.text) then SpecBySniff
    else Unknown
  }

  /** The linter runs on a path only when asked for and only when its suffix is known. */
  predicate LinterRuns(path: string, runLint: bool) {
    runLint && (EndsWith(path, ".spec") || EndsWith(path, ".rpm"))
  }

  /** The findings of the checks the route picks, before any linter output. */
  function OwnFindings(path: string, o: Observed): seq<Finding> {
    match RouteOf(path, o.first)
    case SpecByName => SpecFile.SpecFindings(o.spec)
    case RpmByName => RpmFile.RpmFindings(o.info, o.files, o.deps)
    case SpecBySniff => SpecFile.SpecFindings(o.spec)
    case Unknown => [UnknownFinding]
  }

  function PackageFindings(path: string, runLint: bool, o: Observed): seq<Finding> {
    OwnFindings(path, o) + (if LinterRuns(path, runLint) then Linter.LintFindings(o.lint) else [])
  }

  /** The checks of the route, before any linter output: the suffix decides first;
      otherwise the first line does, and a path that cannot be read or does not look
      like a spec file gets one finding. */
  method CheckOwn(path: string, o: Observed) returns (results: seq<Finding>)
    ensures results == OwnFindings(path, o)
  {
    if EndsWith(path, ".spec") {
      results := SpecFile.CheckSpecFile(o.spec);
    } else if EndsWith(path, ".rpm") {
      results := RpmFile.CheckRpmFile(o.info, o.files, o.deps);
    } else {
      match o.first {
        case Line(text) =>
          if LooksLikeSpec(text) {
            results := SpecFile.CheckSpecFile(o.spec);
          } else {
            results := [UnknownFinding];
          }
        case Unreadable =>
          results := [UnknownFinding];
      }
    }
  }

  /** The dispatcher: the route's checks, then the linter on a path with a known
      suffix when it is asked for. */
  method CheckPackage(path: string, runLint: bool, o: Observed) returns (results: seq<Finding>)
    ensures results == PackageFindings(path, runLint, o)
  {
    results := CheckOwn(path, o);
    if runLint && (EndsWith(path, ".spec") || EndsWith(path, ".rpm")) {
      var lint := Linter.RunLinter(o.lint);
      results := results + lint;
    }
  }

  // ---- What the routing promises ----

  /** A path is unknown exactly when it has neither suffix and its first line cannot
      be read or shows neither sign of a spec file; it then gets exactly one finding,
      whatever the linter flag. */
  lemma UnknownIff(path: string, runLint: bool, o: Observed)
    ensures RouteOf(path, o.first) == Unknown <==>
      (!EndsWith(path, ".spec") && !EndsWith(path, ".rpm") && (o.first.Unreadable? || !LooksLikeSpec(o.first.text)))
    ensures RouteOf(path, o.first) == Unknown ==> PackageFindings(path, runLint, o) == [UnknownFinding]
  {
  }

  /** A suffix decides alone: the first line of a .spec or .rpm path is never looked
      at. */
  lemma SuffixDecides(path: string, runLint: bool, o: Observed, other: FirstLine)
    requires EndsWith(path, ".spec") || EndsWith(path, ".rpm")
    ensures PackageFindings(path, runLint, o) == PackageFindings(path, runLint, o.(first := other))
  {
  }

  /** Every path takes exactly one route: the spec analysis by name exactly when it
      ends in .spec, the binary-package rules exactly when it ends in .rpm, and
      sniffing only for a path with neither suffix whose first line looks like a spec
      file. */
  lemma RouteBySuffix(path: string, first: FirstLine)
    ensures RouteOf(path, first) == SpecByName <==> EndsWith(path, ".spec")
    ensures RouteOf(path, first) == RpmByName <==> EndsWith(path, ".rpm")
    ensures RouteOf(path, first) == SpecBySniff <==>
      !EndsWith(path, ".spec") && !EndsWith(path, ".rpm") && first.Line? && LooksLikeSpec(first.text)
  {
    if EndsWith(path, ".spec") {
      assert path[|path| - 1] == ".spec"[4];
    }
  }

  /** A sniffed spec file is analyzed like a named one, but never linted, even when
      the linter is asked for. */
  lemma SniffedNotLinted(path: string, o: Observed)
    requires RouteOf(path, o.first) == SpecBySniff
    ensures PackageFindings(path, true, o) == SpecFile.SpecFindings(o.spec)
    ensures PackageFindings(path, true, o) == PackageFindings(path + ".spec", false, o)
  {
    assert EndsWith(path + ".spec", ".spec") by {
      assert (path + ".spec")[|path|..] == ".spec";
    }
  }

  /** When the linter runs, its findings come last, after all of the file's own,
      and every one of them is filed under the linter's category. */
  lemma LinterLast(path: string, o: Observed)
    requires LinterRuns(path, true)
    ensures PackageFindings(path, true, o) == OwnFindings(path, o) + Linter.LintFindings(o.lint)
    ensures forall f :: f in PackageFindings(path, true, o)[|OwnFindings(path, o)|..] ==> f.category == Rpmlint
  {
    var own := OwnFindings(path, o);
    var lint := Linter.LintFindings(o.lint);
    assert (own + lint)[|own|..] == lint;
    forall f | f in lint ensures f.category == Rpmlint {
      Linter.LintCategory(o.lint, f);
    }
  }
}
