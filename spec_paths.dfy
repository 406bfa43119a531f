// The hardcoded-path scan of the spec-file analyzer: four independent tests on every
// stripped line, each reporting the line's 1-based number.

module SpecPaths {
  import opened Text
  import opened Findings

  /** One path test: the directory fragment it looks for, the macro whose presence
      silences it, whether a line starting with "Source" is exempt, and what it
      reports. */
  datatype PathRule = PathRule(fragment: string, macro: string, sourceExempt: bool, severity: Severity, tag: Tag)

  /** The four tests, in the order they are made on each line. */
  const PathRules: seq<PathRule> := [
    PathRule("/usr/lib/", "%{_libdir}", false, Warning, HardcodedLibraryPath),
    PathRule("/usr/bin/", "%{_bindir}", true, Warning, HardcodedBindir),
    PathRule("/usr/share/", "%{_datadir}", true, Info, HardcodedDatadir),
    PathRule("/etc/", "%{_sysconfdir}", false, Info, HardcodedSysconfdir)
  ]

  /** Whether the test fires on a stripped line. The Source exemption compares case
      as written: a "source0:" line is not exempt. */
  predicate Flags(r: PathRule, stripped: string) {
    Contains(stripped, r.fragment) && !Contains(stripped, r.macro)
    && !StartsWith(stripped, "#")
    && !(r.sourceExempt && StartsWith(stripped, "Source"))
  }

  function PathFinding(r: PathRule, n: nat): Finding {
    Rule(Macros, r.severity, r.tag, AtLine(n))
  }

  /** The findings the tests in rs make on line n, in order. */
  function PathHits(rs: seq<PathRule>, n: nat, stripped: string): seq<Finding> {
    if rs == [] then []
    else
      var r := rs[|rs| - 1];
      PathHits(rs[..|rs| - 1], n, stripped) + (if Flags(r, stripped) then [PathFinding(r, n)] else [])
  }

  /** The tests rs on every stripped line, the line numbered from 1. */
  function PathScan(rs: seq<PathRule>, lines: seq<string>): seq<Finding> {
    if lines == [] then []
    else PathScan(rs, lines[..|lines| - 1]) + PathHits(rs, |lines|, Strip(lines[|lines| - 1]))
  }

  function PathFindings(lines: seq<string>): seq<Finding> {
    PathScan(PathRules, lines)
  }

  /** The four tests on one stripped line. */
  method CheckPathLine(n: nat, stripped: string) returns (found: seq<Finding>)
    ensures found == PathHits(PathRules, n, stripped)
  {
    found := [];
    for j := 0 to |PathRules|
      invariant found == PathHits(PathRules[..j], n, stripped)
    {
      assert PathRules[..j + 1][..j] == PathRules[..j];
      var r := PathRules[j];
      if Flags(r, stripped) {
        found := found + [PathFinding(r, n)];
      }
    }
    assert PathRules[..|PathRules|] == PathRules;
  }

  /** The scan over all lines, numbered from 1. */
  method ScanPaths(lines: seq<string>) returns (results: seq<Finding>)
    ensures results == PathFindings(lines)
  {
    results := [];
    for i := 0 to |lines|
      invariant results == PathScan(PathRules, lines[..i])
    {
      assert lines[..i + 1][..i] == lines[..i];
      var found := CheckPathLine(i + 1, Strip(lines[i]));
      results := results + found;
    }
    assert lines[..|lines|] == lines;
  }

  /** A test reports line n exactly when it fails on the line. */
  lemma PathHitsIff(rs: seq<PathRule>, n: nat, stripped: string, f: Finding)
    ensures f in PathHits(rs, n, stripped) <==> exists j :: 0 <= j < |rs| && f == PathFinding(rs[j], n) && Flags(rs[j], stripped)
  {
    if f in PathHits(rs, n, stripped) {
      PathHitFrom(rs, n, stripped, f);
    }
    if exists j :: 0 <= j < |rs| && f == PathFinding(rs[j], n) && Flags(rs[j], stripped) {
      var j :| 0 <= j < |rs| && f == PathFinding(rs[j], n) && Flags(rs[j], stripped);
      PathHitOf(rs, n, stripped, j);
    }
  }

  /** Every finding on a line comes from a test that fails on it. */
  lemma {:induction false} PathHitFrom(rs: seq<PathRule>, n: nat, stripped: string, f: Finding)
    requires f in PathHits(rs, n, stripped)
    ensures exists j :: 0 <= j < |rs| && f == PathFinding(rs[j], n) && Flags(rs[j], stripped)
  {
    var init := rs[..|rs| - 1];
    if f in PathHits(init, n, stripped) {
      PathHitFrom(init, n, stripped, f);
      var j :| 0 <= j < |init| && f == PathFinding(init[j], n) && Flags(init[j], stripped);
      assert rs[j] == init[j];
    } else {
      assert rs[|rs| - 1] == rs[|init|];
    }
  }

  /** Every test that fails on a line reports it. */
  lemma {:induction false} PathHitOf(rs: seq<PathRule>, n: nat, stripped: string, j: nat)
    requires j < |rs| && Flags(rs[j], stripped)
    ensures PathFinding(rs[j], n) in PathHits(rs, n, stripped)
  {
    if j < |rs| - 1 {
      var init := rs[..|rs| - 1];
      assert init[j] == rs[j];
      PathHitOf(init, n, stripped, j);
    }
  }

  predicate DistinctTags(rs: seq<PathRule>) {
    forall a, b :: 0 <= a < b < |rs| ==> rs[a].tag != rs[b].tag
  }

  lemma PathRulesDistinct()
    ensures DistinctTags(PathRules)
  {
  }

  /** With tests under distinct tags, test j reports line n of the numbered lines
      exactly when the stripped line fails it. */
  lemma {:induction false} PathScanIff(rs: seq<PathRule>, lines: seq<string>, j: nat, n: nat)
    requires DistinctTags(rs) && j < |rs|
    ensures PathFinding(rs[j], n) in PathScan(rs, lines) <==> 1 <= n <= |lines| && Flags(rs[j], Strip(lines[n - 1]))
  {
    if lines != [] {
      var init := lines[..|lines| - 1];
      var f := PathFinding(rs[j], n);
      PathScanIff(rs, init, j, n);
      PathHitsIff(rs, |lines|, Strip(lines[|lines| - 1]), f);
      if f in PathHits(rs, |lines|, Strip(lines[|lines| - 1])) {
        var k :| 0 <= k < |rs| && f == PathFinding(rs[k], |lines|) && Flags(rs[k], Strip(lines[|lines| - 1]));
        assert k == j;
      }
      if 1 <= n < |lines| {
        assert init[n - 1] == lines[n - 1];
      }
    }
  }

  /** Test j reports line n exactly when that line, stripped, fails it: the tests are
      independent of each other and of every other line. */
  lemma PathFindingIff(lines: seq<string>, j: nat, n: nat)
    requires j < |PathRules|
    ensures PathFinding(PathRules[j], n) in PathFindings(lines)
      <==> 1 <= n <= |lines| && Flags(PathRules[j], Strip(lines[n - 1]))
  {
    PathRulesDistinct();
    PathScanIff(PathRules, lines, j, n);
  }

  /** A comment line is never reported, whatever path it names. */
  lemma CommentNotFlagged(lines: seq<string>, j: nat, n: nat)
    requires j < |PathRules| && 1 <= n <= |lines| && StartsWith(Strip(lines[n - 1]), "#")
    ensures PathFinding(PathRules[j], n) !in PathFindings(lines)
  {
    PathFindingIff(lines, j, n);
  }

  /** A line holding the test's own macro is not reported by that test. */
  lemma MacroSilences(lines: seq<string>, j: nat, n: nat)
    requires j < |PathRules| && 1 <= n <= |lines| && Contains(Strip(lines[n - 1]), PathRules[j].macro)
    ensures PathFinding(PathRules[j], n) !in PathFindings(lines)
  {
    PathFindingIff(lines, j, n);
  }

  /** The Source exemption covers the bindir and datadir tests only: a Source line
      naming /usr/lib/ or /etc/ without the macro is still reported. */
  lemma SourceExemptionIsNarrow(lines: seq<string>, j: nat, n: nat)
    requires j < |PathRules| && 1 <= n <= |lines|
    requires StartsWith(Strip(lines[n - 1]), "Source")
    ensures PathFinding(PathRules[j], n) in PathFindings(lines)
      <==> ((j == 0 || j == 3) && Contains(Strip(lines[n - 1]), PathRules[j].fragment)
        && !Contains(Strip(lines[n - 1]), PathRules[j].macro))
  {
    PathFindingIff(lines, j, n);
    var s := Strip(lines[n - 1]);
    assert s[..1] == "S";
    assert !StartsWith(s, "#");
  }
}
