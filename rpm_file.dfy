// The rules applied to a binary package once its three queries (header information,
// file list, requirements) have run. Running the queries is left out: each outcome
// is an input.

module RpmFile {
  import opened Text
  import opened Findings

  /** How a query ended: it exited with a code and its captured output, the query
      program was not found, or another exception (a timeout, say) was raised. */
  datatype Query = Exited(code: int, stdout: string, stderr: string) | NotFound | Raised(message: string)

  // ---- The findings ----

  function QueryFailed(stderr: string): Finding {
    var text := Strip(stderr);
    Rule(General, Error, RpmQueryFailed, if text == [] then Message else Verbatim(text))
  }

  const NotInstalledFinding: Finding := Rule(General, Error, RpmNotInstalled, Message)

  function ErrorFinding(message: string): Finding {
    Finding(General, Error, "", RpmError, Verbatim(message), Blank)
  }

  const MissingUrlFinding: Finding := Rule(SpecQuality, Warning, MissingUrlInRpm, Message)

  function UsrLocalFinding(path: string): Finding {
    Rule(FilePlacement, Error, FileInUsrLocal, About(path))
  }

  function TmpFinding(path: string): Finding {
    Rule(FilePlacement, Error, FileInTmp, About(path))
  }

  function DependencyFinding(dep: string): Finding {
    Rule(Dependencies, Info, FileDependency, About(dep))
  }

  /** The finding an exception leaves. */
  function Failure(q: Query): Finding
    requires !q.Exited?
  {
    if q.NotFound? then NotInstalledFinding else ErrorFinding(q.message)
  }

  // ---- Per-line rules ----

  /** The value of an information line that counts as unset. */
  predicate NoValue(value: string) {
    value == [] || value == "(none)"
  }

  /** An information line for the URL whose value, after the first colon, is empty
      or "(none)". */
  predicate UrlMissing(line: string) {
    StartsWith(line, "URL") && NoValue(Strip(AfterFirst(line, ':')))
  }

  function UrlLine(line: string): seq<Finding> {
    if UrlMissing(line) then [MissingUrlFinding] else []
  }

  predicate InUsrLocal(path: string) {
    StartsWith(path, "/usr/local/")
  }

  /** Build-id links, which are expected and skipped by the temporary-directory
      rule. */
  predicate IsBuildId(path: string) {
    path == "/usr/lib/.build-id" || Contains(path, "/.build-id/")
  }

  predicate InTmp(path: string) {
    StartsWith(path, "/tmp/") || StartsWith(path, "/var/tmp/")
  }

  /** The /usr/local rule runs first; the build-id skip only guards the temporary
      directory rule after it. */
  function FileLine(path: string): seq<Finding> {
    (if InUsrLocal(path) then [UsrLocalFinding(path)] else [])
    + (if !IsBuildId(path) && InTmp(path) then [TmpFinding(path)] else [])
  }

  /** A stripped requirement that names a file outside /usr other than the three
      standard interpreters and helpers. */
  predicate FileDependencyOn(dep: string) {
    StartsWith(dep, "/") && !StartsWith(dep, "/usr/")
    && dep != "/bin/sh" && dep != "/bin/bash" && dep != "/sbin/ldconfig"
  }

  function DependencyLine(line: string): seq<Finding> {
    var dep := Strip(line);
    if FileDependencyOn(dep) then [DependencyFinding(dep)] else []
  }

  /** What a successful query's lines yield, or nothing when it exited non-zero. */
  function ExitedFindings(q: Query, f: string -> seq<Finding>): seq<Finding>
    requires q.Exited?
  {
    if q.code == 0 then FlatMap(SplitLines(q.stdout), f) else []
  }

  // ---- The whole check ----

  /** The requirements query, run last: its exception is appended to what was
      collected before. */
  function AfterFiles(deps: Query): seq<Finding> {
    if deps.Exited? then ExitedFindings(deps, DependencyLine) else [Failure(deps)]
  }

  function AfterInfo(files: Query, deps: Query): seq<Finding> {
    if files.Exited? then ExitedFindings(files, FileLine) + AfterFiles(deps) else [Failure(files)]
  }

  function RpmFindings(info: Query, files: Query, deps: Query): seq<Finding> {
    if !info.Exited? then [Failure(info)]
    else if info.code != 0 then [QueryFailed(info.stderr)]
    else FlatMap(SplitLines(info.stdout), UrlLine) + AfterInfo(files, deps)
  }

  /** The file rules on one path, skipping the temporary-directory rule for
      build-id links. */
  method CheckFile(path: string) returns (found: seq<Finding>)
    ensures found == FileLine(path)
  {
    found := [];
    if InUsrLocal(path) {
      found := found + [UsrLocalFinding(path)];
    }
    if IsBuildId(path) {
      return;
    }
    if InTmp(path) {
      found := found + [TmpFinding(path)];
    }
  }

  /** The URL rule over the information lines. */
  method ScanInfo(lines: seq<string>) returns (results: seq<Finding>)
    ensures results == FlatMap(lines, UrlLine)
  {
    results := [];
    for i := 0 to |lines|
      invariant results == FlatMap(lines[..i], UrlLine)
    {
      assert lines[..i + 1][..i] == lines[..i];
      if UrlMissing(lines[i]) {
        results := results + [MissingUrlFinding];
      }
    }
    assert lines[..|lines|] == lines;
  }

  /** The file rules over the listed paths. */
  method ScanFiles(paths: seq<string>) returns (results: seq<Finding>)
    ensures results == FlatMap(paths, FileLine)
  {
    results := [];
    for i := 0 to |paths|
      invariant results == FlatMap(paths[..i], FileLine)
    {
      assert paths[..i + 1][..i] == paths[..i];
      var found := CheckFile(paths[i]);
      results := results + found;
    }
    assert paths[..|paths|] == paths;
  }

  /** The dependency rule over the stripped requirement lines. */
  method ScanDependencies(reqs: seq<string>) returns (results: seq<Finding>)
    ensures results == FlatMap(reqs, DependencyLine)
  {
    results := [];
    for i := 0 to |reqs|
      invariant results == FlatMap(reqs[..i], DependencyLine)
    {
      assert reqs[..i + 1][..i] == reqs[..i];
      var dep := Strip(reqs[i]);
      if FileDependencyOn(dep) {
        results := results + [DependencyFinding(dep)];
      }
    }
    assert reqs[..|reqs|] == reqs;
  }

  /** The requirements query and its rule, after the files were looked at. */
  method CheckAfterFiles(deps: Query) returns (results: seq<Finding>)
    ensures results == AfterFiles(deps)
  {
    if !deps.Exited? {
      return [Failure(deps)];
    }
    results := [];
    if deps.code == 0 {
      results := ScanDependencies(SplitLines(deps.stdout));
    }
  }

  /** The file query and its rule, then the requirements query. */
  method CheckAfterInfo(files: Query, deps: Query) returns (results: seq<Finding>)
    ensures results == AfterInfo(files, deps)
  {
    if !files.Exited? {
      return [Failure(files)];
    }
    results := [];
    if files.code == 0 {
      results := ScanFiles(SplitLines(files.stdout));
    }
    var rest := CheckAfterFiles(deps);
    results := results + rest;
  }

  /** The check: a failed or non-zero information query ends it; a non-zero exit of
      a later query skips that query's rule; an exception ends it after what has
      been collected. */
  method CheckRpmFile(info: Query, files: Query, deps: Query) returns (results: seq<Finding>)
    ensures results == RpmFindings(info, files, deps)
  {
    if !info.Exited? {
      return [Failure(info)];
    }
    if info.code != 0 {
      return [QueryFailed(info.stderr)];
    }
    results := ScanInfo(SplitLines(info.stdout));
    var rest := CheckAfterInfo(files, deps);
    results := results + rest;
  }

  // ---- What the rules promise ----

  /** A failed information query ends the check with exactly one finding, whatever
      the other queries would have given. */
  lemma QueryFailureIsAlone(info: Query, files: Query, deps: Query)
    requires info.Exited? && info.code != 0
    ensures |RpmFindings(info, files, deps)| == 1 && RpmFindings(info, files, deps)[0].tag == RpmQueryFailed
  {
  }

  /** The first colon of the line is at i. */
  predicate FirstColonAt(line: string, i: int) {
    0 <= i < |line| && line[i] == ':' && ':' !in line[..i]
  }

  /** The line has one first colon. */
  lemma FirstColonUnique(line: string, i: int, k: int)
    requires FirstColonAt(line, i) && FirstColonAt(line, k)
    ensures i == k
  {
  }

  /** A URL line is reported exactly when the text after its first colon, stripped,
      is empty or "(none)"; a URL line without a colon counts as empty. */
  lemma UrlMissingIff(line: string)
    ensures UrlLine(line) != [] <==>
      StartsWith(line, "URL")
      && (':' !in line || exists i :: FirstColonAt(line, i) && NoValue(Strip(line[i + 1..])))
  {
    if ':' in line {
      var r := AfterFirst(line, ':');
      var i :| 0 <= i < |line| && line[i] == ':' && ':' !in line[..i] && r == line[i + 1..];
      assert FirstColonAt(line, i);
      UrlValueAt(line, i);
      if exists k :: FirstColonAt(line, k) && NoValue(Strip(line[k + 1..])) {
        var k :| FirstColonAt(line, k) && NoValue(Strip(line[k + 1..]));
        FirstColonUnique(line, i, k);
      }
    } else {
      assert AfterFirst(line, ':') == [];
    }
  }

  /** With its first colon at i, a URL line is reported exactly when the text after
      i, stripped, is unset. */
  lemma UrlValueAt(line: string, i: nat)
    requires FirstColonAt(line, i)
    ensures UrlLine(line) != [] <==> StartsWith(line, "URL") && NoValue(Strip(line[i + 1..]))
  {
    var r := AfterFirst(line, ':');
    var k :| 0 <= k < |line| && line[k] == ':' && ':' !in line[..k] && r == line[k + 1..];
    FirstColonUnique(line, i, k);
  }

  /** Every information line yields at most one finding, the missing-URL warning, so
      the scan reports exactly as many warnings as there are URL lines without a
      value. */
  lemma UrlCounts(lines: seq<string>)
    ensures |FlatMap(lines, UrlLine)| == CountIf(lines, UrlMissing)
    ensures CountTag(FlatMap(lines, UrlLine), MissingUrlInRpm) == CountIf(lines, UrlMissing)
  {
    forall x | x in lines ensures CountTag(UrlLine(x), MissingUrlInRpm) == (if UrlMissing(x) then 1 else 0) {
      CountTagIf(UrlMissing(x), MissingUrlFinding, MissingUrlInRpm);
    }
    CountTagFlatMap(lines, UrlLine, MissingUrlInRpm, UrlMissing);
    LengthFlatMap(lines, UrlLine, UrlMissing);
  }

  /** A path under /usr/local/ is always reported, build-id link or not. */
  lemma UsrLocalAlwaysReported(path: string)
    requires InUsrLocal(path)
    ensures UsrLocalFinding(path) in FileLine(path)
  {
  }

  /** A build-id path is never reported for a temporary directory. */
  lemma BuildIdNeverInTmp(path: string)
    requires IsBuildId(path)
    ensures TmpFinding(path) !in FileLine(path)
  {
  }

  /** Listed files are reported exactly as the per-path rules say, when the file
      query succeeds. */
  lemma FileFindingIff(paths: seq<string>, x: string)
    ensures UsrLocalFinding(x) in FlatMap(paths, FileLine) <==> x in paths && InUsrLocal(x)
    ensures TmpFinding(x) in FlatMap(paths, FileLine) <==> x in paths && !IsBuildId(x) && InTmp(x)
  {
    UsrLocalIff(paths, x);
    TmpIff(paths, x);
  }

  /** The findings on one path name that path. */
  lemma FileLineNames(p: string, x: string)
    ensures UsrLocalFinding(x) in FileLine(p) <==> p == x && InUsrLocal(p)
    ensures TmpFinding(x) in FileLine(p) <==> p == x && !IsBuildId(p) && InTmp(p)
  {
  }

  lemma UsrLocalIff(paths: seq<string>, x: string)
    ensures UsrLocalFinding(x) in FlatMap(paths, FileLine) <==> x in paths && InUsrLocal(x)
  {
    InFlatMap(paths, FileLine, UsrLocalFinding(x));
    forall i | 0 <= i < |paths|
      ensures UsrLocalFinding(x) in FileLine(paths[i]) <==> paths[i] == x && InUsrLocal(x)
    {
      FileLineNames(paths[i], x);
    }
  }

  lemma TmpIff(paths: seq<string>, x: string)
    ensures TmpFinding(x) in FlatMap(paths, FileLine) <==> x in paths && !IsBuildId(x) && InTmp(x)
  {
    InFlatMap(paths, FileLine, TmpFinding(x));
    forall i | 0 <= i < |paths|
      ensures TmpFinding(x) in FileLine(paths[i]) <==> paths[i] == x && !IsBuildId(x) && InTmp(x)
    {
      FileLineNames(paths[i], x);
    }
  }

  /** A requirement is reported exactly when, stripped, it names a file outside /usr
      that is not /bin/sh, /bin/bash or /sbin/ldconfig. */
  lemma {:induction false} DependencyFindingIff(reqs: seq<string>, x: string)
    ensures DependencyFinding(x) in FlatMap(reqs, DependencyLine)
      <==> FileDependencyOn(x) && exists i :: 0 <= i < |reqs| && Strip(reqs[i]) == x
  {
    InFlatMap(reqs, DependencyLine, DependencyFinding(x));
  }

  /** An exception on a later query is appended after the findings already made:
      the last finding is the failure and all before it come from earlier queries. */
  lemma FailureComesLast(info: Query, files: Query, deps: Query)
    requires info.Exited? && info.code == 0 && files.Exited? && !deps.Exited?
    ensures var r := RpmFindings(info, files, deps);
      r == FlatMap(SplitLines(info.stdout), UrlLine) + ExitedFindings(files, FileLine) + [Failure(deps)]
      && r[|r| - 1].tag == (if deps.NotFound? then RpmNotInstalled else RpmError)
  {
  }
}
