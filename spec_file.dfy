// The spec-file analyzer: the text is split into lines and six scans run over them in
// turn, their findings concatenated in that order.

module SpecFile {
  import opened Text
  import opened Findings
  import SpecHeader
  import License
  import SpecPaths
  import SpecScriptlets
  import SpecChangelog

  /** The outcome of reading the file: its text, or the message of the error raised. */
  datatype SpecRead = Read(content: string) | ReadFailed(error: string)

  function ReadErrorFinding(error: string): Finding {
    Finding(General, Error, "", SpecReadError, Verbatim(error), Blank)
  }

  /** The findings of the six scans over the lines, in the order they run. */
  function LinesFindings(lines: seq<string>): seq<Finding> {
    SpecHeader.HeaderFindings(lines)
    + SpecHeader.PresenceFindings(SpecHeader.Present(lines))
    + License.LicenseFindings(SpecHeader.LicenseValue(lines))
    + SpecPaths.PathFindings(lines)
    + SpecScriptlets.ScriptletFindings(lines)
    + SpecChangelog.ChangelogFindings(lines)
  }

  function SpecFindings(r: SpecRead): seq<Finding> {
    match r
    case ReadFailed(e) => [ReadErrorFinding(e)]
    case Read(content) => LinesFindings(SplitLines(content))
  }

  /** The analyzer: a failed read ends it with its one finding; otherwise the scans
      run one after another, each appending to the same list. */
  method CheckSpecFile(r: SpecRead) returns (results: seq<Finding>)
    ensures results == SpecFindings(r)
  {
    if r.ReadFailed? {
      return [ReadErrorFinding(r.error)];
    }
    var lines := SplitLines(r.content);
    var header, present, license := SpecHeader.ScanHeader(lines);
    results := header;
    var presence := SpecHeader.CheckPresence(present);
    results := results + presence;
    var licensing := License.CheckLicense(license);
    results := results + licensing;
    var paths := SpecPaths.ScanPaths(lines);
    results := results + paths;
    var scriptlets := SpecScriptlets.ScanScriptlets(lines);
    results := results + scriptlets;
    var changelog := SpecChangelog.ScanChangelog(lines);
    results := results + changelog;
  }

  /** An empty file is reported for every required field and for the four absent
      recommended ones, and for nothing else. */
  lemma EmptyFile()
    ensures SpecFindings(Read([])) == SpecHeader.PresenceFindings({})
    ensures |SpecFindings(Read([]))| == 9
  {
    var lines := SplitLines([]);
    assert lines == [];
    assert SpecHeader.Present(lines) == {};
    SpecHeader.NothingPresent();
  }
}
