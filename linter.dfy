// The part of the linter wrapper that turns the linter's captured output into
// findings. Running the linter is left out: its outcome is an input.

module Linter {
  import opened Text
  import opened Findings

  // ---- The primary pattern `^(.+?):\s*(\w):\s*(\S+)\s*(.*)` ----

  /** Whether the primary pattern matches with its first group ending at the colon at
      m: optional whitespace, one word character, a colon, optional whitespace and a
      non-space character must follow. Whitespace runs are taken whole because the
      class after each of them cannot match whitespace. */
  predicate PrimaryAt(s: string, m: nat) {
    1 <= m < |s| && s[m] == ':'
    && var p := SkipSpaces(s, m + 1);
    p + 1 < |s| && IsWordChar(s[p]) && s[p + 1] == ':' && SkipSpaces(s, p + 2) < |s|
  }

  /** The lazy first group: the least colon from m on at which the pattern matches. */
  function FirstPrimary(s: string, m: nat): (r: Option<nat>)
    ensures r.Some? ==> m <= r.value && PrimaryAt(s, r.value)
    ensures forall k :: m <= k && (r.None? || k < r.value) ==> !PrimaryAt(s, k)
    decreases |s| - m
  {
    if m >= |s| then None
    else if PrimaryAt(s, m) then Some(m)
    else FirstPrimary(s, m + 1)
  }

  /** The groups of a primary match at m: package, severity letter, tag, detail. */
  function PrimaryFinding(s: string, m: nat): Finding
    requires PrimaryAt(s, m)
  {
    var p := SkipSpaces(s, m + 1);
    var q := SkipSpaces(s, p + 2);
    var e := SkipNonSpaces(s, q);
    Finding(Rpmlint, s[p], Strip(s[..m]), Reported(s[q..e]), Verbatim(s[SkipSpaces(s, e)..]), Blank)
  }

  // ---- The fallback pattern `^(\S+):\s*(.*)` ----

  /** The last colon before index n that is not the first character. */
  function LastColonBefore(s: string, n: nat): (r: Option<nat>)
    requires n <= |s|
    ensures r.Some? ==> 1 <= r.value < n && s[r.value] == ':'
    ensures forall k :: (if r.Some? then r.value < k else 1 <= k) && k < n ==> s[k] != ':'
  {
    if n <= 1 then None
    else if s[n - 1] == ':' then Some(n - 1)
    else LastColonBefore(s, n - 1)
  }

  /** The greedy first group backs off to the last colon of the leading run of
      non-whitespace. */
  function FallbackColon(s: string): Option<nat> {
    LastColonBefore(s, SkipNonSpaces(s, 0))
  }

  function FallbackFinding(s: string, c: nat): Finding
    requires c < |s|
  {
    Finding(Rpmlint, Warning, "", Reported(s[..c]), Verbatim(s[SkipSpaces(s, c + 1)..]), Blank)
  }

  /** Lines the fallback is not tried on: blank ones and the linter's own banners. */
  predicate Noise(s: string) {
    AllSpace(s, 0, |s|) || StartsWith(s, "---") || StartsWith(s, " ") || StartsWith(s, "rpmlint:")
  }

  /** What one output line yields: a primary match, else (on a line that is not
      noise) a fallback match, else nothing. */
  function ParseLine(s: string): Option<Finding> {
    match FirstPrimary(s, 1)
    case Some(m) => Some(PrimaryFinding(s, m))
    case None =>
      if Noise(s) then None
      else
        match FallbackColon(s)
        case Some(c) => Some(FallbackFinding(s, c))
        case None => None
  }

  function LineLint(s: string): seq<Finding> {
    match ParseLine(s)
    case Some(f) => [f]
    case None => []
  }

  function OutputFindings(lines: seq<string>): seq<Finding> {
    FlatMap(lines, LineLint)
  }

  // ---- Running the linter ----

  /** How the linter run ended: it produced output, it was not found, or it raised. */
  datatype LintRun = Ran(stdout: string, stderr: string) | NotInstalled | Raised(message: string)

  function LintFindings(run: LintRun): seq<Finding> {
    match run
    case Ran(out, err) => OutputFindings(SplitLines(out + err))
    case NotInstalled => [Finding(Rpmlint, Error, "", RpmlintNotInstalled, Message, Advice)]
    case Raised(msg) => [Finding(Rpmlint, Error, "", RpmlintError, Verbatim(msg), Blank)]
  }

  /** The loop over the combined output lines. */
  method ParseOutput(lines: seq<string>) returns (results: seq<Finding>)
    ensures results == OutputFindings(lines)
  {
    results := [];
    for i := 0 to |lines|
      invariant results == FlatMap(lines[..i], LineLint)
    {
      assert lines[..i + 1][..i] == lines[..i];
      var line := lines[i];
      var m := FirstPrimary(line, 1);
      if m.Some? {
        results := results + [PrimaryFinding(line, m.value)];
      } else if !Noise(line) {
        var c := FallbackColon(line);
        if c.Some? {
          results := results + [FallbackFinding(line, c.value)];
        }
      }
    }
    assert lines[..|lines|] == lines;
  }

  method RunLinter(run: LintRun) returns (results: seq<Finding>)
    ensures results == LintFindings(run)
  {
    match run {
      case Ran(out, err) =>
        results := ParseOutput(SplitLines(out + err));
      case NotInstalled =>
        results := [Finding(Rpmlint, Error, "", RpmlintNotInstalled, Message, Advice)];
      case Raised(msg) =>
        results := [Finding(Rpmlint, Error, "", RpmlintError, Verbatim(msg), Blank)];
    }
  }

  // ---- What the parser promises ----

  predicate Parses(s: string) {
    ParseLine(s).Some?
  }

  /** Each output line yields at most one finding: exactly one per line that parses. */
  lemma OneFindingPerLine(lines: seq<string>)
    ensures |OutputFindings(lines)| == CountIf(lines, Parses)
  {
    LengthFlatMap(lines, LineLint, Parses);
  }

  /** A primary match keeps the letter the linter printed and the trimmed package;
      its tag holds no whitespace and no earlier colon would have matched. */
  lemma PrimaryShape(s: string, m: nat)
    requires FirstPrimary(s, 1) == Some(m)
    ensures ParseLine(s) == Some(PrimaryFinding(s, m))
    ensures var f := PrimaryFinding(s, m);
      f.category == Rpmlint && IsWordChar(f.severity) && f.package == Strip(s[..m])
      && f.tag.Reported? && f.tag.name != [] && forall i :: 0 <= i < |f.tag.name| ==> !IsSpace(f.tag.name[i])
    ensures forall k :: 1 <= k < m ==> !PrimaryAt(s, k)
  {
    var p := SkipSpaces(s, m + 1);
    var q := SkipSpaces(s, p + 2);
    var e := SkipNonSpaces(s, q);
    assert q < |s| && !IsSpace(s[q]);
    forall i | 0 <= i < e - q ensures !IsSpace(s[q..e][i]) {
      assert s[q..e][i] == s[q + i];
    }
  }

  /** Blank lines and banner lines that the primary pattern does not match are
      dropped. */
  lemma NoiseDropped(s: string)
    requires FirstPrimary(s, 1).None? && Noise(s)
    ensures ParseLine(s).None?
  {
  }

  /** A fallback match has severity W, no package, and the leading token up to its
      last colon as its tag. */
  lemma FallbackShape(s: string)
    requires FirstPrimary(s, 1).None? && Parses(s)
    ensures var f := ParseLine(s).value;
      f.severity == Warning && f.package == [] && f.tag.Reported?
      && exists c :: 1 <= c < |s| && s[c] == ':' && f.tag.name == s[..c] && AllNonSpace(s, 0, c)
  {
    var c := FallbackColon(s).value;
    var n := SkipNonSpaces(s, 0);
    assert c < n;
  }

  /** Every finding of a run is filed under the linter's category. */
  lemma LintCategory(run: LintRun, f: Finding)
    requires f in LintFindings(run)
    ensures f.category == Rpmlint
  {
    if run.Ran? {
      var lines := SplitLines(run.stdout + run.stderr);
      InFlatMap(lines, LineLint, f);
    }
  }

  /** The usual line `package: L: tag detail` parses back into its parts. */
  lemma TypicalLine(pkg: string, level: char, tag: string, detail: string)
    requires pkg != [] && ':' !in pkg
    requires IsWordChar(level)
    requires tag != [] && forall i :: 0 <= i < |tag| ==> !IsSpace(tag[i])
    requires detail == [] || !IsSpace(detail[0])
    ensures ParseLine(pkg + ": " + [level] + ": " + tag + " " + detail)
      == Some(Finding(Rpmlint, level, Strip(pkg), Reported(tag), Verbatim(detail), Blank))
  {
    var s := pkg + ": " + [level] + ": " + tag + " " + detail;
    var m, e := |pkg|, |pkg| + 5 + |tag|;
    assert s == pkg + ([':', ' ', level, ':', ' '] + tag + [' '] + detail);
    assert s[..m] == pkg;
    assert s[m..m + 5] == [':', ' ', level, ':', ' '];
    assert s[m + 5..e] == tag;
    assert s[e] == ' ';
    assert s[e + 1..] == detail;
    LaidOutLineParses(s, m, level, tag, detail);
  }

  /** s is a package ending at m, then ": L: ", the tag, one space and the detail. */
  predicate LaidOut(s: string, m: nat, level: char, tag: string, detail: string) {
    1 <= m && m + 6 + |tag| <= |s|
    && s[m..m + 5] == [':', ' ', level, ':', ' '] && IsWordChar(level)
    && s[m + 5..m + 5 + |tag|] == tag && s[m + 5 + |tag|] == ' ' && s[m + 6 + |tag|..] == detail
    && tag != [] && (forall i :: 0 <= i < |tag| ==> !IsSpace(tag[i]))
    && (detail == [] || !IsSpace(detail[0]))
  }

  /** The same, on the positions of the parts in the line. */
  lemma LaidOutLineParses(s: string, m: nat, level: char, tag: string, detail: string)
    requires LaidOut(s, m, level, tag, detail) && ':' !in s[..m]
    ensures ParseLine(s) == Some(Finding(Rpmlint, level, Strip(s[..m]), Reported(tag), Verbatim(detail), Blank))
  {
    LaidOutPositions(s, m, level, tag, detail);
    NoColonBefore(s, m);
    FirstPrimaryFinds(s, 1, m);
    PrimaryShape(s, m);
  }

  /** Where the parts of a laid-out line start and end, as the skips find them. */
  lemma LaidOutPositions(s: string, m: nat, level: char, tag: string, detail: string)
    requires LaidOut(s, m, level, tag, detail)
    ensures var q, e := m + 5, m + 5 + |tag|;
      SkipSpaces(s, m + 1) == m + 2 && s[m + 2] == level && SkipSpaces(s, m + 4) == q
      && SkipNonSpaces(s, q) == e && SkipSpaces(s, e) == e + 1 && PrimaryAt(s, m)
  {
    var q, e := m + 5, m + 5 + |tag|;
    assert s[m] == ':' && s[m + 1] == ' ' && s[m + 2] == level && s[m + 3] == ':' && s[m + 4] == ' ';
    assert SkipSpaces(s, m + 2) == m + 2;
    assert SkipSpaces(s, m + 1) == m + 2;
    assert s[q] == tag[0];
    assert SkipSpaces(s, q) == q;
    assert SkipSpaces(s, m + 4) == q;
    assert AllNonSpace(s, q, e) by {
      forall i | q <= i < e ensures !IsSpace(s[i]) {
        assert s[i] == s[q..e][i - q];
      }
    }
    SkipNonSpacesRun(s, q, e);
    if detail == [] {
      assert SkipSpaces(s, e + 1) == |s|;
    } else {
      assert s[e + 1] == detail[0];
      assert SkipSpaces(s, e + 1) == e + 1;
    }
    assert SkipSpaces(s, e) == SkipSpaces(s, e + 1);
  }

  /** Without a colon before m, no earlier colon starts a match. */
  lemma NoColonBefore(s: string, m: nat)
    requires m <= |s| && ':' !in s[..m]
    ensures forall k :: 1 <= k < m ==> !PrimaryAt(s, k)
  {
    forall k | 1 <= k < m ensures !PrimaryAt(s, k) {
      assert s[k] == s[..m][k];
    }
  }

  lemma {:induction false} SkipNonSpacesRun(s: string, i: nat, j: nat)
    requires i <= j < |s| && AllNonSpace(s, i, j) && IsSpace(s[j])
    ensures SkipNonSpaces(s, i) == j
    decreases j - i
  {
    if i < j {
      SkipNonSpacesRun(s, i + 1, j);
    }
  }

  lemma {:induction false} FirstPrimaryFinds(s: string, k: nat, m: nat)
    requires k <= m && PrimaryAt(s, m)
    requires forall i :: k <= i < m ==> !PrimaryAt(s, i)
    ensures FirstPrimary(s, k) == Some(m)
    decreases m - k
  {
    if k < m {
      FirstPrimaryFinds(s, k + 1, m);
    }
  }
}
