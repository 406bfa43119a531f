// The scriptlet scan of the spec-file analyzer: a two-state machine that opens on an
// exact scriptlet marker line and closes on the next section line, checking the
// lines in between.

module SpecScriptlets {
  import opened Text
  import opened Findings

  /** The stripped line is exactly one of the six scriptlet markers. */
  predicate IsMarker(stripped: string) {
    stripped == "%pre" || stripped == "%post" || stripped == "%preun"
    || stripped == "%postun" || stripped == "%pretrans" || stripped == "%posttrans"
  }

  /** A line that starts a new section (a `%` not followed by `{`) ends the scriptlet. */
  predicate Closes(stripped: string) {
    StartsWith(stripped, "%") && !StartsWith(stripped, "%{")
  }

  /** What a line means to the state machine. */
  datatype LineKind = Marker | Section | Body

  function Kind(stripped: string): LineKind {
    if IsMarker(stripped) then Marker else if Closes(stripped) then Section else Body
  }

  /** The state after a run of line kinds: a marker opens, a section line closes,
      a body line keeps the state. */
  function OpenIn(ks: seq<LineKind>): bool {
    if ks == [] then false
    else match ks[|ks| - 1]
      case Marker => true
      case Section => false
      case Body => OpenIn(ks[..|ks| - 1])
  }

  /** The state after the lines. */
  function OpenAfter(lines: seq<string>): bool {
    if lines == [] then false
    else match Kind(Strip(lines[|lines| - 1]))
      case Marker => true
      case Section => false
      case Body => OpenAfter(lines[..|lines| - 1])
  }

  /** Whether a line read in state open is checked: only body lines are, so the
      marker line itself is skipped. */
  predicate Checked(open: bool, stripped: string) {
    open && Kind(stripped) == Body
  }

  function Kinds(lines: seq<string>): (ks: seq<LineKind>)
    ensures |ks| == |lines| && forall i :: 0 <= i < |lines| ==> ks[i] == Kind(Strip(lines[i]))
  {
    seq(|lines|, i requires 0 <= i < |lines| => Kind(Strip(lines[i])))
  }

  predicate Dangerous(stripped: string) {
    Contains(stripped, "rm -rf /") || Contains(stripped, "rm -rf $RPM_BUILD_ROOT")
  }

  predicate Exits(stripped: string) {
    StartsWith(stripped, "exit")
  }

  function DangerousFinding(n: nat): Finding {
    Rule(Scriptlets, Error, DangerousRmInScriptlet, AtLine(n))
  }

  function ExitFinding(n: nat): Finding {
    Rule(Scriptlets, Warning, ExitInScriptlet, AtLine(n))
  }

  /** The findings of a checked line numbered n. */
  function BodyFindings(n: nat, stripped: string): seq<Finding> {
    (if Dangerous(stripped) then [DangerousFinding(n)] else [])
    + (if Exits(stripped) then [ExitFinding(n)] else [])
  }

  function ScriptletFindings(lines: seq<string>): seq<Finding> {
    if lines == [] then []
    else
      var init := lines[..|lines| - 1];
      var s := Strip(lines[|lines| - 1]);
      ScriptletFindings(init) + (if Checked(OpenAfter(init), s) then BodyFindings(|lines|, s) else [])
  }

  /** The checks on one line inside a scriptlet. */
  method CheckBody(n: nat, stripped: string) returns (found: seq<Finding>)
    ensures found == BodyFindings(n, stripped)
  {
    found := [];
    if Dangerous(stripped) {
      found := found + [DangerousFinding(n)];
    }
    if Exits(stripped) {
      found := found + [ExitFinding(n)];
    }
  }

  /** The scan, carrying the in-scriptlet flag from line to line. */
  method ScanScriptlets(lines: seq<string>) returns (results: seq<Finding>)
    ensures results == ScriptletFindings(lines)
  {
    results := [];
    var inScriptlet := false;
    for i := 0 to |lines|
      invariant inScriptlet == OpenAfter(lines[..i])
      invariant results == ScriptletFindings(lines[..i])
    {
      assert lines[..i + 1][..i] == lines[..i];
      var stripped := Strip(lines[i]);
      if IsMarker(stripped) {
        inScriptlet := true;
        continue;
      }
      if Closes(stripped) {
        inScriptlet := false;
      }
      if inScriptlet {
        var found := CheckBody(i + 1, stripped);
        results := results + found;
      }
    }
    assert lines[..|lines|] == lines;
  }

  /** A run of kinds leaves the flag up exactly when it holds a marker followed by
      body lines only. */
  lemma {:induction false} OpenInIff(ks: seq<LineKind>)
    ensures OpenIn(ks) <==> exists j :: 0 <= j < |ks| && ks[j] == Marker && forall k :: j < k < |ks| ==> ks[k] == Body
  {
    if ks != [] {
      var init := ks[..|ks| - 1];
      var last := |ks| - 1;
      OpenInIff(init);
      match ks[last]
      case Marker =>
      case Section =>
      case Body =>
        if OpenIn(init) {
          var j :| 0 <= j < |init| && init[j] == Marker && forall k :: j < k < |init| ==> init[k] == Body;
          assert ks[j] == Marker;
          assert forall k :: j < k < |ks| ==> ks[k] == Body by {
            forall k | j < k < |ks| ensures ks[k] == Body {
              if k < last {
                assert ks[k] == init[k];
              }
            }
          }
        }
        if exists j :: 0 <= j < |ks| && ks[j] == Marker && forall k :: j < k < |ks| ==> ks[k] == Body {
          var j :| 0 <= j < |ks| && ks[j] == Marker && forall k :: j < k < |ks| ==> ks[k] == Body;
          assert init[j] == Marker;
          forall k | j < k < |init| ensures init[k] == Body {
            assert init[k] == ks[k];
          }
        }
    }
  }

  lemma {:induction false} OpenAfterIsOpenIn(lines: seq<string>)
    ensures OpenAfter(lines) == OpenIn(Kinds(lines))
  {
    if lines != [] {
      var init := lines[..|lines| - 1];
      OpenAfterIsOpenIn(init);
      assert Kinds(lines)[..|lines| - 1] == Kinds(init);
    }
  }

  /** The flag is up exactly when some marker line has been read and only body lines
      since. */
  lemma OpenAfterIff(lines: seq<string>)
    ensures OpenAfter(lines) <==>
      exists j :: 0 <= j < |lines| && Kind(Strip(lines[j])) == Marker &&
        forall k :: j < k < |lines| ==> Kind(Strip(lines[k])) == Body
  {
    OpenAfterIsOpenIn(lines);
    OpenInIff(Kinds(lines));
  }

  lemma CheckedInIff(ks: seq<LineKind>, n: nat)
    requires 1 <= n <= |ks|
    ensures (OpenIn(ks[..n - 1]) && ks[n - 1] == Body)
      <==> (exists j :: 0 <= j < n - 1 && ks[j] == Marker && forall k :: j < k < n ==> ks[k] == Body)
  {
    var pre := ks[..n - 1];
    OpenInIff(pre);
    if OpenIn(pre) && ks[n - 1] == Body {
      var j :| 0 <= j < |pre| && pre[j] == Marker && forall k :: j < k < |pre| ==> pre[k] == Body;
      assert ks[j] == Marker;
      forall k | j < k < n ensures ks[k] == Body {
        if k < n - 1 {
          assert pre[k] == ks[k];
        }
      }
    }
    if exists j :: 0 <= j < n - 1 && ks[j] == Marker && forall k :: j < k < n ==> ks[k] == Body {
      var j :| 0 <= j < n - 1 && ks[j] == Marker && forall k :: j < k < n ==> ks[k] == Body;
      assert pre[j] == Marker;
      forall k | j < k < |pre| ensures pre[k] == Body {
        assert pre[k] == ks[k];
      }
    }
  }

  /** Line n is checked exactly when it is a body line and a marker line comes before
      it with only body lines between; a marker or section line is never checked. */
  lemma CheckedIff(lines: seq<string>, n: nat)
    requires 1 <= n <= |lines|
    ensures Checked(OpenAfter(lines[..n - 1]), Strip(lines[n - 1]))
      <==>
      exists j :: 0 <= j < n - 1 && Kind(Strip(lines[j])) == Marker &&
        forall k :: j < k < n ==> Kind(Strip(lines[k])) == Body
  {
    var ks := Kinds(lines);
    OpenAfterIsOpenIn(lines[..n - 1]);
    assert Kinds(lines[..n - 1]) == ks[..n - 1];
    CheckedInIff(ks, n);
  }

  /** Line n of the file is checked and holds a destructive rm. */
  predicate DangerousAt(lines: seq<string>, n: nat) {
    1 <= n <= |lines| && Checked(OpenAfter(lines[..n - 1]), Strip(lines[n - 1])) && Dangerous(Strip(lines[n - 1]))
  }

  /** Line n of the file is checked and starts with `exit`. */
  predicate ExitAt(lines: seq<string>, n: nat) {
    1 <= n <= |lines| && Checked(OpenAfter(lines[..n - 1]), Strip(lines[n - 1])) && Exits(Strip(lines[n - 1]))
  }

  /** Each scriptlet finding names a checked line that breaks its rule, and every
      such line is reported exactly once per rule. */
  lemma ScriptletFindingIff(lines: seq<string>, n: nat)
    ensures multiset(ScriptletFindings(lines))[DangerousFinding(n)] == if DangerousAt(lines, n) then 1 else 0
    ensures multiset(ScriptletFindings(lines))[ExitFinding(n)] == if ExitAt(lines, n) then 1 else 0
  {
    DangerousIff(lines, n);
    ExitIff(lines, n);
  }

  /** A checked line's findings name that line, one per rule it breaks. */
  lemma BodyNames(m: nat, stripped: string, n: nat)
    ensures multiset(BodyFindings(m, stripped))[DangerousFinding(n)] == if n == m && Dangerous(stripped) then 1 else 0
    ensures multiset(BodyFindings(m, stripped))[ExitFinding(n)] == if n == m && Exits(stripped) then 1 else 0
  {
  }

  /** Whether an earlier line breaks a rule does not depend on the lines after it. */
  lemma AtInPrefix(lines: seq<string>, n: nat)
    requires lines != [] && n != |lines|
    ensures DangerousAt(lines, n) == DangerousAt(lines[..|lines| - 1], n)
    ensures ExitAt(lines, n) == ExitAt(lines[..|lines| - 1], n)
  {
    var init := lines[..|lines| - 1];
    if 1 <= n < |lines| {
      assert init[..n - 1] == lines[..n - 1];
      assert init[n - 1] == lines[n - 1];
    }
  }

  /** The last line adds its own findings to the count. */
  lemma LastLineCount(lines: seq<string>, n: nat)
    requires lines != []
    ensures multiset(ScriptletFindings(lines))[DangerousFinding(n)]
      == multiset(ScriptletFindings(lines[..|lines| - 1]))[DangerousFinding(n)] + (if n == |lines| && DangerousAt(lines, n) then 1 else 0)
    ensures multiset(ScriptletFindings(lines))[ExitFinding(n)]
      == multiset(ScriptletFindings(lines[..|lines| - 1]))[ExitFinding(n)] + (if n == |lines| && ExitAt(lines, n) then 1 else 0)
  {
    var init := lines[..|lines| - 1];
    var s := Strip(lines[|lines| - 1]);
    var tail := if Checked(OpenAfter(init), s) then BodyFindings(|lines|, s) else [];
    assert ScriptletFindings(lines) == ScriptletFindings(init) + tail;
    BodyNames(|lines|, s, n);
  }

  /** Line n carries one dangerous-rm finding when it is checked and holds a
      destructive rm, and none otherwise. */
  lemma {:induction false} DangerousIff(lines: seq<string>, n: nat)
    ensures multiset(ScriptletFindings(lines))[DangerousFinding(n)] == if DangerousAt(lines, n) then 1 else 0
  {
    if lines != [] {
      DangerousIff(lines[..|lines| - 1], n);
      LastLineCount(lines, n);
      if n != |lines| {
        AtInPrefix(lines, n);
      }
    }
  }

  /** Line n carries one exit finding when it is checked and starts with `exit`, and
      none otherwise. */
  lemma {:induction false} ExitIff(lines: seq<string>, n: nat)
    ensures multiset(ScriptletFindings(lines))[ExitFinding(n)] == if ExitAt(lines, n) then 1 else 0
  {
    if lines != [] {
      ExitIff(lines[..|lines| - 1], n);
      LastLineCount(lines, n);
      if n != |lines| {
        AtInPrefix(lines, n);
      }
    }
  }

  /** Every finding is a dangerous-rm or exit finding about a line numbered from 1 up
      to bound. */
  predicate OnLines(fs: seq<Finding>, bound: nat) {
    forall i :: 0 <= i < |fs| ==>
      fs[i].detail.AtLine? && 1 <= fs[i].detail.line <= bound
      && (fs[i] == DangerousFinding(fs[i].detail.line) || fs[i] == ExitFinding(fs[i].detail.line))
  }

  /** Findings under one tag come in strictly increasing line order. */
  predicate OrderedPerTag(fs: seq<Finding>) {
    forall i, j :: 0 <= i < j < |fs| && fs[i].tag == fs[j].tag && fs[i].detail.AtLine? && fs[j].detail.AtLine? ==>
      fs[i].detail.line < fs[j].detail.line
  }

  /** A checked line's findings are about that line, at most one per tag. */
  lemma BodyShape(m: nat, stripped: string)
    requires 1 <= m
    ensures OnLines(BodyFindings(m, stripped), m)
    ensures forall k :: 0 <= k < |BodyFindings(m, stripped)| ==> BodyFindings(m, stripped)[k].detail == AtLine(m)
    ensures forall k, l :: 0 <= k < l < |BodyFindings(m, stripped)| ==> BodyFindings(m, stripped)[k].tag != BodyFindings(m, stripped)[l].tag
  {
  }

  /** Appending the findings of a later line keeps the order. */
  lemma AppendLine(a: seq<Finding>, b: seq<Finding>, m: nat)
    requires 1 <= m && OnLines(a, m - 1) && OrderedPerTag(a) && OnLines(b, m)
    requires forall k :: 0 <= k < |b| ==> b[k].detail == AtLine(m)
    requires forall k, l :: 0 <= k < l < |b| ==> b[k].tag != b[l].tag
    ensures OnLines(a + b, m) && OrderedPerTag(a + b)
  {
    var c := a + b;
    forall i | 0 <= i < |c|
      ensures c[i].detail.AtLine? && 1 <= c[i].detail.line <= m
        && (c[i] == DangerousFinding(c[i].detail.line) || c[i] == ExitFinding(c[i].detail.line))
    {
      if i < |a| {
        assert c[i] == a[i];
      } else {
        assert c[i] == b[i - |a|];
      }
    }
    forall i, j | 0 <= i < j < |c| && c[i].tag == c[j].tag && c[i].detail.AtLine? && c[j].detail.AtLine?
      ensures c[i].detail.line < c[j].detail.line
    {
      if j < |a| {
        assert c[i] == a[i] && c[j] == a[j];
      } else if i < |a| {
        assert c[i] == a[i] && c[j] == b[j - |a|];
      }
    }
  }

  /** Every scriptlet finding is a dangerous-rm or exit finding on a line of the file,
      and findings under one tag come in strictly increasing line order. */
  lemma {:induction false} ScriptletOrdered(lines: seq<string>)
    ensures OnLines(ScriptletFindings(lines), |lines|)
    ensures OrderedPerTag(ScriptletFindings(lines))
  {
    if lines != [] {
      var init := lines[..|lines| - 1];
      var s := Strip(lines[|lines| - 1]);
      ScriptletOrdered(init);
      BodyShape(|lines|, s);
      AppendLine(ScriptletFindings(init), if Checked(OpenAfter(init), s) then BodyFindings(|lines|, s) else [], |lines|);
    }
  }
}
