// The changelog scan of the spec-file analyzer and the entry-line pattern it applies,
// `^\*\s+\w+\s+\w+\s+\d+\s+\d{4}\s+.+\s+<.+@.+>` matched at the start of the line
// only, with ASCII character classes.

module SpecChangelog {
  import opened Text
  import opened Findings

  // ---- The entry pattern ----

  /** The regular-expression `.`: anything but a newline. */
  predicate IsDot(c: char) {
    c != '\n'
  }

  predicate AllDot(s: string, lo: int, hi: int)
    requires 0 <= lo <= hi <= |s|
  {
    forall i :: lo <= i < hi ==> IsDot(s[i])
  }

  predicate AllWord(s: string, lo: int, hi: int)
    requires 0 <= lo <= hi <= |s|
  {
    forall i :: lo <= i < hi ==> IsWordChar(s[i])
  }

  predicate AllDigits(s: string, lo: int, hi: int)
    requires 0 <= lo <= hi <= |s|
  {
    forall i :: lo <= i < hi ==> IsDigit(s[i])
  }

  /** The end of the run of word characters that starts at i. */
  function SkipWord(s: string, i: nat): (j: nat)
    requires i <= |s|
    ensures i <= j <= |s| && AllWord(s, i, j)
    ensures j == |s| || !IsWordChar(s[j])
    decreases |s| - i
  {
    if i < |s| && IsWordChar(s[i]) then SkipWord(s, i + 1) else i
  }

  /** The end of the run of digits that starts at i. */
  function SkipDigits(s: string, i: nat): (j: nat)
    requires i <= |s|
    ensures i <= j <= |s| && AllDigits(s, i, j)
    ensures j == |s| || !IsDigit(s[j])
    decreases |s| - i
  {
    if i < |s| && IsDigit(s[i]) then SkipDigits(s, i + 1) else i
  }

  /** `.+>` from i: a non-empty run of non-newlines, then `>`. */
  predicate CloseFrom(s: string, i: nat)
    requires i <= |s|
  {
    exists x :: i < x < |s| && AllDot(s, i, x) && s[x] == '>'
  }

  /** `.+@.+>` from i. */
  predicate AtFrom(s: string, i: nat)
    requires i <= |s|
  {
    exists w :: i < w < |s| && AllDot(s, i, w) && s[w] == '@' && CloseFrom(s, w + 1)
  }

  /** `<.+@.+>` from v. */
  predicate EmailFrom(s: string, v: nat)
    requires v <= |s|
  {
    v < |s| && s[v] == '<' && AtFrom(s, v + 1)
  }

  /** `.+\s+<.+@.+>` from z: the name, whitespace, then the address. */
  predicate NameFrom(s: string, z: nat)
    requires z <= |s|
  {
    exists u, v :: z < u < v < |s| && AllDot(s, z, u) && AllSpace(s, u, v) && EmailFrom(s, v)
  }

  /** `\s+.+\s+<.+@.+>` from y, the end of the year. */
  predicate TailFrom(s: string, y: nat)
    requires y <= |s|
  {
    exists z :: y < z < |s| && AllSpace(s, y, z) && NameFrom(s, z)
  }

  /** Where a prefix match ends, if there is one. */
  datatype Position = NoMatch | At(pos: nat)

  /** `\*\s+\w+\s+\w+\s+\d+\s+\d{4}` laid out on s with the runs at [1, a),
      [a, b), [b, c), [c, d), [d, e), [e, f), [f, g) and the year at [g, g + 4):
      the weekday and the month are words, the day is digits. */
  predicate DateLayout(s: string, a: nat, b: nat, c: nat, d: nat, e: nat, f: nat, g: nat) {
    1 < a < b < c < d < e < f < g && g + 4 <= |s| && s[0] == '*'
    && AllSpace(s, 1, a) && AllWord(s, a, b) && AllSpace(s, b, c) && AllWord(s, c, d)
    && AllSpace(s, d, e) && AllDigits(s, e, f) && AllSpace(s, f, g) && AllDigits(s, g, g + 4)
  }

  /** `\*\s+\w+\s+\w+\s+\d+\s+\d{4}` at the start of the line: where the year ends.
      Every run here is followed by a class disjoint from its own (whitespace
      against word characters or digits), so each run must be maximal and its end is
      found by skipping. */
  function DateEnd(s: string): (r: Position)
    ensures r.At? ==> exists a: nat, b: nat, c: nat, d: nat, e: nat, f: nat, g: nat :: DateLayout(s, a, b, c, d, e, f, g) && r.pos == g + 4
  {
    if |s| == 0 || s[0] != '*' then NoMatch
    else
      var a := SkipSpaces(s, 1);
      if a == 1 then NoMatch
      else
        var b := SkipWord(s, a);
        if b == a then NoMatch
        else
          var c := SkipSpaces(s, b);
          if c == b then NoMatch
          else
            var d := SkipWord(s, c);
            if d == c then NoMatch
            else
              var e := SkipSpaces(s, d);
              if e == d then NoMatch
              else
                var f := SkipDigits(s, e);
                if f == e then NoMatch
                else
                  var g := SkipSpaces(s, f);
                  if g > f && g + 4 <= |s| && AllDigits(s, g, g + 4) then
                    assert DateLayout(s, a, b, c, d, e, f, g);
                    At(g + 4)
                  else NoMatch
  }

  lemma {:induction false} SkipSpacesTo(s: string, i: nat, j: nat)
    requires i <= j <= |s| && AllSpace(s, i, j) && (j == |s| || !IsSpace(s[j]))
    ensures SkipSpaces(s, i) == j
    decreases j - i
  {
    if i < j {
      SkipSpacesTo(s, i + 1, j);
    }
  }

  lemma {:induction false} SkipWordTo(s: string, i: nat, j: nat)
    requires i <= j <= |s| && AllWord(s, i, j) && (j == |s| || !IsWordChar(s[j]))
    ensures SkipWord(s, i) == j
    decreases j - i
  {
    if i < j {
      SkipWordTo(s, i + 1, j);
    }
  }

  lemma {:induction false} SkipDigitsTo(s: string, i: nat, j: nat)
    requires i <= j <= |s| && AllDigits(s, i, j) && (j == |s| || !IsDigit(s[j]))
    ensures SkipDigits(s, i) == j
    decreases j - i
  {
    if i < j {
      SkipDigitsTo(s, i + 1, j);
    }
  }

  /** Any layout of the date part is the one DateEnd finds: the date part matches
      exactly when it can be laid out, and it then ends after the year. */
  lemma DateLayoutMatches(s: string, a: nat, b: nat, c: nat, d: nat, e: nat, f: nat, g: nat)
    requires DateLayout(s, a, b, c, d, e, f, g)
    ensures DateEnd(s) == At(g + 4)
  {
    SkipSpacesTo(s, 1, a);
    SkipWordTo(s, a, b);
    SkipSpacesTo(s, b, c);
    SkipWordTo(s, c, d);
    SkipSpacesTo(s, d, e);
    SkipDigitsTo(s, e, f);
    SkipSpacesTo(s, f, g);
  }

  /** The whole pattern, anchored at the start of the line: the date part, then the
      free text after the year, where the split points are chosen. */
  predicate EntryMatches(s: string) {
    var r := DateEnd(s);
    r.At? && TailFrom(s, r.pos)
  }

  /** What follows the year holds an address: a `<`, then an `@`, then a `>`, each
      with text between. */
  lemma TailHasAddress(s: string, y: nat)
    requires y <= |s| && TailFrom(s, y)
    ensures exists v, w, x :: y < v && v + 1 < w && w + 1 < x < |s| && s[v] == '<' && s[w] == '@' && s[x] == '>'
  {
    var z :| y < z < |s| && AllSpace(s, y, z) && NameFrom(s, z);
    var u, v :| z < u < v < |s| && AllDot(s, z, u) && AllSpace(s, u, v) && EmailFrom(s, v);
    var w :| v + 1 < w < |s| && AllDot(s, v + 1, w) && s[w] == '@' && CloseFrom(s, w + 1);
    var x :| w + 1 < x < |s| && AllDot(s, w + 1, x) && s[x] == '>';
  }

  /** A matching entry line holds an address after its date. */
  lemma EntryHasAddress(s: string)
    requires EntryMatches(s)
    ensures exists v, w, x :: 0 < v && v + 1 < w && w + 1 < x < |s| && s[v] == '<' && s[w] == '@' && s[x] == '>'
  {
    TailHasAddress(s, DateEnd(s).pos);
  }

  predicate IsWord(w: string) {
    w != [] && forall i :: 0 <= i < |w| ==> IsWordChar(w[i])
  }

  predicate IsNumber(w: string) {
    w != [] && forall i :: 0 <= i < |w| ==> IsDigit(w[i])
  }

  predicate IsText(w: string) {
    w != [] && forall i :: 0 <= i < |w| ==> IsDot(w[i])
  }

  /** The date part of an entry line, `* Mon Jan 01 2024`, with single spaces. */
  function DateText(weekday: string, month: string, day: string, year: string): string {
    "* " + weekday + " " + month + " " + day + " " + year
  }

  /** The rest of an entry line after the year, ` John Doe <john@example.com>`
      followed by anything, a version say. */
  function TailText(name: string, user: string, host: string, rest: string): string {
    " " + (name + (" " + ("<" + (user + ("@" + (host + (">" + rest)))))))
  }

  lemma DateTextLayout(weekday: string, month: string, day: string, year: string)
    requires IsWord(weekday) && IsWord(month) && IsNumber(day) && IsNumber(year) && |year| == 4
    ensures var b := 2 + |weekday|; var d := b + 1 + |month|; var f := d + 1 + |day|;
      |DateText(weekday, month, day, year)| == f + 5
      && DateLayout(DateText(weekday, month, day, year), 2, b, b + 1, d, d + 1, f, f + 1)
  {
    var s := DateText(weekday, month, day, year);
    var b := 2 + |weekday|;
    var d := b + 1 + |month|;
    var f := d + 1 + |day|;
    assert s == "* " + weekday + " " + month + " " + day + " " + year;
    forall i | 2 <= i < b ensures s[i] == weekday[i - 2] { }
    forall i | b + 1 <= i < d ensures s[i] == month[i - b - 1] { }
    forall i | d + 1 <= i < f ensures s[i] == day[i - d - 1] { }
    forall i | f + 1 <= i < f + 5 ensures s[i] == year[i - f - 1] { }
    assert s[1] == ' ' && s[b] == ' ' && s[d] == ' ' && s[f] == ' ';
  }

  /** Text p found at y of s: its characters are there, and what follows is q. */
  lemma Peel(s: string, y: nat, p: string, q: string)
    requires y <= |s| && s[y..] == p + q
    ensures y + |p| <= |s| && s[y + |p|..] == q
    ensures forall i :: y <= i < y + |p| ==> s[i] == p[i - y]
  {
    assert s[y + |p|..] == s[y..][|p|..];
    forall i | y <= i < y + |p| ensures s[i] == p[i - y] {
      assert s[i] == s[y..][i - y];
    }
  }

  lemma EmailFollows(v: nat, s: string, user: string, host: string, rest: string)
    requires IsText(user) && IsText(host)
    requires v <= |s| && s[v..] == "<" + (user + ("@" + (host + (">" + rest))))
    ensures EmailFrom(s, v)
  {
    Peel(s, v, "<", user + ("@" + (host + (">" + rest))));
    Peel(s, v + 1, user, "@" + (host + (">" + rest)));
    var w := v + 1 + |user|;
    Peel(s, w, "@", host + (">" + rest));
    Peel(s, w + 1, host, ">" + rest);
    var x := w + 1 + |host|;
    Peel(s, x, ">", rest);
    assert AllDot(s, w + 1, x) && s[x] == '>';
    assert AllDot(s, v + 1, w) && s[w] == '@' && CloseFrom(s, w + 1);
  }

  lemma TailTextFollows(y: nat, s: string, name: string, user: string, host: string, rest: string)
    requires IsText(name) && IsText(user) && IsText(host)
    requires y <= |s| && s[y..] == TailText(name, user, host, rest)
    ensures TailFrom(s, y)
  {
    var email := "<" + (user + ("@" + (host + (">" + rest))));
    Peel(s, y, " ", name + (" " + email));
    Peel(s, y + 1, name, " " + email);
    var u := y + 1 + |name|;
    Peel(s, u, " ", email);
    EmailFollows(u + 1, s, user, host, rest);
    assert AllDot(s, y + 1, u) && AllSpace(s, u, u + 1);
    assert AllSpace(s, y, y + 1) && NameFrom(s, y + 1);
  }

  /** An entry line laid out as `* Mon Jan 01 2024 John Doe <john@example.com>`, with
      any weekday and month words, day digits, four-digit year, name and address
      parts, and anything after the address, matches the pattern. */
  lemma EntryLineMatches(weekday: string, month: string, day: string, year: string,
                         name: string, user: string, host: string, rest: string)
    requires IsWord(weekday) && IsWord(month) && IsNumber(day) && IsNumber(year) && |year| == 4
    requires IsText(name) && IsText(user) && IsText(host)
    ensures EntryMatches(DateText(weekday, month, day, year) + TailText(name, user, host, rest))
  {
    var p := DateText(weekday, month, day, year);
    var s := p + TailText(name, user, host, rest);
    var b := 2 + |weekday|;
    var d := b + 1 + |month|;
    var f := d + 1 + |day|;
    DateTextLayout(weekday, month, day, year);
    assert DateLayout(s, 2, b, b + 1, d, d + 1, f, f + 1) by {
      forall i | 0 <= i < |p| ensures s[i] == p[i] { }
    }
    DateLayoutMatches(s, 2, b, b + 1, d, d + 1, f, f + 1);
    assert s[|p|..] == TailText(name, user, host, rest);
    TailTextFollows(|p|, s, name, user, host, rest);
  }

  /** The entry line `* Mon Jan 01 2024 John Doe <john@example.com> - 1.0-1`
      matches the pattern. */
  lemma CanonicalEntryMatches()
    ensures EntryMatches(DateText("Mon", "Jan", "01", "2024") + TailText("John Doe", "john", "example.com", " - 1.0-1"))
  {
    assert IsWord("Mon") && IsWord("Jan") by {
      assert "Mon"[0] == 'M' && "Mon"[1] == 'o' && "Mon"[2] == 'n';
      assert "Jan"[0] == 'J' && "Jan"[1] == 'a' && "Jan"[2] == 'n';
    }
    assert IsNumber("01") && IsNumber("2024") by {
      assert "01"[0] == '0' && "01"[1] == '1';
      assert "2024"[0] == '2' && "2024"[1] == '0' && "2024"[2] == '2' && "2024"[3] == '4';
    }
    assert IsText("John Doe") && IsText("john") && IsText("example.com") by {
      assert '\n' !in "John Doe" && '\n' !in "john" && '\n' !in "example.com";
    }
    EntryLineMatches("Mon", "Jan", "01", "2024", "John Doe", "john", "example.com", " - 1.0-1");
  }

  // ---- The scan ----

  predicate IsChangelogMarker(line: string) {
    Strip(line) == "%changelog"
  }

  /** Whether a %changelog line has been read: once set the flag never drops. */
  function Seen(lines: seq<string>): bool {
    if lines == [] then false else Seen(lines[..|lines| - 1]) || IsChangelogMarker(lines[|lines| - 1])
  }

  /** A line read after the section started that begins, unstripped, with `*` and
      does not match the entry pattern. */
  predicate Malformed(seen: bool, line: string) {
    seen && !IsChangelogMarker(line) && StartsWith(line, "*") && !EntryMatches(line)
  }

  function MalformedFinding(n: nat): Finding {
    Rule(Changelog, Warning, MalformedChangelogEntry, AtLine(n))
  }

  function ChangelogFindings(lines: seq<string>): seq<Finding> {
    if lines == [] then []
    else
      var init := lines[..|lines| - 1];
      ChangelogFindings(init) + (if Malformed(Seen(init), lines[|lines| - 1]) then [MalformedFinding(|lines|)] else [])
  }

  /** The scan, carrying the in-changelog flag from line to line. */
  method ScanChangelog(lines: seq<string>) returns (results: seq<Finding>)
    ensures results == ChangelogFindings(lines)
  {
    results := [];
    var inChangelog := false;
    for i := 0 to |lines|
      invariant inChangelog == Seen(lines[..i])
      invariant results == ChangelogFindings(lines[..i])
    {
      assert lines[..i + 1][..i] == lines[..i];
      var line := lines[i];
      if Strip(line) == "%changelog" {
        inChangelog := true;
        continue;
      }
      if inChangelog {
        if StartsWith(line, "*") {
          if !EntryMatches(line) {
            results := results + [MalformedFinding(i + 1)];
          }
        }
      }
    }
    assert lines[..|lines|] == lines;
  }

  /** The flag is up exactly when some line so far is a %changelog line. */
  lemma {:induction false} SeenIff(lines: seq<string>)
    ensures Seen(lines) <==> exists j :: 0 <= j < |lines| && IsChangelogMarker(lines[j])
  {
    if lines != [] {
      var init := lines[..|lines| - 1];
      SeenIff(init);
      if exists j :: 0 <= j < |lines| && IsChangelogMarker(lines[j]) {
        var j :| 0 <= j < |lines| && IsChangelogMarker(lines[j]);
        if j < |init| {
          assert init[j] == lines[j];
        }
      }
      if exists j :: 0 <= j < |init| && IsChangelogMarker(init[j]) {
        var j :| 0 <= j < |init| && IsChangelogMarker(init[j]);
        assert lines[j] == init[j];
      }
    }
  }

  /** Line n is reported exactly when a %changelog line comes before it and it is an
      entry line that does not match; no line before the section is checked. */
  lemma {:induction false} MalformedIff(lines: seq<string>, n: nat)
    ensures MalformedFinding(n) in ChangelogFindings(lines)
      <==> 1 <= n <= |lines| && Malformed(Seen(lines[..n - 1]), lines[n - 1])
  {
    if lines != [] {
      var init := lines[..|lines| - 1];
      MalformedIff(init, n);
      if 1 <= n < |lines| {
        assert init[..n - 1] == lines[..n - 1];
        assert init[n - 1] == lines[n - 1];
      }
    }
  }

  /** The findings are malformed-entry warnings with strictly increasing line numbers
      no larger than the line count, so no line is reported twice. */
  lemma {:induction false} ChangelogOrdered(lines: seq<string>)
    ensures forall i :: 0 <= i < |ChangelogFindings(lines)| ==>
      ChangelogFindings(lines)[i].tag == MalformedChangelogEntry
      && ChangelogFindings(lines)[i].detail.AtLine? && 1 <= ChangelogFindings(lines)[i].detail.line <= |lines|
    ensures forall i, j :: 0 <= i < j < |ChangelogFindings(lines)| ==>
      ChangelogFindings(lines)[i].detail.line < ChangelogFindings(lines)[j].detail.line
  {
    if lines != [] {
      ChangelogOrdered(lines[..|lines| - 1]);
    }
  }
}
