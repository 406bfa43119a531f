// The License: value check. The value is cut at every whitespace-bounded AND, OR,
// and or or (the regular expression \s+(?:AND|OR|and|or)\s+ under re.split), each
// part is stripped of whitespace and then of every leading and trailing parenthesis,
// and each part is looked up in two fixed identifier sets.

module License {
  import opened Text
  import opened Findings

  /** Identifiers from the SPDX License List that the checker accepts. */
  const Spdx: set<string> := {
    "MIT", "Apache-2.0", "GPL-2.0-only", "GPL-2.0-or-later",
    "GPL-3.0-only", "GPL-3.0-or-later", "LGPL-2.1-only",
    "LGPL-2.1-or-later", "LGPL-3.0-only", "LGPL-3.0-or-later",
    "BSD-2-Clause", "BSD-3-Clause", "MPL-2.0", "ISC", "Zlib",
    "Unlicense", "CC0-1.0", "AGPL-3.0-only", "AGPL-3.0-or-later",
    "Artistic-2.0", "BSL-1.0", "CC-BY-4.0", "CC-BY-SA-4.0",
    "EPL-2.0", "EUPL-1.2", "WTFPL", "0BSD"
  }

  /** The short names Fedora used before it adopted SPDX. */
  const OldFedora: set<string> := {
    "GPLv2", "GPLv2+", "GPLv3", "GPLv3+", "LGPLv2", "LGPLv2+",
    "LGPLv3", "LGPLv3+", "ASL 2.0", "BSD", "MIT"
  }

  /** AND or and at j. */
  predicate LongKeywordAt(s: string, j: nat) {
    j + 3 <= |s|
    && ((s[j] == 'A' && s[j + 1] == 'N' && s[j + 2] == 'D') || (s[j] == 'a' && s[j + 1] == 'n' && s[j + 2] == 'd'))
  }

  /** OR or or at j. */
  predicate ShortKeywordAt(s: string, j: nat) {
    j + 2 <= |s| && ((s[j] == 'O' && s[j + 1] == 'R') || (s[j] == 'o' && s[j + 1] == 'r'))
  }

  /** The length of the keyword AND, OR, and or or that starts at j, or 0. */
  function KeywordLength(s: string, j: nat): (n: nat)
    requires j <= |s|
    ensures n == 0 || n == 2 || n == 3
    ensures n <= |s| - j
  {
    if LongKeywordAt(s, j) then 3 else if ShortKeywordAt(s, j) then 2 else 0
  }

  /** Where a separator that starts at i ends, if one does: a whitespace run, a
      keyword, and a whitespace run, both runs taken whole. */
  function SeparatorEnd(s: string, i: nat): (r: Option<nat>)
    requires i <= |s|
    ensures r.Some? ==> i < r.value <= |s| && (r.value == |s| || !IsSpace(s[r.value]))
  {
    if i < |s| && IsSpace(s[i]) then
      var j := SkipSpaces(s, i);
      var n := KeywordLength(s, j);
      if n > 0 && j + n < |s| && IsSpace(s[j + n]) then Some(SkipSpaces(s, j + n)) else None
    else None
  }


  predicate NoSeparator(s: string) {
    forall x :: 0 <= x <= |s| ==> SeparatorEnd(s, x).None?
  }

  /** The leftmost separator at or after i, as its start a and end e. */
  function FirstSeparator(s: string, i: nat): (r: (nat, nat))
    requires i <= |s|
    ensures r.0 <= |s|
    ensures r.0 == |s| ==> forall x :: i <= x <= |s| ==> SeparatorEnd(s, x).None?
    ensures r.0 < |s| ==> i <= r.0 < r.1 <= |s| && SeparatorEnd(s, r.0) == Some(r.1)
    ensures r.0 < |s| ==> forall x :: i <= x < r.0 ==> SeparatorEnd(s, x).None?
    decreases |s| - i
  {
    if i == |s| then (|s|, |s|)
    else match SeparatorEnd(s, i)
      case Some(e) => (i, e)
      case None => FirstSeparator(s, i + 1)
  }

  /** re.split(r'\s+(?:AND|OR|and|or)\s+', s) */
  function SplitExpression(s: string): (parts: seq<string>)
    ensures |parts| >= 1
    decreases |s|
  {
    var (a, e) := FirstSeparator(s, 0);
    if a == |s| then [s] else [s[..a]] + SplitExpression(s[e..])
  }

  /** A separator found in a prefix of s is a separator of s as well. */
  lemma SeparatorInPrefix(s: string, a: nat, x: nat)
    requires x <= a <= |s|
    requires SeparatorEnd(s[..a], x).Some?
    ensures SeparatorEnd(s, x).Some?
  {
    var p := s[..a];
    var j := SkipSpaces(p, x);
    SkipSpacesInPrefix(s, a, x);
    assert KeywordLength(s, j) == KeywordLength(p, j);
  }

  lemma {:induction false} SkipSpacesInPrefix(s: string, a: nat, x: nat)
    requires x <= a <= |s|
    requires SkipSpaces(s[..a], x) < a
    ensures SkipSpaces(s, x) == SkipSpaces(s[..a], x)
    decreases a - x
  {
    if x < a && IsSpace(s[x]) {
      SkipSpacesInPrefix(s, a, x + 1);
    }
  }

  /** Splitting is complete: no part still holds a separator. */
  lemma {:induction false} PartsHaveNoSeparator(s: string)
    ensures forall k :: 0 <= k < |SplitExpression(s)| ==> NoSeparator(SplitExpression(s)[k])
    decreases |s|
  {
    var (a, e) := FirstSeparator(s, 0);
    if a < |s| {
      var head := s[..a];
      forall x | 0 <= x <= |head| ensures SeparatorEnd(head, x).None? {
        if SeparatorEnd(head, x).Some? {
          SeparatorInPrefix(s, a, x);
          assert false;
        }
      }
      PartsHaveNoSeparator(s[e..]);
      var parts := SplitExpression(s);
      assert parts == [head] + SplitExpression(s[e..]);
      forall k | 0 <= k < |parts| ensures NoSeparator(parts[k]) {
        if k > 0 {
          assert parts[k] == SplitExpression(s[e..])[k - 1];
        }
      }
    }
  }

  /** The separator texts re.split drops, in order. */
  function Separators(s: string): seq<string>
    decreases |s|
  {
    var (a, e) := FirstSeparator(s, 0);
    if a == |s| then [] else [s[a..e]] + Separators(s[e..])
  }

  /** The parts with the separators put back between them. */
  function Interleave(parts: seq<string>, seps: seq<string>): string
    requires |parts| == |seps| + 1
  {
    if seps == [] then parts[0] else parts[0] + seps[0] + Interleave(parts[1..], seps[1..])
  }

  /** One step of the split: the first part and the first separator are cut off. */
  lemma SplitStep(s: string, a: nat, e: nat)
    requires FirstSeparator(s, 0) == (a, e) && a < |s|
    ensures a < e <= |s|
    ensures SplitExpression(s) == [s[..a]] + SplitExpression(s[e..])
    ensures Separators(s) == [s[a..e]] + Separators(s[e..])
  {
  }

  /** Without a separator the split is the whole value, and nothing is dropped. */
  lemma SplitNone(s: string)
    requires FirstSeparator(s, 0).0 == |s|
    ensures SplitExpression(s) == [s] && Separators(s) == []
  {
  }

  lemma ThreeSlices(s: string, a: nat, e: nat)
    requires a <= e <= |s|
    ensures s[..a] + s[a..e] + s[e..] == s
  {
  }

  lemma InterleaveCons(h: string, x: string, parts: seq<string>, seps: seq<string>)
    requires |parts| == |seps| + 1
    ensures Interleave([h] + parts, [x] + seps) == h + x + Interleave(parts, seps)
  {
    assert ([h] + parts)[1..] == parts;
    assert ([x] + seps)[1..] == seps;
  }

  /** Splitting loses nothing but the separators: putting them back between the parts
      gives the value again. */
  lemma {:induction false} SplitReassembles(s: string)
    ensures |SplitExpression(s)| == |Separators(s)| + 1
    ensures Interleave(SplitExpression(s), Separators(s)) == s
    decreases |s|
  {
    var r := FirstSeparator(s, 0);
    if r.0 < |s| {
      var a, e := r.0, r.1;
      SplitStep(s, a, e);
      SplitReassembles(s[e..]);
      InterleaveCons(s[..a], s[a..e], SplitExpression(s[e..]), Separators(s[e..]));
      ThreeSlices(s, a, e);
    } else {
      SplitNone(s);
    }
  }

  predicate IsKeyword(kw: string) {
    kw == "AND" || kw == "OR" || kw == "and" || kw == "or"
  }

  /** A keyword followed by whitespace is recognised. */
  lemma KeywordAt(s: string, j: nat, kw: string)
    requires IsKeyword(kw) && j + |kw| <= |s| && s[j..j + |kw|] == kw
    ensures KeywordLength(s, j) == |kw|
  {
    assert s[j] == kw[0] && s[j + 1] == kw[1];
    if |kw| == 3 {
      assert s[j + 2] == kw[2];
    }
  }

  /** Conversely, a keyword length above zero means one of the four keywords
      stands at j, and a keyword holds no whitespace. */
  lemma KeywordFound(s: string, j: nat)
    requires j <= |s|
    ensures var n := KeywordLength(s, j);
      n > 0 ==> IsKeyword(s[j..j + n]) && forall k :: j <= k < j + n ==> !IsSpace(s[k])
  {
    var n := KeywordLength(s, j);
    if n > 0 {
      var kw := s[j..j + n];
      assert kw[0] == s[j] && kw[1] == s[j + 1];
      if n == 3 {
        assert kw[2] == s[j + 2];
      }
    }
  }

  /** "a AND b" is cut after a, when a holds no whitespace. */
  lemma SplitAtKeyword(a: string, kw: string, b: string)
    requires a != [] && forall i :: 0 <= i < |a| ==> !IsSpace(a[i])
    requires IsKeyword(kw)
    requires b == [] || !IsSpace(b[0])
    ensures SplitExpression(a + " " + kw + " " + b) == [a] + SplitExpression(b)
  {
    var s := a + " " + kw + " " + b;
    KeywordLayout(a, kw, b);
    SeparatorAt(s, |a|, kw);
    SplitAtSeparator(s, |a|, |a| + 2 + |kw|);
  }

  /** Where the parts of "a AND b" sit. */
  lemma KeywordLayout(a: string, kw: string, b: string)
    requires forall i :: 0 <= i < |a| ==> !IsSpace(a[i])
    requires kw != [] && (b == [] || !IsSpace(b[0]))
    ensures var s := a + " " + kw + " " + b; var n := |a|;
      n + 2 + |kw| <= |s| && s[..n] == a && s[n + 2 + |kw|..] == b
      && (forall i :: 0 <= i < n ==> !IsSpace(s[i]))
      && s[n] == ' ' && s[n + 1..n + 1 + |kw|] == kw && s[n + 1 + |kw|] == ' '
      && (n + 2 + |kw| < |s| ==> !IsSpace(s[n + 2 + |kw|]))
  {
    var mid := [' '] + kw + [' '];
    var s := a + mid + b;
    assert s == a + " " + kw + " " + b;
    var n := |a|;
    assert s[..n] == a;
    assert s[n + |mid|..] == b;
    assert s[n..n + |mid|] == mid;
    assert mid[1..1 + |kw|] == kw;
    forall i | 0 <= i < n ensures !IsSpace(s[i]) {
      assert s[i] == a[i];
    }
  }

  /** A value whose first separator starts right after a leading word is cut
      there. */
  lemma SplitAtSeparator(s: string, n: nat, e: nat)
    requires n < |s| && SeparatorEnd(s, n) == Some(e)
    requires forall i :: 0 <= i < n ==> !IsSpace(s[i])
    ensures SplitExpression(s) == [s[..n]] + SplitExpression(s[e..])
  {
    NoSeparatorInWord(s, n);
    FirstSeparatorFinds(s, 0, n, e);
  }

  /** No separator starts inside a leading run of non-whitespace. */
  lemma NoSeparatorInWord(s: string, n: nat)
    requires n <= |s| && forall i :: 0 <= i < n ==> !IsSpace(s[i])
    ensures forall x :: 0 <= x < n ==> SeparatorEnd(s, x).None?
  {
  }

  lemma {:induction false} FirstSeparatorFinds(s: string, i: nat, n: nat, e: nat)
    requires i <= n < |s| && SeparatorEnd(s, n) == Some(e)
    requires forall x :: i <= x < n ==> SeparatorEnd(s, x).None?
    ensures FirstSeparator(s, i) == (n, e)
    decreases n - i
  {
    if i < n {
      FirstSeparatorFinds(s, i + 1, n, e);
    }
  }

  /** Whitespace, a keyword, whitespace: a separator, whatever follows. */
  lemma SeparatorAt(s: string, n: nat, kw: string)
    requires IsKeyword(kw) && n + 2 + |kw| <= |s|
    requires s[n] == ' ' && s[n + 1..n + 1 + |kw|] == kw && s[n + 1 + |kw|] == ' '
    requires n + 2 + |kw| < |s| ==> !IsSpace(s[n + 2 + |kw|])
    ensures SeparatorEnd(s, n) == Some(n + 2 + |kw|)
  {
    assert s[n + 1] == kw[0];
    assert SkipSpaces(s, n) == n + 1;
    KeywordAt(s, n + 1, kw);
  }

  /** A value without whitespace is a single part. */
  lemma SplitWithoutSpace(s: string)
    requires forall i :: 0 <= i < |s| ==> !IsSpace(s[i])
    ensures SplitExpression(s) == [s]
  {
    assert FirstSeparator(s, 0).0 == |s|;
  }

  /** Only the four spellings are keywords: a word other than AND, OR, and, or
      between two whitespace-free words does not cut the value, even when it begins
      like one (android, ORACLE), and neither does a keyword at the very end. */
  lemma OtherWordNotSplit(a: string, w: string, b: string)
    requires a != [] && w != [] && b != []
    requires forall i :: 0 <= i < |a| ==> !IsSpace(a[i])
    requires forall i :: 0 <= i < |w| ==> !IsSpace(w[i])
    requires forall i :: 0 <= i < |b| ==> !IsSpace(b[i])
    requires !IsKeyword(w)
    ensures SplitExpression(a + " " + w + " " + b) == [a + " " + w + " " + b]
  {
    NoSeparatorAroundWord(a, w, b);
    WholeWithoutSeparator(a + " " + w + " " + b);
  }

  lemma NoSeparatorAroundWord(a: string, w: string, b: string)
    requires a != [] && w != [] && b != []
    requires forall i :: 0 <= i < |a| ==> !IsSpace(a[i])
    requires forall i :: 0 <= i < |w| ==> !IsSpace(w[i])
    requires forall i :: 0 <= i < |b| ==> !IsSpace(b[i])
    requires !IsKeyword(w)
    ensures NoSeparator(a + " " + w + " " + b)
  {
    var s := a + " " + w + " " + b;
    var m := |a| + 1 + |w|;
    assert |s| == m + 1 + |b|;
    forall x | 0 <= x <= |s| ensures SeparatorEnd(s, x).None? {
      if x == |a| {
        assert s[x + 1..x + 1 + |w|] == w;
        assert s[m] == ' ';
        SpaceBeforeWord(s, x, w);
      } else if x == m {
        assert s[x + 1..] == b;
        SpaceBeforeWord(s, x, b);
      } else if x < |a| {
        assert s[x] == a[x];
      } else if |a| < x < m {
        assert s[x] == w[x - |a| - 1];
      } else if m < x < |s| {
        assert s[x] == b[x - m - 1];
      }
    }
  }

  /** A value in which no separator starts is a single part. */
  lemma WholeWithoutSeparator(s: string)
    requires NoSeparator(s)
    ensures SplitExpression(s) == [s]
  {
    assert FirstSeparator(s, 0).0 == |s|;
  }

  /** One space followed by a whitespace-free word starts no separator, unless the
      word is a keyword with more text after it. */
  lemma SpaceBeforeWord(s: string, x: nat, w: string)
    requires w != [] && x + 1 + |w| <= |s| && s[x + 1..x + 1 + |w|] == w
    requires forall i :: 0 <= i < |w| ==> !IsSpace(w[i])
    requires x + 1 + |w| == |s| || IsSpace(s[x + 1 + |w|])
    requires !IsKeyword(w) || x + 1 + |w| == |s|
    ensures SeparatorEnd(s, x).None?
  {
    var j := x + 1;
    assert s[j] == w[0];
    KeywordFound(s, j);
    if IsSpace(s[x]) {
      assert SkipSpaces(s, x) == j;
      var n := KeywordLength(s, j);
      if n < |w| {
        assert s[j + n] == w[n];
      }
    }
  }

  lemma MixedCaseNotSplit(s: string)
    requires s == "MIT And BSD"
    ensures SplitExpression(s) == [s]
  {
    var a, w, b := "MIT", "And", "BSD";
    assert s == a + " " + w + " " + b;
    assert !IsKeyword(w) by { assert w[1] == 'n'; }
    OtherWordNotSplit(a, w, b);
  }

  lemma MitAndApache(s: string)
    requires s == "MIT AND Apache-2.0"
    ensures SplitExpression(s) == ["MIT", "Apache-2.0"]
  {
    var a, b := "MIT", "Apache-2.0";
    assert s == a + " " + "AND" + " " + b;
    assert forall i :: 0 <= i < |a| ==> !IsSpace(a[i]);
    assert forall i :: 0 <= i < |b| ==> !IsSpace(b[i]);
    SplitAtKeyword(a, "AND", b);
    SplitWithoutSpace(b);
  }

  function TrimParensLeft(s: string): (r: string)
    ensures |r| <= |s| && r == s[|s| - |r|..]
    ensures r == [] || (r[0] != '(' && r[0] != ')')
  {
    if s != [] && (s[0] == '(' || s[0] == ')') then TrimParensLeft(s[1..]) else s
  }

  function TrimParensRight(s: string): (r: string)
    ensures |r| <= |s| && r == s[..|r|]
    ensures r == [] || (r[|r| - 1] != '(' && r[|r| - 1] != ')')
  {
    if s != [] && (s[|s| - 1] == '(' || s[|s| - 1] == ')') then TrimParensRight(s[..|s| - 1]) else s
  }

  /** part.strip().strip("()"): whitespace first, then every parenthesis at either end. */
  function Normalize(part: string): string {
    TrimParensRight(TrimParensLeft(Strip(part)))
  }

  /** A part with no whitespace or parenthesis at either end is its own identifier. */
  lemma NormalizePlain(part: string)
    requires part != [] && !IsSpace(part[0]) && !IsSpace(part[|part| - 1])
    requires part[0] != '(' && part[0] != ')' && part[|part| - 1] != '(' && part[|part| - 1] != ')'
    ensures Normalize(part) == part
  {
    StripFixed(part);
  }

  lemma TrimLeftParensRun(l: string, rest: string)
    requires forall i :: 0 <= i < |l| ==> l[i] == '(' || l[i] == ')'
    requires rest == [] || (rest[0] != '(' && rest[0] != ')')
    ensures TrimParensLeft(l + rest) == rest
  {
    var s := l + rest;
    assert s[0..] == s && s[|l|..] == rest;
    forall i | 0 <= i < |l| ensures s[i] == '(' || s[i] == ')' {
      assert s[i] == l[i];
    }
    TrimLeftFrom(s, 0, |l|);
  }

  /** Trimming from k stops at the first index n that holds no parenthesis. */
  lemma {:induction false} TrimLeftFrom(s: string, k: nat, n: nat)
    requires k <= n <= |s|
    requires forall i :: k <= i < n ==> s[i] == '(' || s[i] == ')'
    requires n == |s| || (s[n] != '(' && s[n] != ')')
    ensures TrimParensLeft(s[k..]) == s[n..]
    decreases n - k
  {
    var t := s[k..];
    if k < n {
      assert t[0] == s[k] && t[1..] == s[k + 1..];
      TrimLeftFrom(s, k + 1, n);
    } else if t != [] {
      assert t[0] == s[n];
    }
  }

  lemma {:induction false} TrimRightParensRun(rest: string, r: string)
    requires forall i :: 0 <= i < |r| ==> r[i] == '(' || r[i] == ')'
    requires rest == [] || (rest[|rest| - 1] != '(' && rest[|rest| - 1] != ')')
    ensures TrimParensRight(rest + r) == rest
  {
    if r != [] {
      assert (rest + r)[..|rest + r| - 1] == rest + r[..|r| - 1];
      TrimRightParensRun(rest, r[..|r| - 1]);
    } else {
      assert rest + r == rest;
    }
  }

  /** Parentheses are stripped greedily, balanced or not: any run of them on either
      side of an identifier goes. */
  lemma NormalizeGreedy(l: string, id: string, r: string)
    requires forall i :: 0 <= i < |l| ==> l[i] == '(' || l[i] == ')'
    requires forall i :: 0 <= i < |r| ==> r[i] == '(' || r[i] == ')'
    requires id != [] && !IsSpace(id[0]) && !IsSpace(id[|id| - 1])
    requires id[0] != '(' && id[0] != ')' && id[|id| - 1] != '(' && id[|id| - 1] != ')'
    ensures Normalize(l + id + r) == id
  {
    WrappedHasNoOuterSpace(l, id, r);
    WrappedLosesParens(l, id, r);
  }

  lemma WrappedHasNoOuterSpace(l: string, id: string, r: string)
    requires forall i :: 0 <= i < |l| ==> l[i] == '(' || l[i] == ')'
    requires forall i :: 0 <= i < |r| ==> r[i] == '(' || r[i] == ')'
    requires id != [] && !IsSpace(id[0]) && !IsSpace(id[|id| - 1])
    ensures Strip(l + id + r) == l + id + r
  {
    var s := l + id + r;
    assert !IsSpace(s[0]) by {
      if l == [] {
        assert s[0] == id[0];
      } else {
        assert s[0] == l[0];
      }
    }
    assert !IsSpace(s[|s| - 1]) by {
      if r == [] {
        assert s[|s| - 1] == id[|id| - 1];
      } else {
        assert s[|s| - 1] == r[|r| - 1];
      }
    }
    StripFixed(s);
  }

  lemma WrappedLosesParens(l: string, id: string, r: string)
    requires forall i :: 0 <= i < |l| ==> l[i] == '(' || l[i] == ')'
    requires forall i :: 0 <= i < |r| ==> r[i] == '(' || r[i] == ')'
    requires id != [] && id[0] != '(' && id[0] != ')' && id[|id| - 1] != '(' && id[|id| - 1] != ')'
    ensures TrimParensRight(TrimParensLeft(l + id + r)) == id
  {
    var t := id + r;
    assert t[0] == id[0];
    assert l + id + r == l + t;
    TrimLeftParensRun(l, t);
    assert TrimParensLeft(l + id + r) == t;
    TrimRightParensRun(id, r);
  }

  /** How an identifier is judged: accepted, an old Fedora name that SPDX does not
      share, or neither. */
  datatype Verdict = Accepted | OldName | Unrecognised

  function Classify(id: string): Verdict {
    if id in OldFedora && id !in Spdx then OldName
    else if id !in Spdx && id !in OldFedora then Unrecognised
    else Accepted
  }

  /** MIT is the one name the two tables share. */
  lemma SharedName()
    ensures Spdx * OldFedora == {"MIT"}
  {
  }

  /** Every old Fedora name but MIT is judged an old name; MIT is accepted. */
  lemma OldNames(id: string)
    ensures Classify(id) == OldName <==> id in OldFedora && id != "MIT"
    ensures id == "MIT" ==> Classify(id) == Accepted
  {
    SharedName();
    assert id in Spdx * OldFedora <==> id in Spdx && id in OldFedora;
  }

  /** What one identifier contributes, given how it is judged. */
  function IdFindings(id: string): seq<Finding> {
    match Classify(id)
    case OldName => [Rule(Licensing, Warning, OldLicenseIdentifier, About(id))]
    case Unrecognised => [Rule(Licensing, Info, UnknownLicenseIdentifier, About(id))]
    case Accepted => []
  }

  /** What one part of the value contributes: its identifier after stripping. */
  function PartFindings(part: string): seq<Finding> {
    IdFindings(Normalize(part))
  }

  predicate NotSpdx(part: string) {
    Classify(Normalize(part)) != Accepted
  }

  predicate OldOnly(part: string) {
    Classify(Normalize(part)) == OldName
  }

  predicate Unrecognized(part: string) {
    Classify(Normalize(part)) == Unrecognised
  }

  /** An identifier yields one finding unless it is accepted: a warning naming an old
      name, an information finding naming an unrecognised one. */
  lemma IdShape(id: string)
    ensures |IdFindings(id)| == (if Classify(id) == Accepted then 0 else 1)
    ensures CountTag(IdFindings(id), OldLicenseIdentifier) == (if Classify(id) == OldName then 1 else 0)
    ensures CountTag(IdFindings(id), UnknownLicenseIdentifier) == (if Classify(id) == Unrecognised then 1 else 0)
    ensures forall f :: f in IdFindings(id) ==> f.category == Licensing && f.detail == About(id)
  {
    var r := IdFindings(id);
    match Classify(id)
    case Accepted =>
    case OldName =>
      assert r == [Rule(Licensing, Warning, OldLicenseIdentifier, About(id))] && r[..0] == [];
    case Unrecognised =>
      assert r == [Rule(Licensing, Info, UnknownLicenseIdentifier, About(id))] && r[..0] == [];
  }

  lemma PartShape(part: string)
    ensures |PartFindings(part)| == (if NotSpdx(part) then 1 else 0)
    ensures CountTag(PartFindings(part), OldLicenseIdentifier) == (if OldOnly(part) then 1 else 0)
    ensures CountTag(PartFindings(part), UnknownLicenseIdentifier) == (if Unrecognized(part) then 1 else 0)
  {
    IdShape(Normalize(part));
  }

  /** The findings for a captured License: value; nothing when it is empty. */
  function LicenseFindings(value: string): seq<Finding> {
    if value == [] then [] else FlatMap(SplitExpression(value), PartFindings)
  }

  /** One finding per part that is not an SPDX identifier: a Warning when it is an
      old Fedora name, an Info otherwise; SPDX parts contribute nothing. */
  lemma LicenseCounts(value: string)
    ensures value == [] ==> LicenseFindings(value) == []
    ensures value != [] ==> |LicenseFindings(value)| == CountIf(SplitExpression(value), NotSpdx)
    ensures value != [] ==> CountTag(LicenseFindings(value), OldLicenseIdentifier) == CountIf(SplitExpression(value), OldOnly)
    ensures value != [] ==> CountTag(LicenseFindings(value), UnknownLicenseIdentifier) == CountIf(SplitExpression(value), Unrecognized)
  {
    if value != [] {
      var parts := SplitExpression(value);
      forall x | x in parts ensures |PartFindings(x)| == (if NotSpdx(x) then 1 else 0) {
        PartShape(x);
      }
      forall x | x in parts ensures CountTag(PartFindings(x), OldLicenseIdentifier) == (if OldOnly(x) then 1 else 0) {
        PartShape(x);
      }
      forall x | x in parts ensures CountTag(PartFindings(x), UnknownLicenseIdentifier) == (if Unrecognized(x) then 1 else 0) {
        PartShape(x);
      }
      LengthFlatMap(parts, PartFindings, NotSpdx);
      CountTagFlatMap(parts, PartFindings, OldLicenseIdentifier, OldOnly);
      CountTagFlatMap(parts, PartFindings, UnknownLicenseIdentifier, Unrecognized);
    }
  }

  /** Every license finding is in the licensing category. */
  lemma LicenseCategory(value: string)
    ensures forall f :: f in LicenseFindings(value) ==> f.category == Licensing
  {
    if value != [] {
      var parts := SplitExpression(value);
      forall f | f in LicenseFindings(value) ensures f.category == Licensing {
        InFlatMap(parts, PartFindings, f);
        var i :| 0 <= i < |parts| && f in PartFindings(parts[i]);
        PartCategory(parts[i]);
      }
    }
  }

  lemma PartCategory(part: string)
    ensures forall f :: f in PartFindings(part) ==> f.category == Licensing
  {
    IdShape(Normalize(part));
  }

  /** The value MIT alone yields nothing. */
  lemma MitIsClean(value: string)
    requires value == "MIT"
    ensures LicenseFindings(value) == []
  {
    SingleIdentifier(value);
    NormalizePlain(value);
  }

  /** The value GPLv2 alone yields one old-name warning naming it. */
  lemma OldGplIsFlagged(value: string)
    requires value == "GPLv2"
    ensures LicenseFindings(value) == [Rule(Licensing, Warning, OldLicenseIdentifier, About(value))]
  {
    SingleIdentifier(value);
    NormalizePlain(value);
    OldGplNotSpdx(value);
  }

  lemma OldGplNotSpdx(id: string)
    requires id == "GPLv2"
    ensures id !in Spdx
  {
  }

  /** A value that is one bare identifier is looked up whole. */
  lemma SingleIdentifier(id: string)
    requires id != [] && forall i :: 0 <= i < |id| ==> !IsSpace(id[i])
    ensures LicenseFindings(id) == PartFindings(id)
  {
    SplitWithoutSpace(id);
    FlatMapSingle(id, PartFindings);
  }

  /** The two lookups on one part, after stripping it. */
  method CheckPart(part: string) returns (found: seq<Finding>)
    ensures found == PartFindings(part)
  {
    var id := Normalize(part);
    found := [];
    var spdx := id in Spdx;
    var legacy := id in OldFedora;
    if legacy && !spdx {
      found := [Rule(Licensing, Warning, OldLicenseIdentifier, About(id))];
    } else if !spdx && !legacy {
      found := [Rule(Licensing, Info, UnknownLicenseIdentifier, About(id))];
    }
  }

  /** The check as the source runs it: split, then classify each part in turn. */
  method CheckLicense(value: string) returns (results: seq<Finding>)
    ensures results == LicenseFindings(value)
  {
    results := [];
    if value != [] {
      var parts := SplitExpression(value);
      for i := 0 to |parts|
        invariant results == FlatMap(parts[..i], PartFindings)
      {
        FlatMapPrefix(parts, i, PartFindings);
        var found := CheckPart(parts[i]);
        results := results + found;
      }
      assert parts[..|parts|] == parts;
    }
  }
}
