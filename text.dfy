// The handful of Python string operations the rule engine relies on, restricted to
// ASCII: str.isspace, str.strip, str.lower, str.startswith/endswith, substring `in`,
// str.split(":", 1)[1] and str.splitlines.

module Text {

  datatype Option<T> = None | Some(value: T)

  /** Python's str.isspace() on ASCII: tab, line feed, vertical tab, form feed,
      carriage return, the four separators 0x1C..0x1F, and space.
      The regular-expression class \s uses the same test. */
  predicate IsSpace(c: char) {
    var n := c as int;
    n == 32 || 9 <= n <= 13 || 28 <= n <= 31
  }

  /** The regular-expression class \w on ASCII. */
  predicate IsWordChar(c: char) {
    'a' <= c <= 'z' || 'A' <= c <= 'Z' || '0' <= c <= '9' || c == '_'
  }

  /** The regular-expression class \d on ASCII. */
  predicate IsDigit(c: char) {
    '0' <= c <= '9'
  }

  predicate IsUpper(c: char) {
    'A' <= c <= 'Z'
  }

  /** The characters str.splitlines() breaks on, restricted to ASCII:
      \n, \r, \v, \f and the separators 0x1C, 0x1D, 0x1E. */
  predicate IsLineBreak(c: char) {
    var n := c as int;
    10 <= n <= 13 || 28 <= n <= 30
  }

  predicate NoLineBreak(s: string) {
    forall i :: 0 <= i < |s| ==> !IsLineBreak(s[i])
  }

  predicate AllSpace(s: string, lo: int, hi: int)
    requires 0 <= lo <= hi <= |s|
  {
    forall i :: lo <= i < hi ==> IsSpace(s[i])
  }

  predicate AllNonSpace(s: string, lo: int, hi: int)
    requires 0 <= lo <= hi <= |s|
  {
    forall i :: lo <= i < hi ==> !IsSpace(s[i])
  }

  predicate StartsWith(s: string, prefix: string) {
    |prefix| <= |s| && s[..|prefix|] == prefix
  }

  predicate EndsWith(s: string, suffix: string) {
    |suffix| <= |s| && s[|s| - |suffix|..] == suffix
  }

  /** Python's `t in s` for strings. */
  predicate Contains(s: string, t: string)
    decreases |s|
  {
    StartsWith(s, t) || (s != [] && Contains(s[1..], t))
  }

  /** The end of the run of whitespace that starts at i. */
  function SkipSpaces(s: string, i: nat): (j: nat)
    requires i <= |s|
    ensures i <= j <= |s| && AllSpace(s, i, j)
    ensures j == |s| || !IsSpace(s[j])
    decreases |s| - i
  {
    if i < |s| && IsSpace(s[i]) then SkipSpaces(s, i + 1) else i
  }

  /** The end of the run of non-whitespace that starts at i. */
  function SkipNonSpaces(s: string, i: nat): (j: nat)
    requires i <= |s|
    ensures i <= j <= |s| && AllNonSpace(s, i, j)
    ensures j == |s| || IsSpace(s[j])
    decreases |s| - i
  {
    if i < |s| && !IsSpace(s[i]) then SkipNonSpaces(s, i + 1) else i
  }

  /** str.strip(): leading and trailing whitespace removed, one character at a time;
      what is left neither starts nor ends with whitespace. */
  function Strip(s: string): (r: string)
    ensures |r| <= |s|
    ensures r == [] || (!IsSpace(r[0]) && !IsSpace(r[|r| - 1]))
    decreases |s|
  {
    if s != [] && IsSpace(s[0]) then Strip(s[1..])
    else if s != [] && IsSpace(s[|s| - 1]) then Strip(s[..|s| - 1])
    else s
  }

  /** How many characters Strip drops from the front. */
  function StripStart(s: string): (n: nat)
    ensures n <= |s|
    decreases |s|
  {
    if s != [] && IsSpace(s[0]) then 1 + StripStart(s[1..]) else 0
  }

  /** Stripping keeps a contiguous slice: the one starting after the leading
      whitespace. */
  lemma {:induction false} StripIsSlice(s: string)
    ensures StripStart(s) + |Strip(s)| <= |s|
    ensures Strip(s) == s[StripStart(s)..StripStart(s) + |Strip(s)|]
    decreases |s|
  {
    if s != [] && IsSpace(s[0]) {
      var t := s[1..];
      StripIsSlice(t);
      assert Strip(s) == Strip(t) && StripStart(s) == 1 + StripStart(t);
      assert t[StripStart(t)..StripStart(t) + |Strip(t)|] == s[StripStart(s)..StripStart(s) + |Strip(s)|];
    } else if s != [] && IsSpace(s[|s| - 1]) {
      var init := s[..|s| - 1];
      StripIsSlice(init);
      assert Strip(s) == Strip(init) && StripStart(s) == 0;
      assert init != [] && init[0] == s[0];
      assert StripStart(init) == 0;
      assert init[..|Strip(s)|] == s[..|Strip(s)|];
    }
  }

  /** Stripping drops whitespace only: everything before and after the kept slice
      is whitespace. */
  lemma {:induction false} StripDropsOnlySpace(s: string)
    ensures StripStart(s) + |Strip(s)| <= |s|
    ensures AllSpace(s, 0, StripStart(s)) && AllSpace(s, StripStart(s) + |Strip(s)|, |s|)
    decreases |s|
  {
    var lo, r := StripStart(s), Strip(s);
    if s != [] && IsSpace(s[0]) {
      var t := s[1..];
      StripDropsOnlySpace(t);
      forall i | 0 < i < |s| && (i < lo || lo + |r| <= i) ensures IsSpace(s[i]) {
        assert s[i] == t[i - 1];
      }
    } else if s != [] && IsSpace(s[|s| - 1]) {
      var init := s[..|s| - 1];
      StripDropsOnlySpace(init);
      assert StripStart(init) == 0;
      forall i | |r| <= i < |init| ensures IsSpace(s[i]) {
        assert s[i] == init[i];
      }
    }
  }

  /** A string without whitespace at either end is its own strip. */
  lemma StripFixed(s: string)
    requires s == [] || (!IsSpace(s[0]) && !IsSpace(s[|s| - 1]))
    ensures Strip(s) == s
  {
  }

  function LowerChar(c: char): (d: char) {
    if IsUpper(c) then (c as int + 32) as char else c
  }

  /** str.lower() on ASCII letters; every other character is kept. */
  function ToLower(s: string): (r: string)
    ensures |r| == |s|
    ensures forall i :: 0 <= i < |s| ==> r[i] == LowerChar(s[i])
  {
    if s == [] then [] else [LowerChar(s[0])] + ToLower(s[1..])
  }

  predicate HasUpper(s: string) {
    exists i :: 0 <= i < |s| && IsUpper(s[i])
  }

  /** Lower-casing changes a string exactly when it holds an upper-case letter. */
  lemma LowerChangesIffUpper(s: string)
    ensures ToLower(s) != s <==> HasUpper(s)
  {
    if HasUpper(s) {
      var i :| 0 <= i < |s| && IsUpper(s[i]);
      assert ToLower(s)[i] != s[i];
    } else {
      assert ToLower(s) == s;
    }
  }

  predicate IsLower(c: char) {
    'a' <= c <= 'z'
  }

  /** str.upper() on one ASCII character; every other character is kept. */
  function UpperChar(c: char): (d: char)
    ensures IsLower(c) ==> IsUpper(d) && LowerChar(d) == c
    ensures !IsLower(c) ==> d == c
  {
    if IsLower(c) then (c as int - 32) as char else c
  }

  /** str.capitalize() on ASCII: the first character upper-cased, the rest
      lower-cased. */
  function Capitalize(s: string): (r: string)
    ensures |r| == |s|
    ensures s != [] ==> !IsLower(r[0])
    ensures forall i :: 1 <= i < |s| ==> !IsUpper(r[i])
  {
    if s == [] then [] else [UpperChar(s[0])] + ToLower(s[1..])
  }

  /** Capitalizing changes only the case: lower-casing the result gives the
      lower-cased input back. */
  lemma CapitalizeKeepsLetters(s: string)
    ensures ToLower(Capitalize(s)) == ToLower(s)
  {
    var r := Capitalize(s);
    forall i | 0 <= i < |s| ensures LowerChar(r[i]) == LowerChar(s[i]) {
      if i > 0 {
        assert r[i] == ToLower(s[1..])[i - 1] == LowerChar(s[i]);
      }
    }
  }

  /** A word whose letters after the first are not upper-case is capitalized by
      upper-casing its first letter alone. */
  lemma CapitalizeWord(word: string, cap: string)
    requires |word| == |cap| && |word| > 0 && cap[0] == UpperChar(word[0])
    requires forall i :: 1 <= i < |word| ==> cap[i] == word[i] && !IsUpper(word[i])
    ensures Capitalize(word) == cap
  {
  }

  /** The text after the first occurrence of c, or "" when c does not occur:
      Python's s.split(c, 1)[1], and the empty string where the source substitutes it. */
  function AfterFirst(s: string, c: char): (r: string)
    ensures c !in s ==> r == []
    ensures c in s ==> exists i :: 0 <= i < |s| && s[i] == c && c !in s[..i] && r == s[i + 1..]
  {
    if s == [] then []
    else if s[0] == c then s[1..]
    else
      var r := AfterFirst(s[1..], c);
      assert c in s[1..] ==> exists i :: 0 <= i < |s| && s[i] == c && c !in s[..i] && r == s[i + 1..] by {
        if c in s[1..] {
          var i :| 0 <= i < |s[1..]| && s[1..][i] == c && c !in s[1..][..i] && r == s[1..][i + 1..];
          assert s[..i + 1] == [s[0]] + s[1..][..i];
          assert r == s[i + 2..];
        }
      }
      r
  }

  /** The index of the first line-break character, or |s|. */
  function FirstBreak(s: string, i: nat): (j: nat)
    requires i <= |s|
    ensures i <= j <= |s|
    ensures forall k :: i <= k < j ==> !IsLineBreak(s[k])
    ensures j < |s| ==> IsLineBreak(s[j])
    decreases |s| - i
  {
    if i == |s| || IsLineBreak(s[i]) then i else FirstBreak(s, i + 1)
  }

  /** str.splitlines(): breaks at each line-break character, "\r\n" counting as one
      break; a final break does not open an empty last line. */
  function SplitLines(s: string): (lines: seq<string>)
    ensures forall k :: 0 <= k < |lines| ==> NoLineBreak(lines[k])
    decreases |s|
  {
    if s == [] then []
    else
      var i := FirstBreak(s, 0);
      if i == |s| then [s]
      else
        var next := if s[i] == '\r' && i + 1 < |s| && s[i + 1] == '\n' then i + 2 else i + 1;
        [s[..i]] + SplitLines(s[next..])
  }

  /** Lines each followed by "\n", as a text file holds them. */
  function Terminated(lines: seq<string>): string {
    if lines == [] then [] else lines[0] + "\n" + Terminated(lines[1..])
  }

  /** Splitting newline-terminated lines gives the lines back. */
  lemma {:induction false} SplitTerminated(lines: seq<string>)
    requires forall k :: 0 <= k < |lines| ==> NoLineBreak(lines[k])
    ensures SplitLines(Terminated(lines)) == lines
  {
    if lines != [] {
      var s := Terminated(lines);
      var l := lines[0];
      assert s == l + "\n" + Terminated(lines[1..]);
      assert FirstBreak(s, 0) == |l| by {
        assert forall k :: 0 <= k < |l| ==> s[k] == l[k];
        assert s[|l|] == '\n';
      }
      assert s[|l| + 1..] == Terminated(lines[1..]);
      assert s[..|l|] == l;
      SplitTerminated(lines[1..]);
    }
  }

  /** A non-empty text without line breaks is one line. */
  lemma SplitSingle(s: string)
    requires s != [] && NoLineBreak(s)
    ensures SplitLines(s) == [s]
  {
    assert FirstBreak(s, 0) == |s|;
  }

  /** After the terminated lines, a last line without a break is kept as a
      line of its own. */
  lemma {:induction false} SplitUnterminated(lines: seq<string>, last: string)
    requires forall k :: 0 <= k < |lines| ==> NoLineBreak(lines[k])
    requires last != [] && NoLineBreak(last)
    ensures SplitLines(Terminated(lines) + last) == lines + [last]
  {
    if lines == [] {
      assert Terminated(lines) + last == last;
      SplitSingle(last);
    } else {
      var l := lines[0];
      assert Terminated(lines) + last == l + "\n" + (Terminated(lines[1..]) + last);
      SplitAfterNewline(l, Terminated(lines[1..]) + last);
      SplitUnterminated(lines[1..], last);
      assert lines == [l] + lines[1..];
    }
  }

  /** A newline ends the line before it. */
  lemma SplitAfterNewline(l: string, rest: string)
    requires NoLineBreak(l)
    ensures SplitLines(l + "\n" + rest) == [l] + SplitLines(rest)
  {
    var s := l + "\n" + rest;
    assert FirstBreak(s, 0) == |l| by {
      assert forall k :: 0 <= k < |l| ==> s[k] == l[k];
      assert s[|l|] == '\n';
    }
    assert s[|l| + 1..] == rest;
    assert s[..|l|] == l;
  }

  /** A carriage return followed by a newline ends one line, not two. */
  lemma SplitCrLf(l: string, rest: string)
    requires NoLineBreak(l)
    ensures SplitLines(l + "\r\n" + rest) == [l] + SplitLines(rest)
  {
    var s := l + "\r\n" + rest;
    assert FirstBreak(s, 0) == |l| by {
      assert forall k :: 0 <= k < |l| ==> s[k] == l[k];
      assert s[|l|] == '\r';
    }
    assert s[|l| + 1] == '\n';
    assert s[|l| + 2..] == rest;
    assert s[..|l|] == l;
  }
}
