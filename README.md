# RPM policy checker: the rule engine

This project models the checks that the RPM policy checker runs on a package.
Each checker takes text in and produces a list of findings, and each finding has a
category, a one-letter severity, a package, a tag, a detail and a recommendation.
There are five checkers:

- **Spec-file analyzer.** A failed read gives a single `spec-read-error`.
  Otherwise the file's lines go through six scans in turn:
  - a header scan, which validates every `Name:`, `Release:` and `Summary:` line,
    records which tags and section markers appear, and keeps the last `License:`
    value;
  - the presence checks, run in a fixed order;
  - the license check on the kept value;
  - the hard-coded path scan;
  - the scriptlet state machine;
  - the changelog scan, with its entry-line pattern.
- **Linter-output parser.** It applies the primary pattern and then the fallback
  pattern to each line of the linter's combined output. A failure to run the
  linter gives a single finding.
- **Binary-package rules.** These take the outcomes of the information, file-list
  and requirements queries.
- **Dispatcher.** It routes a path by its suffix. A path with neither suffix is
  routed by sniffing its first line.

Each scan is a method whose loop appends to a result list, as the source does.
Each method is proved equal to a function over the lines it has read. The lemmas
then state the rules' meaning: which line yields which finding, when, and how many.

Modules:
- `Text`: the string operations used, on ASCII. These are `strip`, `lower`,
  `splitlines`, `startswith`, `endswith`, `in`, and `split(":", 1)`.
- `Findings`: the finding record and its tags. It also provides the list
  combinators `FlatMap`, `CountIf`, `CountTag` and `Union`, with their lemmas.
- `SpecHeader`, `License`, `SpecPaths`, `SpecScriptlets` and `SpecChangelog`: the
  six scans of the spec-file analyzer.
- `SpecFile`: the analyzer itself.
- `Linter`: the linter-output parser.
- `RpmFile`: the binary-package rules.
- `Dispatcher`: the routing.

The model follows the code where it is looser than its names suggest:
- Every `Name:`, `Release:` and `Summary:` line is validated, not only the first.
- The license value is split only on the whitespace-bounded words `AND`, `OR`,
  `and` and `or`. Mixed case such as `And` does not split.
- All leading and trailing parentheses of a license part are removed, not one layer.
- A `.build-id` path is exempt only from the temporary-directory rule. A
  `/usr/local/` path is reported even when it is a `.build-id` path.
- An exception raised by the file-list or requirements query is not silent.
  It appends `rpm-not-installed` or `rpm-error` after the findings already
  collected, and the check ends there. A non-zero exit of those queries only
  skips their rule.

## Model

| member | source | states |
|---|---|---|
| Text.Strip | src/rpm_policy_checker/main.py:163 | The result is no longer than the input, and neither its first nor its last character is whitespace |
| Text.StripIsSlice | src/rpm_policy_checker/main.py:163 | The stripped text is a contiguous slice of the line, starting at the offset `StripStart` |
| Text.StripDropsOnlySpace | src/rpm_policy_checker/main.py:163 | The characters that stripping removes on either side are all whitespace |
| Text.StripFixed | src/rpm_policy_checker/main.py:163 | Text with no whitespace at either end is unchanged by stripping |
| Text.ToLower | src/rpm_policy_checker/main.py:164 | Lowering keeps the length and maps each character on its own |
| Text.LowerChangesIffUpper | src/rpm_policy_checker/main.py:169 | A value differs from its lowercase exactly when it holds an upper-case letter |
| Text.AfterFirst | src/rpm_policy_checker/main.py:470 | With no colon the value is empty; otherwise it is the text after the first colon |
| Text.SplitLines | src/rpm_policy_checker/main.py:137 | No resulting line holds a line break |
| Text.SplitTerminated | src/rpm_policy_checker/main.py:137 | Splitting lines that are each followed by a newline gives back those lines |
| Text.SplitSingle | src/rpm_policy_checker/main.py:137 | Text with no line break is one line |
| Text.SplitUnterminated | src/rpm_policy_checker/main.py:137 | Lines each followed by a newline, then a non-empty last line with no break, split into those lines followed by the last one |
| Text.SplitAfterNewline | src/rpm_policy_checker/main.py:137 | A newline ends one line: the text before it is one line, and the rest splits on its own |
| Text.SplitCrLf | src/rpm_policy_checker/main.py:137 | A carriage return followed by a newline ends one line: the text before it is one line, and the rest splits on its own |
| SpecHeader.TagAtIsLowerPrefix | src/rpm_policy_checker/main.py:164-165 | The per-character tag test holds exactly when the lowercased line starts with the tag |
| SpecHeader.FirstPassedMeaning | src/rpm_policy_checker/main.py:165-236 | In the elif chain a line takes the first tag whose test it passes; a failed test defers to the later tests |
| SpecHeader.NonePassed | src/rpm_policy_checker/main.py:165-236 | A line carries no tag or marker exactly when it passes none of the tests |
| SpecHeader.TagValueAfterTag | src/rpm_policy_checker/main.py:167 | The value of a tag line is the stripped text after the tag's own colon |
| SpecHeader.CheckValue | src/rpm_policy_checker/main.py:165-224 | The checks on one tag's value give the findings the specification function assigns to that key |
| SpecHeader.ScanHeader | src/rpm_policy_checker/main.py:162-236 | The loop yields the header findings of all lines, the set of tags present, and the kept License value |
| SpecHeader.NameShape | src/rpm_policy_checker/main.py:169-186 | For every tag, a Name value yields one uppercase finding exactly when it has an upper-case letter, one space finding exactly when it has a space, and nothing else |
| SpecHeader.ReleaseShape | src/rpm_policy_checker/main.py:189-200 | For every tag, a Release value yields one missing-dist finding exactly when it lacks `%{?dist}`, and nothing else |
| SpecHeader.SummaryShape | src/rpm_policy_checker/main.py:204-221 | For every tag, a Summary value yields one finding when it ends in `.`, one when it is longer than 80 characters, and nothing else |
| SpecHeader.KeyShape | src/rpm_policy_checker/main.py:165-221 | For every tag, a tag line yields one finding per rule its value breaks: Name for case and spaces, Release for a missing `%{?dist}`, Summary for the period and the length; other tags yield nothing |
| SpecHeader.HeaderCounts | src/rpm_policy_checker/main.py:162-221 | Each header-rule tag occurs once per line that breaks its rule; every line is checked, not only the first |
| SpecHeader.PresentIffSomeLine | src/rpm_policy_checker/main.py:165-236 | A tag or marker is recorded as present exactly when some line carries it |
| SpecHeader.LicenseLastWins | src/rpm_policy_checker/main.py:222-224 | The kept License value is the value on the last License line |
| SpecHeader.NoLicenseLine | src/rpm_policy_checker/main.py:160 | With no License line the kept value stays empty |
| SpecHeader.CheckPresence | src/rpm_policy_checker/main.py:239-313 | The presence checks give the required-field reports, then the other tests, in the source's order |
| SpecHeader.MissingRequiredIff | src/rpm_policy_checker/main.py:243-252 | `missing-<field>` is reported exactly for the required fields that are absent |
| Text.CapitalizeKeepsLetters | src/rpm_policy_checker/main.py:249 | Capitalizing changes only the case: lower-casing the result gives the lower-cased input |
| Text.CapitalizeWord | src/rpm_policy_checker/main.py:249 | A word whose later letters are not upper-case is capitalized by upper-casing its first letter alone |
| SpecHeader.FieldLabelCapitalized | src/rpm_policy_checker/main.py:249 | The name quoted in a missing-field detail is the field's name capitalized |
| SpecHeader.MissingRequiredOnlyMissing | src/rpm_policy_checker/main.py:243-252 | Every finding of the required-field loop is a `missing-<field>` report |
| SpecHeader.TriggeredIff | src/rpm_policy_checker/main.py:254-313 | A finding of the later tests is present exactly when its test fires |
| SpecHeader.RequiredMeaning | src/rpm_policy_checker/main.py:239-313 | Over all the presence checks, `missing-<field>` appears exactly when the field is one of the five required ones and is absent |
| SpecHeader.ExpectationMeaning | src/rpm_policy_checker/main.py:254-313 | Each later test reports exactly when its tag is absent, or, for BuildRoot and `%clean`, exactly when it is present |
| SpecHeader.AllRequiredMissing | src/rpm_policy_checker/main.py:239-252 | With nothing present the five required fields are reported in order: name, version, release, summary, license |
| SpecHeader.NoExpectationMet | src/rpm_policy_checker/main.py:254-313 | With nothing present the url, source, description and changelog checks report, in that order, and the two deprecation checks do not |
| SpecHeader.NothingPresent | src/rpm_policy_checker/main.py:239-313 | With nothing present the output is the five required reports in order name, version, release, summary, license, then missing url, source, description and changelog |
| License.SplitExpression | src/rpm_policy_checker/main.py:331 | A split yields at least one part |
| License.FirstSeparator | src/rpm_policy_checker/main.py:331 | It finds the leftmost separator: there is none before it, and if none is found there is none at all |
| License.PartsHaveNoSeparator | src/rpm_policy_checker/main.py:331 | No part of a split contains a separator |
| License.SplitReassembles | src/rpm_policy_checker/main.py:331 | There is one more part than separators, and putting the dropped separators back between the parts gives the value again |
| License.SplitAtKeyword | src/rpm_policy_checker/main.py:331 | `a KW b`, with KW one of AND, OR, and, or, is cut after `a`, and the split goes on in `b` |
| License.OtherWordNotSplit | src/rpm_policy_checker/main.py:331 | A whitespace-free word between single spaces that is not exactly `AND`, `OR`, `and` or `or` does not split the value, even when it begins like one (`android`, `ORACLE`); the word after it is unrestricted |
| License.KeywordFound | src/rpm_policy_checker/main.py:331 | Whenever a keyword is recognised at a position, the text there is one of the four keywords and holds no whitespace |
| License.MixedCaseNotSplit | src/rpm_policy_checker/main.py:331 | `MIT And BSD` stays one part |
| License.MitAndApache | src/rpm_policy_checker/main.py:331 | `MIT AND Apache-2.0` splits into `MIT` and `Apache-2.0` |
| License.NormalizePlain | src/rpm_policy_checker/main.py:333 | A part with no whitespace or parenthesis at either end is its own identifier |
| License.NormalizeGreedy | src/rpm_policy_checker/main.py:333 | Any run of parentheses on either side of an identifier is removed, balanced or not |
| License.SharedName | src/rpm_policy_checker/main.py:317-329 | `MIT` is the only name in both the SPDX set and the old Fedora set |
| License.OldNames | src/rpm_policy_checker/main.py:334 | An identifier is judged an old name exactly when it is an old Fedora name other than `MIT`; `MIT` is accepted |
| License.IdShape | src/rpm_policy_checker/main.py:334-351 | An identifier yields no finding when accepted, else one: a warning tagged `old-license-identifier` for an old name, an information finding tagged `unknown-license-identifier` otherwise; each names the identifier and is in the licensing category |
| License.PartShape | src/rpm_policy_checker/main.py:332-351 | A part yields one finding exactly when its stripped identifier is not accepted, counted per tag |
| License.PartCategory | src/rpm_policy_checker/main.py:334-351 | Every finding of a part is in the licensing category |
| License.SingleIdentifier | src/rpm_policy_checker/main.py:331-333 | A value that is one identifier without whitespace is looked up whole |
| License.LicenseCounts | src/rpm_policy_checker/main.py:316-351 | An empty value yields nothing; otherwise there is one finding per non-SPDX part, counted per tag |
| License.LicenseCategory | src/rpm_policy_checker/main.py:316-351 | Every license finding is in the licensing category |
| License.MitIsClean | src/rpm_policy_checker/main.py:316-351 | `MIT` yields no finding |
| License.OldGplNotSpdx | src/rpm_policy_checker/main.py:317-324 | `GPLv2` is not an SPDX identifier |
| License.OldGplIsFlagged | src/rpm_policy_checker/main.py:334-341 | `GPLv2` yields exactly one finding: an `old-license-identifier` warning naming it |
| License.CheckPart | src/rpm_policy_checker/main.py:333-351 | One part is stripped of whitespace and parentheses and looked up in both sets, giving that part's findings |
| License.CheckLicense | src/rpm_policy_checker/main.py:316-351 | The loop over the parts gives the license findings |
| SpecPaths.CheckPathLine | src/rpm_policy_checker/main.py:356-392 | The four tests on one line give the findings of the tests the line fails, in order |
| SpecPaths.ScanPaths | src/rpm_policy_checker/main.py:354-392 | The loop gives the hard-coded path findings of all numbered lines |
| SpecPaths.PathHitsIff | src/rpm_policy_checker/main.py:356-392 | A line's finding for a test is present exactly when that test flags the line |
| SpecPaths.PathHitFrom | src/rpm_policy_checker/main.py:356-392 | Every finding made on a line comes from a test that flags it |
| SpecPaths.PathHitOf | src/rpm_policy_checker/main.py:356-392 | Every test that flags a line reports it |
| SpecPaths.PathRulesDistinct | src/rpm_policy_checker/main.py:357-392 | The four tests carry distinct tags |
| SpecPaths.PathScanIff | src/rpm_policy_checker/main.py:354-392 | For tests with distinct tags, test j reports line n exactly when the stripped line n fails it |
| SpecPaths.PathFindingIff | src/rpm_policy_checker/main.py:354-392 | Each test reports line n exactly when that line fails it; the tests are independent of each other and of the other lines |
| SpecPaths.CommentNotFlagged | src/rpm_policy_checker/main.py:357-384 | A line starting with `#` is never reported |
| SpecPaths.MacroSilences | src/rpm_policy_checker/main.py:357-384 | A line holding a test's own macro is not reported by that test |
| SpecPaths.SourceExemptionIsNarrow | src/rpm_policy_checker/main.py:357-384 | On a `Source` line only the libdir and sysconfdir tests can report |
| SpecScriptlets.CheckBody | src/rpm_policy_checker/main.py:403-421 | The two checks on a line inside a scriptlet give its dangerous-rm and exit findings, in that order |
| SpecScriptlets.ScanScriptlets | src/rpm_policy_checker/main.py:395-421 | The loop keeps the in-scriptlet flag equal to the state after the lines read, and gives the scriptlet findings |
| SpecScriptlets.OpenInIff | src/rpm_policy_checker/main.py:396-402 | The flag is up exactly when a marker was read with only body lines after it |
| SpecScriptlets.OpenAfterIff | src/rpm_policy_checker/main.py:396-402 | The same, on the lines of the file |
| SpecScriptlets.CheckedInIff | src/rpm_policy_checker/main.py:396-403 | A line is checked exactly when it is a body line and a marker comes before it with only body lines between |
| SpecScriptlets.CheckedIff | src/rpm_policy_checker/main.py:396-403 | The same, on the lines of the file; a marker or section line is never checked |
| SpecScriptlets.ScriptletFindingIff | src/rpm_policy_checker/main.py:395-421 | Line n carries exactly one dangerous-rm finding when it is checked and breaks that rule, and none otherwise; likewise for the exit finding |
| SpecScriptlets.DangerousIff | src/rpm_policy_checker/main.py:395-421 | Line n carries exactly one dangerous-rm finding when it is checked and holds `rm -rf /` or `rm -rf $RPM_BUILD_ROOT`, and none otherwise |
| SpecScriptlets.ExitIff | src/rpm_policy_checker/main.py:395-421 | Line n carries exactly one exit finding when it is checked and starts with `exit`, and none otherwise |
| SpecScriptlets.ScriptletOrdered | src/rpm_policy_checker/main.py:395-421 | Every scriptlet finding is a dangerous-rm or exit finding on a line of the file, and findings under one tag have strictly increasing line numbers |
| SpecChangelog.DateEnd | src/rpm_policy_checker/main.py:432 | When the date part matches, the line starts with `*` and whitespace, then a word, whitespace, a word, whitespace, digits, whitespace and four digits, and the match ends after the year |
| SpecChangelog.DateLayoutMatches | src/rpm_policy_checker/main.py:432 | Conversely, any line laid out that way has its date part matched, ending after the year |
| SpecChangelog.EntryLineMatches | src/rpm_policy_checker/main.py:431-432 | A line of the form `* Day Mon DD YYYY Name <user@host>` followed by anything matches the whole pattern, for any words, digits, four-digit year and non-empty name and address parts |
| SpecChangelog.CanonicalEntryMatches | src/rpm_policy_checker/main.py:431-432 | The entry `* Mon Jan 01 2024 John Doe <john@example.com> - 1.0-1` matches |
| SpecChangelog.TailHasAddress | src/rpm_policy_checker/main.py:432 | The text after the year holds `<`, then `@`, then `>`, with text between |
| SpecChangelog.EntryHasAddress | src/rpm_policy_checker/main.py:432 | A matching entry line holds an address after its first character |
| SpecChangelog.ScanChangelog | src/rpm_policy_checker/main.py:424-441 | The loop keeps the in-changelog flag and gives the malformed-entry findings |
| SpecChangelog.SeenIff | src/rpm_policy_checker/main.py:425-428 | The flag is up exactly when some line so far is a `%changelog` line; once up it never drops |
| SpecChangelog.MalformedIff | src/rpm_policy_checker/main.py:424-441 | Line n is reported exactly when a `%changelog` line precedes it and it is an unstripped `*` line that fails the pattern |
| SpecChangelog.ChangelogOrdered | src/rpm_policy_checker/main.py:424-441 | All findings are malformed-entry warnings with strictly increasing line numbers within the file |
| SpecFile.CheckSpecFile | src/rpm_policy_checker/main.py:131-443 | A failed read gives its one finding; otherwise the six scans are concatenated in order |
| SpecFile.EmptyFile | src/rpm_policy_checker/main.py:131-443 | An empty file yields exactly the nine absence reports |
| Linter.FirstPrimary | src/rpm_policy_checker/main.py:88 | The lazy first group ends at the least colon at which the primary pattern matches |
| Linter.LastColonBefore | src/rpm_policy_checker/main.py:100 | The greedy fallback group ends at the last colon of the leading non-space run |
| Linter.ParseOutput | src/rpm_policy_checker/main.py:86-109 | The loop gives the output findings of the lines |
| Linter.RunLinter | src/rpm_policy_checker/main.py:78-128 | Output is parsed; a missing linter gives `rpmlint-not-installed`; any other exception gives `rpmlint-error` |
| Linter.OneFindingPerLine | src/rpm_policy_checker/main.py:86-109 | The number of findings is the number of lines that parse |
| Linter.PrimaryShape | src/rpm_policy_checker/main.py:88-97 | A primary match keeps the printed letter and the trimmed package; its tag has no whitespace; no earlier colon matches |
| Linter.NoiseDropped | src/rpm_policy_checker/main.py:98 | Blank and banner lines that the primary pattern misses are dropped |
| Linter.FallbackShape | src/rpm_policy_checker/main.py:98-108 | A fallback match has severity W, no package, and a tag that is a space-free prefix of the line ending before a colon |
| Linter.LintCategory | src/rpm_policy_checker/main.py:78-128 | Every linter finding is in the linter's category |
| Linter.TypicalLine | src/rpm_policy_checker/main.py:87-97 | `package: L: tag detail` parses back into its parts |
| RpmFile.CheckFile | src/rpm_policy_checker/main.py:489-508 | The /usr/local rule runs first; the build-id skip guards only the temporary-directory rule |
| RpmFile.ScanInfo | src/rpm_policy_checker/main.py:468-479 | The loop gives one missing-URL finding per URL line with an empty or `(none)` value |
| RpmFile.UrlMissingIff | src/rpm_policy_checker/main.py:469-471 | A line is reported exactly when it starts with `URL` and either has no colon or the text after its first colon, stripped, is empty or `(none)` |
| RpmFile.UrlCounts | src/rpm_policy_checker/main.py:468-479 | The information scan holds exactly one missing-URL finding per URL line without a value, and no other finding |
| RpmFile.ScanFiles | src/rpm_policy_checker/main.py:488-508 | The loop gives the file-placement findings of the listed paths |
| RpmFile.ScanDependencies | src/rpm_policy_checker/main.py:517-528 | The loop gives the findings of the stripped requirements |
| RpmFile.CheckAfterFiles | src/rpm_policy_checker/main.py:511-547 | The requirements query gives its rule on exit 0, nothing on another exit, and its failure on an exception |
| RpmFile.CheckAfterInfo | src/rpm_policy_checker/main.py:482-547 | The file query gives its rule on exit 0 and then the requirements; an exception ends it with its failure |
| RpmFile.CheckRpmFile | src/rpm_policy_checker/main.py:446-549 | The whole check equals the composition of the three queries' rules |
| RpmFile.QueryFailureIsAlone | src/rpm_policy_checker/main.py:455-465 | A non-zero info exit gives exactly one `rpm-query-failed` |
| RpmFile.UsrLocalAlwaysReported | src/rpm_policy_checker/main.py:489-497 | A path under `/usr/local/` is always reported, build-id or not |
| RpmFile.BuildIdNeverInTmp | src/rpm_policy_checker/main.py:498-499 | A build-id path is never reported for a temporary directory |
| RpmFile.FileFindingIff | src/rpm_policy_checker/main.py:486-508 | A path is reported under /usr/local, or under a temporary directory, exactly when it is listed and meets that rule |
| RpmFile.UsrLocalIff | src/rpm_policy_checker/main.py:487-497 | A path is reported under /usr/local exactly when it is listed and starts with `/usr/local/`, build-id link or not |
| RpmFile.TmpIff | src/rpm_policy_checker/main.py:487-507 | A path is reported under a temporary directory exactly when it is listed, is not a build-id link and starts with `/tmp/` or `/var/tmp/` |
| RpmFile.DependencyFindingIff | src/rpm_policy_checker/main.py:515-528 | A requirement is reported exactly when, stripped, it is an absolute path outside /usr and is not /bin/sh, /bin/bash or /sbin/ldconfig |
| RpmFile.FailureComesLast | src/rpm_policy_checker/main.py:530-547 | An exception on the requirements query is appended after the findings already made |
| Dispatcher.CheckOwn | src/rpm_policy_checker/main.py:556-588 | The suffix picks the analyzer; otherwise the first line does, else one `unknown-file-type` |
| Dispatcher.CheckPackage | src/rpm_policy_checker/main.py:552-590 | The route's findings, then the linter's when asked for and the suffix is known |
| Dispatcher.UnknownIff | src/rpm_policy_checker/main.py:565-588 | A path is unknown exactly when it has neither suffix and its first line is unreadable or shows no sign of a spec file; it then gets exactly one finding |
| Dispatcher.SuffixDecides | src/rpm_policy_checker/main.py:556-563 | The first line of a `.spec` or `.rpm` path does not matter |
| Dispatcher.RouteBySuffix | src/rpm_policy_checker/main.py:554-568 | A path takes the spec analysis by name exactly when it ends in `.spec`, the binary-package rules exactly when it ends in `.rpm`, and sniffing exactly when it has neither suffix and its first line looks like a spec file |
| Dispatcher.SniffedNotLinted | src/rpm_policy_checker/main.py:569-570 | A sniffed spec file gets the spec analysis and never the linter |
| Dispatcher.LinterLast | src/rpm_policy_checker/main.py:556-563 | When the linter runs, its findings come after the analyzer's and are all in the linter's category |

## Left out

- The GTK window, dialogs, result display, settings and session files, and the
  worker thread. These are user interface, file I/O and concurrency.
- Running the linter and the three `rpm` queries, with their timeouts. Each
  outcome is an input: `Query` gives the exit code and the captured text,
  `LintRun` gives only the captured text because the source ignores the linter's
  exit code, and either can instead be a missing program or another exception.
- Reading the spec file and reading the first line of an unknown path. Each is an
  input: `SpecRead` gives the text or the error message, and `FirstLine` gives the
  line or that it could not be read. Both spec analyses of a path take the same
  read outcome.
- Detail and recommendation texts. These are translated strings, so they are left
  abstract. The model keeps what the detail quotes: the line number, the
  value, the capitalized field name, or the raw text that the source passes
  through. Recommendations that quote a name are left abstract too.
- Unicode. Character classes, `lower()`, `strip()` and `splitlines()` are modelled
  on ASCII only. Whitespace is the ASCII whitespace Python recognises, and line
  breaks are `\n`, `\r`, `\r\n`, `\v`, `\f` and `\x1c` to `\x1e`.
- Order of the rule tests. The four path tests and the presence tests after the
  required fields are written as ordered tables (`PathRules`, `Expectations`)
  rather than as separate `if` statements. They keep the source's order and
  conditions.
- The linter's two regular expressions are modelled by the positions their groups
  must take. This is exact for three reasons. Every whitespace run except the last
  one in each pattern is followed by a class that cannot match whitespace (`\w`,
  `\S`). In the final `\s*(.*)` of both patterns the greedy run is taken whole,
  because `.*` matches any rest of a line. The lazy and greedy choices are stated
  as least and greatest positions.
- The changelog entry pattern is modelled the same way. Its date part is found by
  skipping runs, and the free text after the year is an existence of split points.
