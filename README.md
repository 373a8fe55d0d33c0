# cppcheck report pipeline for Sublime Text, in Dafny

The Sublime Text plugin runs `cppcheck` on the file in the active view. It
parses cppcheck's text output into diagnostic reports and writes a sorted,
shortened listing of them into a scratch view named after the file. This
project models that pipeline as `CppcheckCommand.run` performs it in
`plugin.py`, and proves what each stage promises:

- **generate_reports** (plugin.py:26-37): every output line is matched
  against `^\[(.+)\:(.+)]:\s+\((.+)\)\s+(.+)`. A matching line gives a
  report with four fields. A line that does not match is informational and
  is skipped. With `show-included-errors` off, only reports on the root
  source are kept.
- **reports_to_string** (plugin.py:41-78): the reports are sorted by the key
  (root file first, severity rank, line as text, message). Each report is
  rendered as `S/path(line): message`, where S is the severity code and the
  path has the character-wise common prefix of all report paths removed.
  The block is stripped and followed by a blank line and
  `Found N reports.`, then a final newline.
- **rname** (plugin.py:90): the view is named `basename(root) + ".cppcheck"`.

The modules follow those stages:

- `PyText` holds the Python builtins the code relies on: `str.splitlines`,
  `str.strip`, `str.isspace` (also `re`'s `\s`), the `<` order on `str`,
  `os.path.commonprefix`, POSIX `os.path.basename` and `%i`.
- `ReportPattern` matches the regular expression. It is a predicate `Valid`
  on the five positions where the pattern's parts meet, plus a matcher that
  tries the positions in the order Python's backtracking engine does. The
  matcher is proved to find the greatest valid cut in lexicographic order,
  which is the one Python reports.
- `Reports` holds the parse and filter loop.
- `Ordering` holds the sort key and Python's stable `sorted`. `sorted`
  computes every key before it compares any, so one unknown severity makes
  `list.index` raise even when there is only one report.
- `Render` holds the severity codes, path shortening and the assembly of
  the text, as a loop that appends to `pstring`.
- `Command` holds the whole run.

The two loops of the source stay imperative. `Reports.GenerateReports`
(plugin.py:27) and `Render.AppendLines` (plugin.py:69) are methods with loop
invariants, each proved equal to a specification function.
`Render.ReportsToString` is the straight-line assembly of plugin.py:67-78
around the second loop, and it too is proved equal to a function. The
properties are lemmas about those functions. Where an exception would be
raised, the model returns `Failure`. The only exception the pipeline can raise on
cppcheck's output is `list.index` on an unknown severity, so the failure
carries that severity.

Some behaviours of the code are easy to miss, and the model follows the
code in each of them:

- The code has a single root source, not a list of targets.
- Line numbers are compared as strings, so `"10"` sorts before `"9"`
  (`Ordering.LineComparedAsText`).
- The common prefix is character-wise, not directory-wise, so it can end
  inside a file name (`Render.PrefixSplitsNames`).
- `str.strip` removes whitespace at both ends of the block, not only at the
  end. Leading whitespace is never present, because every line starts with
  an upper-case severity code.
- Reports are not deduplicated.
- The `rstrip` part reaches only into the last report line, because that
  line starts with its severity code, a non-space character.

## Model

| member | source | states |
|---|---|---|
| PyText.SplitLines | plugin.py:27 | no line of `splitlines()` contains any of Python's line-boundary characters |
| PyText.SplitLinesOfTerminated | plugin.py:27 | splitting lines that are each followed by "\n" gives back exactly those lines |
| PyText.SplitLinesOfJoined | plugin.py:27 | lines joined by any of Python's terminators ("\r\n" or one line-break character), plus a last line with or without a terminator, split back into exactly those lines, provided a lone "\r" is not followed by "\n" |
| PyText.SplitLinesStep | plugin.py:27 | one line and its terminator become the first line of `splitlines()`, and the rest is split on its own |
| PyText.TerminatedAppend | plugin.py:70 | adding one more line to the accumulated text appends that line and its newline |
| PyText.FirstBreak | plugin.py:27 | the position of the first line boundary: nothing before it is a boundary |
| PyText.RStrip | plugin.py:75 | the right strip is a prefix of its input, ends in a non-space, and drops only whitespace |
| PyText.LStrip | plugin.py:75 | the left strip is a suffix of its input, starts with a non-space, and drops only whitespace |
| PyText.RStripUnique | plugin.py:75 | any prefix with those three properties is the right strip |
| PyText.RStripAppend | plugin.py:75 | stripping text whose tail holds a non-space strips only that tail |
| PyText.RStripNewline | plugin.py:75 | a trailing newline never survives the strip |
| PyText.LStripNoSpace | plugin.py:75 | text that starts with a non-space loses nothing on the left |
| PyText.StrLessIrreflexive | plugin.py:53-54 | no string is less than itself |
| PyText.StrLessTransitive | plugin.py:53-54 | string order is transitive |
| PyText.StrLessTrichotomy | plugin.py:53-54 | any two strings are equal or ordered one way |
| PyText.StrLessAsymmetric | plugin.py:53-54 | string order is asymmetric |
| PyText.CommonPrefix2 | plugin.py:62 | a prefix of both strings that cannot be extended by one more common character |
| PyText.CommonPrefix | plugin.py:62 | `os.path.commonprefix` is a prefix of every path |
| PyText.CommonPrefix2Longest | plugin.py:62 | every common prefix of two strings is a prefix of theirs |
| PyText.CommonPrefixLongest | plugin.py:62 | every common prefix of all paths is a prefix of `os.path.commonprefix`, so it is the longest |
| PyText.CommonPrefixOfOnePath | plugin.py:62 | when all paths are one path, the common prefix is that whole path |
| PyText.Basename | plugin.py:90 | the base name is the suffix after the last '/', and contains no '/' |
| PyText.DecimalString | plugin.py:77 | `%i` gives a non-empty run of digits with no leading zero |
| PyText.DecimalStringValue | plugin.py:77 | the digits written by `%i` read back as the number |
| ReportPattern.LastSome | plugin.py:28 | the last position in a range where a search succeeds, and none after it succeeds |
| ReportPattern.MatchM | plugin.py:28 | `\s+(.+)`: the greatest valid end of the spaces before group 4, or none exists |
| ReportPattern.MatchL | plugin.py:28 | `(.+)\)`: the greatest valid tail from group 3 on, or none exists |
| ReportPattern.MatchK | plugin.py:28 | `\s+\(`: the greatest valid tail from the spaces after "]:" on, or none exists |
| ReportPattern.MatchJ | plugin.py:28 | `(.+)]:`: the greatest valid tail once group 1 is fixed, or none exists |
| ReportPattern.StepICorrect | plugin.py:28 | every valid cut is found by the search over group 1's end |
| ReportPattern.MatchCut | plugin.py:28 | the match Python's backtracking reports: the greatest valid cut, or no cut is valid |
| ReportPattern.DotEnd | plugin.py:28 | group 4's `.+` runs to the first newline or the end of the line |
| ReportPattern.ParseLine | plugin.py:28-29 | a line gives a report exactly when the pattern matches it, and the report holds the groups of the greatest cut |
| ReportPattern.GroupsNonEmpty | plugin.py:33-37 | every field of a match is non-empty and holds no newline |
| ReportPattern.ParseLineShape | plugin.py:28-37 | a matching line is "[" path ":" line "]:" spaces "(" severity ")" spaces message, up to a newline |
| ReportPattern.ParseLineNoBreak | plugin.py:33-37 | fields read from a line of `splitlines()` hold no line boundary |
| ReportPattern.GroupsShaped | plugin.py:28 | the groups of a valid cut and the matched separators make up the line |
| ReportPattern.GroupsNoBreak | plugin.py:33-37 | the groups of a line without boundaries hold none |
| ReportPattern.GreatestUnique | plugin.py:28 | at most one cut is the one backtracking reports |
| ReportPattern.FormatCutValid | plugin.py:28 | a report printed in cppcheck's format matches the pattern along its own field boundaries |
| ReportPattern.FormatCutGreatest | plugin.py:28 | for an unambiguous report, no other valid cut is greater than its own field boundaries |
| ReportPattern.FormatCutGroups | plugin.py:33-37 | the groups along a printed report's own boundaries are its fields |
| ReportPattern.ParseFormat | plugin.py:28-37 | round trip: parsing a printed unambiguous report gives the same report |
| ReportPattern.ParseExample | plugin.py:28-37 | `[/src/a.cpp:42]: (error) null pointer` gives path `/src/a.cpp`, line `42`, severity `error`, message `null pointer` |
| Reports.GenerateReports | plugin.py:26-37 | the loop returns the parsed reports of all lines that pass the root filter, in line order |
| Reports.ParsedStep | plugin.py:27-37 | one more line adds its report, if it matches |
| Reports.ParsedAppend | plugin.py:27-37 | the reports of two chunks of output are those of each chunk, in order |
| Reports.ParsedMembers | plugin.py:27-29 | a report is parsed exactly when some line matches and gives it |
| Reports.ParsedEmpty | plugin.py:27-29 | no report is parsed exactly when no line matches |
| Reports.KeptSnoc | plugin.py:30-33 | one more report is appended exactly when it passes the filter |
| Reports.KeptAppend | plugin.py:30-33 | the filter works report by report |
| Reports.KeptAll | plugin.py:30-33 | with `show-included-errors` on, every parsed report is kept, in order |
| Reports.KeptMembers | plugin.py:30-32 | a report is kept exactly when it was parsed and, with the setting off, is on the root source |
| Reports.KeptOnlyRoot | plugin.py:30-32 | with `show-included-errors` off, every kept report is on the root source |
| Reports.ParsedOutputFields | plugin.py:28-37 | every kept report has four non-empty fields without line boundaries |
| Reports.ParseFormatted | plugin.py:27-37 | output made of printed unambiguous reports is read back as the same reports, in order |
| Reports.SomesAll | plugin.py:29 | when every line matches, the reports are the matches |
| Reports.SomesAppend | plugin.py:29 | skipped lines are dropped chunk by chunk |
| Reports.SomesMembers | plugin.py:29 | a value is kept exactly when some entry carries it |
| Reports.SomesEmpty | plugin.py:29 | nothing is kept exactly when no entry carries a value |
| Ordering.IndexOf | plugin.py:47 | `list.index`: the first position holding the value, or none exactly when the value is absent |
| Ordering.KeyOf | plugin.py:49-54 | the key exists exactly when the severity is known, and holds the file rank, severity rank, line and message |
| Ordering.KeyLessIrreflexive | plugin.py:50-54 | no key is less than itself |
| Ordering.KeyLessTransitive | plugin.py:50-54 | tuple order on keys is transitive |
| Ordering.KeyLessAsymmetric | plugin.py:50-54 | tuple order on keys is asymmetric |
| Ordering.KeyLessTotal | plugin.py:50-54 | any two keys are equal or ordered one way |
| Ordering.LineComparedAsText | plugin.py:53 | line "10" sorts before line "9" |
| Ordering.Keyed | plugin.py:69 | when every key exists, there is one entry per report |
| Ordering.KeyedSuccess | plugin.py:69 | the keys exist exactly when every severity is known, and each entry pairs a report with its key |
| Ordering.KeyedFailure | plugin.py:46-47 | a failure names the first report's unknown severity, and every earlier severity is known |
| Ordering.Insert | plugin.py:69 | inserting adds one entry |
| Ordering.Sort | plugin.py:69 | sorting keeps the number of entries |
| Ordering.InsertMultiset | plugin.py:69 | inserting adds exactly the entry |
| Ordering.InsertSorted | plugin.py:69 | inserting into a sorted list keeps it sorted |
| Ordering.InsertWithKey | plugin.py:69 | an inserted entry goes after every entry with an equal key |
| Ordering.WithKeySnoc | plugin.py:69 | the entries with one key, after one more entry is appended |
| Ordering.SortPermutes | plugin.py:69 | sorting is a permutation |
| Ordering.SortSorted | plugin.py:69 | the result is sorted by key |
| Ordering.SortStable | plugin.py:69 | entries with equal keys keep their input order |
| Ordering.SortReports | plugin.py:69 | `sorted` succeeds exactly when every severity is known, and keeps the number of reports |
| Ordering.SortReportsPermutes | plugin.py:69 | the sorted reports are a permutation of the input reports |
| Ordering.ReportsAppend | plugin.py:69 | taking the reports distributes over concatenation |
| Ordering.ReportsRemove | plugin.py:69 | removing one entry removes its report |
| Ordering.MultisetRemove | plugin.py:69 | two permutations stay permutations when one shared entry is removed |
| Ordering.ReportsMultiset | plugin.py:69 | permuted entries carry permuted reports |
| Ordering.SortedListing | plugin.py:49-54 | every sorted report has a key, and no report's key is less than an earlier one's |
| Ordering.SortedCarriesKeys | plugin.py:69 | each sorted entry still carries its report's own key |
| Ordering.SortReportsRootFirst | plugin.py:41-43 | in sorted order, every report on the root source comes before every other report |
| Ordering.WithKeyReports | plugin.py:69 | the entries with one key carry exactly the reports with that key, in the same order |
| Ordering.SortReportsStable | plugin.py:69 | reports with equal keys keep their relative input order in the sorted listing |
| Render.SeverityCode | plugin.py:56-59 | "PF" exactly for performance, "PT" exactly for portability, one character otherwise |
| Render.SeverityCodes | plugin.py:56-59 | error, warning, style, performance, portability and information give E, W, S, PF, PT and I, all distinct |
| Render.SeverityCodeStart | plugin.py:59 | a known severity's code starts with an upper-case letter |
| Render.ShortPath | plugin.py:61-65 | the rendered path is never longer than the path, and is a suffix of it |
| Render.ShortPathDropsPrefix | plugin.py:63-65 | when the path goes on past the prefix, exactly the prefix is removed |
| Render.ShortPathWhole | plugin.py:63-64 | when nothing would remain after the prefix, the path is rendered unchanged |
| Render.Listing | plugin.py:69-74 | one rendered line per report |
| Render.ListingAt | plugin.py:70-74 | the i-th line is the i-th sorted report as `S/path(line): message` |
| Render.ListingStep | plugin.py:69-74 | one more report appends its line and a newline to `pstring` |
| Render.ListingSnoc | plugin.py:69-74 | one more report appends its line to the listing |
| Render.AppendLines | plugin.py:69-74 | the loop leaves `pstring` holding each report's line followed by "\n", in order |
| Render.ReportText | plugin.py:67-78 | the text fails exactly when some severity is unknown |
| Render.ReportsToString | plugin.py:67-78 | the method computes the text of the report, or the failure |
| Render.SortedKnown | plugin.py:69 | every sorted report has a known severity |
| Render.ReportTextEmpty | plugin.py:67-78 | the text is exactly "Found 0 reports.\n" when there are no reports, and only then |
| Render.ReportTextFailure | plugin.py:46-47 | a failure names the first unknown severity among the reports |
| Render.NoBreakConcat | plugin.py:70 | joining text without line boundaries creates none |
| Render.ReportLineShape | plugin.py:70-74 | a report line holds no line boundary and starts with an upper-case letter |
| Render.LineNoBreak | plugin.py:70 | the `%s/%s(%s): %s` line of boundary-free parts holds no boundary |
| Render.SummaryNoBreak | plugin.py:77 | the count line holds no line boundary |
| Render.ListingShape | plugin.py:69-74 | every rendered line is free of boundaries and starts with a non-space |
| Render.RStripTerminated | plugin.py:75 | the right strip of the accumulated lines reaches only the last line |
| Render.TerminatedStart | plugin.py:75 | the accumulated text starts with the first line's first character |
| Render.StripTerminated | plugin.py:75 | `strip` of the block removes the final newline and the last line's trailing whitespace, and nothing else |
| Render.TerminatedTail | plugin.py:75-78 | the block, the blank line and the count line, each followed by its newline |
| Render.TextLines | plugin.py:75-78 | the lines of the text are the report lines, with the last one right-stripped, then "" and the count line |
| Render.SortedSingleLine | plugin.py:69 | sorting keeps reports free of line boundaries |
| Render.ReportTextLines | plugin.py:67-78 | the lines of a non-empty report's text are the sorted report lines, a blank line and `Found N reports.` |
| Render.ReportTextExact | plugin.py:67-78 | the whole text of a non-empty report: the sorted lines (the last one right-stripped), a blank line and the count line, each followed by "\n" |
| Render.ReportTextEnds | plugin.py:77-78 | every successful text ends with `Found N reports.` and a newline, N the number of reports |
| Render.PrefixSplitsNames | plugin.py:62-65 | for "d/a.c" and "d/ab.c" the common prefix is "d/a" and the paths render as ".c" and "b.c" |
| Render.OneFileWholePath | plugin.py:61-65 | when all reports are on one file, every line shows that file's whole path |
| Render.CommonPrefixDropped | plugin.py:61-65 | a path longer than the common prefix is rendered without exactly that prefix |
| Render.EmptyText | plugin.py:77-78 | with no reports the text is the count line alone |
| Render.ReportTextShape | plugin.py:67-78 | the text has N + 2 lines for N > 0 reports and 1 line for none, and the last is `Found N reports.` |
| Render.NonEmptyTextShape | plugin.py:67-78 | with N > 0 reports the text has N report lines, a blank line and the count line |
| Command.ViewName | plugin.py:90 | the view name is the root's base name followed by ".cppcheck": the part of the root after its last '/', or the whole root when it has none |
| Command.Run | plugin.py:26-90 | the run produces the named view with the rendered text of the kept reports, or the failure |
| Command.NoDiagnostics | plugin.py:27-78 | output with no diagnostic line gives exactly "Found 0 reports.\n" |
| Command.FailsOnUnknownSeverity | plugin.py:46-47 | the run fails exactly when a kept report has a severity outside the six known ones |
| Command.SuccessfulText | plugin.py:67-78 | a successful run has N + 2 lines for N > 0 kept reports, and ends with `Found N reports.` where N is the number kept |
| Command.KeptSingleLine | plugin.py:27-37 | every kept report is free of line boundaries |
| Command.RootOnlyShowsWholePath | plugin.py:30-65 | with `show-included-errors` off, every line shows the root source's whole path |
| Command.IncludedKeepsAll | plugin.py:30-33 | with `show-included-errors` on, every diagnostic line of the output is reported |

## Left out

- Running cppcheck and loading the settings (plugin.py:19-22) are process I/O and host configuration. The captured output, the root source's file name and the `show-included-errors` setting are parameters of `Command.Run`.
- The default of `show-included-errors` (true when the setting is missing) belongs to settings loading. The model takes the resulting boolean.
- `RewriteCommand` and the view calls (plugin.py:7-12, plugin.py:91-95) are editor side effects: erasing and inserting text, the read-only and scratch flags, the syntax file and focus. The model returns the view's name and text.
- `get_or_create_view` (plugin.py:82-88) looks up editor-owned view objects and is not part of this model.
- Printing the exception (plugin.py:97-98) is console output. The model returns `Failure`, carrying the unknown severity that made `list.index` raise.
- The Python regex engine is not modelled. The pattern is a predicate on the positions where its parts meet, and the matcher is proved against Python's backtracking preference.
- A view with no file name gives a root source of `None`. The command list at plugin.py:21 then contains `None`, and the cppcheck call at plugin.py:22 raises before any output is captured or parsed. The model takes the root as a string.
- `os.path.basename` is modelled in its POSIX form ('/' separates). The Windows form, which also splits at '\\' and after a drive letter's ':', is left out.
- Render.Upper: changes only the ASCII letters a-z. Python's full Unicode `str.upper` is not modelled. This does not matter here, because only the six known lower-case severities ever reach it.
- Render.SeverityCode: requires a non-empty severity, where Python's `[0]` would raise on "". The severity comes from a `(.+)` group, so it is never empty.
- Render.ShortPath: its suffix guarantee is stated for paths without a newline. Report paths never contain one, because they come from lines of `splitlines()`. The `.+` of plugin.py:63, which stops at a newline, is still modelled.
- ReportPattern.ParseFormat: the round trip is proved for unambiguous reports. These have a decimal line, a lower-case severity, and a message that starts with a non-space and contains neither "]:" nor ')' followed by whitespace. With other fields the greedy groups can split a printed line differently, which is the behaviour `ReportPattern.ParseLine` models.
