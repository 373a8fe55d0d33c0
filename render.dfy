/**
 * The "reports_to_string" stage of plugin.py (lines 56-78): one line per
 * report in sorted order, "<code>/<path>(<line>): <message>", the whole
 * listing stripped of surrounding whitespace and followed by a blank line,
 * then the summary "Found <n> reports.".
 */
module Render {
  import opened Wrappers
  import opened PyText
  import opened ReportPattern
  import opened Ordering

  /** `str.upper` on one ASCII letter; other characters are returned unchanged. */
  function Upper(c: char): (u: char)
    ensures 'a' <= c <= 'z' ==> 'A' <= u <= 'Z' && u as int == c as int - 32
    ensures !('a' <= c <= 'z') ==> u == c
  {
    if 'a' <= c <= 'z' then (c as int - 32) as char else c
  }

  /** `pstring_severity`, plugin.py:56-59. */
  function SeverityCode(severity: string): (code: string)
    requires |severity| > 0
    ensures code == "PF" <==> severity == "performance"
    ensures code == "PT" <==> severity == "portability"
    ensures |code| == 1 <==> severity != "performance" && severity != "portability"
  {
    if severity == "performance" then "PF"
    else if severity == "portability" then "PT"
    else [Upper(severity[0])]
  }

  /** The six known severities have six different codes. */
  lemma SeverityCodes()
    ensures SeverityCode("error") == "E" && SeverityCode("warning") == "W" && SeverityCode("style") == "S"
    ensures SeverityCode("performance") == "PF" && SeverityCode("portability") == "PT" && SeverityCode("information") == "I"
    ensures forall a, b :: 0 <= a < b < |SeverityOrder| ==> SeverityCode(SeverityOrder[a]) != SeverityCode(SeverityOrder[b])
  {
    assert SeverityCode("error") == "E";
    assert SeverityCode("warning") == "W";
    assert SeverityCode("style") == "S";
    assert SeverityCode("information") == "I";
  }

  /** The first character of a known severity's code is an upper-case letter. */
  lemma SeverityCodeStart(severity: string)
    requires severity in SeverityOrder
    ensures |SeverityCode(severity)| > 0 && 'A' <= SeverityCode(severity)[0] <= 'Z'
  {
    SeverityCodes();
  }

  /**
   * `pstring_filepath`, plugin.py:61-65: `re.match('^' + re.escape(prefix) + '(.+)', path)`;
   * on a match the group runs from just after the prefix to the first newline.
   */
  function ShortPath(prefix: string, path: string): (short: string)
    ensures |short| <= |path| && (|path| > 0 ==> |short| > 0)
    ensures NoNewline(path) ==> short == path[|path| - |short|..]
    ensures NoBreak(path) ==> NoBreak(short)
  {
    if prefix <= path && |prefix| < |path| && path[|prefix|] != '\n' then path[|prefix|..DotEnd(path, |prefix|)]
    else path
  }

  /** A path that goes on past the common prefix is shown without it. */
  lemma ShortPathDropsPrefix(prefix: string, path: string)
    requires prefix <= path && |prefix| < |path| && NoNewline(path)
    ensures prefix + ShortPath(prefix, path) == path
  {
    var n := DotEnd(path, |prefix|);
    assert n == |path|;
    assert path == path[..|prefix|] + path[|prefix|..];
  }

  /** A path that does not go on past the prefix, e.g. the prefix itself, is shown whole. */
  lemma ShortPathWhole(prefix: string, path: string)
    requires !(prefix <= path && |prefix| < |path|)
    ensures ShortPath(prefix, path) == path
  {
  }

  function Paths(rs: seq<Report>): (ps: seq<string>)
    ensures |ps| == |rs| && forall i :: 0 <= i < |rs| ==> ps[i] == rs[i].filepath
  {
    seq(|rs|, i requires 0 <= i < |rs| => rs[i].filepath)
  }

  /** The line plugin.py:70-74 formats for one report, without its newline. */
  function ReportLine(prefix: string, r: Report): string
    requires |r.severity| > 0
  {
    SeverityCode(r.severity) + "/" + ShortPath(prefix, r.filepath) + "(" + r.line + "): " + r.message
  }

  predicate KnownSeverities(rs: seq<Report>) {
    forall i :: 0 <= i < |rs| ==> rs[i].severity in SeverityOrder
  }

  /** One formatted line per report, in order. */
  function Listing(prefix: string, rs: seq<Report>): (lines: seq<string>)
    requires KnownSeverities(rs)
    ensures |lines| == |rs|
  {
    if rs == [] then []
    else Listing(prefix, rs[..|rs| - 1]) + [ReportLine(prefix, rs[|rs| - 1])]
  }

  lemma {:induction false} ListingAt(prefix: string, rs: seq<Report>, i: nat)
    requires KnownSeverities(rs) && i < |rs|
    ensures Listing(prefix, rs)[i] == ReportLine(prefix, rs[i])
  {
    if i < |rs| - 1 {
      ListingAt(prefix, rs[..|rs| - 1], i);
    }
  }

  /** The summary line of plugin.py:77, `'Found %i reports.' % n`. */
  function Summary(n: nat): string {
    "Found " + DecimalString(n) + " reports."
  }

  /**
   * The text plugin.py:67-78 builds from the kept reports, or the unknown
   * severity `sorted` raised on.  The common prefix is that of all reports' paths.
   */
  function ReportText(root: string, rs: seq<Report>): (r: Result<string, string>)
    ensures r.Failure? <==> !KnownSeverities(rs)
  {
    if rs == [] then Success(Summary(0) + "\n")
    else match SortReports(root, rs)
      case Failure(e) => Failure(e)
      case Success(sorted) =>
        SortReportsPermutes(root, rs);
        SortedKnown(root, rs);
        Success(Strip(Terminated(Listing(CommonPrefix(Paths(rs)), sorted))) + "\n\n" + Summary(|rs|) + "\n")
  }

  /** Every report in the sorted listing has a known severity. */
  lemma SortedKnown(root: string, rs: seq<Report>)
    requires SortReports(root, rs).Success?
    ensures KnownSeverities(SortReports(root, rs).value)
  {
    SortedListing(root, rs);
  }

  /** The loop of plugin.py:69-74: each report's line with its newline, appended in order. */
  method AppendLines(prefix: string, rs: seq<Report>) returns (pstring: string)
    requires KnownSeverities(rs)
    ensures pstring == Terminated(Listing(prefix, rs))
  {
    pstring := "";
    var i := 0;
    while i < |rs|
      invariant 0 <= i <= |rs|
      invariant pstring == Terminated(Listing(prefix, rs[..i]))
    {
      var line := ReportLine(prefix, rs[i]);
      ListingStep(prefix, rs, i);
      pstring := pstring + line + "\n";
      i := i + 1;
    }
    assert rs[..i] == rs;
  }

  lemma ListingStep(prefix: string, rs: seq<Report>, i: nat)
    requires KnownSeverities(rs) && i < |rs|
    ensures KnownSeverities(rs[..i]) && KnownSeverities(rs[..i + 1])
    ensures Terminated(Listing(prefix, rs[..i + 1])) == Terminated(Listing(prefix, rs[..i])) + ReportLine(prefix, rs[i]) + "\n"
  {
    ListingSnoc(prefix, rs, i);
    TerminatedAppend(Listing(prefix, rs[..i]), ReportLine(prefix, rs[i]));
  }

  lemma ListingSnoc(prefix: string, rs: seq<Report>, i: nat)
    requires KnownSeverities(rs) && i < |rs|
    ensures KnownSeverities(rs[..i]) && KnownSeverities(rs[..i + 1])
    ensures Listing(prefix, rs[..i + 1]) == Listing(prefix, rs[..i]) + [ReportLine(prefix, rs[i])]
  {
    assert rs[..i + 1][..i] == rs[..i];
  }

  /** plugin.py:67-78. */
  method ReportsToString(root: string, reports: seq<Report>) returns (result: Result<string, string>)
    ensures result == ReportText(root, reports)
  {
    var pstring := "";
    if |reports| > 0 {
      var sorted := SortReports(root, reports);
      if sorted.Failure? {
        return Failure(sorted.error);
      }
      var rs := sorted.value;
      SortedKnown(root, reports);
      pstring := AppendLines(CommonPrefix(Paths(reports)), rs);
      pstring := Strip(pstring);
      pstring := pstring + "\n\n";
    }
    pstring := pstring + Summary(|reports|);
    pstring := pstring + "\n";
    if |reports| == 0 {
      assert pstring == Summary(0) + "\n";
    }
    return Success(pstring);
  }

  /** The text is just the zero summary exactly when there are no reports. */
  lemma ReportTextEmpty(root: string, rs: seq<Report>)
    ensures ReportText(root, rs) == Success("Found 0 reports.\n") <==> rs == []
  {
    if rs == [] {
      assert DecimalString(0) == "0";
      assert Summary(0) + "\n" == "Found 0 reports.\n";
    } else if ReportText(root, rs).Success? {
      var text := ReportText(root, rs).value;
      var sorted := SortReports(root, rs).value;
      SortedKnown(root, rs);
      var head := Strip(Terminated(Listing(CommonPrefix(Paths(rs)), sorted)));
      assert text == head + "\n\n" + Summary(|rs|) + "\n";
      assert |text| >= 19;
    }
  }

  /** Rendering fails exactly when a report has an unknown severity, naming the first one. */
  lemma ReportTextFailure(root: string, rs: seq<Report>)
    requires ReportText(root, rs).Failure?
    ensures exists i :: 0 <= i < |rs| && rs[i].severity !in SeverityOrder && ReportText(root, rs).error == rs[i].severity &&
              forall h :: 0 <= h < i ==> rs[h].severity in SeverityOrder
  {
    KeyedSuccess(root, rs);
    KeyedFailure(root, rs);
  }

  /** Fields that hold no line break, as every report read from cppcheck's output has. */
  predicate SingleLine(r: Report) {
    NoBreak(r.filepath) && NoBreak(r.line) && NoBreak(r.message)
  }

  lemma NoBreakConcat(a: string, b: string)
    requires NoBreak(a) && NoBreak(b)
    ensures NoBreak(a + b)
  {
    assert forall i :: |a| <= i < |a + b| ==> (a + b)[i] == b[i - |a|];
  }

  /** A report line is one line, and it starts with the severity code's letter. */
  lemma ReportLineShape(prefix: string, r: Report)
    requires r.severity in SeverityOrder && SingleLine(r)
    ensures NoBreak(ReportLine(prefix, r))
    ensures |ReportLine(prefix, r)| > 0 && 'A' <= ReportLine(prefix, r)[0] <= 'Z'
  {
    var code := SeverityCode(r.severity);
    SeverityCodeStart(r.severity);
    assert NoBreak(code);
    var short := ShortPath(prefix, r.filepath);
    LineNoBreak(code, short, r.line, r.message);
    assert ReportLine(prefix, r) == code + "/" + short + "(" + r.line + "): " + r.message;
  }

  lemma LineNoBreak(code: string, short: string, line: string, message: string)
    requires NoBreak(code) && NoBreak(short) && NoBreak(line) && NoBreak(message)
    ensures NoBreak(code + "/" + short + "(" + line + "): " + message)
  {
    NoBreakConcat(code, "/");
    NoBreakConcat(code + "/", short);
    NoBreakConcat(code + "/" + short, "(");
    NoBreakConcat(code + "/" + short + "(", line);
    NoBreakConcat(code + "/" + short + "(" + line, "): ");
    NoBreakConcat(code + "/" + short + "(" + line + "): ", message);
  }

  lemma SummaryNoBreak(n: nat)
    ensures NoBreak(Summary(n))
  {
    var d := DecimalString(n);
    assert NoBreak(d);
    NoBreakConcat("Found ", d);
    NoBreakConcat("Found " + d, " reports.");
  }

  /** The lines of the listing are single lines that start with an upper-case letter. */
  lemma ListingShape(prefix: string, rs: seq<Report>)
    requires KnownSeverities(rs) && forall i :: 0 <= i < |rs| ==> SingleLine(rs[i])
    ensures forall i :: 0 <= i < |rs| ==> NoBreak(Listing(prefix, rs)[i])
    ensures forall i :: 0 <= i < |rs| ==> |Listing(prefix, rs)[i]| > 0 && !IsSpace(Listing(prefix, rs)[i][0])
  {
    forall i | 0 <= i < |rs|
      ensures NoBreak(Listing(prefix, rs)[i])
      ensures |Listing(prefix, rs)[i]| > 0 && !IsSpace(Listing(prefix, rs)[i][0])
    {
      ListingAt(prefix, rs, i);
      ReportLineShape(prefix, rs[i]);
    }
  }

  lemma RStripTerminated(init: seq<string>, last: string)
    requires |last| > 0 && !IsSpace(last[0])
    ensures RStrip(Terminated(init + [last])) == Terminated(init) + RStrip(last)
  {
    TerminatedAppend(init, last);
    var a := Terminated(init);
    assert Terminated(init + [last]) == a + (last + "\n");
    RStripAppend(a, last + "\n", 0);
    RStripNewline(last);
  }

  lemma TerminatedStart(lines: seq<string>, rest: string)
    requires |lines| > 0 && |lines[0]| > 0
    ensures |Terminated(lines) + rest| > 0 && (Terminated(lines) + rest)[0] == lines[0][0]
  {
    assert Terminated(lines) == lines[0] + "\n" + Terminated(lines[1..]);
  }

  /**
   * Stripping newline-terminated lines that each start with a non-space
   * character removes the final newline and the last line's trailing whitespace.
   */
  lemma StripTerminated(lines: seq<string>)
    requires |lines| > 0
    requires forall i :: 0 <= i < |lines| ==> |lines[i]| > 0 && !IsSpace(lines[i][0])
    ensures Strip(Terminated(lines)) == Terminated(lines[..|lines| - 1]) + RStrip(lines[|lines| - 1])
  {
    var init, last := lines[..|lines| - 1], lines[|lines| - 1];
    assert lines == init + [last];
    RStripTerminated(init, last);
    RStripKeeps(last, 0);
    var t := Terminated(init) + RStrip(last);
    if init != [] {
      TerminatedStart(init, RStrip(last));
      assert init[0] == lines[0];
    }
    LStripNoSpace(t);
  }

  lemma TerminatedTail(init: seq<string>, x: string, summary: string)
    ensures Terminated(init + [x, "", summary]) == Terminated(init) + x + "\n\n" + summary + "\n"
  {
    TerminatedAppend(init, x);
    TerminatedAppend(init + [x], "");
    TerminatedAppend(init + [x, ""], summary);
    assert init + [x] + [""] == init + [x, ""];
    assert init + [x, ""] + [summary] == init + [x, "", summary];
    var a := Terminated(init) + x;
    assert a + "\n" + "" + "\n" == a + "\n\n";
  }

  /** The lines of a stripped listing followed by a blank line and a summary. */
  lemma TextLines(lines: seq<string>, summary: string)
    requires |lines| > 0 && NoBreak(summary)
    requires forall i :: 0 <= i < |lines| ==> NoBreak(lines[i]) && |lines[i]| > 0 && !IsSpace(lines[i][0])
    ensures SplitLines(Strip(Terminated(lines)) + "\n\n" + summary + "\n") ==
              lines[..|lines| - 1] + [RStrip(lines[|lines| - 1]), "", summary]
  {
    var init, last := lines[..|lines| - 1], lines[|lines| - 1];
    StripTerminated(lines);
    TerminatedTail(init, RStrip(last), summary);
    var out := init + [RStrip(last), "", summary];
    assert NoBreak(RStrip(last)) by {
      assert NoBreak(last);
    }
    assert forall i :: 0 <= i < |init| ==> out[i] == lines[i];
    SplitLinesOfTerminated(out);
  }

  /** Every report in the sorted listing is a single-line report when the input ones are. */
  lemma SortedSingleLine(root: string, rs: seq<Report>)
    requires SortReports(root, rs).Success?
    requires forall i :: 0 <= i < |rs| ==> SingleLine(rs[i])
    ensures var sorted := SortReports(root, rs).value;
            forall i :: 0 <= i < |sorted| ==> SingleLine(sorted[i])
  {
    var sorted := SortReports(root, rs).value;
    SortReportsPermutes(root, rs);
    forall i | 0 <= i < |sorted|
      ensures SingleLine(sorted[i])
    {
      assert sorted[i] in multiset(rs);
    }
  }

  /**
   * The lines of the text: one per report in sorted order (the last one with
   * its trailing whitespace stripped), a blank line, and the summary.
   */
  lemma ReportTextLines(root: string, rs: seq<Report>)
    requires ReportText(root, rs).Success? && rs != []
    requires forall i :: 0 <= i < |rs| ==> SingleLine(rs[i])
    ensures SortReports(root, rs).Success? && KnownSeverities(SortReports(root, rs).value)
    ensures var lines := Listing(CommonPrefix(Paths(rs)), SortReports(root, rs).value);
            SplitLines(ReportText(root, rs).value) ==
              lines[..|lines| - 1] + [RStrip(lines[|lines| - 1]), "", Summary(|rs|)]
  {
    var sorted := SortReports(root, rs).value;
    SortedKnown(root, rs);
    SortedSingleLine(root, rs);
    var lines := Listing(CommonPrefix(Paths(rs)), sorted);
    ListingShape(CommonPrefix(Paths(rs)), sorted);
    SummaryNoBreak(|rs|);
    TextLines(lines, Summary(|rs|));
    ReportTextValue(root, rs);
    var text := ReportText(root, rs).value;
    assert SplitLines(text) == lines[..|lines| - 1] + [RStrip(lines[|lines| - 1]), "", Summary(|rs|)];
  }

  /**
   * The whole text of a non-empty report: the sorted lines, the last one with
   * its trailing whitespace stripped, a blank line and the summary, each
   * followed by "\n".
   */
  lemma ReportTextExact(root: string, rs: seq<Report>)
    requires ReportText(root, rs).Success? && rs != []
    requires forall i :: 0 <= i < |rs| ==> SingleLine(rs[i])
    ensures SortReports(root, rs).Success? && KnownSeverities(SortReports(root, rs).value)
    ensures var lines := Listing(CommonPrefix(Paths(rs)), SortReports(root, rs).value);
            ReportText(root, rs).value == Terminated(lines[..|lines| - 1] + [RStrip(lines[|lines| - 1]), "", Summary(|rs|)])
  {
    var sorted := SortReports(root, rs).value;
    SortedKnown(root, rs);
    SortedSingleLine(root, rs);
    var lines := Listing(CommonPrefix(Paths(rs)), sorted);
    ListingShape(CommonPrefix(Paths(rs)), sorted);
    StripTerminated(lines);
    TerminatedTail(lines[..|lines| - 1], RStrip(lines[|lines| - 1]), Summary(|rs|));
    ReportTextValue(root, rs);
  }

  /** Every successful text ends with `Found N reports.` and a newline, N the number of reports. */
  lemma ReportTextEnds(root: string, rs: seq<Report>)
    requires ReportText(root, rs).Success?
    ensures var text, tail := ReportText(root, rs).value, Summary(|rs|) + "\n";
            |tail| <= |text| && text[|text| - |tail|..] == tail
  {
    if rs != [] {
      SortedKnown(root, rs);
      var block := Strip(Terminated(Listing(CommonPrefix(Paths(rs)), SortReports(root, rs).value))) + "\n\n";
      ReportTextValue(root, rs);
      EndsWith(block, Summary(|rs|), "\n");
    } else {
      EndsWith("", Summary(0), "\n");
    }
  }

  lemma EndsWith(a: string, b: string, c: string)
    ensures |b + c| <= |a + b + c| && (a + b + c)[|a + b + c| - |b + c|..] == b + c
  {
    assert a + b + c == a + (b + c);
  }

  lemma ReportTextValue(root: string, rs: seq<Report>)
    requires ReportText(root, rs).Success? && rs != []
    ensures SortReports(root, rs).Success? && KnownSeverities(SortReports(root, rs).value)
    ensures ReportText(root, rs).value ==
              Strip(Terminated(Listing(CommonPrefix(Paths(rs)), SortReports(root, rs).value))) + "\n\n" + Summary(|rs|) + "\n"
  {
    SortedKnown(root, rs);
  }

  /**
   * The common prefix is taken character by character, not by directory: for
   * "d/a.c" and "d/ab.c" it is "d/a", so the lines show ".c" and "b.c".
   */
  lemma PrefixSplitsNames()
    ensures CommonPrefix(["d/a.c", "d/ab.c"]) == "d/a"
    ensures ShortPath("d/a", "d/a.c") == ".c" && ShortPath("d/a", "d/ab.c") == "b.c"
  {
    var paths := ["d/a.c", "d/ab.c"];
    assert CommonPrefix(paths) == CommonPrefix2("d/a.c", "d/ab.c");
    CommonPrefix2Longest("d/a.c", "d/ab.c", "d/a");
    NameTail("d/a.c", 3);
    NameTail("d/ab.c", 3);
  }

  /** With no newline after `p`, the shown part of `path` runs from `p` to its end. */
  lemma NameTail(path: string, p: nat)
    requires p <= |path| && NoNewline(path)
    ensures DotEnd(path, p) == |path|
  {
  }

  /** When every report is on one file, every line shows that file's whole path. */
  lemma OneFileWholePath(rs: seq<Report>, path: string)
    requires |rs| > 0 && forall i :: 0 <= i < |rs| ==> rs[i].filepath == path
    ensures forall i :: 0 <= i < |rs| ==> ShortPath(CommonPrefix(Paths(rs)), rs[i].filepath) == path
  {
    CommonPrefixOfOnePath(Paths(rs), path);
  }

  /** A path that goes on past the common prefix of all paths is shown without that prefix. */
  lemma CommonPrefixDropped(rs: seq<Report>, i: nat)
    requires i < |rs| && NoNewline(rs[i].filepath) && |CommonPrefix(Paths(rs))| < |rs[i].filepath|
    ensures CommonPrefix(Paths(rs)) + ShortPath(CommonPrefix(Paths(rs)), rs[i].filepath) == rs[i].filepath
  {
    ShortPathDropsPrefix(CommonPrefix(Paths(rs)), rs[i].filepath);
  }

  lemma EmptyText(root: string)
    ensures ReportText(root, []).Success? && SplitLines(ReportText(root, []).value) == [Summary(0)]
  {
    assert ReportText(root, []).value == Summary(0) + "\n";
    SummaryNoBreak(0);
    SplitLinesOfTerminated([Summary(0)]);
    assert Terminated([Summary(0)]) == Summary(0) + "\n";
  }

  /** The text has one line per report plus a blank line and the summary, or just the summary. */
  lemma ReportTextShape(root: string, rs: seq<Report>)
    requires ReportText(root, rs).Success?
    requires forall i :: 0 <= i < |rs| ==> SingleLine(rs[i])
    ensures var lines := SplitLines(ReportText(root, rs).value);
            |lines| == (if rs == [] then 1 else |rs| + 2) && lines[|lines| - 1] == Summary(|rs|)
  {
    if rs == [] {
      EmptyText(root);
    } else {
      NonEmptyTextShape(root, rs);
    }
  }

  lemma NonEmptyTextShape(root: string, rs: seq<Report>)
    requires ReportText(root, rs).Success? && rs != []
    requires forall i :: 0 <= i < |rs| ==> SingleLine(rs[i])
    ensures var lines := SplitLines(ReportText(root, rs).value);
            |lines| == |rs| + 2 && lines[|lines| - 1] == Summary(|rs|)
  {
    ReportTextLines(root, rs);
    var listing := Listing(CommonPrefix(Paths(rs)), SortReports(root, rs).value);
    var lines := SplitLines(ReportText(root, rs).value);
    assert lines == listing[..|listing| - 1] + [RStrip(listing[|listing| - 1]), "", Summary(|rs|)];
    assert |lines| == |listing| + 2;
  }
}
