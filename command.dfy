/**
 * `CppcheckCommand.run`, plugin.py:15-98, from cppcheck's captured output to
 * the text of the result view.  The active file's name, the settings and the
 * captured output are parameters; the view itself is a name and a text.
 */
module Command {
  import opened Wrappers
  import opened PyText
  import opened ReportPattern
  import opened Reports
  import opened Ordering
  import opened Render

  /** What the plugin writes into its result view: the view's name and its whole text. */
  datatype ReportView = ReportView(name: string, text: string)

  /**
   * The view name of plugin.py:90: the root's base name with ".cppcheck" appended.
   * The base is the part of the root after its last '/', or the whole root.
   */
  function ViewName(root: string): (name: string)
    ensures |name| >= 9 && name[|name| - 9..] == ".cppcheck"
    ensures var base := name[..|name| - 9]; |base| <= |root| && base == root[|root| - |base|..]
    ensures forall i :: 0 <= i < |name| ==> name[i] != '/'
    ensures var base := name[..|name| - 9]; |base| < |root| ==> root[|root| - |base| - 1] == '/'
  {
    var base := Basename(root);
    assert (base + ".cppcheck")[..|base|] == base;
    base + ".cppcheck"
  }

  /** The reports plugin.py:26-37 keeps from `output`. */
  function KeptReports(output: string, root: string, showIncluded: bool): seq<Report> {
    Kept(Parsed(SplitLines(output)), root, showIncluded)
  }

  /**
   * The whole command: the view it fills, or the exception it prints, which
   * here is always `list.index` failing on an unknown severity.
   */
  function Outcome(output: string, root: string, showIncluded: bool): Result<ReportView, string> {
    match ReportText(root, KeptReports(output, root, showIncluded))
    case Failure(e) => Failure(e)
    case Success(text) => Success(ReportView(ViewName(root), text))
  }

  /** plugin.py:24-92: generate the reports, render them, and name the view. */
  method Run(output: string, root: string, showIncluded: bool) returns (result: Result<ReportView, string>)
    ensures result == Outcome(output, root, showIncluded)
  {
    var reports := GenerateReports(output, root, showIncluded);
    var pstring := ReportsToString(root, reports);
    if pstring.Failure? {
      return Failure(pstring.error);
    }
    var rname := Basename(root) + ".cppcheck";
    return Success(ReportView(rname, pstring.value));
  }

  /** Output without a single diagnostic line gives the empty listing. */
  lemma NoDiagnostics(output: string, root: string, showIncluded: bool)
    requires forall k :: 0 <= k < |SplitLines(output)| ==> ParseLine(SplitLines(output)[k]).None?
    ensures Outcome(output, root, showIncluded) == Success(ReportView(ViewName(root), "Found 0 reports.\n"))
  {
    ParsedEmpty(SplitLines(output));
    ReportTextEmpty(root, []);
  }

  /** The command fails exactly when a kept report has a severity outside the known six. */
  lemma FailsOnUnknownSeverity(output: string, root: string, showIncluded: bool)
    ensures Outcome(output, root, showIncluded).Failure? <==>
              exists r :: r in KeptReports(output, root, showIncluded) && r.severity !in SeverityOrder
  {
    var kept := KeptReports(output, root, showIncluded);
    if exists r :: r in kept && r.severity !in SeverityOrder {
      var r :| r in kept && r.severity !in SeverityOrder;
      var i :| 0 <= i < |kept| && kept[i] == r;
    }
  }

  /**
   * A successful run's text: one line per kept report in sorted order, a
   * blank line, and the count of kept reports.
   */
  lemma SuccessfulText(output: string, root: string, showIncluded: bool)
    requires Outcome(output, root, showIncluded).Success?
    ensures var kept := KeptReports(output, root, showIncluded);
            var lines := SplitLines(Outcome(output, root, showIncluded).value.text);
            && |lines| == (if kept == [] then 1 else |kept| + 2)
            && lines[|lines| - 1] == Summary(|kept|)
            && DecimalValue(DecimalString(|kept|)) == |kept|
  {
    var kept := KeptReports(output, root, showIncluded);
    var text := ReportText(root, kept).value;
    assert Outcome(output, root, showIncluded) == Success(ReportView(ViewName(root), text));
    DecimalStringValue(|kept|);
    KeptSingleLine(output, root, showIncluded);
    ReportTextShape(root, kept);
  }

  lemma KeptSingleLine(output: string, root: string, showIncluded: bool)
    ensures var kept := KeptReports(output, root, showIncluded);
            forall i :: 0 <= i < |kept| ==> SingleLine(kept[i])
  {
    var kept := KeptReports(output, root, showIncluded);
    ParsedOutputFields(output, root, showIncluded);
    forall i | 0 <= i < |kept|
      ensures SingleLine(kept[i])
    {
      assert kept[i] in kept;
    }
  }

  /**
   * With `show-included-errors` off, every line names the root source by its
   * whole path: all kept reports share it, so it is their common prefix.
   */
  lemma RootOnlyShowsWholePath(output: string, root: string)
    requires |KeptReports(output, root, false)| > 0
    ensures var kept := KeptReports(output, root, false);
            forall i :: 0 <= i < |kept| ==> ShortPath(CommonPrefix(Paths(kept)), kept[i].filepath) == root
  {
    var kept := KeptReports(output, root, false);
    KeptOnlyRoot(Parsed(SplitLines(output)), root);
    OneFileWholePath(kept, root);
  }

  /** With `show-included-errors` on, every diagnostic line of the output is reported. */
  lemma IncludedKeepsAll(output: string, root: string)
    ensures KeptReports(output, root, true) == Parsed(SplitLines(output))
  {
    KeptAll(Parsed(SplitLines(output)), root);
  }
}
