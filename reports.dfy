/**
 * The "generate_reports" stage of plugin.py (lines 26-37): every line of
 * cppcheck's output that matches the diagnostic pattern becomes a report;
 * with `show-included-errors` off, only reports on the root source are kept.
 */
module Reports {
  import opened Wrappers
  import opened PyText
  import opened ReportPattern

  /** The values of the `Some` entries, in order. */
  function Somes<T>(ms: seq<Option<T>>): seq<T> {
    if ms == [] then []
    else Somes(ms[..|ms| - 1]) + (if ms[|ms| - 1].Some? then [ms[|ms| - 1].value] else [])
  }

  /** `re.match` of the diagnostic pattern against every line. */
  function Matches(lines: seq<string>): (ms: seq<Option<Report>>)
    ensures |ms| == |lines|
    ensures forall k :: 0 <= k < |lines| ==> ms[k] == ParseLine(lines[k])
  {
    seq(|lines|, k requires 0 <= k < |lines| => ParseLine(lines[k]))
  }

  /** The reports of all matching lines, in the order of the lines. */
  function Parsed(lines: seq<string>): seq<Report> {
    Somes(Matches(lines))
  }

  /** The root filter of plugin.py:30-32. */
  predicate Keep(root: string, showIncluded: bool, r: Report) {
    showIncluded || r.filepath == root
  }

  /** The reports that pass the root filter, in their order. */
  function Kept(rs: seq<Report>, root: string, showIncluded: bool): seq<Report> {
    if rs == [] then []
    else Kept(rs[..|rs| - 1], root, showIncluded) + (if Keep(root, showIncluded, rs[|rs| - 1]) then [rs[|rs| - 1]] else [])
  }

  /**
   * The loop of plugin.py:26-37 over `output.splitlines()`: parse each line,
   * skip informational lines, skip non-root reports when `showIncluded` is off.
   */
  method GenerateReports(output: string, root: string, showIncluded: bool) returns (reports: seq<Report>)
    ensures reports == Kept(Parsed(SplitLines(output)), root, showIncluded)
  {
    var lines := SplitLines(output);
    reports := [];
    var i := 0;
    while i < |lines|
      invariant 0 <= i <= |lines|
      invariant reports == Kept(Parsed(lines[..i]), root, showIncluded)
    {
      var rmatch := ParseLine(lines[i]);
      ParsedStep(lines, i);
      if rmatch.Some? {
        KeptSnoc(Parsed(lines[..i]), rmatch.value, root, showIncluded);
        if showIncluded || rmatch.value.filepath == root {
          reports := reports + [rmatch.value];
        }
      } else {
        assert Parsed(lines[..i + 1]) == Parsed(lines[..i]);
      }
      i := i + 1;
    }
    assert lines[..|lines|] == lines;
  }

  lemma {:induction false} SomesAppend<T>(a: seq<Option<T>>, b: seq<Option<T>>)
    ensures Somes(a + b) == Somes(a) + Somes(b)
  {
    if b == [] {
      assert a + b == a;
    } else {
      assert (a + b)[..|a + b| - 1] == a + b[..|b| - 1];
      SomesAppend(a, b[..|b| - 1]);
    }
  }

  lemma {:induction false} SomesMembers<T>(ms: seq<Option<T>>, v: T)
    ensures v in Somes(ms) <==> exists k :: 0 <= k < |ms| && ms[k] == Some(v)
  {
    if ms != [] {
      var init := ms[..|ms| - 1];
      SomesMembers(init, v);
      assert forall k :: 0 <= k < |init| ==> init[k] == ms[k];
    }
  }

  lemma {:induction false} SomesEmpty<T>(ms: seq<Option<T>>)
    ensures Somes(ms) == [] <==> forall k :: 0 <= k < |ms| ==> ms[k].None?
  {
    if ms != [] {
      var init := ms[..|ms| - 1];
      SomesEmpty(init);
      assert forall k :: 0 <= k < |init| ==> init[k] == ms[k];
    }
  }

  /** One more line adds its report, if it matches. */
  lemma ParsedStep(lines: seq<string>, i: nat)
    requires i < |lines|
    ensures Parsed(lines[..i + 1]) == Parsed(lines[..i]) + (if ParseLine(lines[i]).Some? then [ParseLine(lines[i]).value] else [])
  {
    assert Matches(lines[..i + 1]) == Matches(lines[..i]) + [ParseLine(lines[i])];
  }

  /** Parsing is line by line: the reports of two chunks of lines are those of each, in order. */
  lemma ParsedAppend(a: seq<string>, b: seq<string>)
    ensures Parsed(a + b) == Parsed(a) + Parsed(b)
  {
    assert forall k :: 0 <= k < |a| ==> (a + b)[k] == a[k];
    assert forall k :: |a| <= k < |a + b| ==> (a + b)[k] == b[k - |a|];
    assert Matches(a + b) == Matches(a) + Matches(b);
    SomesAppend(Matches(a), Matches(b));
  }

  /** A report comes from some matching line, and every matching line gives its report. */
  lemma ParsedMembers(lines: seq<string>, r: Report)
    ensures r in Parsed(lines) <==> exists k :: 0 <= k < |lines| && ParseLine(lines[k]) == Some(r)
  {
    SomesMembers(Matches(lines), r);
  }

  /** Output with no matching line gives no report, and only such output does. */
  lemma ParsedEmpty(lines: seq<string>)
    ensures Parsed(lines) == [] <==> forall k :: 0 <= k < |lines| ==> ParseLine(lines[k]).None?
  {
    SomesEmpty(Matches(lines));
  }

  lemma KeptSnoc(rs: seq<Report>, r: Report, root: string, showIncluded: bool)
    ensures Kept(rs + [r], root, showIncluded) == Kept(rs, root, showIncluded) + (if Keep(root, showIncluded, r) then [r] else [])
  {
    assert (rs + [r])[..|rs|] == rs;
  }

  lemma {:induction false} KeptAppend(a: seq<Report>, b: seq<Report>, root: string, showIncluded: bool)
    ensures Kept(a + b, root, showIncluded) == Kept(a, root, showIncluded) + Kept(b, root, showIncluded)
  {
    if b == [] {
      assert a + b == a;
    } else {
      assert (a + b)[..|a + b| - 1] == a + b[..|b| - 1];
      KeptAppend(a, b[..|b| - 1], root, showIncluded);
    }
  }

  /** With `show-included-errors` on, every matching line is kept, in input order. */
  lemma {:induction false} KeptAll(rs: seq<Report>, root: string)
    ensures Kept(rs, root, true) == rs
  {
    if rs != [] {
      KeptAll(rs[..|rs| - 1], root);
    }
  }

  /** A report is kept exactly when it was parsed and passes the root filter. */
  lemma {:induction false} KeptMembers(rs: seq<Report>, root: string, showIncluded: bool, r: Report)
    ensures r in Kept(rs, root, showIncluded) <==> r in rs && Keep(root, showIncluded, r)
  {
    if rs != [] {
      var init := rs[..|rs| - 1];
      KeptMembers(init, root, showIncluded, r);
      assert rs == init + [rs[|rs| - 1]];
    }
  }

  /** With `show-included-errors` off, every kept report is on the root source. */
  lemma KeptOnlyRoot(rs: seq<Report>, root: string)
    ensures forall k :: 0 <= k < |Kept(rs, root, false)| ==> Kept(rs, root, false)[k].filepath == root
  {
    forall k | 0 <= k < |Kept(rs, root, false)|
      ensures Kept(rs, root, false)[k].filepath == root
    {
      KeptMembers(rs, root, false, Kept(rs, root, false)[k]);
    }
  }

  /** The fields of every report read from cppcheck's output are non-empty and hold no line break. */
  lemma ParsedOutputFields(output: string, root: string, showIncluded: bool)
    ensures forall r :: r in Kept(Parsed(SplitLines(output)), root, showIncluded) ==>
      && |r.filepath| > 0 && |r.line| > 0 && |r.severity| > 0 && |r.message| > 0
      && NoBreak(r.filepath) && NoBreak(r.line) && NoBreak(r.severity) && NoBreak(r.message)
  {
    var lines := SplitLines(output);
    forall r | r in Kept(Parsed(lines), root, showIncluded)
      ensures |r.filepath| > 0 && |r.line| > 0 && |r.severity| > 0 && |r.message| > 0
      ensures NoBreak(r.filepath) && NoBreak(r.line) && NoBreak(r.severity) && NoBreak(r.message)
    {
      KeptMembers(Parsed(lines), root, showIncluded, r);
      ParsedMembers(lines, r);
      var k :| 0 <= k < |lines| && ParseLine(lines[k]) == Some(r);
      ParseLineShape(lines[k]);
      ParseLineNoBreak(lines[k]);
    }
  }

  lemma {:induction false} SomesAll<T>(ms: seq<Option<T>>, vs: seq<T>)
    requires |ms| == |vs| && forall k :: 0 <= k < |ms| ==> ms[k] == Some(vs[k])
    ensures Somes(ms) == vs
  {
    if ms != [] {
      SomesAll(ms[..|ms| - 1], vs[..|vs| - 1]);
      assert vs == vs[..|vs| - 1] + [vs[|vs| - 1]];
    }
  }

  /** Each report as cppcheck prints it, one line per report. */
  function FormatAll(rs: seq<Report>): (lines: seq<string>)
    ensures |lines| == |rs| && forall k :: 0 <= k < |rs| ==> lines[k] == Format(rs[k])
  {
    seq(|rs|, k requires 0 <= k < |rs| => Format(rs[k]))
  }

  /**
   * Round trip: reports printed in cppcheck's format, one per line, are read
   * back as the same reports in the same order.
   */
  lemma ParseFormatted(rs: seq<Report>)
    requires forall k :: 0 <= k < |rs| ==> Unambiguous(rs[k]) && NoBreak(Format(rs[k]))
    ensures Parsed(SplitLines(Terminated(FormatAll(rs)))) == rs
  {
    var lines := FormatAll(rs);
    SplitLinesOfTerminated(lines);
    forall k | 0 <= k < |rs|
      ensures Matches(lines)[k] == Some(rs[k])
    {
      ParseFormat(rs[k]);
    }
    SomesAll(Matches(lines), rs);
  }
}
