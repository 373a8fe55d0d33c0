/**
 * The order of the report listing, plugin.py:41-54 and the `sorted` call of
 * plugin.py:69: reports on the root source first, then by the position of
 * the severity in a fixed list, then by the line number as a string, then by
 * the message.  `sorted` is stable, so reports with equal keys keep their
 * order from cppcheck's output.
 */
module Ordering {
  import opened Wrappers
  import opened PyText
  import opened ReportPattern

  /** The severities plugin.py:46 knows, in listing order. */
  const SeverityOrder: seq<string> := ["error", "warning", "style", "performance", "portability", "information"]

  /** `list.index`: the position of the first occurrence of `x`, or None where Python raises. */
  function IndexOf(xs: seq<string>, x: string): (r: Option<nat>)
    ensures r.Some? ==> r.value < |xs| && xs[r.value] == x && forall m :: 0 <= m < r.value ==> xs[m] != x
    ensures r.None? <==> x !in xs
  {
    if xs == [] then None
    else if xs[0] == x then Some(0)
    else match IndexOf(xs[1..], x)
      case None => None
      case Some(n) => Some(n + 1)
  }

  /** `key_report_severity`, plugin.py:45-47. */
  function SeverityRank(severity: string): Option<nat> {
    IndexOf(SeverityOrder, severity)
  }

  /** `key_report_filepath`, plugin.py:41-43: 0 for the root source, 1 for any other file. */
  function FileRank(root: string, path: string): (rank: int)
    ensures rank == 0 <==> path == root
    ensures rank == 0 || rank == 1
  {
    if path == root then 0 else 1
  }

  /** The tuple `key_report` builds, plugin.py:49-54. */
  datatype Key = Key(fileRank: int, severityRank: int, line: string, message: string)

  /** `key_report` of one report; None where `list.index` raises `ValueError`. */
  function KeyOf(root: string, r: Report): (k: Option<Key>)
    ensures k.Some? <==> r.severity in SeverityOrder
    ensures k.Some? ==> 0 <= k.value.severityRank < |SeverityOrder| && SeverityOrder[k.value.severityRank] == r.severity && k.value.fileRank == FileRank(root, r.filepath)
    ensures k.Some? ==> k.value.line == r.line && k.value.message == r.message
  {
    match SeverityRank(r.severity)
    case None => None
    case Some(n) => Some(Key(FileRank(root, r.filepath), n, r.line, r.message))
  }

  /** Python's `<` on the key tuples: the first component that differs decides. */
  predicate KeyLess(a: Key, b: Key) {
    if a.fileRank != b.fileRank then a.fileRank < b.fileRank
    else if a.severityRank != b.severityRank then a.severityRank < b.severityRank
    else if a.line != b.line then StrLess(a.line, b.line)
    else StrLess(a.message, b.message)
  }

  lemma KeyLessIrreflexive(a: Key)
    ensures !KeyLess(a, a)
  {
    StrLessIrreflexive(a.message);
  }

  lemma KeyLessTransitive(a: Key, b: Key, c: Key)
    requires KeyLess(a, b) && KeyLess(b, c)
    ensures KeyLess(a, c)
  {
    if a.fileRank == b.fileRank == c.fileRank && a.severityRank == b.severityRank == c.severityRank {
      if a.line == b.line == c.line {
        StrLessTransitive(a.message, b.message, c.message);
      } else if a.line == b.line {
      } else if b.line == c.line {
      } else {
        StrLessTransitive(a.line, b.line, c.line);
        if a.line == c.line {
          StrLessAsymmetric(a.line, b.line);
        }
      }
    }
  }

  lemma KeyLessAsymmetric(a: Key, b: Key)
    requires KeyLess(a, b)
    ensures !KeyLess(b, a)
  {
    if KeyLess(b, a) {
      KeyLessTransitive(a, b, a);
      KeyLessIrreflexive(a);
    }
  }

  /** Keys are totally ordered. */
  lemma KeyLessTotal(a: Key, b: Key)
    ensures KeyLess(a, b) || a == b || KeyLess(b, a)
  {
    StrLessTrichotomy(a.line, b.line);
    StrLessTrichotomy(a.message, b.message);
  }

  /** The line number is compared as text: line 10 sorts before line 9. */
  lemma LineComparedAsText()
    ensures KeyLess(Key(0, 0, "10", "m"), Key(0, 0, "9", "m"))
  {
  }

  /** A report with its key. */
  type Entry = (Key, Report)

  /**
   * The keys of all reports, computed in order the way `sorted` does before
   * it compares anything; the first unknown severity raises `ValueError`.
   */
  function Keyed(root: string, rs: seq<Report>): (r: Result<seq<Entry>, string>)
    ensures r.Success? ==> |r.value| == |rs|
  {
    if rs == [] then Success([])
    else match KeyOf(root, rs[0])
      case None => Failure(rs[0].severity)
      case Some(k) =>
        match Keyed(root, rs[1..])
        case Failure(e) => Failure(e)
        case Success(es) => Success([(k, rs[0])] + es)
  }

  /** Keying succeeds exactly when every severity is known, and then pairs each report with its key. */
  lemma {:induction false} KeyedSuccess(root: string, rs: seq<Report>)
    ensures Keyed(root, rs).Success? <==> forall i :: 0 <= i < |rs| ==> rs[i].severity in SeverityOrder
    ensures Keyed(root, rs).Success? ==> forall i :: 0 <= i < |rs| ==>
              Keyed(root, rs).value[i] == (KeyOf(root, rs[i]).value, rs[i])
  {
    if rs != [] {
      KeyedSuccess(root, rs[1..]);
      assert forall i :: 1 <= i < |rs| ==> rs[1..][i - 1] == rs[i];
    }
  }

  /** The error is the severity of the first report whose severity is unknown. */
  lemma {:induction false} KeyedFailure(root: string, rs: seq<Report>)
    requires Keyed(root, rs).Failure?
    ensures exists i :: 0 <= i < |rs| && rs[i].severity !in SeverityOrder && Keyed(root, rs).error == rs[i].severity &&
              forall h :: 0 <= h < i ==> rs[h].severity in SeverityOrder
  {
    if KeyOf(root, rs[0]).None? {
      assert rs[0].severity !in SeverityOrder;
    } else {
      KeyedFailure(root, rs[1..]);
      var i :| 0 <= i < |rs[1..]| && rs[1..][i].severity !in SeverityOrder && Keyed(root, rs[1..]).error == rs[1..][i].severity &&
        forall h :: 0 <= h < i ==> rs[1..][h].severity in SeverityOrder;
      assert forall h :: 1 <= h < i + 1 ==> rs[h] == rs[1..][h - 1];
      assert rs[i + 1] == rs[1..][i];
    }
  }

  /** `es` with `x` placed after every entry whose key is not greater than `x`'s. */
  function Insert(x: Entry, es: seq<Entry>): (r: seq<Entry>)
    ensures |r| == |es| + 1
  {
    if es == [] || !KeyLess(x.0, es[|es| - 1].0) then es + [x]
    else Insert(x, es[..|es| - 1]) + [es[|es| - 1]]
  }

  /** A stable sort of the entries by key: the reference for Python's `sorted`. */
  function Sort(es: seq<Entry>): (r: seq<Entry>)
    ensures |r| == |es|
  {
    if es == [] then [] else Insert(es[|es| - 1], Sort(es[..|es| - 1]))
  }

  /** No entry has a smaller key than an entry before it. */
  predicate SortedByKey(es: seq<Entry>) {
    forall a, b :: 0 <= a < b < |es| ==> !KeyLess(es[b].0, es[a].0)
  }

  /** The entries with key `k`, in order. */
  function WithKey(es: seq<Entry>, k: Key): seq<Entry> {
    if es == [] then []
    else WithKey(es[..|es| - 1], k) + (if es[|es| - 1].0 == k then [es[|es| - 1]] else [])
  }

  lemma InsertMultiset(x: Entry, es: seq<Entry>)
    ensures multiset(Insert(x, es)) == multiset(es) + multiset{x}
  {
    if es != [] && KeyLess(x.0, es[|es| - 1].0) {
      InsertMultiset(x, es[..|es| - 1]);
      assert es == es[..|es| - 1] + [es[|es| - 1]];
    }
  }

  lemma {:induction false} InsertSorted(x: Entry, es: seq<Entry>)
    requires SortedByKey(es)
    ensures SortedByKey(Insert(x, es))
  {
    if es == [] || !KeyLess(x.0, es[|es| - 1].0) {
      var r := es + [x];
      forall a, b | 0 <= a < b < |r|
        ensures !KeyLess(r[b].0, r[a].0)
      {
        if b == |es| && KeyLess(x.0, es[a].0) {
          KeyLessTotal(es[a].0, es[|es| - 1].0);
          if KeyLess(es[a].0, es[|es| - 1].0) {
            KeyLessTransitive(x.0, es[a].0, es[|es| - 1].0);
          }
        }
      }
    } else {
      var init, last := es[..|es| - 1], es[|es| - 1];
      InsertSorted(x, init);
      InsertMultiset(x, init);
      var ins := Insert(x, init);
      var r := ins + [last];
      forall a, b | 0 <= a < b < |r|
        ensures !KeyLess(r[b].0, r[a].0)
      {
        if b == |r| - 1 {
          assert r[a] in multiset(init) + multiset{x};
          if r[a] == x {
            KeyLessAsymmetric(x.0, last.0);
          } else {
            assert r[a] in init;
            var j :| 0 <= j < |init| && init[j] == r[a];
            assert es[j] == r[a];
          }
        }
      }
    }
  }

  /** Inserting appends `x` to the entries with its key, and changes no other key's entries. */
  lemma {:induction false} InsertWithKey(x: Entry, es: seq<Entry>, k: Key)
    ensures WithKey(Insert(x, es), k) == WithKey(es, k) + (if x.0 == k then [x] else [])
  {
    if es == [] || !KeyLess(x.0, es[|es| - 1].0) {
      WithKeySnoc(es, x, k);
    } else {
      var init, last := es[..|es| - 1], es[|es| - 1];
      InsertWithKey(x, init, k);
      WithKeySnoc(Insert(x, init), last, k);
      WithKeySnoc(init, last, k);
      assert init + [last] == es;
      KeyLessIrreflexive(x.0);
      assert x.0 != last.0;
    }
  }

  lemma WithKeySnoc(es: seq<Entry>, y: Entry, k: Key)
    ensures WithKey(es + [y], k) == WithKey(es, k) + (if y.0 == k then [y] else [])
  {
    assert (es + [y])[..|es|] == es;
  }

  /** Sorting permutes the entries. */
  lemma {:induction false} SortPermutes(es: seq<Entry>)
    ensures multiset(Sort(es)) == multiset(es)
  {
    if es != [] {
      SortPermutes(es[..|es| - 1]);
      InsertMultiset(es[|es| - 1], Sort(es[..|es| - 1]));
      assert es == es[..|es| - 1] + [es[|es| - 1]];
    }
  }

  /** Sorting orders the entries by key. */
  lemma {:induction false} SortSorted(es: seq<Entry>)
    ensures SortedByKey(Sort(es))
  {
    if es != [] {
      SortSorted(es[..|es| - 1]);
      InsertSorted(es[|es| - 1], Sort(es[..|es| - 1]));
    }
  }

  /** Sorting is stable: the entries with any one key keep their order. */
  lemma {:induction false} SortStable(es: seq<Entry>, k: Key)
    ensures WithKey(Sort(es), k) == WithKey(es, k)
  {
    if es != [] {
      SortStable(es[..|es| - 1], k);
      InsertWithKey(es[|es| - 1], Sort(es[..|es| - 1]), k);
    }
  }

  /** `sorted(reports, key=key_report)`, or the severity `list.index` raised on. */
  function SortReports(root: string, rs: seq<Report>): (r: Result<seq<Report>, string>)
    ensures r.Success? <==> forall i :: 0 <= i < |rs| ==> rs[i].severity in SeverityOrder
    ensures r.Success? ==> |r.value| == |rs|
  {
    KeyedSuccess(root, rs);
    match Keyed(root, rs)
    case Failure(e) => Failure(e)
    case Success(es) => Success(Reports(Sort(es)))
  }

  function Reports(es: seq<Entry>): (rs: seq<Report>)
    ensures |rs| == |es| && forall i :: 0 <= i < |es| ==> rs[i] == es[i].1
  {
    seq(|es|, i requires 0 <= i < |es| => es[i].1)
  }

  /** The sorted listing holds the same reports, each as often as before. */
  lemma SortReportsPermutes(root: string, rs: seq<Report>)
    requires SortReports(root, rs).Success?
    ensures multiset(SortReports(root, rs).value) == multiset(rs)
  {
    var es := Keyed(root, rs).value;
    KeyedSuccess(root, rs);
    SortPermutes(es);
    assert Reports(es) == rs;
    ReportsMultiset(Sort(es), es);
  }

  lemma ReportsAppend(es: seq<Entry>, fs: seq<Entry>)
    ensures Reports(es + fs) == Reports(es) + Reports(fs)
  {
    assert forall i :: 0 <= i < |es| ==> (es + fs)[i] == es[i];
  }

  lemma ReportsRemove(fs: seq<Entry>, j: nat)
    requires j < |fs|
    ensures multiset(Reports(fs)) == multiset(Reports(fs[..j] + fs[j + 1..])) + multiset{fs[j].1}
  {
    assert fs == fs[..j] + [fs[j]] + fs[j + 1..];
    ReportsAppend(fs[..j] + [fs[j]], fs[j + 1..]);
    ReportsAppend(fs[..j], [fs[j]]);
    ReportsAppend(fs[..j], fs[j + 1..]);
  }

  lemma MultisetRemove(es: seq<Entry>, fs: seq<Entry>, j: nat)
    requires j < |fs| && |es| > 0 && fs[j] == es[|es| - 1]
    requires multiset(es) == multiset(fs)
    ensures multiset(es[..|es| - 1]) == multiset(fs[..j] + fs[j + 1..])
  {
    var x := fs[j];
    assert es == es[..|es| - 1] + [x];
    assert fs == fs[..j] + [x] + fs[j + 1..];
    assert multiset(es) == multiset(es[..|es| - 1]) + multiset{x};
    assert multiset(fs) == multiset(fs[..j]) + multiset{x} + multiset(fs[j + 1..]);
    assert multiset(fs[..j] + fs[j + 1..]) == multiset(fs[..j]) + multiset(fs[j + 1..]);
    assert multiset(es[..|es| - 1]) == multiset(es) - multiset{x};
    assert multiset(fs[..j]) + multiset(fs[j + 1..]) == multiset(fs) - multiset{x};
  }

  lemma {:induction false} ReportsMultiset(es: seq<Entry>, fs: seq<Entry>)
    requires multiset(es) == multiset(fs)
    ensures multiset(Reports(es)) == multiset(Reports(fs))
    decreases |es|
  {
    if es == [] {
      assert |fs| == |multiset(fs)| == 0;
    } else {
      var x := es[|es| - 1];
      assert x in multiset(fs);
      var j :| 0 <= j < |fs| && fs[j] == x;
      MultisetRemove(es, fs, j);
      ReportsMultiset(es[..|es| - 1], fs[..j] + fs[j + 1..]);
      ReportsRemove(fs, j);
      ReportsRemove(es, |es| - 1);
      assert es[..|es| - 1] + es[|es|..] == es[..|es| - 1];
    }
  }

  /** Each report in the sorted listing has a known severity, and no report has a smaller key than one before it. */
  lemma SortedListing(root: string, rs: seq<Report>)
    requires SortReports(root, rs).Success?
    ensures var out := SortReports(root, rs).value;
            && (forall i :: 0 <= i < |out| ==> KeyOf(root, out[i]).Some?)
            && forall a, b :: 0 <= a < b < |out| ==> !KeyLess(KeyOf(root, out[b]).value, KeyOf(root, out[a]).value)
  {
    var es := Keyed(root, rs).value;
    KeyedSuccess(root, rs);
    SortSorted(es);
    SortedCarriesKeys(root, rs, es);
    assert SortReports(root, rs).value == Reports(Sort(es));
  }

  lemma SortedCarriesKeys(root: string, rs: seq<Report>, es: seq<Entry>)
    requires Keyed(root, rs) == Success(es)
    ensures forall i :: 0 <= i < |Sort(es)| ==> KeyOf(root, Sort(es)[i].1) == Some(Sort(es)[i].0)
  {
    KeyedSuccess(root, rs);
    SortPermutes(es);
    var sorted := Sort(es);
    forall i | 0 <= i < |sorted|
      ensures KeyOf(root, sorted[i].1) == Some(sorted[i].0)
    {
      assert sorted[i] in multiset(es);
      var j :| 0 <= j < |es| && es[j] == sorted[i];
    }
  }

  /** The reports whose key is `k`, in their order. */
  function ReportsWithKey(root: string, rs: seq<Report>, k: Key): seq<Report> {
    if rs == [] then []
    else ReportsWithKey(root, rs[..|rs| - 1], k) + (if KeyOf(root, rs[|rs| - 1]) == Some(k) then [rs[|rs| - 1]] else [])
  }

  /** Every entry pairs a report with that report's own key. */
  predicate CarriesKeys(root: string, es: seq<Entry>) {
    forall i :: 0 <= i < |es| ==> KeyOf(root, es[i].1) == Some(es[i].0)
  }

  /** For entries carrying their reports' keys, the entries with key `k` hold the reports with key `k`. */
  lemma {:induction false} WithKeyReports(root: string, es: seq<Entry>, k: Key)
    requires CarriesKeys(root, es)
    ensures Reports(WithKey(es, k)) == ReportsWithKey(root, Reports(es), k)
  {
    if es != [] {
      var init, last := es[..|es| - 1], es[|es| - 1];
      var rs, tail := Reports(es), if last.0 == k then [last] else [];
      assert CarriesKeys(root, init);
      WithKeyReports(root, init, k);
      assert rs[..|rs| - 1] == Reports(init);
      assert KeyOf(root, rs[|rs| - 1]) == Some(last.0);
      assert Reports(tail) == if last.0 == k then [rs[|rs| - 1]] else [];
      ReportsAppend(WithKey(init, k), tail);
    }
  }

  /** `sorted` is stable on reports: those with equal keys keep their input order. */
  lemma SortReportsStable(root: string, rs: seq<Report>, k: Key)
    requires SortReports(root, rs).Success?
    ensures ReportsWithKey(root, SortReports(root, rs).value, k) == ReportsWithKey(root, rs, k)
  {
    var es := Keyed(root, rs).value;
    KeyedSuccess(root, rs);
    SortedCarriesKeys(root, rs, es);
    SortStable(es, k);
    WithKeyReports(root, Sort(es), k);
    WithKeyReports(root, es, k);
    assert Reports(es) == rs;
    assert SortReports(root, rs).value == Reports(Sort(es));
  }

  /** In the sorted listing, every report on the root source comes before every other report. */
  lemma SortReportsRootFirst(root: string, rs: seq<Report>)
    requires SortReports(root, rs).Success?
    ensures var out := SortReports(root, rs).value;
            forall a, b :: 0 <= a < b < |out| && out[b].filepath == root ==> out[a].filepath == root
  {
    var out := SortReports(root, rs).value;
    SortedListing(root, rs);
    forall a, b | 0 <= a < b < |out| && out[b].filepath == root
      ensures out[a].filepath == root
    {
      assert !KeyLess(KeyOf(root, out[b]).value, KeyOf(root, out[a]).value);
    }
  }
}
