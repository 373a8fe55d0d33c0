/**
 * The diagnostic pattern of plugin.py:28,
 *
 *     ^\[(.+)\:(.+)]:\s+\((.+)\)\s+(.+)
 *
 * applied with `re.match` to one line of cppcheck's output.
 *
 * A way for the pattern to match is a `Cut`: the positions of the ':' after
 * group 1 (i), of the "]:" after group 2 (j), of the '(' (k), of the ')' (l)
 * and of the first character of group 4 (m).  `Valid` says which cuts fit the
 * pattern.  The greedy `.+` and `\s+` of Python's backtracking engine try the
 * longest group 1 first, then the longest group 2, and so on, so the match
 * `re.match` reports is the valid cut that is greatest in lexicographic order
 * of (i, j, k, l, m); group 4, the last greedy `.+`, then runs up to the first
 * newline. `MatchCut` searches for that cut the way the engine backtracks.
 */
module ReportPattern {
  import opened Wrappers
  import opened PyText

  /** The record plugin.py:33-37 builds from the four groups. */
  datatype Report = Report(filepath: string, line: string, severity: string, message: string)

  /** Positions of the literal parts of one match. */
  datatype Cut = Cut(i: int, j: int, k: int, l: int, m: int)

  /** What `.` matches: anything but a newline. */
  predicate Dot(c: char) {
    c != '\n'
  }

  predicate DotsIn(s: string, a: int, b: int)
    requires 0 <= a <= b <= |s|
  {
    forall x :: a <= x < b ==> Dot(s[x])
  }

  predicate SpacesIn(s: string, a: int, b: int)
    requires 0 <= a <= b <= |s|
  {
    forall x :: a <= x < b ==> IsSpace(s[x])
  }

  /** `^\[(.+)\:` with group 1 = s[1..i]. */
  predicate CondI(s: string, i: int) {
    2 <= i < |s| && s[0] == '[' && DotsIn(s, 1, i) && s[i] == ':'
  }

  /** `(.+)]:` with group 2 = s[i+1..j]. */
  predicate CondJ(s: string, i: int, j: int) {
    0 <= i && i + 2 <= j && j + 1 < |s| && DotsIn(s, i + 1, j) && s[j] == ']' && s[j + 1] == ':'
  }

  /** `\s+\(` with the spaces s[j+2..k]. */
  predicate CondK(s: string, j: int, k: int) {
    0 <= j && j + 3 <= k < |s| && SpacesIn(s, j + 2, k) && s[k] == '('
  }

  /** `(.+)\)` with group 3 = s[k+1..l]. */
  predicate CondL(s: string, k: int, l: int) {
    0 <= k && k + 2 <= l < |s| && DotsIn(s, k + 1, l) && s[l] == ')'
  }

  /** `\s+(.+)` with the spaces s[l+1..m] and group 4 starting at m. */
  predicate CondM(s: string, l: int, m: int) {
    0 <= l && l + 2 <= m < |s| && SpacesIn(s, l + 1, m) && Dot(s[m])
  }

  predicate TailM(s: string, c: Cut) {
    CondM(s, c.l, c.m)
  }

  predicate TailL(s: string, c: Cut) {
    CondL(s, c.k, c.l) && TailM(s, c)
  }

  predicate TailK(s: string, c: Cut) {
    CondK(s, c.j, c.k) && TailL(s, c)
  }

  predicate TailJ(s: string, c: Cut) {
    CondJ(s, c.i, c.j) && TailK(s, c)
  }

  /** The group boundaries of `c` lie within a string of length `n`. */
  predicate InBounds(c: Cut, n: int) {
    1 <= c.i && c.i + 1 <= c.j <= n && 0 <= c.k && c.k + 1 <= c.l <= n && 0 <= c.m <= n
  }

  /** The pattern matches `s` along `c`. */
  predicate Valid(s: string, c: Cut) {
    CondI(s, c.i) && TailJ(s, c)
  }

  /** Lexicographic order on cuts: the order in which backtracking prefers them, greatest first. */
  predicate CutLess(a: Cut, b: Cut) {
    a.i < b.i || (a.i == b.i && (a.j < b.j || (a.j == b.j && (a.k < b.k || (a.k == b.k &&
      (a.l < b.l || (a.l == b.l && a.m < b.m)))))))
  }

  /** `c` is the cut Python's engine reports: valid, and every other valid cut is less. */
  ghost predicate Greatest(s: string, c: Cut) {
    Valid(s, c) && forall d :: Valid(s, d) && d != c ==> CutLess(d, c)
  }

  /**
   * The value of `f` at the greatest `x` in [lo, hi] where it is defined:
   * a greedy quantifier trying its longest extent first.
   */
  function LastSome<T>(lo: int, hi: int, f: int -> Option<T>): (r: Option<(int, T)>)
    decreases hi - lo + 1
    ensures r.Some? ==> lo <= r.value.0 <= hi && f(r.value.0) == Some(r.value.1)
    ensures r.Some? ==> forall x :: r.value.0 < x <= hi ==> f(x).None?
    ensures r.None? ==> forall x :: lo <= x <= hi ==> f(x).None?
  {
    if hi < lo then None
    else
      match f(hi)
      case Some(v) => Some((hi, v))
      case None => LastSome(lo, hi - 1, f)
  }

  /** Backtracking over group 4's start position, the others fixed. */
  function MatchM(s: string, i: int, j: int, k: int, l: int): (r: Option<Cut>)
    ensures r.Some? ==> r.value.i == i && r.value.j == j && r.value.k == k && r.value.l == l && TailM(s, r.value)
    ensures r.Some? ==> forall d: Cut :: d.i == i && d.j == j && d.k == k && d.l == l && TailM(s, d) ==>
                          d == r.value || CutLess(d, r.value)
    ensures r.None? ==> forall d: Cut :: d.i == i && d.j == j && d.k == k && d.l == l ==> !TailM(s, d)
  {
    var f := (m: int) => if CondM(s, l, m) then Some(Cut(i, j, k, l, m)) else None;
    assert forall d: Cut :: d.i == i && d.j == j && d.k == k && d.l == l && TailM(s, d) ==> f(d.m) == Some(d);
    match LastSome(l + 2, |s| - 1, f)
    case None => None
    case Some((_, c)) => Some(c)
  }

  /** Backtracking over group 3's extent. */
  function MatchL(s: string, i: int, j: int, k: int): (r: Option<Cut>)
    ensures r.Some? ==> r.value.i == i && r.value.j == j && r.value.k == k && TailL(s, r.value)
    ensures r.Some? ==> forall d: Cut :: d.i == i && d.j == j && d.k == k && TailL(s, d) ==>
                          d == r.value || CutLess(d, r.value)
    ensures r.None? ==> forall d: Cut :: d.i == i && d.j == j && d.k == k ==> !TailL(s, d)
  {
    var f := (l: int) => if CondL(s, k, l) then MatchM(s, i, j, k, l) else None;
    assert forall d: Cut :: d.i == i && d.j == j && d.k == k && TailL(s, d) ==> f(d.l).Some?;
    match LastSome(k + 2, |s| - 1, f)
    case None => None
    case Some((_, c)) => Some(c)
  }

  /** Backtracking over the first run of spaces. */
  function MatchK(s: string, i: int, j: int): (r: Option<Cut>)
    ensures r.Some? ==> r.value.i == i && r.value.j == j && TailK(s, r.value)
    ensures r.Some? ==> forall d: Cut :: d.i == i && d.j == j && TailK(s, d) ==> d == r.value || CutLess(d, r.value)
    ensures r.None? ==> forall d: Cut :: d.i == i && d.j == j ==> !TailK(s, d)
  {
    var f := (k: int) => if CondK(s, j, k) then MatchL(s, i, j, k) else None;
    assert forall d: Cut :: d.i == i && d.j == j && TailK(s, d) ==> f(d.k).Some?;
    match LastSome(j + 3, |s| - 1, f)
    case None => None
    case Some((_, c)) => Some(c)
  }

  /** Backtracking over group 2's extent. */
  function MatchJ(s: string, i: int): (r: Option<Cut>)
    ensures r.Some? ==> r.value.i == i && TailJ(s, r.value)
    ensures r.Some? ==> forall d: Cut :: d.i == i && TailJ(s, d) ==> d == r.value || CutLess(d, r.value)
    ensures r.None? ==> forall d: Cut :: d.i == i ==> !TailJ(s, d)
  {
    var f := (j: int) => if CondJ(s, i, j) then MatchK(s, i, j) else None;
    assert forall d: Cut :: d.i == i && TailJ(s, d) ==> f(d.j).Some?;
    match LastSome(i + 2, |s| - 2, f)
    case None => None
    case Some((_, c)) => Some(c)
  }

  /** One try of group 1's extent, ending at `i`. */
  function StepI(s: string): int -> Option<Cut> {
    (i: int) => if CondI(s, i) then MatchJ(s, i) else None
  }

  lemma StepICorrect(s: string)
    ensures forall d :: Valid(s, d) ==> StepI(s)(d.i).Some?
    ensures var r := LastSome(2, |s| - 1, StepI(s));
            r.Some? ==> CondI(s, r.value.0) && MatchJ(s, r.value.0) == Some(r.value.1)
  {
  }

  /** Backtracking over group 1's extent: the whole match. */
  function MatchCut(s: string): (r: Option<Cut>)
    ensures r.Some? ==> Greatest(s, r.value)
    ensures r.None? ==> forall d :: !Valid(s, d)
  {
    StepICorrect(s);
    match LastSome(2, |s| - 1, StepI(s))
    case None => None
    case Some((_, c)) => Some(c)
  }

  /** Where group 4's greedy `.+` stops: the first newline at or after `p`, or the end. */
  function DotEnd(s: string, p: int): (n: int)
    requires 0 <= p <= |s|
    decreases |s| - p
    ensures p <= n <= |s| && DotsIn(s, p, n)
    ensures n == |s| || s[n] == '\n'
  {
    if p == |s| || s[p] == '\n' then p else DotEnd(s, p + 1)
  }

  /** The four groups of the match along `c`, as plugin.py:33-37 stores them. */
  function Groups(s: string, c: Cut): Report
    requires InBounds(c, |s|)
  {
    Report(s[1..c.i], s[c.i + 1..c.j], s[c.k + 1..c.l], s[c.m..DotEnd(s, c.m)])
  }

  /**
   * `re.match` of the diagnostic pattern against one line (plugin.py:28-29):
   * the report built from the groups, or None for informational output.
   */
  function ParseLine(s: string): (r: Option<Report>)
    ensures r.Some? <==> exists c :: Valid(s, c)
    ensures r.Some? ==> exists c :: Greatest(s, c) && r.value == Groups(s, c)
  {
    match MatchCut(s)
    case None => None
    case Some(c) => Some(Groups(s, c))
  }

  /** `s` holds no newline: `.` matches all of it. */
  predicate NoNewline(s: string) {
    DotsIn(s, 0, |s|)
  }

  /** `s` is whitespace throughout: `\s` matches all of it. */
  predicate AllSpace(s: string) {
    SpacesIn(s, 0, |s|)
  }

  /** The groups of any valid cut are non-empty and hold no newline. */
  lemma GroupsNonEmpty(s: string, c: Cut)
    requires Valid(s, c)
    ensures var r := Groups(s, c);
      && |r.filepath| > 0 && |r.line| > 0 && |r.severity| > 0 && |r.message| > 0
      && NoNewline(r.filepath) && NoNewline(r.line) && NoNewline(r.severity) && NoNewline(r.message)
  {
    var r := Groups(s, c);
    assert forall x :: 0 <= x < |r.filepath| ==> r.filepath[x] == s[1 + x];
    assert forall x :: 0 <= x < |r.line| ==> r.line[x] == s[c.i + 1 + x];
    assert forall x :: 0 <= x < |r.severity| ==> r.severity[x] == s[c.k + 1 + x];
    assert forall x :: 0 <= x < |r.message| ==> r.message[x] == s[c.m + x];
  }

  /** Cutting `s` at the literal parts of a cut gives back `s`. */
  lemma SplitAt(s: string, c: Cut, n: int)
    requires 1 <= c.i && c.i + 1 <= c.j && c.j + 2 <= c.k && c.k + 1 <= c.l && c.l + 1 <= c.m <= n <= |s|
    requires s[0] == '[' && s[c.i] == ':' && s[c.j] == ']' && s[c.j + 1] == ':' && s[c.k] == '(' && s[c.l] == ')'
    ensures s == "[" + s[1..c.i] + ":" + s[c.i + 1..c.j] + "]:" + s[c.j + 2..c.k] + "(" + s[c.k + 1..c.l] + ")"
                 + s[c.l + 1..c.m] + s[c.m..n] + s[n..]
  {
    SplitFront(s, c);
    var p5 := "[" + s[1..c.i] + ":" + s[c.i + 1..c.j] + "]:" + s[c.j + 2..c.k];
    var p6 := p5 + "(";
    assert s[..c.k + 1] == p6 by { Glue(s, c.k, c.k + 1); }
    var p7 := p6 + s[c.k + 1..c.l];
    assert s[..c.l] == p7 by { Glue(s, c.k + 1, c.l); }
    var p8 := p7 + ")";
    assert s[..c.l + 1] == p8 by { Glue(s, c.l, c.l + 1); }
    var p9 := p8 + s[c.l + 1..c.m];
    assert s[..c.m] == p9 by { Glue(s, c.l + 1, c.m); }
    var p10 := p9 + s[c.m..n];
    assert s[..n] == p10 by { Glue(s, c.m, n); }
    assert s == p10 + s[n..] by { Glue(s, n, |s|); }
  }

  /** The part of `s` before the '(' of a cut. */
  lemma SplitFront(s: string, c: Cut)
    requires 1 <= c.i && c.i + 1 <= c.j && c.j + 2 <= c.k <= |s|
    requires s[0] == '[' && s[c.i] == ':' && s[c.j] == ']' && s[c.j + 1] == ':'
    ensures s[..c.k] == "[" + s[1..c.i] + ":" + s[c.i + 1..c.j] + "]:" + s[c.j + 2..c.k]
  {
    var p1 := "[" + s[1..c.i];
    assert s[..c.i] == p1 by { Glue(s, 1, c.i); }
    var p2 := p1 + ":";
    assert s[..c.i + 1] == p2 by { Glue(s, c.i, c.i + 1); }
    var p3 := p2 + s[c.i + 1..c.j];
    assert s[..c.j] == p3 by { Glue(s, c.i + 1, c.j); }
    var p4 := p3 + "]:";
    assert s[..c.j + 2] == p4 by { Glue(s, c.j, c.j + 2); }
    var p5 := p4 + s[c.j + 2..c.k];
    assert s[..c.k] == p5 by { Glue(s, c.j + 2, c.k); }
  }

  /**
   * `s` is "[" filepath ":" line "]:" w1 "(" severity ")" w2 message rest,
   * with w1 and w2 non-empty runs of whitespace and rest empty or starting
   * with a newline.
   */
  predicate Shaped(s: string, r: Report, w1: string, w2: string, rest: string) {
    && |w1| > 0 && AllSpace(w1) && |w2| > 0 && AllSpace(w2) && (rest == [] || rest[0] == '\n')
    && s == "[" + r.filepath + ":" + r.line + "]:" + w1 + "(" + r.severity + ")" + w2 + r.message + rest
  }

  /**
   * A matched line is "[" group1 ":" group2 "]:" spaces "(" group3 ")" spaces
   * group4, perhaps followed by a newline and more; every group is non-empty
   * and holds no newline.
   */
  lemma ParseLineShape(s: string)
    requires ParseLine(s).Some?
    ensures var r := ParseLine(s).value;
      && |r.filepath| > 0 && |r.line| > 0 && |r.severity| > 0 && |r.message| > 0
      && NoNewline(r.filepath) && NoNewline(r.line) && NoNewline(r.severity) && NoNewline(r.message)
      && exists w1, w2, rest :: Shaped(s, r, w1, w2, rest)
  {
    var c := MatchCut(s).value;
    GroupsNonEmpty(s, c);
    GroupsShaped(s, c);
  }

  lemma GroupsShaped(s: string, c: Cut)
    requires Valid(s, c)
    ensures exists w1, w2, rest :: Shaped(s, Groups(s, c), w1, w2, rest)
  {
    var n := DotEnd(s, c.m);
    var w1, w2, rest := s[c.j + 2..c.k], s[c.l + 1..c.m], s[n..];
    SpaceSlice(s, c.j + 2, c.k);
    SpaceSlice(s, c.l + 1, c.m);
    ShapedAt(s, c, n);
    assert Groups(s, c) == Report(s[1..c.i], s[c.i + 1..c.j], s[c.k + 1..c.l], s[c.m..n]);
    assert Shaped(s, Groups(s, c), w1, w2, rest);
  }

  lemma SpaceSlice(s: string, a: int, b: int)
    requires 0 <= a <= b <= |s| && SpacesIn(s, a, b)
    ensures AllSpace(s[a..b])
  {
    assert forall x :: 0 <= x < b - a ==> s[a..b][x] == s[a + x];
  }

  lemma ShapedAt(s: string, c: Cut, n: int)
    requires 1 <= c.i && c.i + 1 <= c.j && c.j + 2 < c.k && c.k + 1 <= c.l && c.l + 1 < c.m <= n <= |s|
    requires s[0] == '[' && s[c.i] == ':' && s[c.j] == ']' && s[c.j + 1] == ':' && s[c.k] == '(' && s[c.l] == ')'
    requires AllSpace(s[c.j + 2..c.k]) && AllSpace(s[c.l + 1..c.m]) && (n == |s| || s[n] == '\n')
    ensures Shaped(s, Report(s[1..c.i], s[c.i + 1..c.j], s[c.k + 1..c.l], s[c.m..n]), s[c.j + 2..c.k], s[c.l + 1..c.m], s[n..])
  {
    SplitAt(s, c, n);
  }

  /** Cutting a prefix of `s` at `b`. */
  lemma Glue(s: string, a: int, b: int)
    requires 0 <= a <= b <= |s|
    ensures s[..a] + s[a..b] == s[..b]
  {
  }

  /** Every group is a piece of the line, so a line without line breaks gives groups without them. */
  lemma GroupsNoBreak(s: string, c: Cut)
    requires Valid(s, c) && NoBreak(s)
    ensures var r := Groups(s, c);
      NoBreak(r.filepath) && NoBreak(r.line) && NoBreak(r.severity) && NoBreak(r.message)
  {
    var r := Groups(s, c);
    assert forall x :: 0 <= x < |r.filepath| ==> r.filepath[x] == s[1 + x];
    assert forall x :: 0 <= x < |r.line| ==> r.line[x] == s[c.i + 1 + x];
    assert forall x :: 0 <= x < |r.severity| ==> r.severity[x] == s[c.k + 1 + x];
    assert forall x :: 0 <= x < |r.message| ==> r.message[x] == s[c.m + x];
  }

  lemma ParseLineNoBreak(s: string)
    requires ParseLine(s).Some? && NoBreak(s)
    ensures var r := ParseLine(s).value;
      NoBreak(r.filepath) && NoBreak(r.line) && NoBreak(r.severity) && NoBreak(r.message)
  {
    GroupsNoBreak(s, MatchCut(s).value);
  }

  /** A line in the pattern's shape with single spaces, as cppcheck writes one diagnostic. */
  function Format(r: Report): string {
    "[" + r.filepath + ":" + r.line + "]: (" + r.severity + ") " + r.message
  }

  predicate AllDigits(s: string) {
    forall x :: 0 <= x < |s| ==> IsDigit(s[x])
  }

  predicate AllLower(s: string) {
    forall x :: 0 <= x < |s| ==> 'a' <= s[x] <= 'z'
  }

  /** No "]:" inside `msg`. */
  predicate NoBracketColon(msg: string) {
    forall x :: 0 <= x < |msg| - 1 ==> !(msg[x] == ']' && msg[x + 1] == ':')
  }

  /** No ')' followed by whitespace inside `msg`. */
  predicate NoParenSpace(msg: string) {
    forall x :: 0 <= x < |msg| - 1 ==> !(msg[x] == ')' && IsSpace(msg[x + 1]))
  }

  /**
   * Fields for which the greedy groups find exactly the parts of `Format(r)`:
   * any path, a decimal line number, a lower-case severity, and a message that
   * starts with a non-space and contains neither "]:" nor ')' before whitespace.
   */
  predicate Unambiguous(r: Report) {
    && |r.filepath| > 0 && NoNewline(r.filepath)
    && |r.line| > 0 && AllDigits(r.line)
    && |r.severity| > 0 && AllLower(r.severity)
    && |r.message| > 0 && NoNewline(r.message) && !IsSpace(r.message[0])
    && NoBracketColon(r.message) && NoParenSpace(r.message)
  }

  /** The characters of `Format(r)`, segment by segment. */
  lemma FormatChars(r: Report)
    ensures var s, f, n, v := Format(r), |r.filepath|, |r.line|, |r.severity|;
      && |s| == f + n + v + 8 + |r.message|
      && s[0] == '[' && s[f + 1] == ':' && s[f + n + 2] == ']' && s[f + n + 3] == ':'
      && s[f + n + 4] == ' ' && s[f + n + 5] == '(' && s[f + n + v + 6] == ')' && s[f + n + v + 7] == ' '
      && (forall x :: 1 <= x <= f ==> s[x] == r.filepath[x - 1])
      && (forall x :: f + 2 <= x < f + n + 2 ==> s[x] == r.line[x - f - 2])
      && (forall x :: f + n + 6 <= x < f + n + v + 6 ==> s[x] == r.severity[x - f - n - 6])
      && (forall x :: f + n + v + 8 <= x < |s| ==> s[x] == r.message[x - f - n - v - 8])
  {
  }

  /** The cut along the parts of `Format(r)`. */
  function FormatCut(r: Report): Cut {
    var f, n, v := |r.filepath|, |r.line|, |r.severity|;
    Cut(f + 1, f + n + 2, f + n + 5, f + n + v + 6, f + n + v + 8)
  }

  lemma FormatCutValid(r: Report)
    requires Unambiguous(r)
    ensures Valid(Format(r), FormatCut(r))
  {
    FormatChars(r);
    assert !IsSpace('(') && IsSpace(' ') && !IsSpace(r.message[0]);
  }

  /** Past group 1's true end, ':' occurs only in "]:" and in the message. */
  lemma FormatColons(r: Report)
    requires Unambiguous(r)
    ensures var s, c0 := Format(r), FormatCut(r);
      forall x :: c0.i < x < |s| && s[x] == ':' ==> x == c0.j + 1 || c0.m <= x
  {
    FormatChars(r);
  }

  /** Past group 1's true end, "]:" occurs only after group 2. */
  lemma FormatBracketColons(r: Report)
    requires Unambiguous(r)
    ensures var s, c0 := Format(r), FormatCut(r);
      forall y :: c0.i < y && y + 1 < |s| && s[y] == ']' && s[y + 1] == ':' ==> y == c0.j
  {
    var s, m0 := Format(r), FormatCut(r).m;
    FormatChars(r);
    forall y | m0 <= y && y + 1 < |s|
      ensures !(s[y] == ']' && s[y + 1] == ':')
    {
      assert s[y] == r.message[y - m0] && s[y + 1] == r.message[y - m0 + 1];
    }
  }

  /** Past the '(', a ')' before whitespace occurs only after group 3. */
  lemma FormatParenSpaces(r: Report)
    requires Unambiguous(r)
    ensures var s, c0 := Format(r), FormatCut(r);
      forall y :: c0.k < y && y + 1 < |s| && s[y] == ')' && IsSpace(s[y + 1]) ==> y == c0.l
  {
    var s, m0 := Format(r), FormatCut(r).m;
    FormatChars(r);
    assert IsSpace(' ');
    forall y | m0 <= y && y + 1 < |s|
      ensures !(s[y] == ')' && IsSpace(s[y + 1]))
    {
      assert s[y] == r.message[y - m0] && s[y + 1] == r.message[y - m0 + 1];
    }
  }

  /** Greedy backtracking finds exactly the parts of `Format(r)` when the fields are unambiguous. */
  lemma FormatCutGreatest(r: Report)
    requires Unambiguous(r)
    ensures Greatest(Format(r), FormatCut(r))
  {
    var s, c0 := Format(r), FormatCut(r);
    FormatCutValid(r);
    FormatColons(r);
    FormatBracketColons(r);
    FormatParenSpaces(r);
    assert s[c0.k] == '(' && s[c0.m] == r.message[0] by {
      FormatChars(r);
    }
    forall d | Valid(s, d)
      ensures d == c0 || CutLess(d, c0)
    {
      assert s[d.j] == ']' && s[d.j + 1] == ':';
      assert d.i <= c0.i;
      if d.i == c0.i {
        assert d.j == c0.j;
        assert d.k == c0.k by {
          assert !IsSpace(s[c0.k]);
        }
        assert IsSpace(s[d.l + 1]);
        assert d.l == c0.l;
        assert d.m == c0.m by {
          assert !IsSpace(s[c0.m]);
        }
      }
    }
  }

  /** The groups along `FormatCut(r)` are the fields of `r`. */
  lemma FormatCutGroups(r: Report)
    requires Unambiguous(r)
    ensures Groups(Format(r), FormatCut(r)) == r
  {
    var s, c0 := Format(r), FormatCut(r);
    FormatFrontGroups(r);
    FormatBackGroups(r);
    assert Groups(s, c0) == Report(s[1..c0.i], s[c0.i + 1..c0.j], s[c0.k + 1..c0.l], s[c0.m..DotEnd(s, c0.m)]);
  }

  lemma FormatFrontGroups(r: Report)
    ensures var s, c0 := Format(r), FormatCut(r);
      s[1..c0.i] == r.filepath && s[c0.i + 1..c0.j] == r.line
  {
    FormatChars(r);
  }

  lemma FormatBackGroups(r: Report)
    requires NoNewline(r.message)
    ensures var s, c0 := Format(r), FormatCut(r);
      s[c0.k + 1..c0.l] == r.severity && c0.m <= |s| && DotEnd(s, c0.m) == |s| && s[c0.m..] == r.message
  {
    FormatChars(r);
  }

  /** There is at most one greatest cut. */
  lemma GreatestUnique(s: string, c: Cut, d: Cut)
    requires Greatest(s, c) && Greatest(s, d)
    ensures c == d
  {
    assert c == d || CutLess(c, d);
    assert c == d || CutLess(d, c);
  }

  /** Parsing a line that cppcheck wrote from unambiguous fields gives those fields back. */
  lemma ParseFormat(r: Report)
    requires Unambiguous(r)
    ensures ParseLine(Format(r)) == Some(r)
  {
    FormatCutGreatest(r);
    FormatCutGroups(r);
    GreatestUnique(Format(r), MatchCut(Format(r)).value, FormatCut(r));
  }

  lemma ExampleUnambiguous()
    ensures Unambiguous(Report("/src/a.cpp", "42", "error", "null pointer"))
  {
  }

  lemma ExampleFormat()
    ensures Format(Report("/src/a.cpp", "42", "error", "null pointer")) == "[/src/a.cpp:42]: (error) null pointer"
  {
    assert "[" + "/src/a.cpp" + ":" + "42" == "[/src/a.cpp:42";
    assert "[/src/a.cpp:42" + "]: (" + "error" + ") " == "[/src/a.cpp:42]: (error) ";
    assert "[/src/a.cpp:42]: (error) " + "null pointer" == "[/src/a.cpp:42]: (error) null pointer";
  }

  /** A typical line: group 1 stops at the last ':' that leaves a line number before "]:". */
  lemma ParseExample()
    ensures ParseLine("[/src/a.cpp:42]: (error) null pointer")
         == Some(Report("/src/a.cpp", "42", "error", "null pointer"))
  {
    var r := Report("/src/a.cpp", "42", "error", "null pointer");
    ExampleFormat();
    ExampleUnambiguous();
    ParseFormat(r);
  }
}
