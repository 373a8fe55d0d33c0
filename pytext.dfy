/**
 * The Python string builtins that the report pipeline of plugin.py relies on:
 * `str.isspace` (also the `\s` class of `re`), `str.splitlines`, `str.strip`,
 * the `<` order on `str`, `os.path.commonprefix`, `os.path.basename` (POSIX
 * flavour) and the `%i` conversion of a non-negative integer.
 */
module PyText {

  /** Python's `str.isspace` for one character; `re`'s `\s` uses the same set. */
  predicate IsSpace(c: char) {
    ('\t' <= c <= '\r') || ('\U{1C}' <= c <= ' ') || c == '\U{85}' || c == '\U{A0}'
    || c == '\U{1680}' || ('\U{2000}' <= c <= '\U{200A}') || c == '\U{2028}' || c == '\U{2029}'
    || c == '\U{202F}' || c == '\U{205F}' || c == '\U{3000}'
  }

  /** The characters at which `str.splitlines` ends a line. */
  predicate IsLineBreak(c: char) {
    c == '\n' || c == '\r' || c == '\U{0B}' || c == '\U{0C}' || ('\U{1C}' <= c <= '\U{1E}')
    || c == '\U{85}' || c == '\U{2028}' || c == '\U{2029}'
  }

  predicate NoBreak(s: string) {
    forall i :: 0 <= i < |s| ==> !IsLineBreak(s[i])
  }

  /** Index of the first line-break character of `s`, or `|s|` when there is none. */
  function FirstBreak(s: string): (n: nat)
    ensures n <= |s|
    ensures forall i :: 0 <= i < n ==> !IsLineBreak(s[i])
    ensures n < |s| ==> IsLineBreak(s[n])
  {
    if s == [] then 0
    else if IsLineBreak(s[0]) then 0
    else 1 + FirstBreak(s[1..])
  }

  /**
   * `str.splitlines()`: the lines of `s` without their terminators; "\r\n"
   * counts as one terminator, and a final terminator does not start an empty line.
   */
  function SplitLines(s: string): (lines: seq<string>)
    decreases |s|
    ensures forall k :: 0 <= k < |lines| ==> NoBreak(lines[k])
  {
    if s == [] then []
    else
      var n := FirstBreak(s);
      if n == |s| then [s]
      else
        var next := if s[n] == '\r' && n + 1 < |s| && s[n + 1] == '\n' then n + 2 else n + 1;
        [s[..n]] + SplitLines(s[next..])
  }

  /** Every line followed by "\n", concatenated. */
  function Terminated(lines: seq<string>): string {
    if lines == [] then "" else lines[0] + "\n" + Terminated(lines[1..])
  }

  lemma {:induction false} TerminatedAppend(lines: seq<string>, last: string)
    ensures Terminated(lines + [last]) == Terminated(lines) + last + "\n"
  {
    if lines == [] {
      assert lines + [last] == [last];
    } else {
      assert (lines + [last])[1..] == lines[1..] + [last];
      TerminatedAppend(lines[1..], last);
    }
  }

  /** Splitting newline-terminated lines gives the lines back. */
  lemma {:induction false} SplitLinesOfTerminated(lines: seq<string>)
    requires forall k :: 0 <= k < |lines| ==> NoBreak(lines[k])
    ensures SplitLines(Terminated(lines)) == lines
  {
    if lines != [] {
      assert Terminated(lines) == lines[0] + "\n" + Terminated(lines[1..]);
      SplitLinesStep(lines[0], "\n", Terminated(lines[1..]));
      SplitLinesOfTerminated(lines[1..]);
    }
  }

  /** A line terminator `str.splitlines` recognises: "\r\n" or one line-break character. */
  predicate Terminator(t: string) {
    t == "\r\n" || (|t| == 1 && IsLineBreak(t[0]))
  }

  /** Each line followed by its own terminator, concatenated. */
  function JoinLines(lines: seq<string>, ts: seq<string>): string
    requires |ts| == |lines|
  {
    if lines == [] then "" else lines[0] + ts[0] + JoinLines(lines[1..], ts[1..])
  }

  /**
   * Lines and terminators that `str.splitlines` reads back unchanged: no line
   * holds a break, and a lone "\r" is not followed by a "\n" that would
   * join it into one "\r\n" terminator.
   */
  predicate Splittable(lines: seq<string>, ts: seq<string>) {
    && |ts| == |lines|
    && (forall k :: 0 <= k < |lines| ==> NoBreak(lines[k]) && Terminator(ts[k]))
    && (forall k :: 0 <= k < |lines| - 1 && ts[k] == "\r" ==> lines[k + 1] != [] || ts[k + 1][0] != '\n')
  }

  /** The joined text starts with its first line, or with that line's terminator when the line is empty. */
  lemma JoinedStart(lines: seq<string>, ts: seq<string>, last: string)
    requires |ts| == |lines| && |lines| > 0
    ensures var rest := JoinLines(lines, ts) + last;
      rest == lines[0] + ts[0] + (JoinLines(lines[1..], ts[1..]) + last)
  {
  }

  /** One step of `str.splitlines`: a line, its terminator, and the rest. */
  lemma SplitLinesStep(l: string, t: string, rest: string)
    requires NoBreak(l) && Terminator(t)
    requires t == "\r" && rest != [] ==> rest[0] != '\n'
    ensures SplitLines(l + t + rest) == [l] + SplitLines(rest)
  {
    var s := l + t + rest;
    assert forall i :: 0 <= i < |l| ==> s[i] == l[i];
    assert s[|l|] == t[0];
    assert FirstBreak(s) == |l|;
    assert s[..|l|] == l;
    if t == "\r\n" {
      assert s[|l| + 1] == '\n';
      assert s[|l| + 2..] == rest;
    } else {
      assert s[|l| + 1..] == rest;
      assert rest != [] ==> s[|l| + 1] == rest[0];
    }
  }

  /**
   * `str.splitlines` gives back the lines, whatever terminators separate
   * them, and a final line without a terminator.
   */
  lemma {:induction false} SplitLinesOfJoined(lines: seq<string>, ts: seq<string>, last: string)
    requires Splittable(lines, ts) && NoBreak(last)
    ensures SplitLines(JoinLines(lines, ts) + last) == lines + (if last == [] then [] else [last])
  {
    if lines == [] {
      assert JoinLines(lines, ts) + last == last;
      if last != [] {
        assert FirstBreak(last) == |last|;
      }
    } else {
      var rest := JoinLines(lines[1..], ts[1..]) + last;
      JoinedStart(lines, ts, last);
      SplittableTail(lines, ts, last);
      SplitLinesStep(lines[0], ts[0], rest);
      SplitLinesOfJoined(lines[1..], ts[1..], last);
    }
  }

  /** The lines after the first stay splittable, and a lone "\r" after the first line is not followed by "\n". */
  lemma SplittableTail(lines: seq<string>, ts: seq<string>, last: string)
    requires Splittable(lines, ts) && NoBreak(last) && |lines| > 0
    ensures Splittable(lines[1..], ts[1..])
    ensures NoBreak(lines[0]) && Terminator(ts[0])
    ensures var rest := JoinLines(lines[1..], ts[1..]) + last;
      ts[0] == "\r" && rest != [] ==> rest[0] != '\n'
  {
    var rest := JoinLines(lines[1..], ts[1..]) + last;
    if |lines| > 1 {
      JoinedStart(lines[1..], ts[1..], last);
      assert lines[1] != [] ==> rest[0] == lines[1][0];
      assert lines[1] == [] ==> rest[0] == ts[1][0];
    } else {
      assert rest == last;
    }
  }

  /** `s` with its trailing whitespace removed (the right half of `str.strip`). */
  function RStrip(s: string): (r: string)
    ensures r <= s
    ensures r == [] || !IsSpace(r[|r| - 1])
    ensures forall i :: |r| <= i < |s| ==> IsSpace(s[i])
  {
    if s != [] && IsSpace(s[|s| - 1]) then RStrip(s[..|s| - 1]) else s
  }

  /** `s` with its leading whitespace removed (the left half of `str.strip`). */
  function LStrip(s: string): (r: string)
    ensures |r| <= |s| && r == s[|s| - |r|..]
    ensures r == [] || !IsSpace(r[0])
    ensures forall i :: 0 <= i < |s| - |r| ==> IsSpace(s[i])
  {
    if s != [] && IsSpace(s[0]) then LStrip(s[1..]) else s
  }

  /** `str.strip()` with no argument. */
  function Strip(s: string): string {
    LStrip(RStrip(s))
  }

  /** The three properties in RStrip's contract determine its result. */
  lemma RStripUnique(s: string, r: string)
    requires r <= s
    requires r == [] || !IsSpace(r[|r| - 1])
    requires forall i :: |r| <= i < |s| ==> IsSpace(s[i])
    ensures RStrip(s) == r
  {
    var t := RStrip(s);
    if r != [] {
      assert s[|r| - 1] == r[|r| - 1];
    }
    if t != [] {
      assert s[|t| - 1] == t[|t| - 1];
    }
    assert |t| == |r|;
  }

  /** A final newline is trailing whitespace like any other. */
  lemma RStripNewline(s: string)
    ensures RStrip(s + "\n") == RStrip(s)
  {
    assert (s + "\n")[..|s|] == s;
  }

  /** Stripping stops at the last non-space character. */
  lemma RStripKeeps(s: string, p: nat)
    requires p < |s| && !IsSpace(s[p])
    ensures p < |RStrip(s)| && RStrip(s)[p] == s[p]
  {
  }

  lemma LStripNoSpace(s: string)
    requires |s| > 0 && !IsSpace(s[0])
    ensures LStrip(s) == s
  {
  }

  /** Trailing whitespace is stripped only from the part after the last non-space character. */
  lemma RStripAppend(a: string, b: string, p: nat)
    requires p < |b| && !IsSpace(b[p])
    ensures RStrip(a + b) == a + RStrip(b)
  {
    var r := RStrip(b);
    assert p < |r|;
    assert (a + r)[|a + r| - 1] == r[|r| - 1];
    forall i | |a + r| <= i < |a + b|
      ensures IsSpace((a + b)[i])
    {
      assert (a + b)[i] == b[i - |a|];
    }
    assert a + r <= a + b by {
      assert r == b[..|r|];
      assert (a + b)[..|a + r|] == a + b[..|r|];
    }
    RStripUnique(a + b, a + r);
  }

  /** Python's `<` on two strings: code-point lexicographic, a proper prefix is smaller. */
  predicate StrLess(a: string, b: string) {
    if a == [] then b != []
    else if b == [] then false
    else if a[0] != b[0] then a[0] < b[0]
    else StrLess(a[1..], b[1..])
  }

  lemma {:induction false} StrLessIrreflexive(a: string)
    ensures !StrLess(a, a)
  {
    if a != [] {
      StrLessIrreflexive(a[1..]);
    }
  }

  lemma {:induction false} StrLessTransitive(a: string, b: string, c: string)
    requires StrLess(a, b) && StrLess(b, c)
    ensures StrLess(a, c)
  {
    if a != [] && b != [] && c != [] && a[0] == b[0] && b[0] == c[0] {
      StrLessTransitive(a[1..], b[1..], c[1..]);
    }
  }

  lemma {:induction false} StrLessTrichotomy(a: string, b: string)
    ensures StrLess(a, b) || a == b || StrLess(b, a)
  {
    if a != [] && b != [] && a[0] == b[0] {
      StrLessTrichotomy(a[1..], b[1..]);
      if a[1..] == b[1..] {
        assert a == [a[0]] + a[1..] && b == [b[0]] + b[1..];
      }
    }
  }

  lemma StrLessAsymmetric(a: string, b: string)
    requires StrLess(a, b)
    ensures !StrLess(b, a)
  {
    if StrLess(b, a) {
      StrLessTransitive(a, b, a);
      StrLessIrreflexive(a);
    }
  }

  /** Longest common prefix of two strings. */
  function CommonPrefix2(a: string, b: string): (p: string)
    ensures p <= a && p <= b
    ensures |p| == |a| || |p| == |b| || a[|p|] != b[|p|]
  {
    if a == [] || b == [] || a[0] != b[0] then ""
    else [a[0]] + CommonPrefix2(a[1..], b[1..])
  }

  /** `os.path.commonprefix(paths)`: character-wise, "" for an empty list. */
  function CommonPrefix(paths: seq<string>): (p: string)
    ensures forall k :: 0 <= k < |paths| ==> p <= paths[k]
  {
    if |paths| == 0 then ""
    else if |paths| == 1 then paths[0]
    else CommonPrefix2(paths[0], CommonPrefix(paths[1..]))
  }

  /** A common prefix of two strings is a prefix of their longest common prefix. */
  lemma {:induction false} CommonPrefix2Longest(a: string, b: string, q: string)
    requires q <= a && q <= b
    ensures q <= CommonPrefix2(a, b)
  {
    if q != [] {
      assert a[0] == q[0] == b[0];
      CommonPrefix2Longest(a[1..], b[1..], q[1..]);
    }
  }

  /** What the common prefix of a non-empty list is: every prefix shared by all the paths is part of it. */
  lemma {:induction false} CommonPrefixLongest(paths: seq<string>, q: string)
    requires |paths| > 0
    requires forall k :: 0 <= k < |paths| ==> q <= paths[k]
    ensures q <= CommonPrefix(paths)
  {
    if |paths| > 1 {
      assert forall k :: 0 <= k < |paths| - 1 ==> q <= paths[1..][k] by {
        forall k | 0 <= k < |paths| - 1 ensures q <= paths[1..][k] {
          assert paths[1..][k] == paths[k + 1];
        }
      }
      CommonPrefixLongest(paths[1..], q);
      CommonPrefix2Longest(paths[0], CommonPrefix(paths[1..]), q);
    }
  }

  /** Reports all on one path: the common prefix is that whole path. */
  lemma CommonPrefixOfOnePath(paths: seq<string>, p: string)
    requires |paths| > 0
    requires forall k :: 0 <= k < |paths| ==> paths[k] == p
    ensures CommonPrefix(paths) == p
  {
    CommonPrefixLongest(paths, p);
    assert CommonPrefix(paths) <= paths[0];
  }

  /** `os.path.basename` (POSIX): the part of the path after its last '/'. */
  function Basename(path: string): (b: string)
    ensures |b| <= |path| && b == path[|path| - |b|..]
    ensures forall i :: 0 <= i < |b| ==> b[i] != '/'
    ensures |b| < |path| ==> path[|path| - |b| - 1] == '/'
  {
    if path == [] || path[|path| - 1] == '/' then ""
    else Basename(path[..|path| - 1]) + [path[|path| - 1]]
  }

  predicate IsDigit(c: char) {
    '0' <= c <= '9'
  }

  function DigitChar(d: nat): (c: char)
    requires d < 10
    ensures IsDigit(c) && c as int - '0' as int == d
  {
    ['0', '1', '2', '3', '4', '5', '6', '7', '8', '9'][d]
  }

  /** The number a string of decimal digits denotes. */
  function DecimalValue(s: string): nat
    requires forall i :: 0 <= i < |s| ==> IsDigit(s[i])
  {
    if s == [] then 0
    else
      assert IsDigit(s[|s| - 1]);
      DecimalValue(s[..|s| - 1]) * 10 + (s[|s| - 1] as int - '0' as int)
  }

  /** `'%i' % n` for a non-negative `n`: decimal digits, no leading zero. */
  function DecimalString(n: nat): (s: string)
    ensures |s| > 0 && forall i :: 0 <= i < |s| ==> IsDigit(s[i])
    ensures |s| > 1 ==> s[0] != '0'
  {
    if n < 10 then [DigitChar(n)] else DecimalString(n / 10) + [DigitChar(n % 10)]
  }

  /** Reading the digits back gives the number. */
  lemma {:induction false} DecimalStringValue(n: nat)
    ensures DecimalValue(DecimalString(n)) == n
  {
    if n >= 10 {
      var s := DecimalString(n);
      assert s[..|s| - 1] == DecimalString(n / 10);
      DecimalStringValue(n / 10);
    }
  }
}
