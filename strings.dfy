/**
 * The few Python `str` operations the pipeline relies on, written out over
 * `seq<char>`: `isspace`, `strip`, `rstrip(ch)`, argument-less `split`,
 * `splitlines`, `sep.join` and an ASCII `lower`.
 */
module Strings {

  /** Python's `str.isspace` for one character (also the meaning of `\s`). */
  predicate IsSpace(c: char) {
    c == ' ' || ('\t' <= c <= '\r') || ('\U{1C}' <= c <= '\U{1F}')
    || c == '\U{85}' || c == '\U{A0}' || c == '\U{1680}'
    || ('\U{2000}' <= c <= '\U{200A}') || c == '\U{2028}' || c == '\U{2029}'
    || c == '\U{202F}' || c == '\U{205F}' || c == '\U{3000}'
  }

  predicate AllSpace(s: string) {
    forall i | 0 <= i < |s| :: IsSpace(s[i])
  }

  predicate IsDigit(c: char) {
    '0' <= c <= '9'
  }

  predicate AllDigits(s: string) {
    forall i | 0 <= i < |s| :: IsDigit(s[i])
  }

  /** The first index at or after `i` that does not hold whitespace. */
  function SkipSpaces(s: string, i: nat): (k: nat)
    requires i <= |s|
    ensures i <= k <= |s|
    ensures forall j | i <= j < k :: IsSpace(s[j])
    ensures k < |s| ==> !IsSpace(s[k])
    decreases |s| - i
  {
    if i < |s| && IsSpace(s[i]) then SkipSpaces(s, i + 1) else i
  }

  /** The end of the run of non-whitespace characters that starts at `i`. */
  function RunEnd(s: string, i: nat): (k: nat)
    requires i <= |s|
    ensures i <= k <= |s|
    ensures forall j | i <= j < k :: !IsSpace(s[j])
    ensures k < |s| ==> IsSpace(s[k])
    decreases |s| - i
  {
    if i < |s| && !IsSpace(s[i]) then RunEnd(s, i + 1) else i
  }

  /** The shortest prefix `s[..k]` of `s[..j]` after which only whitespace follows. */
  function TrimEnd(s: string, j: nat): (k: nat)
    requires j <= |s|
    ensures k <= j
    ensures forall m | k <= m < j :: IsSpace(s[m])
    ensures k > 0 ==> !IsSpace(s[k - 1])
  {
    if j > 0 && IsSpace(s[j - 1]) then TrimEnd(s, j - 1) else j
  }

  /** `str.strip()`: `s` without its leading and trailing whitespace. */
  function Strip(s: string): (r: string)
    ensures r == [] <==> AllSpace(s)
    ensures r != [] ==> !IsSpace(r[0]) && !IsSpace(r[|r| - 1])
  {
    var a := SkipSpaces(s, 0);
    var b := if a == |s| then a else TrimEnd(s, |s|);
    s[a..b]
  }

  /** Stripping a string padded by whitespace on both sides gives back its core. */
  lemma StripPadded(left: string, core: string, right: string)
    requires AllSpace(left) && AllSpace(right)
    requires core != [] && !IsSpace(core[0]) && !IsSpace(core[|core| - 1])
    ensures Strip(left + core + right) == core
  {
    var s := left + core + right;
    var e := |left| + |core|;
    assert s[|left|] == core[0] && s[e - 1] == core[|core| - 1];
    var a := SkipSpaces(s, 0);
    assert a == |left|;
    var b := TrimEnd(s, |s|);
    assert b == e;
    assert s[a..b] == core;
  }

  /** `str.rstrip(c)`: `s` without the run of `c` at its end. */
  function RStripChar(s: string, c: char): (r: string)
    ensures r <= s
    ensures forall i | |r| <= i < |s| :: s[i] == c
    ensures r != [] ==> r[|r| - 1] != c
  {
    if s != [] && s[|s| - 1] == c then RStripChar(s[..|s| - 1], c) else s
  }

  /** Argument-less `str.split()`: the maximal runs of non-whitespace, in order. */
  function SplitWhitespace(s: string): (r: seq<string>)
    ensures forall k | 0 <= k < |r| :: r[k] != [] && !HasSpace(r[k])
    decreases |s|
  {
    var a := SkipSpaces(s, 0);
    if a == |s| then [] else
    var b := RunEnd(s, a);
    [s[a..b]] + SplitWhitespace(s[b..])
  }

  /** `split()` finds no word exactly when the text is all whitespace. */
  lemma SplitWhitespaceEmpty(s: string)
    ensures SplitWhitespace(s) == [] <==> AllSpace(s)
  {
    var a := SkipSpaces(s, 0);
    if a < |s| {
      assert !IsSpace(s[a]);
    }
  }

  /** The first word `split()` finds after leading whitespace is the word itself. */
  lemma FirstWord(pre: string, w: string, rest: string)
    requires AllSpace(pre) && w != [] && !HasSpace(w)
    requires rest == [] || IsSpace(rest[0])
    ensures SplitWhitespace(pre + w + rest) != [] && SplitWhitespace(pre + w + rest)[0] == w
  {
    var s := pre + w + rest;
    assert s[|pre|] == w[0];
    var a := SkipSpaces(s, 0);
    assert a == |pre|;
    var b := RunEnd(s, a);
    assert forall j | |pre| <= j < |pre| + |w| :: s[j] == w[j - |pre|];
    if rest != [] {
      assert s[|pre| + |w|] == rest[0];
    }
    assert s[a..b] == w;
  }

  /** `strip()` keeps a slice of `s` with only whitespace on either side. */
  lemma StripSlice(s: string) returns (a: nat, b: nat)
    ensures a <= b <= |s| && Strip(s) == s[a..b]
    ensures AllSpace(s[..a]) && AllSpace(s[b..])
  {
    a := SkipSpaces(s, 0);
    b := if a == |s| then a else TrimEnd(s, |s|);
    if a < |s| {
      assert !IsSpace(s[a]);
    }
    assert forall j | 0 <= j < a :: s[..a][j] == s[j];
    assert forall j | 0 <= j < |s| - b :: s[b..][j] == s[b + j];
  }

  /** Leading whitespace does not change the words `split()` finds. */
  lemma SplitAfterSpaces(pre: string, t: string)
    requires AllSpace(pre)
    ensures SplitWhitespace(pre + t) == SplitWhitespace(t)
  {
    var s := pre + t;
    assert forall j | 0 <= j < |t| :: s[|pre| + j] == t[j];
    var a := SkipSpaces(s, 0);
    var a' := SkipSpaces(t, 0);
    assert forall j | 0 <= j < |pre| + a' :: IsSpace(s[j]);
    assert a' < |t| ==> !IsSpace(s[|pre| + a']);
    if a' < |t| {
      var b := RunEnd(s, a);
      var b' := RunEnd(t, a');
      assert forall j | |pre| + a' <= j < |pre| + b' :: !IsSpace(s[j]);
      assert b' < |t| ==> IsSpace(s[|pre| + b']);
      assert s[a..b] == t[a'..b'];
      assert s[b..] == t[b'..];
    }
  }

  /** Trailing whitespace does not change the words `split()` finds. */
  lemma {:induction false} SplitBeforeSpaces(t: string, post: string)
    requires AllSpace(post)
    ensures SplitWhitespace(t + post) == SplitWhitespace(t)
    decreases |t|
  {
    var s := t + post;
    assert forall j | 0 <= j < |t| :: s[j] == t[j];
    assert forall j | 0 <= j < |post| :: s[|t| + j] == post[j];
    var a' := SkipSpaces(t, 0);
    if a' == |t| {
      SplitWhitespaceEmpty(s);
      SplitWhitespaceEmpty(t);
    } else {
      var a := SkipSpaces(s, 0);
      assert forall j | 0 <= j < a' :: IsSpace(s[j]);
      assert !IsSpace(s[a']);
      var b := RunEnd(s, a);
      var b' := RunEnd(t, a');
      assert forall j | a' <= j < b' :: !IsSpace(s[j]);
      assert b' < |s| ==> IsSpace(s[b']);
      assert s[a..b] == t[a'..b'];
      assert s[b..] == t[b'..] + post;
      SplitBeforeSpaces(t[b'..], post);
    }
  }

  /** `split()` finds the same words in a string and in its stripped form. */
  lemma SplitStrip(s: string)
    ensures SplitWhitespace(Strip(s)) == SplitWhitespace(s)
  {
    var a, b := StripSlice(s);
    assert s == s[..a] + (s[a..b] + s[b..]);
    SplitAfterSpaces(s[..a], s[a..b] + s[b..]);
    SplitBeforeSpaces(s[a..b], s[b..]);
  }

  lemma LowerSpaces(s: string)
    ensures AllSpace(Lower(s)) <==> AllSpace(s)
  {
    assert forall i | 0 <= i < |s| :: IsSpace(Lower(s)[i]) == IsSpace(s[i]);
  }

  lemma LowerHasSpace(s: string)
    ensures HasSpace(Lower(s)) <==> HasSpace(s)
  {
    assert forall i | 0 <= i < |s| :: IsSpace(Lower(s)[i]) == IsSpace(s[i]);
  }

  lemma LowerAppend(a: string, b: string)
    ensures Lower(a + b) == Lower(a) + Lower(b)
  {
  }

  predicate HasSpace(s: string) {
    exists i | 0 <= i < |s| :: IsSpace(s[i])
  }

  /** The characters at which `str.splitlines` ends a line. */
  predicate IsLineBoundary(c: char) {
    c == '\n' || c == '\r' || c == '\U{0B}' || c == '\U{0C}'
    || ('\U{1C}' <= c <= '\U{1E}') || c == '\U{85}' || c == '\U{2028}' || c == '\U{2029}'
  }

  predicate HasLineBoundary(s: string) {
    exists i | 0 <= i < |s| :: IsLineBoundary(s[i])
  }

  /** The first line boundary at or after `i`, or `|s|`. */
  function LineEnd(s: string, i: nat): (k: nat)
    requires i <= |s|
    ensures i <= k <= |s|
    ensures forall j | i <= j < k :: !IsLineBoundary(s[j])
    ensures k < |s| ==> IsLineBoundary(s[k])
    decreases |s| - i
  {
    if i < |s| && !IsLineBoundary(s[i]) then LineEnd(s, i + 1) else i
  }

  /**
   * `str.splitlines()`: the lines of `s` without their terminators; `"\r\n"`
   * ends one line, and a terminator at the very end opens no extra line.
   */
  function SplitLines(s: string): (r: seq<string>)
    ensures forall k | 0 <= k < |r| :: !HasLineBoundary(r[k])
    ensures s == [] <==> r == []
    decreases |s|
  {
    if s == [] then [] else
    var j := LineEnd(s, 0);
    if j == |s| then [s] else
    var next := if s[j] == '\r' && j + 1 < |s| && s[j + 1] == '\n' then j + 2 else j + 1;
    [s[..j]] + SplitLines(s[next..])
  }

  /** Every line followed by `"\n"`. */
  function Terminated(lines: seq<string>): string {
    if lines == [] then [] else lines[0] + "\n" + Terminated(lines[1..])
  }

  /** A line without boundaries, then `"\n"`, is the first line `splitlines` finds. */
  lemma FirstLine(l: string, rest: string)
    requires !HasLineBoundary(l)
    ensures SplitLines(l + "\n" + rest) == [l] + SplitLines(rest)
  {
    var s := l + "\n" + rest;
    assert forall i | 0 <= i < |l| :: s[i] == l[i];
    assert s[|l|] == '\n';
    var j := LineEnd(s, 0);
    assert j == |l|;
    assert s[..j] == l;
    assert s[j + 1..] == rest;
  }

  /** Splitting text in which each line is ended by `"\n"` gives back the lines. */
  lemma {:induction false} SplitTerminated(lines: seq<string>)
    requires forall k | 0 <= k < |lines| :: !HasLineBoundary(lines[k])
    ensures SplitLines(Terminated(lines)) == lines
  {
    if lines != [] {
      FirstLine(lines[0], Terminated(lines[1..]));
      SplitTerminated(lines[1..]);
    }
  }

  /** Terminating two runs of lines one after the other terminates them all. */
  lemma {:induction false} TerminatedAppend(a: seq<string>, b: seq<string>)
    ensures Terminated(a + b) == Terminated(a) + Terminated(b)
  {
    if a == [] {
      assert a + b == b;
    } else {
      assert (a + b)[0] == a[0];
      assert (a + b)[1..] == a[1..] + b;
      TerminatedAppend(a[1..], b);
    }
  }

  lemma BoundaryAppend(a: string, b: string)
    ensures HasLineBoundary(a + b) <==> HasLineBoundary(a) || HasLineBoundary(b)
  {
    if HasLineBoundary(a) {
      var i :| 0 <= i < |a| && IsLineBoundary(a[i]);
      assert (a + b)[i] == a[i];
    }
    if HasLineBoundary(b) {
      var i :| 0 <= i < |b| && IsLineBoundary(b[i]);
      assert (a + b)[|a| + i] == b[i];
    }
    if HasLineBoundary(a + b) {
      var i :| 0 <= i < |a + b| && IsLineBoundary((a + b)[i]);
      if i < |a| {
        assert a[i] == (a + b)[i];
      } else {
        assert b[i - |a|] == (a + b)[i];
      }
    }
  }

  /** `sep.join(parts)`. */
  function Join(parts: seq<string>, sep: string): string {
    if parts == [] then []
    else if |parts| == 1 then parts[0]
    else parts[0] + sep + Join(parts[1..], sep)
  }

  /** Joining non-empty `parts` with `"\n"` and adding a final `"\n"` terminates every part. */
  lemma {:induction false} JoinNewlines(parts: seq<string>)
    requires parts != []
    ensures Join(parts, "\n") + "\n" == Terminated(parts)
  {
    if |parts| > 1 {
      JoinNewlines(parts[1..]);
      calc {
        Join(parts, "\n") + "\n";
        parts[0] + "\n" + (Join(parts[1..], "\n") + "\n");
        parts[0] + "\n" + Terminated(parts[1..]);
      }
    }
  }

  function LowerChar(c: char): char {
    if 'A' <= c <= 'Z' then (c as int + 32) as char else c
  }

  /** `str.lower()` on the ASCII letters. */
  function Lower(s: string): (r: string)
    ensures |r| == |s|
    ensures forall i | 0 <= i < |s| :: r[i] == LowerChar(s[i])
  {
    seq(|s|, i requires 0 <= i < |s| => LowerChar(s[i]))
  }
}
