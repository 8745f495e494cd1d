/**
 * Line classification (`classify_line`, `_classify_bracketed`,
 * `_classify_unbracketed`): every line gets exactly one of five tags, by
 * checks taken in a fixed order with LYRIC as the fallback.
 */
module Classify {
  import opened Wrappers
  import opened Strings
  import opened ChordNames

  datatype LineType = BLANK | SECTION | CHORD | TAB | LYRIC

  /** The notation style: `"bracketed"`; any other style string behaves as `Unbracketed`. */
  datatype Style = Bracketed | Unbracketed

  /** `TAB_LINE_RE.match`: a string letter, then `|` and a dash or digit, or `--`. */
  predicate IsTabLine(s: string) {
    |s| >= 3 && s[0] in {'e', 'E', 'B', 'G', 'D', 'A', 'd'}
    && ((s[1] == '|' && (s[2] == '-' || IsDigit(s[2]))) || (s[1] == '-' && s[2] == '-'))
  }

  /** `\w`, on ASCII. */
  predicate IsWordChar(c: char) {
    'a' <= c <= 'z' || 'A' <= c <= 'Z' || IsDigit(c) || c == '_'
  }

  /** `TAB_LEGEND_RE` matches at `i`: `(x)` for a symbol x, whitespace, then a word character. */
  predicate LegendAt(s: string, i: nat) {
    i + 3 < |s| && s[i] == '(' && s[i + 1] in {'\\', '^', 'h', 'p', 'b'} && s[i + 2] == ')'
    && IsSpace(s[i + 3]) && SkipSpaces(s, i + 3) < |s| && IsWordChar(s[SkipSpaces(s, i + 3)])
  }

  /** `TAB_LEGEND_RE.search`. */
  predicate HasLegend(s: string) {
    exists i | 0 <= i < |s| :: LegendAt(s, i)
  }

  /** The section keywords, lower-cased, with `Pre-?Chorus` written out both ways. */
  const SectionKeywords: seq<string> :=
    ["verse", "chorus", "bridge", "intro", "outro", "solo", "interlude", "instrumental",
     "prechorus", "pre-chorus", "tag", "coda", "refrain", "hook"]

  /** `(?:\s+\d+)?$` against the text after a keyword. */
  predicate IsNumberSuffix(r: string) {
    r == [] || (IsSpace(r[0]) && SkipSpaces(r, 0) < |r| && AllDigits(r[SkipSpaces(r, 0)..]))
  }

  predicate KeywordAt(s: string, k: nat)
    requires k < |SectionKeywords|
  {
    var lower := Lower(s);
    SectionKeywords[k] <= lower && IsNumberSuffix(lower[|SectionKeywords[k]|..])
  }

  /**
   * `SECTION_KEYWORDS_RE.match`: a keyword in any letter case, optionally
   * followed by whitespace and a number. It is only applied to stripped
   * text, which cannot end in a newline.
   */
  predicate IsSectionKeyword(s: string) {
    exists k | 0 <= k < |SectionKeywords| :: KeywordAt(s, k)
  }

  /** `^\[([^\]]+)\]$` on stripped text: one bracket pair around the whole string. */
  predicate IsBracketLabel(s: string) {
    |s| >= 3 && s[0] == '[' && s[|s| - 1] == ']' && forall i | 1 <= i < |s| - 1 :: s[i] != ']'
  }

  /** The first `]` at or after `j`, or `|s|`. */
  function FindClose(s: string, j: nat): (k: nat)
    requires j <= |s|
    ensures j <= k <= |s|
    ensures forall m | j <= m < k :: s[m] != ']'
    ensures k < |s| ==> s[k] == ']'
    decreases |s| - j
  {
    if j < |s| && s[j] != ']' then FindClose(s, j + 1) else j
  }

  /** `ANY_BRACKET_RE` (`\[([^\]]+)\]`) matches at the start of `s`. */
  predicate GroupAtStart(s: string) {
    s != [] && s[0] == '[' && 1 < FindClose(s, 1) < |s|
  }

  /**
   * One left-to-right pass of `ANY_BRACKET_RE` over `s`: the contents of the
   * groups (`findall`) and the text between them (`sub("", s)`).
   */
  function ScanBrackets(s: string): (r: (seq<string>, string))
    ensures |r.1| + MarkupLength(r.0) == |s|
    ensures forall k | 0 <= k < |r.0| :: r.0[k] != [] && ']' !in r.0[k]
    decreases |s|
  {
    if s == [] then ([], [])
    else if GroupAtStart(s) then
      var k := FindClose(s, 1);
      var (tokens, rest) := ScanBrackets(s[k + 1..]);
      ([s[1..k]] + tokens, rest)
    else
      var (tokens, rest) := ScanBrackets(s[1..]);
      (tokens, [s[0]] + rest)
  }

  /** The characters that `n` groups `[name]` take up. */
  function MarkupLength(names: seq<string>): nat {
    if names == [] then 0 else |names[0]| + 2 + MarkupLength(names[1..])
  }

  /** `_classify_bracketed`, over a stripped line. */
  function ClassifyBracketed(line: string): (r: LineType)
    ensures r in {SECTION, CHORD, LYRIC}
  {
    var (tokens, remainder) := ScanBrackets(line);
    if tokens == [] then LYRIC
    else if Strip(remainder) != [] then LYRIC
    else if |tokens| == 1 && !MatchesChordName(tokens[0]) then SECTION
    else if forall k | 0 <= k < |tokens| :: MatchesChordName(tokens[k]) then CHORD
    else LYRIC
  }

  /** `_classify_unbracketed`, over a stripped line. */
  function ClassifyUnbracketed(line: string): (r: LineType)
    ensures r in {SECTION, CHORD, LYRIC}
  {
    if IsBracketLabel(line) && !MatchesChordName(line[1..|line| - 1]) then SECTION
    else if IsSectionKeyword(Strip(RStripChar(line, ':'))) then SECTION
    else
      var tokens := SplitWhitespace(line);
      if tokens != [] && forall k | 0 <= k < |tokens| :: MatchesChordName(tokens[k]) then CHORD
      else LYRIC
  }

  /** The tablature check, applied to the stripped line before any style check. */
  predicate IsTabShaped(stripped: string) {
    IsTabLine(stripped) || HasLegend(stripped)
  }

  /** `classify_line`. */
  function ClassifyLine(line: string, style: Style): (r: LineType)
    ensures r == BLANK <==> AllSpace(line)
    ensures r == TAB <==> !AllSpace(line) && IsTabShaped(Strip(line))
  {
    var stripped := Strip(line);
    if stripped == [] then BLANK
    else if IsTabShaped(stripped) then TAB
    else if style == Bracketed then ClassifyBracketed(stripped)
    else ClassifyUnbracketed(stripped)
  }

  // Unbracketed chord lines

  /** Every character of `s` is whitespace or one chord names are spelled with. */
  predicate ChordCharsOnly(s: string) {
    forall i | 0 <= i < |s| :: IsSpace(s[i]) || IsChordChar(s[i])
  }

  /** A word holds no whitespace, so `$` has no final newline to skip. */
  lemma WordMatches(t: string)
    ensures MatchesChordName(t) && !IsChordName(t) ==> HasSpace(t)
  {
    if t != [] && t[|t| - 1] == '\n' {
      assert IsSpace(t[|t| - 1]);
    }
  }

  /** Leading whitespace, a word of chord characters, then chord characters and whitespace. */
  lemma ChordWordsStep(s: string, a: nat, b: nat)
    requires a == SkipSpaces(s, 0) && a < |s| && b == RunEnd(s, a)
    requires ChordCharsOnly(s[a..b]) && ChordCharsOnly(s[b..])
    ensures ChordCharsOnly(s)
  {
    forall i | 0 <= i < |s| ensures IsSpace(s[i]) || IsChordChar(s[i]) {
      if a <= i < b {
        assert s[i] == s[a..b][i - a];
      } else if b <= i {
        assert s[i] == s[b..][i - b];
      }
    }
  }

  /** When every word `split()` finds in `s` is spelled with chord characters, so is `s` apart from whitespace. */
  lemma {:induction false} ChordWordsChars(s: string)
    requires forall k | 0 <= k < |SplitWhitespace(s)| :: ChordCharsOnly(SplitWhitespace(s)[k])
    ensures ChordCharsOnly(s)
    decreases |s|
  {
    var a := SkipSpaces(s, 0);
    if a < |s| {
      var b := RunEnd(s, a);
      var ws := SplitWhitespace(s);
      var rest := SplitWhitespace(s[b..]);
      assert ws == [s[a..b]] + rest;
      assert ws[0] == s[a..b];
      assert forall k | 0 <= k < |rest| :: rest[k] == ws[k + 1];
      ChordWordsChars(s[b..]);
      ChordWordsStep(s, a, b);
    }
  }

  /** Chord names are spelled with chord characters. */
  lemma ChordNamesChars(ws: seq<string>)
    requires forall k | 0 <= k < |ws| :: IsChordName(ws[k])
    ensures forall k | 0 <= k < |ws| :: ChordCharsOnly(ws[k])
  {
    forall k | 0 <= k < |ws| ensures ChordCharsOnly(ws[k]) {
      ChordNameChars(ws[k]);
    }
  }

  /** The lower-case forms of the chord characters. */
  predicate IsLoweredChordChar(c: char) {
    'a' <= c <= 'g' || IsDigit(c) || c in {'#', '/', 'm', 'j', 'u', 'i', 's'}
  }

  lemma LowerChordChar(c: char)
    ensures IsSpace(c) ==> LowerChar(c) == c
    ensures IsChordChar(c) ==> IsLoweredChordChar(LowerChar(c))
  {
  }

  /** For each section keyword, a position holding a letter no chord character lowers to. */
  const ForeignLetter: seq<nat> := [0, 1, 1, 1, 0, 1, 1, 1, 0, 0, 0, 1, 0, 0]

  lemma KeywordForeign(k: nat)
    requires k < |SectionKeywords|
    ensures |ForeignLetter| == |SectionKeywords|
    ensures ForeignLetter[k] < |SectionKeywords[k]|
    ensures var c := SectionKeywords[k][ForeignLetter[k]]; !IsSpace(c) && !IsLoweredChordChar(c)
  {
  }

  /** Text made of chord characters and whitespace is no section keyword. */
  lemma NoChordKeyword(s: string)
    requires ChordCharsOnly(s)
    ensures !IsSectionKeyword(s)
  {
    forall k | 0 <= k < |SectionKeywords| ensures !KeywordAt(s, k) {
      KeywordForeign(k);
      var j := ForeignLetter[k];
      if j < |s| {
        LowerChordChar(s[j]);
        assert Lower(s)[j] != SectionKeywords[k][j];
      }
    }
  }

  /** Chord characters and whitespace never form a `[label]` heading. */
  lemma NotBracketLabel(line: string)
    requires ChordCharsOnly(line)
    ensures !IsBracketLabel(line)
  {
    if line != [] {
      assert IsSpace(line[0]) || IsChordChar(line[0]);
    }
  }

  /** Chord characters and whitespace never form a keyword heading. */
  lemma NotKeywordLine(line: string)
    requires ChordCharsOnly(line)
    ensures !IsSectionKeyword(Strip(RStripChar(line, ':')))
  {
    if line != [] {
      assert IsSpace(line[|line| - 1]) || IsChordChar(line[|line| - 1]);
    }
    assert RStripChar(line, ':') == line;
    var a, b := StripSlice(line);
    assert forall i | 0 <= i < |Strip(line)| :: Strip(line)[i] == line[a + i];
    NoChordKeyword(Strip(line));
  }

  /**
   * In the unbracketed style, a stripped line is a chord line exactly when it
   * has words and every word is chord-shaped (standalone `/b` included).
   */
  lemma UnbracketedChordIff(line: string)
    ensures ClassifyUnbracketed(line) == CHORD <==>
            SplitWhitespace(line) != []
            && forall k | 0 <= k < |SplitWhitespace(line)| :: IsChordName(SplitWhitespace(line)[k])
  {
    var ws := SplitWhitespace(line);
    forall k | 0 <= k < |ws| ensures MatchesChordName(ws[k]) <==> IsChordName(ws[k]) {
      WordMatches(ws[k]);
    }
    if ws != [] && forall k | 0 <= k < |ws| :: IsChordName(ws[k]) {
      ChordNamesChars(ws);
      ChordWordsChars(line);
      NotBracketLabel(line);
      NotKeywordLine(line);
    }
  }

  /** Chord characters and whitespace hold no `|`, `-` or `(`, so never look like tablature. */
  lemma NotTabShaped(s: string)
    requires ChordCharsOnly(s)
    ensures !IsTabShaped(s)
  {
    if |s| >= 3 {
      assert IsSpace(s[1]) || IsChordChar(s[1]);
    }
    forall i | 0 <= i < |s| ensures !LegendAt(s, i) {
      assert IsSpace(s[i]) || IsChordChar(s[i]);
    }
  }

  /**
   * `classify_line` in the unbracketed style: a line is CHORD exactly when it
   * has words and all of them are chord-shaped.
   */
  lemma UnbracketedChordLine(line: string)
    ensures ClassifyLine(line, Unbracketed) == CHORD <==>
            SplitWhitespace(line) != []
            && forall k | 0 <= k < |SplitWhitespace(line)| :: IsChordName(SplitWhitespace(line)[k])
  {
    var s := Strip(line);
    SplitStrip(line);
    SplitWhitespaceEmpty(line);
    UnbracketedChordIff(s);
    if SplitWhitespace(line) != [] && forall k | 0 <= k < |SplitWhitespace(line)| :: IsChordName(SplitWhitespace(line)[k]) {
      ChordNamesChars(SplitWhitespace(s));
      ChordWordsChars(s);
      NotTabShaped(s);
    }
  }

  // Bracketed lines

  /** `gaps[0]`, then each group `[tokens[k]]` followed by `gaps[k + 1]`. */
  function Weave(gaps: seq<string>, tokens: seq<string>): string
    requires |gaps| == |tokens| + 1
    decreases |tokens|
  {
    if tokens == [] then gaps[0]
    else gaps[0] + ("[" + tokens[0] + "]") + Weave(gaps[1..], tokens[1..])
  }

  function Concat(parts: seq<string>): string {
    if parts == [] then [] else parts[0] + Concat(parts[1..])
  }

  /** Text without `[` starts no group: the scan copies it to the remainder. */
  lemma {:induction false} ScanPlain(g: string, s: string)
    requires '[' !in g
    ensures ScanBrackets(g + s) == (ScanBrackets(s).0, g + ScanBrackets(s).1)
    decreases |g|
  {
    if g != [] {
      var x := g + s;
      assert g[0] in g;
      assert x[0] == g[0] && !GroupAtStart(x);
      assert x[1..] == g[1..] + s;
      ScanPlain(g[1..], s);
      var r := ScanBrackets(s);
      assert ScanBrackets(x[1..]) == (r.0, g[1..] + r.1);
      assert ScanBrackets(x) == (r.0, [x[0]] + (g[1..] + r.1));
      assert [g[0]] + (g[1..] + r.1) == g + r.1;
    } else {
      assert g + s == s && g + ScanBrackets(s).1 == ScanBrackets(s).1;
    }
  }

  /** A group `[t]` is taken whole, up to its own closing bracket. */
  lemma ScanGroup(t: string, s: string)
    requires t != [] && ']' !in t
    ensures ScanBrackets("[" + t + "]" + s) == ([t] + ScanBrackets(s).0, ScanBrackets(s).1)
  {
    var x := "[" + t + "]" + s;
    assert x[1 + |t|] == ']';
    assert forall m | 1 <= m < 1 + |t| :: x[m] == t[m - 1];
    var k := FindClose(x, 1);
    assert k == 1 + |t|;
    assert x[1..k] == t;
    assert x[k + 1..] == s;
  }

  /** Scanning a weave with whitespace-free-of-`[` gaps gives back its groups and gaps. */
  lemma {:induction false} ScanWeave(gaps: seq<string>, tokens: seq<string>)
    requires |gaps| == |tokens| + 1
    requires forall k | 0 <= k < |gaps| :: '[' !in gaps[k]
    requires forall k | 0 <= k < |tokens| :: tokens[k] != [] && ']' !in tokens[k]
    ensures ScanBrackets(Weave(gaps, tokens)) == (tokens, Concat(gaps))
    decreases |tokens|
  {
    if tokens == [] {
      ScanPlain(gaps[0], []);
      assert gaps[0] + [] == gaps[0];
    } else {
      var w := Weave(gaps[1..], tokens[1..]);
      ScanWeave(gaps[1..], tokens[1..]);
      ScanGroup(tokens[0], w);
      ScanPlain(gaps[0], "[" + tokens[0] + "]" + w);
      assert Weave(gaps, tokens) == gaps[0] + ("[" + tokens[0] + "]" + w);
      assert [tokens[0]] + tokens[1..] == tokens;
      assert Concat(gaps) == gaps[0] + Concat(gaps[1..]);
    }
  }

  lemma WeaveCons(c: char, g: seq<string>, tokens: seq<string>)
    requires |g| == |tokens| + 1
    ensures Weave([[c] + g[0]] + g[1..], tokens) == [c] + Weave(g, tokens)
  {
    var h := [[c] + g[0]] + g[1..];
    assert h[1..] == g[1..];
  }

  /** The scan's groups and gaps spell the string back. */
  predicate SplitsInto(s: string, gaps: seq<string>) {
    |gaps| == |ScanBrackets(s).0| + 1
    && s == Weave(gaps, ScanBrackets(s).0) && Concat(gaps) == ScanBrackets(s).1
  }

  /** One step of the scan at a group. */
  lemma ScanGroupStep(s: string)
    requires GroupAtStart(s)
    ensures var k := FindClose(s, 1);
            ScanBrackets(s) == ([s[1..k]] + ScanBrackets(s[k + 1..]).0, ScanBrackets(s[k + 1..]).1)
  {
  }

  /** One step of the scan at a character outside any group. */
  lemma ScanPlainStep(s: string)
    requires s != [] && !GroupAtStart(s)
    ensures ScanBrackets(s) == (ScanBrackets(s[1..]).0, [s[0]] + ScanBrackets(s[1..]).1)
  {
  }

  /** A string that starts with a group is that group followed by the rest. */
  lemma GroupShape(s: string)
    requires GroupAtStart(s)
    ensures var k := FindClose(s, 1);
            s == "[" + s[1..k] + "]" + s[k + 1..]
  {
    var k := FindClose(s, 1);
    assert s == s[..1] + s[1..k] + s[k..k + 1] + s[k + 1..];
    assert s[..1] == "[";
    assert s[k..k + 1] == "]";
  }

  /** Putting a group in front of a weave. */
  lemma WeaveGroup(t: string, g: seq<string>, tokens: seq<string>)
    requires |g| == |tokens| + 1
    ensures "[" + t + "]" + Weave(g, tokens) == Weave([[]] + g, [t] + tokens)
  {
    var gaps := [[]] + g;
    assert gaps[1..] == g && ([t] + tokens)[1..] == tokens;
  }

  /** A leading group adds an empty gap in front of the gaps of what follows it. */
  lemma SplitsGroup(s: string, g: seq<string>)
    requires GroupAtStart(s) && SplitsInto(s[FindClose(s, 1) + 1..], g)
    ensures SplitsInto(s, [[]] + g)
  {
    var k := FindClose(s, 1);
    ScanGroupStep(s);
    GroupShape(s);
    WeaveGroup(s[1..k], g, ScanBrackets(s[k + 1..]).0);
    assert Concat([[]] + g) == [] + Concat(g);
  }

  /** A leading character outside a group joins the first gap. */
  lemma SplitsPlain(s: string, g: seq<string>)
    requires s != [] && !GroupAtStart(s) && SplitsInto(s[1..], g)
    ensures SplitsInto(s, [[s[0]] + g[0]] + g[1..])
  {
    var r := ScanBrackets(s[1..]);
    ScanPlainStep(s);
    var gaps := [[s[0]] + g[0]] + g[1..];
    WeaveCons(s[0], g, r.0);
    assert s == [s[0]] + s[1..];
    assert gaps[1..] == g[1..];
    assert Concat(gaps) == ([s[0]] + g[0]) + Concat(g[1..]);
    assert Concat(g) == g[0] + Concat(g[1..]);
  }

  /** Every string is the weave of the groups the scan finds and the gaps between them. */
  lemma {:induction false} ScanSplits(s: string) returns (gaps: seq<string>)
    ensures |gaps| == |ScanBrackets(s).0| + 1
    ensures s == Weave(gaps, ScanBrackets(s).0) && Concat(gaps) == ScanBrackets(s).1
    decreases |s|
  {
    if s == [] {
      gaps := [[]];
    } else if GroupAtStart(s) {
      var g := ScanSplits(s[FindClose(s, 1) + 1..]);
      SplitsGroup(s, g);
      gaps := [[]] + g;
    } else {
      var g := ScanSplits(s[1..]);
      SplitsPlain(s, g);
      gaps := [[s[0]] + g[0]] + g[1..];
    }
  }

  lemma {:induction false} ConcatSpaces(parts: seq<string>)
    ensures AllSpace(Concat(parts)) <==> forall k | 0 <= k < |parts| :: AllSpace(parts[k])
  {
    if parts != [] {
      ConcatSpaces(parts[1..]);
      var c := Concat(parts);
      assert c == parts[0] + Concat(parts[1..]);
      assert forall i | 0 <= i < |parts[0]| :: c[i] == parts[0][i];
      assert forall i | 0 <= i < |Concat(parts[1..])| :: c[|parts[0]| + i] == Concat(parts[1..])[i];
      assert forall k | 1 <= k < |parts| :: parts[k] == parts[1..][k - 1];
    }
  }

  /** A chord name holds no `]`. */
  lemma ChordNameNoClose(t: string)
    requires IsChordName(t)
    ensures t != [] && ']' !in t
  {
    ChordNameChars(t);
    assert forall i | 0 <= i < |t| :: t[i] != ']';
  }

  /** Nor does a chord name followed by the newline `$` lets through. */
  lemma NewlineNoClose(t: string)
    requires t != [] && t[|t| - 1] == '\n' && IsChordName(t[..|t| - 1])
    ensures ']' !in t
  {
    var u := t[..|t| - 1];
    ChordNameNoClose(u);
    assert t == u + ['\n'];
  }

  /** Everything `CHORD_NAME_RE.match` accepts is free of `]`. */
  lemma MatchesNoClose(t: string)
    requires MatchesChordName(t)
    ensures t != [] && ']' !in t
  {
    if IsChordName(t) {
      ChordNameNoClose(t);
    } else {
      NewlineNoClose(t);
    }
  }

  /** Whitespace holds no `[`. */
  lemma SpaceNoOpen(g: string)
    requires AllSpace(g)
    ensures '[' !in g
  {
  }

  /**
   * A bracketed line is CHORD only when it is bracket groups around
   * chord-shaped contents, with nothing but whitespace around and between them.
   */
  lemma BracketedChordSound(line: string) returns (gaps: seq<string>)
    requires ClassifyBracketed(line) == CHORD
    ensures var tokens := ScanBrackets(line).0;
            && tokens != [] && |gaps| == |tokens| + 1 && line == Weave(gaps, tokens)
            && (forall k | 0 <= k < |gaps| :: AllSpace(gaps[k]))
            && forall k | 0 <= k < |tokens| :: MatchesChordName(tokens[k])
  {
    gaps := ScanSplits(line);
    ConcatSpaces(gaps);
  }

  /** Bracket groups around chord-shaped contents, separated by whitespace, make a CHORD line. */
  lemma BracketedChordComplete(gaps: seq<string>, tokens: seq<string>)
    requires |gaps| == |tokens| + 1 && tokens != []
    requires forall k | 0 <= k < |gaps| :: AllSpace(gaps[k])
    requires forall k | 0 <= k < |tokens| :: MatchesChordName(tokens[k])
    ensures ScanBrackets(Weave(gaps, tokens)).0 == tokens
    ensures ClassifyBracketed(Weave(gaps, tokens)) == CHORD
  {
    forall k | 0 <= k < |gaps| ensures '[' !in gaps[k] {
      SpaceNoOpen(gaps[k]);
    }
    forall k | 0 <= k < |tokens| ensures tokens[k] != [] && ']' !in tokens[k] {
      MatchesNoClose(tokens[k]);
    }
    ScanWeave(gaps, tokens);
    ConcatSpaces(gaps);
  }

  /**
   * A bracketed line is SECTION only when it is one bracket group, padded by
   * whitespace, whose content is not chord-shaped.
   */
  lemma BracketedSectionSound(line: string) returns (left: string, right: string)
    requires ClassifyBracketed(line) == SECTION
    ensures var tokens := ScanBrackets(line).0;
            && |tokens| == 1 && line == left + ("[" + tokens[0] + "]") + right
            && AllSpace(left) && AllSpace(right) && !MatchesChordName(tokens[0])
  {
    var gaps := ScanSplits(line);
    ConcatSpaces(gaps);
    left, right := gaps[0], gaps[1];
  }

  /** One bracket group around a non-chord label, padded by whitespace, makes a SECTION line. */
  lemma BracketedSectionComplete(left: string, name: string, right: string)
    requires AllSpace(left) && AllSpace(right)
    requires name != [] && ']' !in name && !MatchesChordName(name)
    ensures ScanBrackets(left + ("[" + name + "]") + right).0 == [name]
    ensures ClassifyBracketed(left + ("[" + name + "]") + right) == SECTION
  {
    var gaps := [left, right];
    SpaceNoOpen(left);
    SpaceNoOpen(right);
    assert Weave(gaps, [name]) == left + ("[" + name + "]") + right;
    ScanWeave(gaps, [name]);
    ConcatSpaces(gaps);
  }
}
