/**
 * `extract_section_label` and `parse_text_tab`: from raw tab text to
 * labelled sections.
 *
 * The parser is specified in two stages. `Scan` turns the lines into a
 * stream of events (a heading, or one output line), following the source's
 * one-line lookahead. `Assemble` groups the events into sections, starting
 * with an unlabelled one and flushing the current section at each heading
 * only when it has lines. The method with the source's while loop is proved
 * to compute their composition.
 */
module Parse {
  import opened Wrappers
  import opened Strings
  import opened Classify
  import opened Extract
  import opened Merge
  import opened Models

  /** `extract_section_label`: the text inside `[...]`, or the heading without trailing colons. */
  function ExtractSectionLabel(line: string): (r: string)
    ensures |r| <= |line|
  {
    var stripped := Strip(line);
    if IsBracketLabel(stripped) then stripped[1..|stripped| - 1]
    else Strip(RStripChar(stripped, ':'))
  }

  /** A bracketed heading, padded by whitespace, gives exactly the text inside the brackets. */
  lemma LabelOfBracket(left: string, x: string, right: string)
    requires AllSpace(left) && AllSpace(right)
    requires x != [] && forall i | 0 <= i < |x| :: x[i] != ']'
    ensures ExtractSectionLabel(left + ("[" + x + "]") + right) == x
  {
    var core := "[" + x + "]";
    StripPadded(left, core, right);
    assert core[1..|core| - 1] == x;
    assert IsBracketLabel(core);
  }

  /** A bare heading with trailing colons, padded by whitespace, gives the heading text. */
  lemma LabelOfColon(left: string, x: string, colons: string, right: string)
    requires AllSpace(left) && AllSpace(right)
    requires forall i | 0 <= i < |colons| :: colons[i] == ':'
    requires x != [] && x[0] != '[' && !IsSpace(x[0]) && !IsSpace(x[|x| - 1]) && x[|x| - 1] != ':'
    ensures ExtractSectionLabel(left + (x + colons) + right) == x
  {
    var core := x + colons;
    assert core[|core| - 1] == ':' || core[|core| - 1] == x[|x| - 1];
    assert !IsSpace(core[|core| - 1]);
    StripPadded(left, core, right);
    assert Strip(left + core + right) == core;
    assert !IsBracketLabel(core);
    RStripColons(x, colons);
    StripPadded([], x, []);
    assert [] + x + [] == x;
  }

  lemma {:induction false} RStripColons(x: string, colons: string)
    requires forall i | 0 <= i < |colons| :: colons[i] == ':'
    requires x != [] && x[|x| - 1] != ':'
    ensures RStripChar(x + colons, ':') == x
    decreases |colons|
  {
    if colons == [] {
      assert x + colons == x;
    } else {
      var s := x + colons;
      assert s[..|s| - 1] == x + colons[..|colons| - 1];
      RStripColons(x, colons[..|colons| - 1]);
    }
  }

  /** What the scanner emits per consumed line (or line pair). */
  datatype Event = Heading(name: string) | Content(text: string)

  /** The markers of a chord line, joined by single spaces. */
  function ChordOnly(line: string, style: Style): string {
    Join(Markers(Names(ExtractChords(line, style))), " ")
  }

  function Markers(names: seq<string>): (r: seq<string>)
    ensures |r| == |names|
    ensures forall k | 0 <= k < |names| :: r[k] == "[" + names[k] + "]"
  {
    seq(|names|, k requires 0 <= k < |names| => "[" + names[k] + "]")
  }

  /** The events of `lines[i..]`, with the lookahead of the source's loop. */
  function Scan(lines: seq<string>, style: Style, i: nat): seq<Event>
    decreases |lines| - i
  {
    if i >= |lines| then []
    else
      match ClassifyLine(lines[i], style)
      case BLANK => Scan(lines, style, i + 1)
      case TAB => Scan(lines, style, i + 1)
      case SECTION => [Heading(ExtractSectionLabel(lines[i]))] + Scan(lines, style, i + 1)
      case CHORD =>
        if i + 1 < |lines| && ClassifyLine(lines[i + 1], style) == LYRIC then
          [Content(Merged(lines[i], lines[i + 1], style))] + Scan(lines, style, i + 2)
        else
          [Content(ChordOnly(lines[i], style))] + Scan(lines, style, i + 1)
      case LYRIC => [Content(lines[i])] + Scan(lines, style, i + 1)
  }

  /** The open section (`heading`, `acc`) if it has lines. */
  function Flush(heading: Option<string>, acc: seq<Line>): seq<Section> {
    if acc != [] then [Section(heading, acc)] else []
  }

  /** Group events into sections, given the open section (`heading`, `acc`). */
  function Assemble(events: seq<Event>, heading: Option<string>, acc: seq<Line>): seq<Section>
    decreases |events|
  {
    if events == [] then Flush(heading, acc)
    else
      match events[0]
      case Heading(l) => Flush(heading, acc) + Assemble(events[1..], Some(l), [])
      case Content(t) => Assemble(events[1..], heading, acc + [Line(t)])
  }

  /** The sections of a sequence of lines. */
  function Sectionize(lines: seq<string>, style: Style): seq<Section> {
    Assemble(Scan(lines, style, 0), None, [])
  }

  /** The sections of a text: its lines, split as `str.splitlines` does. */
  function ParseText(text: string, style: Style): seq<Section> {
    Sectionize(SplitLines(text), style)
  }

  /** A heading closes the open section (kept only if it has lines) and opens a new, empty one. */
  lemma AssembleHeading(done: seq<Section>, name: string, rest: seq<Event>, heading: Option<string>, acc: seq<Line>)
    ensures done + Assemble([Heading(name)] + rest, heading, acc)
            == (done + Flush(heading, acc)) + Assemble(rest, Some(name), [])
  {
    assert ([Heading(name)] + rest)[1..] == rest;
  }

  /** A content event appends one line to the open section. */
  lemma AssembleContent(done: seq<Section>, t: string, rest: seq<Event>, heading: Option<string>, acc: seq<Line>)
    ensures done + Assemble([Content(t)] + rest, heading, acc) == done + Assemble(rest, heading, acc + [Line(t)])
  {
    assert ([Content(t)] + rest)[1..] == rest;
  }

  /** A BLANK or TAB line emits nothing. */
  lemma ScanSkip(lines: seq<string>, style: Style, i: nat)
    requires i < |lines| && ClassifyLine(lines[i], style) in {BLANK, TAB}
    ensures Scan(lines, style, i) == Scan(lines, style, i + 1)
  {
  }

  /** A SECTION line emits its label. */
  lemma ScanHeading(lines: seq<string>, style: Style, i: nat)
    requires i < |lines| && ClassifyLine(lines[i], style) == SECTION
    ensures Scan(lines, style, i) == [Heading(ExtractSectionLabel(lines[i]))] + Scan(lines, style, i + 1)
  {
  }

  /** A CHORD line over a LYRIC line emits their merge and consumes both. */
  lemma ScanPair(lines: seq<string>, style: Style, i: nat)
    requires i + 1 < |lines| && ClassifyLine(lines[i], style) == CHORD && ClassifyLine(lines[i + 1], style) == LYRIC
    ensures Scan(lines, style, i) == [Content(Merged(lines[i], lines[i + 1], style))] + Scan(lines, style, i + 2)
  {
  }

  /** A CHORD line with no LYRIC line after it emits its markers alone. */
  lemma ScanChordOnly(lines: seq<string>, style: Style, i: nat)
    requires i < |lines| && ClassifyLine(lines[i], style) == CHORD
    requires !(i + 1 < |lines| && ClassifyLine(lines[i + 1], style) == LYRIC)
    ensures Scan(lines, style, i) == [Content(ChordOnly(lines[i], style))] + Scan(lines, style, i + 1)
  {
  }

  /** A LYRIC line emits itself, verbatim. */
  lemma ScanLyric(lines: seq<string>, style: Style, i: nat)
    requires i < |lines| && ClassifyLine(lines[i], style) == LYRIC
    ensures Scan(lines, style, i) == [Content(lines[i])] + Scan(lines, style, i + 1)
  {
  }

  /** The state of the source's loop at line `i`: what is done, plus what the rest of the lines will add. */
  predicate LoopState(lines: seq<string>, style: Style, i: nat, done: seq<Section>, heading: Option<string>, acc: seq<Line>) {
    i <= |lines| && done + Assemble(Scan(lines, style, i), heading, acc) == Sectionize(lines, style)
  }

  /** A BLANK or TAB line is skipped. */
  lemma StepSkip(lines: seq<string>, style: Style, i: nat, done: seq<Section>, heading: Option<string>, acc: seq<Line>)
    requires i < |lines| && ClassifyLine(lines[i], style) in {BLANK, TAB}
    requires LoopState(lines, style, i, done, heading, acc)
    ensures LoopState(lines, style, i + 1, done, heading, acc)
  {
    ScanSkip(lines, style, i);
  }

  /** A SECTION line flushes the open section and opens one under its label. */
  lemma StepHeading(lines: seq<string>, style: Style, i: nat, done: seq<Section>, heading: Option<string>, acc: seq<Line>)
    requires i < |lines| && ClassifyLine(lines[i], style) == SECTION
    requires LoopState(lines, style, i, done, heading, acc)
    ensures LoopState(lines, style, i + 1, done + Flush(heading, acc), Some(ExtractSectionLabel(lines[i])), [])
  {
    var name := ExtractSectionLabel(lines[i]);
    ScanHeading(lines, style, i);
    AssembleHeading(done, name, Scan(lines, style, i + 1), heading, acc);
  }

  /** A CHORD line followed by a LYRIC line adds their merge and consumes both. */
  lemma StepPair(lines: seq<string>, style: Style, i: nat, done: seq<Section>, heading: Option<string>, acc: seq<Line>)
    requires i + 1 < |lines| && ClassifyLine(lines[i], style) == CHORD && ClassifyLine(lines[i + 1], style) == LYRIC
    requires LoopState(lines, style, i, done, heading, acc)
    ensures LoopState(lines, style, i + 2, done, heading, acc + [Line(Merged(lines[i], lines[i + 1], style))])
  {
    var merged := Merged(lines[i], lines[i + 1], style);
    ScanPair(lines, style, i);
    AssembleContent(done, merged, Scan(lines, style, i + 2), heading, acc);
  }

  /** A CHORD line not followed by a LYRIC line adds its markers alone. */
  lemma StepChordOnly(lines: seq<string>, style: Style, i: nat, done: seq<Section>, heading: Option<string>, acc: seq<Line>)
    requires i < |lines| && ClassifyLine(lines[i], style) == CHORD
    requires !(i + 1 < |lines| && ClassifyLine(lines[i + 1], style) == LYRIC)
    requires LoopState(lines, style, i, done, heading, acc)
    ensures LoopState(lines, style, i + 1, done, heading, acc + [Line(ChordOnly(lines[i], style))])
  {
    var t := ChordOnly(lines[i], style);
    ScanChordOnly(lines, style, i);
    AssembleContent(done, t, Scan(lines, style, i + 1), heading, acc);
  }

  /** A LYRIC line is kept verbatim. */
  lemma StepLyric(lines: seq<string>, style: Style, i: nat, done: seq<Section>, heading: Option<string>, acc: seq<Line>)
    requires i < |lines| && ClassifyLine(lines[i], style) == LYRIC
    requires LoopState(lines, style, i, done, heading, acc)
    ensures LoopState(lines, style, i + 1, done, heading, acc + [Line(lines[i])])
  {
    ScanLyric(lines, style, i);
    AssembleContent(done, lines[i], Scan(lines, style, i + 1), heading, acc);
  }

  /** `parse_text_tab`. */
  method ParseTextTab(text: string, style: Style) returns (sections: seq<Section>)
    ensures sections == ParseText(text, style)
  {
    var lines := SplitLines(text);
    sections := [];
    var heading: Option<string> := None;
    var current: seq<Line> := [];
    var i := 0;
    while i < |lines|
      invariant LoopState(lines, style, i, sections, heading, current)
      decreases |lines| - i
    {
      var lt := ClassifyLine(lines[i], style);
      if lt == BLANK || lt == TAB {
        StepSkip(lines, style, i, sections, heading, current);
        i := i + 1;
      } else if lt == SECTION {
        var name := ExtractSectionLabel(lines[i]);
        StepHeading(lines, style, i, sections, heading, current);
        ghost var flushed := sections + Flush(heading, current);
        if current != [] {
          sections := sections + [Section(heading, current)];
        }
        assert sections == flushed;
        heading := Some(name);
        current := [];
        i := i + 1;
      } else if lt == CHORD {
        var nextLyric := i + 1 < |lines| && ClassifyLine(lines[i + 1], style) == LYRIC;
        if nextLyric {
          StepPair(lines, style, i, sections, heading, current);
          var merged := MergeChordLyricLines(lines[i], lines[i + 1], style);
          current := current + [Line(merged)];
          i := i + 2;
        } else {
          StepChordOnly(lines, style, i, sections, heading, current);
          current := current + [Line(ChordOnly(lines[i], style))];
          i := i + 1;
        }
      } else {
        StepLyric(lines, style, i, sections, heading, current);
        current := current + [Line(lines[i])];
        i := i + 1;
      }
    }
    ghost var flushed := sections + Flush(heading, current);
    if current != [] {
      sections := sections + [Section(heading, current)];
    }
    assert sections == flushed;
  }

  /** Every section the grouping produces has at least one line. */
  lemma {:induction false} AssembleNonEmpty(events: seq<Event>, heading: Option<string>, acc: seq<Line>)
    ensures forall k | 0 <= k < |Assemble(events, heading, acc)| :: Assemble(events, heading, acc)[k].lines != []
    decreases |events|
  {
    if events != [] {
      match events[0]
      case Heading(l) => AssembleNonEmpty(events[1..], Some(l), []);
      case Content(t) => AssembleNonEmpty(events[1..], heading, acc + [Line(t)]);
    }
  }

  /** `parse_text_tab` never returns a section without lines. */
  lemma NoEmptySections(text: string, style: Style)
    ensures forall s | s in ParseText(text, style) :: s.lines != []
  {
    AssembleNonEmpty(Scan(SplitLines(text), style, 0), None, []);
  }

  /** The lines of all sections, in order. */
  function AllLines(sections: seq<Section>): seq<Line> {
    if sections == [] then [] else sections[0].lines + AllLines(sections[1..])
  }

  /** The output lines the events carry, in order. */
  function ContentLines(events: seq<Event>): seq<Line> {
    if events == [] then []
    else (match events[0] case Heading(_) => [] case Content(t) => [Line(t)]) + ContentLines(events[1..])
  }

  lemma {:induction false} AllLinesAppend(a: seq<Section>, b: seq<Section>)
    ensures AllLines(a + b) == AllLines(a) + AllLines(b)
  {
    if a == [] {
      assert a + b == b;
    } else {
      assert (a + b)[1..] == a[1..] + b;
      AllLinesAppend(a[1..], b);
    }
  }

  /** Grouping neither drops, duplicates nor reorders lines: the sections hold the content events, in order. */
  lemma {:induction false} AssembleKeepsLines(events: seq<Event>, heading: Option<string>, acc: seq<Line>)
    ensures AllLines(Assemble(events, heading, acc)) == acc + ContentLines(events)
    decreases |events|
  {
    if events == [] {
      assert AllLines(Flush(heading, acc)) == acc;
    } else {
      match events[0]
      case Heading(l) =>
        AssembleKeepsLines(events[1..], Some(l), []);
        AllLinesAppend(Flush(heading, acc), Assemble(events[1..], Some(l), []));
        assert AllLines(Flush(heading, acc)) == acc;
      case Content(t) =>
        AssembleKeepsLines(events[1..], heading, acc + [Line(t)]);
    }
  }

  /** The lines of the parse are exactly the per-line (or per-pair) outputs of the scan, in order. */
  lemma ParseKeepsLines(text: string, style: Style)
    ensures AllLines(ParseText(text, style)) == ContentLines(Scan(SplitLines(text), style, 0))
  {
    AssembleKeepsLines(Scan(SplitLines(text), style, 0), None, []);
  }

  /**
   * Only the first section can be unlabelled; once a heading has been seen,
   * every section carries a label.
   */
  lemma {:induction false} AssembleLabels(events: seq<Event>, heading: Option<string>, acc: seq<Line>)
    ensures forall k | 0 <= k < |Assemble(events, heading, acc)| ::
              (k > 0 || heading.Some?) ==> Assemble(events, heading, acc)[k].heading.Some?
    decreases |events|
  {
    if events != [] {
      match events[0]
      case Heading(l) =>
        var tail := Assemble(events[1..], Some(l), []);
        AssembleLabels(events[1..], Some(l), []);
        var f := Flush(heading, acc);
        var r := Assemble(events, heading, acc);
        assert r == f + tail;
        forall k | 0 <= k < |r| && (k > 0 || heading.Some?)
          ensures r[k].heading.Some?
        {
          if k < |f| {
            assert r[k] == Section(heading, acc);
          } else {
            assert r[k] == tail[k - |f|];
          }
        }
      case Content(t) => AssembleLabels(events[1..], heading, acc + [Line(t)]);
    }
  }

  lemma OnlyFirstUnlabelled(text: string, style: Style)
    ensures forall k | 0 < k < |ParseText(text, style)| :: ParseText(text, style)[k].heading.Some?
  {
    var events := Scan(SplitLines(text), style, 0);
    assert ParseText(text, style) == Assemble(events, None, []);
    AssembleLabels(events, None, []);
  }

  /** A heading followed directly by another heading leaves no trace. */
  lemma HeadingWithoutContent(a: string, b: string, rest: seq<Event>, heading: Option<string>, acc: seq<Line>)
    ensures Assemble([Heading(a), Heading(b)] + rest, heading, acc) == Assemble([Heading(b)] + rest, heading, acc)
  {
    var events := [Heading(a), Heading(b)] + rest;
    assert events[1..] == [Heading(b)] + rest;
    assert ([Heading(b)] + rest)[1..] == rest;
    calc {
      Assemble(events, heading, acc);
      Flush(heading, acc) + Assemble([Heading(b)] + rest, Some(a), []);
      Flush(heading, acc) + (Flush(Some(a), []) + Assemble(rest, Some(b), []));
      Flush(heading, acc) + Assemble(rest, Some(b), []);
      Assemble([Heading(b)] + rest, heading, acc);
    }
  }

  /** From `i` on, every line is BLANK or TAB: the scan emits nothing. */
  lemma {:induction false} ScanSkipsAll(lines: seq<string>, style: Style, i: nat)
    requires forall j | i <= j < |lines| :: ClassifyLine(lines[j], style) in {BLANK, TAB}
    ensures Scan(lines, style, i) == []
    decreases |lines| - i
  {
    if i < |lines| {
      ScanSkipsAll(lines, style, i + 1);
    }
  }

  /** Input made only of BLANK and TAB lines gives no sections. */
  lemma OnlySkippedLines(text: string, style: Style)
    requires forall l | l in SplitLines(text) :: ClassifyLine(l, style) in {BLANK, TAB}
    ensures ParseText(text, style) == []
  {
    var lines := SplitLines(text);
    assert forall j | 0 <= j < |lines| :: lines[j] in lines;
    ScanSkipsAll(lines, style, 0);
  }

  /** At the end of the events, an open section holding one line is emitted. */
  lemma LastSection(heading: Option<string>, t: string)
    ensures Assemble([], heading, [Line(t)]) == [Section(heading, [Line(t)])]
  {
  }

  /** A CHORD line over a LYRIC line is one merged line of an unlabelled section. */
  lemma ChordOverLyric(c: string, l: string, style: Style)
    requires ClassifyLine(c, style) == CHORD && ClassifyLine(l, style) == LYRIC
    ensures Sectionize([c, l], style) == [Section(None, [Line(Merged(c, l, style))])]
  {
    var lines := [c, l];
    var m := Merged(c, l, style);
    ScanPair(lines, style, 0);
    assert Scan(lines, style, 2) == [];
    AssembleContent([], m, [], None, []);
    calc {
      Sectionize(lines, style);
      Assemble([Content(m)] + [], None, []);
      Assemble([], None, [] + [Line(m)]);
      { assert [] + [Line(m)] == [Line(m)]; LastSection(None, m); }
      [Section(None, [Line(m)])];
    }
  }

  /** A CHORD line with no LYRIC line after it gives its markers joined by single spaces. */
  lemma ChordWithoutLyric(c: string, next: string, style: Style)
    requires ClassifyLine(c, style) == CHORD && ClassifyLine(next, style) != LYRIC
    ensures ContentLines(Scan([c, next], style, 0))[0] == Line(ChordOnly(c, style))
  {
    var lines := [c, next];
    var rest := Scan(lines, style, 1);
    ScanChordOnly(lines, style, 0);
    assert ([Content(ChordOnly(c, style))] + rest)[1..] == rest;
  }

  /** A LYRIC line under a heading is copied verbatim into a section with that heading's label. */
  lemma LyricUnderHeading(h: string, l: string, style: Style)
    requires ClassifyLine(h, style) == SECTION && ClassifyLine(l, style) == LYRIC
    ensures Sectionize([h, l], style) == [Section(Some(ExtractSectionLabel(h)), [Line(l)])]
  {
    var lines := [h, l];
    var name := ExtractSectionLabel(h);
    ScanHeading(lines, style, 0);
    ScanLyric(lines, style, 1);
    assert Scan(lines, style, 2) == [];
    AssembleHeading([], name, [Content(l)] + [], None, []);
    AssembleContent([], l, [], Some(name), []);
    calc {
      Sectionize(lines, style);
      Assemble([Heading(name)] + ([Content(l)] + []), None, []);
      Flush(None, []) + Assemble([Content(l)] + [], Some(name), []);
      Assemble([], Some(name), [] + [Line(l)]);
      { assert [] + [Line(l)] == [Line(l)]; LastSection(Some(name), l); }
      [Section(Some(name), [Line(l)])];
    }
  }

  lemma {:induction false} JoinEmpty(parts: seq<string>, sep: string)
    requires forall k | 0 <= k < |parts| :: parts[k] != []
    ensures Join(parts, sep) == [] <==> parts == []
  {
    if |parts| > 1 {
      assert Join(parts, sep) == parts[0] + sep + Join(parts[1..], sep);
    }
  }

  /** A chord-only line is empty exactly when no chord was extracted (as for `[D/a]` in bracketed style). */
  lemma ChordOnlyEmpty(line: string, style: Style)
    ensures ChordOnly(line, style) == [] <==> ExtractChords(line, style) == []
  {
    var ms := Markers(Names(ExtractChords(line, style)));
    JoinEmpty(ms, " ");
  }

  /** A text whose every line ends in a newline is parsed as exactly those lines. */
  lemma ParseTerminated(lines: seq<string>, style: Style)
    requires forall k | 0 <= k < |lines| :: !HasLineBoundary(lines[k])
    ensures ParseText(Terminated(lines), style) == Sectionize(lines, style)
  {
    SplitTerminated(lines);
  }
}
