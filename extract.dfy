/**
 * `extract_chords_with_offsets`: the `(offset, name)` pairs of a chord line,
 * left to right, offsets measured in the line as given.
 *
 * Both styles are a left-to-right token scan followed by a name test: the
 * bracketed style scans for `[name]` with the bracketed chord shape inside,
 * the unbracketed style scans the `\S+` runs and keeps those that are chord
 * names. The scans take the name test as a parameter; `ExtractChords`
 * supplies the chord-shape tests.
 */
module Extract {
  import opened Strings
  import opened ChordNames
  import opened Classify

  /** One chord occurrence: its column in the chord line and its name. */
  type Occurrence = (nat, string)

  predicate StrictlyIncreasing(cs: seq<Occurrence>) {
    forall a, b | 0 <= a < b < |cs| :: cs[a].0 < cs[b].0
  }

  /** All offsets are at least `i`. */
  predicate From(cs: seq<Occurrence>, i: nat) {
    forall m | 0 <= m < |cs| :: i <= cs[m].0
  }

  predicate Occurs(cs: seq<Occurrence>, p: nat) {
    exists m | 0 <= m < |cs| :: cs[m].0 == p
  }

  /** `\[(X)\]` matches at `p`, where `accept` is the language of `X`. */
  predicate BracketMatchAt(s: string, p: nat, accept: string -> bool) {
    p < |s| && s[p] == '[' && FindClose(s, p + 1) < |s| && accept(s[p + 1..FindClose(s, p + 1)])
  }

  /** The text between the brackets of a match at `p`. */
  function BracketContent(s: string, p: nat): string
    requires p < |s|
  {
    s[p + 1..FindClose(s, p + 1)]
  }

  /** `finditer` of `\[(X)\]` from `i` on: offset of each `[`, and the group. */
  function ScanBracketed(s: string, i: nat, accept: string -> bool): seq<Occurrence>
    requires i <= |s|
    decreases |s| - i
  {
    if i == |s| then []
    else if BracketMatchAt(s, i, accept) then
      [(i, BracketContent(s, i))] + ScanBracketed(s, FindClose(s, i + 1) + 1, accept)
    else ScanBracketed(s, i + 1, accept)
  }

  /** The accepted names never hold an opening bracket. */
  ghost predicate NoOpenBracket(accept: string -> bool) {
    forall t :: accept(t) ==> forall j | 0 <= j < |t| :: t[j] != '['
  }

  /** The bracketed occurrences found from `i` on sit at or after `i`, in increasing order. */
  lemma {:induction false} BracketedOrdered(s: string, i: nat, accept: string -> bool)
    requires i <= |s|
    ensures From(ScanBracketed(s, i, accept), i)
    ensures StrictlyIncreasing(ScanBracketed(s, i, accept))
    decreases |s| - i
  {
    if i < |s| {
      if BracketMatchAt(s, i, accept) {
        var next := FindClose(s, i + 1) + 1;
        BracketedOrdered(s, next, accept);
        var rest := ScanBracketed(s, next, accept);
        var r := [(i, BracketContent(s, i))] + rest;
        assert forall m | 1 <= m < |r| :: r[m] == rest[m - 1];
      } else {
        BracketedOrdered(s, i + 1, accept);
      }
    }
  }

  /** Every bracketed occurrence found from `i` on is a real match with its content. */
  lemma {:induction false} BracketedMatches(s: string, i: nat, accept: string -> bool)
    requires i <= |s|
    ensures forall m | 0 <= m < |ScanBracketed(s, i, accept)| ::
              var c := ScanBracketed(s, i, accept)[m];
              BracketMatchAt(s, c.0, accept) && c.1 == BracketContent(s, c.0)
    decreases |s| - i
  {
    if i < |s| {
      if BracketMatchAt(s, i, accept) {
        var next := FindClose(s, i + 1) + 1;
        BracketedMatches(s, next, accept);
        var rest := ScanBracketed(s, next, accept);
        var r := [(i, BracketContent(s, i))] + rest;
        assert forall m | 1 <= m < |r| :: r[m] == rest[m - 1];
      } else {
        BracketedMatches(s, i + 1, accept);
      }
    }
  }

  /** The text of a match is its content between brackets. */
  lemma BracketToken(s: string, p: nat, accept: string -> bool)
    requires BracketMatchAt(s, p, accept)
    ensures var c := BracketContent(s, p);
            p + |c| + 2 <= |s| && s[p..p + |c| + 2] == "[" + c + "]"
  {
    var k := FindClose(s, p + 1);
    assert s[p..k + 1] == [s[p]] + s[p + 1..k] + [s[k]];
  }

  /** No match starts inside another one. */
  lemma NoMatchInside(s: string, i: nat, p: nat, accept: string -> bool)
    requires NoOpenBracket(accept)
    requires BracketMatchAt(s, i, accept) && i < p <= FindClose(s, i + 1)
    ensures !BracketMatchAt(s, p, accept)
  {
    var k := FindClose(s, i + 1);
    if p < k {
      var t := s[i + 1..k];
      assert s[p] == t[p - i - 1];
    }
  }

  /** The bracketed scan misses no match at or after `i`. */
  lemma {:induction false} BracketedComplete(s: string, i: nat, p: nat, accept: string -> bool)
    requires NoOpenBracket(accept)
    requires i <= p < |s| && BracketMatchAt(s, p, accept)
    ensures Occurs(ScanBracketed(s, i, accept), p)
    decreases |s| - i
  {
    var r := ScanBracketed(s, i, accept);
    if p == i {
      assert r[0].0 == p;
    } else if BracketMatchAt(s, i, accept) {
      var k := FindClose(s, i + 1);
      if p <= k {
        NoMatchInside(s, i, p, accept);
      } else {
        BracketedComplete(s, k + 1, p, accept);
        var rest := ScanBracketed(s, k + 1, accept);
        var m :| 0 <= m < |rest| && rest[m].0 == p;
        assert r[m + 1].0 == p;
      }
    } else {
      BracketedComplete(s, i + 1, p, accept);
    }
  }

  /** `p` starts a maximal run of non-whitespace characters. */
  predicate RunAt(s: string, p: nat) {
    p < |s| && !IsSpace(s[p]) && (p == 0 || IsSpace(s[p - 1]))
  }

  /** The run starting at `p`. */
  function Run(s: string, p: nat): string
    requires p <= |s|
  {
    s[p..RunEnd(s, p)]
  }

  /** `finditer(r"\S+")` from `i` on, keeping the runs `accept` admits. */
  function ScanRuns(s: string, i: nat, accept: string -> bool): seq<Occurrence>
    requires i <= |s|
    decreases |s| - i
  {
    if i == |s| then []
    else if IsSpace(s[i]) then ScanRuns(s, i + 1, accept)
    else if accept(Run(s, i)) then [(i, Run(s, i))] + ScanRuns(s, RunEnd(s, i), accept)
    else ScanRuns(s, RunEnd(s, i), accept)
  }

  /** A position the `\S+` scan can resume from: never strictly inside a run. */
  predicate AtBoundary(s: string, i: nat) {
    i == 0 || i >= |s| || IsSpace(s[i - 1]) || IsSpace(s[i])
  }

  /** The runs kept from a boundary `i` on sit at or after `i`, in increasing order. */
  lemma {:induction false} RunsOrdered(s: string, i: nat, accept: string -> bool)
    requires i <= |s| && AtBoundary(s, i)
    ensures From(ScanRuns(s, i, accept), i)
    ensures StrictlyIncreasing(ScanRuns(s, i, accept))
    decreases |s| - i
  {
    if i < |s| {
      if IsSpace(s[i]) {
        RunsOrdered(s, i + 1, accept);
      } else {
        var next := RunEnd(s, i);
        RunsOrdered(s, next, accept);
        var rest := ScanRuns(s, next, accept);
        var r := [(i, Run(s, i))] + rest;
        assert forall m | 1 <= m < |r| :: r[m] == rest[m - 1];
      }
    }
  }

  /** Every run kept from a boundary `i` on is an accepted run. */
  lemma {:induction false} RunsMatches(s: string, i: nat, accept: string -> bool)
    requires i <= |s| && AtBoundary(s, i)
    ensures forall m | 0 <= m < |ScanRuns(s, i, accept)| ::
              var c := ScanRuns(s, i, accept)[m]; RunAt(s, c.0) && c.1 == Run(s, c.0) && accept(c.1)
    decreases |s| - i
  {
    if i < |s| {
      if IsSpace(s[i]) {
        RunsMatches(s, i + 1, accept);
      } else {
        var next := RunEnd(s, i);
        RunsMatches(s, next, accept);
        var rest := ScanRuns(s, next, accept);
        var r := [(i, Run(s, i))] + rest;
        assert forall m | 1 <= m < |r| :: r[m] == rest[m - 1];
      }
    }
  }

  /** The run scan misses no accepted run at or after a boundary `i`. */
  lemma {:induction false} RunsComplete(s: string, i: nat, p: nat, accept: string -> bool)
    requires i <= p < |s| && AtBoundary(s, i) && RunAt(s, p) && accept(Run(s, p))
    ensures Occurs(ScanRuns(s, i, accept), p)
    decreases |s| - i
  {
    var r := ScanRuns(s, i, accept);
    if p == i {
      assert r[0].0 == p;
    } else if IsSpace(s[i]) {
      RunsComplete(s, i + 1, p, accept);
    } else {
      var j := RunEnd(s, i);
      assert p >= j;
      RunsComplete(s, j, p, accept);
      var rest := ScanRuns(s, j, accept);
      var m :| 0 <= m < |rest| && rest[m].0 == p;
      if accept(Run(s, i)) {
        assert r[m + 1].0 == p;
      } else {
        assert r[m].0 == p;
      }
    }
  }

  /** `extract_chords_with_offsets`. */
  function ExtractChords(line: string, style: Style): seq<Occurrence> {
    match style
    case Bracketed => ScanBracketed(line, 0, IsBracketChordName)
    case Unbracketed => ScanRuns(line, 0, MatchesChordName)
  }

  /** Where the style's chord pattern matches. */
  predicate IsMatchAt(s: string, style: Style, p: nat) {
    match style
    case Bracketed => BracketMatchAt(s, p, IsBracketChordName)
    case Unbracketed => RunAt(s, p) && MatchesChordName(Run(s, p))
  }

  /** The text the source promises to find at an occurrence's offset. */
  predicate TokenAt(s: string, style: Style, c: Occurrence) {
    match style
    case Bracketed => c.0 + |c.1| + 2 <= |s| && s[c.0..c.0 + |c.1| + 2] == "[" + c.1 + "]"
    case Unbracketed => c.0 + |c.1| <= |s| && s[c.0..c.0 + |c.1|] == c.1
  }

  lemma BracketNamesHaveNoOpenBracket()
    ensures NoOpenBracket(IsBracketChordName)
  {
    forall t | IsBracketChordName(t) ensures forall j | 0 <= j < |t| :: t[j] != '[' {
      ChordNameChars(t);
    }
  }

  /** The bracketed scan of a line: increasing, sound and complete. */
  lemma BracketedSpec(line: string)
    ensures StrictlyIncreasing(ExtractChords(line, Bracketed))
    ensures forall m | 0 <= m < |ExtractChords(line, Bracketed)| ::
              IsMatchAt(line, Bracketed, ExtractChords(line, Bracketed)[m].0)
              && TokenAt(line, Bracketed, ExtractChords(line, Bracketed)[m])
    ensures forall p | 0 <= p < |line| && IsMatchAt(line, Bracketed, p) :: Occurs(ExtractChords(line, Bracketed), p)
  {
    var r := ScanBracketed(line, 0, IsBracketChordName);
    BracketedOrdered(line, 0, IsBracketChordName);
    assert forall m | 0 <= m < |r| :: IsMatchAt(line, Bracketed, r[m].0) && TokenAt(line, Bracketed, r[m]) by {
      BracketedMatches(line, 0, IsBracketChordName);
      forall m | 0 <= m < |r| ensures TokenAt(line, Bracketed, r[m]) {
        BracketToken(line, r[m].0, IsBracketChordName);
      }
    }
    assert forall p | 0 <= p < |line| && IsMatchAt(line, Bracketed, p) :: Occurs(r, p) by {
      BracketNamesHaveNoOpenBracket();
      forall p | 0 <= p < |line| && IsMatchAt(line, Bracketed, p) ensures Occurs(r, p) {
        BracketedComplete(line, 0, p, IsBracketChordName);
      }
    }
  }

  /** The run scan of a line: increasing, sound and complete. */
  lemma UnbracketedSpec(line: string)
    ensures StrictlyIncreasing(ExtractChords(line, Unbracketed))
    ensures forall m | 0 <= m < |ExtractChords(line, Unbracketed)| ::
              IsMatchAt(line, Unbracketed, ExtractChords(line, Unbracketed)[m].0)
              && TokenAt(line, Unbracketed, ExtractChords(line, Unbracketed)[m])
    ensures forall p | 0 <= p < |line| && IsMatchAt(line, Unbracketed, p) :: Occurs(ExtractChords(line, Unbracketed), p)
  {
    var r := ScanRuns(line, 0, MatchesChordName);
    RunsOrdered(line, 0, MatchesChordName);
    RunsMatches(line, 0, MatchesChordName);
    forall p | 0 <= p < |line| && IsMatchAt(line, Unbracketed, p) ensures Occurs(r, p) {
      RunsComplete(line, 0, p, MatchesChordName);
    }
  }

  /**
   * The occurrences come in strictly increasing offset order, each sits on a
   * match of the style's pattern with its text there, and every match is found.
   */
  lemma ExtractChordsSpec(line: string, style: Style)
    ensures StrictlyIncreasing(ExtractChords(line, style))
    ensures forall m | 0 <= m < |ExtractChords(line, style)| ::
              IsMatchAt(line, style, ExtractChords(line, style)[m].0)
              && TokenAt(line, style, ExtractChords(line, style)[m])
    ensures forall p | 0 <= p < |line| && IsMatchAt(line, style, p) :: Occurs(ExtractChords(line, style), p)
  {
    match style
    case Bracketed => BracketedSpec(line);
    case Unbracketed => UnbracketedSpec(line);
  }
}
