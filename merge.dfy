/**
 * `merge_chord_lyric_lines`: splice a `[name]` marker for every chord of a
 * chord line into the lyric line below it.
 *
 * The source walks the chords with a running count of inserted characters
 * and shifts each offset by it. `Splice` is an independent description of the
 * intended result in lyric coordinates: each marker stands after the first
 * `min(offset, |lyric|)` characters of the lyric, later chords after earlier
 * ones. The method is proved to compute it, and `Layout` shows that the result
 * is the lyric with the markers (and nothing else) interleaved.
 */
module Merge {
  import opened Strings
  import opened Classify
  import opened Extract

  /** A character of the lyric, or a chord marker. */
  datatype Piece = Text(c: char) | Marker(name: string)

  function MarkerText(name: string): string {
    "[" + name + "]"
  }

  /** The string a sequence of pieces spells. */
  function Show(ps: seq<Piece>): string {
    if ps == [] then []
    else (match ps[0] case Text(c) => [c] case Marker(n) => MarkerText(n)) + Show(ps[1..])
  }

  /** The lyric characters among the pieces, in order. */
  function TextOf(ps: seq<Piece>): string {
    if ps == [] then []
    else (match ps[0] case Text(c) => [c] case Marker(_) => []) + TextOf(ps[1..])
  }

  /** The marker names among the pieces, in order. */
  function MarkersOf(ps: seq<Piece>): seq<string> {
    if ps == [] then []
    else (match ps[0] case Text(_) => [] case Marker(n) => [n]) + MarkersOf(ps[1..])
  }

  function Texts(s: string): (r: seq<Piece>)
    ensures |r| == |s|
  {
    if s == [] then [] else [Text(s[0])] + Texts(s[1..])
  }

  function Names(cs: seq<Occurrence>): (r: seq<string>)
    ensures |r| == |cs|
  {
    if cs == [] then [] else [cs[0].1] + Names(cs[1..])
  }

  lemma {:induction false} NamesAppend(a: seq<Occurrence>, b: seq<Occurrence>)
    ensures Names(a + b) == Names(a) + Names(b)
  {
    if a != [] {
      assert (a + b)[1..] == a[1..] + b;
      NamesAppend(a[1..], b);
    } else {
      assert a + b == b;
    }
  }

  /** The lyric column a chord lands on: its offset, clamped to the lyric's end. */
  function Column(offset: nat, lyric: string): nat {
    if offset < |lyric| then offset else |lyric|
  }

  /** Starting at column `from`, each chord's column is at least the previous one's. */
  predicate Placeable(cs: seq<Occurrence>, lyric: string, from: nat)
    decreases |cs|
  {
    && from <= |lyric|
    && (cs != [] ==> from <= Column(cs[0].0, lyric) && Placeable(cs[1..], lyric, Column(cs[0].0, lyric)))
  }

  /** Offsets in non-decreasing order, all at or after `from`, can be placed. */
  lemma {:induction false} SortedPlaceable(cs: seq<Occurrence>, lyric: string, from: nat)
    requires from <= |lyric|
    requires forall k | 0 <= k < |cs| :: from <= cs[k].0
    requires forall a, b | 0 <= a < b < |cs| :: cs[a].0 <= cs[b].0
    ensures Placeable(cs, lyric, from)
    decreases |cs|
  {
    if cs != [] {
      var q := Column(cs[0].0, lyric);
      assert forall k | 0 <= k < |cs| - 1 :: cs[1..][k] == cs[k + 1];
      SortedPlaceable(cs[1..], lyric, q);
    }
  }

  /** Every placed chord's column is at least `from`. */
  lemma {:induction false} PlaceableFrom(cs: seq<Occurrence>, lyric: string, from: nat, k: nat)
    requires Placeable(cs, lyric, from) && k < |cs|
    ensures from <= Column(cs[k].0, lyric)
    decreases |cs|
  {
    if k > 0 {
      PlaceableFrom(cs[1..], lyric, Column(cs[0].0, lyric), k - 1);
      assert cs[1..][k - 1] == cs[k];
    }
  }

  /** A prefix of placeable chords is placeable. */
  lemma {:induction false} PlaceablePrefix(cs: seq<Occurrence>, lyric: string, from: nat, k: nat)
    requires Placeable(cs, lyric, from) && k <= |cs|
    ensures Placeable(cs[..k], lyric, from)
    decreases |cs|
  {
    if k > 0 {
      PlaceablePrefix(cs[1..], lyric, Column(cs[0].0, lyric), k - 1);
      assert cs[..k][1..] == cs[1..][..k - 1];
    }
  }

  /** The intended merge of `lyric[from..]` with the chords `cs`, in lyric coordinates. */
  function Splice(lyric: string, from: nat, cs: seq<Occurrence>): string
    requires Placeable(cs, lyric, from)
    decreases |cs|
  {
    if cs == [] then lyric[from..]
    else
      var q := Column(cs[0].0, lyric);
      lyric[from..q] + MarkerText(cs[0].1) + Splice(lyric, q, cs[1..])
  }

  /** The same merge as a sequence of pieces. */
  function Layout(lyric: string, from: nat, cs: seq<Occurrence>): seq<Piece>
    requires Placeable(cs, lyric, from)
    decreases |cs|
  {
    if cs == [] then Texts(lyric[from..])
    else
      var q := Column(cs[0].0, lyric);
      Texts(lyric[from..q]) + [Marker(cs[0].1)] + Layout(lyric, q, cs[1..])
  }

  /** The merged line the source evidently means to produce. */
  function Merged(chordLine: string, lyric: string, style: Style): string {
    var cs := ExtractChords(chordLine, style);
    ExtractedPlaceable(chordLine, lyric, style);
    Splice(lyric, 0, cs)
  }

  lemma ExtractedPlaceable(chordLine: string, lyric: string, style: Style)
    ensures Placeable(ExtractChords(chordLine, style), lyric, 0)
  {
    var cs := ExtractChords(chordLine, style);
    ExtractChordsSpec(chordLine, style);
    assert forall a, b | 0 <= a < b < |cs| :: cs[a].0 <= cs[b].0;
    SortedPlaceable(cs, lyric, 0);
  }

  lemma {:induction false} ShowAppend(a: seq<Piece>, b: seq<Piece>)
    ensures Show(a + b) == Show(a) + Show(b)
  {
    if a != [] {
      assert (a + b)[1..] == a[1..] + b;
      ShowAppend(a[1..], b);
    } else {
      assert a + b == b;
    }
  }

  lemma {:induction false} TextOfAppend(a: seq<Piece>, b: seq<Piece>)
    ensures TextOf(a + b) == TextOf(a) + TextOf(b)
  {
    if a != [] {
      assert (a + b)[1..] == a[1..] + b;
      TextOfAppend(a[1..], b);
    } else {
      assert a + b == b;
    }
  }

  lemma {:induction false} MarkersOfAppend(a: seq<Piece>, b: seq<Piece>)
    ensures MarkersOf(a + b) == MarkersOf(a) + MarkersOf(b)
  {
    if a != [] {
      assert (a + b)[1..] == a[1..] + b;
      MarkersOfAppend(a[1..], b);
    } else {
      assert a + b == b;
    }
  }

  lemma {:induction false} TextsSpec(s: string)
    ensures Show(Texts(s)) == s && TextOf(Texts(s)) == s && MarkersOf(Texts(s)) == []
  {
    if s != [] {
      TextsSpec(s[1..]);
    }
  }

  lemma {:induction false} MarkupLengthAppend(a: seq<string>, b: seq<string>)
    ensures MarkupLength(a + b) == MarkupLength(a) + MarkupLength(b)
  {
    if a != [] {
      assert (a + b)[1..] == a[1..] + b;
      MarkupLengthAppend(a[1..], b);
    } else {
      assert a + b == b;
    }
  }

  /**
   * The spliced line spells the layout, whose lyric characters are exactly
   * `lyric[from..]` and whose markers are the chords' names in order.
   */
  lemma LayoutSpec(lyric: string, from: nat, cs: seq<Occurrence>)
    requires Placeable(cs, lyric, from)
    ensures Show(Layout(lyric, from, cs)) == Splice(lyric, from, cs)
    ensures TextOf(Layout(lyric, from, cs)) == lyric[from..]
    ensures MarkersOf(Layout(lyric, from, cs)) == Names(cs)
  {
    LayoutShows(lyric, from, cs);
    LayoutText(lyric, from, cs);
    LayoutMarkers(lyric, from, cs);
  }

  lemma {:induction false} LayoutShows(lyric: string, from: nat, cs: seq<Occurrence>)
    requires Placeable(cs, lyric, from)
    ensures Show(Layout(lyric, from, cs)) == Splice(lyric, from, cs)
    decreases |cs|
  {
    if cs == [] {
      TextsSpec(lyric[from..]);
    } else {
      var q := Column(cs[0].0, lyric);
      var head := Texts(lyric[from..q]);
      var mark := [Marker(cs[0].1)];
      ShowAppend(head + mark, Layout(lyric, q, cs[1..]));
      ShowAppend(head, mark);
      TextsSpec(lyric[from..q]);
      assert Show(mark) == MarkerText(cs[0].1);
      LayoutShows(lyric, q, cs[1..]);
    }
  }

  lemma {:induction false} LayoutText(lyric: string, from: nat, cs: seq<Occurrence>)
    requires Placeable(cs, lyric, from)
    ensures TextOf(Layout(lyric, from, cs)) == lyric[from..]
    decreases |cs|
  {
    if cs == [] {
      TextsSpec(lyric[from..]);
    } else {
      var q := Column(cs[0].0, lyric);
      var head := Texts(lyric[from..q]);
      var mark := [Marker(cs[0].1)];
      TextOfAppend(head + mark, Layout(lyric, q, cs[1..]));
      TextOfAppend(head, mark);
      TextsSpec(lyric[from..q]);
      assert TextOf(mark) == [];
      LayoutText(lyric, q, cs[1..]);
      assert lyric[from..q] + lyric[q..] == lyric[from..];
    }
  }

  lemma {:induction false} LayoutMarkers(lyric: string, from: nat, cs: seq<Occurrence>)
    requires Placeable(cs, lyric, from)
    ensures MarkersOf(Layout(lyric, from, cs)) == Names(cs)
    decreases |cs|
  {
    if cs == [] {
      TextsSpec(lyric[from..]);
    } else {
      var q := Column(cs[0].0, lyric);
      var head := Texts(lyric[from..q]);
      var mark := [Marker(cs[0].1)];
      MarkersOfAppend(head + mark, Layout(lyric, q, cs[1..]));
      MarkersOfAppend(head, mark);
      TextsSpec(lyric[from..q]);
      assert MarkersOf(mark) == [cs[0].1];
      LayoutMarkers(lyric, q, cs[1..]);
    }
  }

  /** The spliced line is the lyric plus every marker with its brackets. */
  lemma {:induction false} SpliceLength(lyric: string, from: nat, cs: seq<Occurrence>)
    requires Placeable(cs, lyric, from)
    ensures |Splice(lyric, from, cs)| == |lyric| - from + MarkupLength(Names(cs))
    decreases |cs|
  {
    if cs != [] {
      SpliceLength(lyric, Column(cs[0].0, lyric), cs[1..]);
      assert Names(cs) == [cs[0].1] + Names(cs[1..]);
    }
  }

  /** A window of the tail, seen from the whole string. */
  lemma WindowShift(whole: string, pre: string, rest: string, p: nat, n: nat)
    requires whole == pre + rest && p + n <= |rest|
    ensures whole[|pre| + p..|pre| + p + n] == rest[p..p + n]
  {
  }

  /** Inserting into the tail is inserting into the whole string, further along. */
  lemma InsertShift(pre: string, t: string, m: string, p: nat)
    requires p <= |t|
    ensures pre + (t[..p] + m + t[p..]) == (pre + t)[..|pre| + p] + m + (pre + t)[|pre| + p..]
  {
    assert (pre + t)[..|pre| + p] == pre + t[..p];
    assert (pre + t)[|pre| + p..] == t[p..];
  }

  /** The markup before chord `k` is the first chord's, then the markup before it among the rest. */
  lemma PrefixMarkup(cs: seq<Occurrence>, k: nat)
    requires 0 < k < |cs|
    ensures cs[1..][k - 1] == cs[k]
    ensures MarkupLength(Names(cs[..k])) == |cs[0].1| + 2 + MarkupLength(Names(cs[1..][..k - 1]))
  {
    assert cs[..k][1..] == cs[1..][..k - 1];
  }

  /**
   * Marker `k` starts at its column (relative to `from`) plus the length of
   * the markers before it.
   */
  lemma {:induction false} MarkerAt(lyric: string, from: nat, cs: seq<Occurrence>, k: nat)
    requires Placeable(cs, lyric, from) && k < |cs|
    ensures var p := Column(cs[k].0, lyric) - from + MarkupLength(Names(cs[..k]));
            && 0 <= p
            && p + |cs[k].1| + 2 <= |Splice(lyric, from, cs)|
            && Splice(lyric, from, cs)[p..p + |cs[k].1| + 2] == MarkerText(cs[k].1)
    decreases |cs|
  {
    PlaceableFrom(cs, lyric, from, k);
    if k == 0 {
      MarkerAtHead(lyric, from, cs);
    } else {
      MarkerAt(lyric, Column(cs[0].0, lyric), cs[1..], k - 1);
      MarkerAtTail(lyric, from, cs, k);
    }
  }

  /** The first marker follows the lyric up to its column. */
  lemma MarkerAtHead(lyric: string, from: nat, cs: seq<Occurrence>)
    requires Placeable(cs, lyric, from) && cs != []
    ensures var p := Column(cs[0].0, lyric) - from + MarkupLength(Names(cs[..0]));
            && 0 <= p
            && p + |cs[0].1| + 2 <= |Splice(lyric, from, cs)|
            && Splice(lyric, from, cs)[p..p + |cs[0].1| + 2] == MarkerText(cs[0].1)
  {
    var q := Column(cs[0].0, lyric);
    var rest := Splice(lyric, q, cs[1..]);
    var whole := Splice(lyric, from, cs);
    var m := MarkerText(cs[0].1);
    assert whole == lyric[from..q] + (m + rest);
    assert cs[..0] == [];
    WindowShift(whole, lyric[from..q], m + rest, 0, |m|);
  }

  /** A later marker is where it sits in the splice of the tail, shifted by the head. */
  lemma MarkerAtTail(lyric: string, from: nat, cs: seq<Occurrence>, k: nat)
    requires Placeable(cs, lyric, from) && 0 < k < |cs|
    requires from <= Column(cs[k].0, lyric)
    requires var q := Column(cs[0].0, lyric);
             var p := Column(cs[1..][k - 1].0, lyric) - q + MarkupLength(Names(cs[1..][..k - 1]));
             && 0 <= p
             && p + |cs[1..][k - 1].1| + 2 <= |Splice(lyric, q, cs[1..])|
             && Splice(lyric, q, cs[1..])[p..p + |cs[1..][k - 1].1| + 2] == MarkerText(cs[1..][k - 1].1)
    ensures var p := Column(cs[k].0, lyric) - from + MarkupLength(Names(cs[..k]));
            && 0 <= p
            && p + |cs[k].1| + 2 <= |Splice(lyric, from, cs)|
            && Splice(lyric, from, cs)[p..p + |cs[k].1| + 2] == MarkerText(cs[k].1)
  {
    var q := Column(cs[0].0, lyric);
    var pre := lyric[from..q] + MarkerText(cs[0].1);
    var rest := Splice(lyric, q, cs[1..]);
    var whole := Splice(lyric, from, cs);
    assert whole == pre + rest;
    var m := MarkerText(cs[k].1);
    PrefixMarkup(cs, k);
    var p' := Column(cs[k].0, lyric) - q + MarkupLength(Names(cs[1..][..k - 1]));
    WindowShift(whole, pre, rest, p', |m|);
  }

  /** A single chord splits the lyric at its column. */
  lemma SpliceSingle(lyric: string, from: nat, c: Occurrence)
    requires Placeable([c], lyric, from)
    ensures var q := Column(c.0, lyric);
            from <= q && Splice(lyric, from, [c]) == lyric[from..][..q - from] + MarkerText(c.1) + lyric[from..][q - from..]
  {
    var q := Column(c.0, lyric);
    assert [c][1..] == [];
    assert lyric[from..][..q - from] == lyric[from..q];
    assert lyric[from..][q - from..] == lyric[q..];
  }

  /** Placing one more chord at the end inserts its marker at its column, after all earlier markers. */
  lemma {:induction false} SpliceSnoc(lyric: string, from: nat, cs: seq<Occurrence>, c: Occurrence)
    requires Placeable(cs + [c], lyric, from)
    ensures Placeable(cs, lyric, from)
    ensures var r := Splice(lyric, from, cs);
            var pos := Column(c.0, lyric) - from + MarkupLength(Names(cs));
            0 <= pos <= |r| && Splice(lyric, from, cs + [c]) == r[..pos] + MarkerText(c.1) + r[pos..]
    decreases |cs|
  {
    PlaceablePrefix(cs + [c], lyric, from, |cs|);
    assert (cs + [c])[..|cs|] == cs;
    PlaceableFrom(cs + [c], lyric, from, |cs|);
    assert (cs + [c])[|cs|] == c;
    if cs == [] {
      assert cs + [c] == [c];
      SpliceSingle(lyric, from, c);
    } else {
      assert (cs + [c])[1..] == cs[1..] + [c];
      SpliceSnoc(lyric, Column(cs[0].0, lyric), cs[1..], c);
      SnocCons(lyric, from, cs, c);
    }
  }

  /** The inductive step of `SpliceSnoc`: the insertion into the tail, seen from the whole line. */
  lemma SnocCons(lyric: string, from: nat, cs: seq<Occurrence>, c: Occurrence)
    requires cs != [] && Placeable(cs, lyric, from) && Placeable(cs + [c], lyric, from)
    requires from <= Column(c.0, lyric)
    requires var q := Column(cs[0].0, lyric);
             var tail := Splice(lyric, q, cs[1..]);
             var pos := Column(c.0, lyric) - q + MarkupLength(Names(cs[1..]));
             && (cs + [c])[1..] == cs[1..] + [c]
             && Placeable(cs[1..] + [c], lyric, q)
             && 0 <= pos <= |tail| && Splice(lyric, q, cs[1..] + [c]) == tail[..pos] + MarkerText(c.1) + tail[pos..]
    ensures var r := Splice(lyric, from, cs);
            var pos := Column(c.0, lyric) - from + MarkupLength(Names(cs));
            0 <= pos <= |r| && Splice(lyric, from, cs + [c]) == r[..pos] + MarkerText(c.1) + r[pos..]
  {
    var q := Column(cs[0].0, lyric);
    var tail := Splice(lyric, q, cs[1..]);
    var pos' := Column(c.0, lyric) - q + MarkupLength(Names(cs[1..]));
    var pre := lyric[from..q] + MarkerText(cs[0].1);
    var m := MarkerText(c.1);
    var r := Splice(lyric, from, cs);
    assert r == pre + tail;
    assert Column(c.0, lyric) - from + MarkupLength(Names(cs)) == |pre| + pos' by {
      assert Names(cs) == [cs[0].1] + Names(cs[1..]);
    }
    calc {
      Splice(lyric, from, cs + [c]);
      pre + Splice(lyric, q, cs[1..] + [c]);
      pre + (tail[..pos'] + m + tail[pos'..]);
      { InsertShift(pre, tail, m, pos'); }
      r[..|pre| + pos'] + m + r[|pre| + pos'..];
    }
  }

  /**
   * One step of the source's loop: with `inserted` characters already added,
   * inserting chord `k` at `min(offset + inserted, |result|)` places it at its
   * lyric column.
   */
  lemma SpliceStep(lyric: string, cs: seq<Occurrence>, k: nat, result: string, inserted: nat)
    requires Placeable(cs, lyric, 0) && k < |cs|
    requires Placeable(cs[..k], lyric, 0)
    requires result == Splice(lyric, 0, cs[..k]) && inserted == MarkupLength(Names(cs[..k]))
    ensures Placeable(cs[..k + 1], lyric, 0)
    ensures var pos := if cs[k].0 + inserted < |result| then cs[k].0 + inserted else |result|;
            && result[..pos] + MarkerText(cs[k].1) + result[pos..] == Splice(lyric, 0, cs[..k + 1])
            && inserted + |cs[k].1| + 2 == MarkupLength(Names(cs[..k + 1]))
  {
    var prefix := cs[..k];
    var c := cs[k];
    assert cs[..k + 1] == prefix + [c];
    PlaceablePrefix(cs, lyric, 0, k + 1);
    SpliceLength(lyric, 0, prefix);
    assert |result| == |lyric| + inserted;
    var pos := if c.0 + inserted < |result| then c.0 + inserted else |result|;
    assert pos == Column(c.0, lyric) + inserted;
    SpliceSnoc(lyric, 0, prefix, c);
    NamesAppend(prefix, [c]);
    assert Names([c]) == [c.1];
    MarkupLengthAppend(Names(prefix), [c.1]);
  }

  /** `merge_chord_lyric_lines`. */
  method MergeChordLyricLines(chordLine: string, lyricLine: string, style: Style) returns (result: string)
    ensures result == Merged(chordLine, lyricLine, style)
    ensures ExtractChords(chordLine, style) == [] ==> result == lyricLine
  {
    var chords := ExtractChords(chordLine, style);
    ExtractedPlaceable(chordLine, lyricLine, style);
    if |chords| == 0 {
      return lyricLine;
    }
    result := lyricLine;
    var inserted := 0;
    assert chords[..0] == [];
    for k := 0 to |chords|
      invariant Placeable(chords[..k], lyricLine, 0)
      invariant result == Splice(lyricLine, 0, chords[..k])
      invariant inserted == MarkupLength(Names(chords[..k]))
    {
      var (offset, name) := chords[k];
      var bracket := "[" + name + "]";
      var pos := if offset + inserted < |result| then offset + inserted else |result|;
      SpliceStep(lyricLine, chords, k, result, inserted);
      result := result[..pos] + bracket + result[pos..];
      inserted := inserted + |bracket|;
    }
    assert chords[..|chords|] == chords;
  }

  /** The merged line is the lyric plus every marker with its brackets. */
  lemma MergedLength(chordLine: string, lyric: string, style: Style)
    ensures |Merged(chordLine, lyric, style)| == |lyric| + MarkupLength(Names(ExtractChords(chordLine, style)))
  {
    ExtractedPlaceable(chordLine, lyric, style);
    SpliceLength(lyric, 0, ExtractChords(chordLine, style));
  }

  /**
   * Taking the markers out of the merged line gives back the lyric exactly,
   * and the markers are those of the chord line, once each, in order.
   */
  lemma MergedErases(chordLine: string, lyric: string, style: Style)
    ensures exists ps :: Show(ps) == Merged(chordLine, lyric, style)
                         && TextOf(ps) == lyric && MarkersOf(ps) == Names(ExtractChords(chordLine, style))
  {
    var cs := ExtractChords(chordLine, style);
    ExtractedPlaceable(chordLine, lyric, style);
    LayoutSpec(lyric, 0, cs);
    var ps := Layout(lyric, 0, cs);
  }

  /**
   * Each chord's marker lands at its own offset (clamped to the lyric's end)
   * shifted by the markers inserted before it.
   */
  lemma MergedMarkerAt(chordLine: string, lyric: string, style: Style, k: nat)
    requires k < |ExtractChords(chordLine, style)|
    ensures var cs := ExtractChords(chordLine, style);
            var p := Column(cs[k].0, lyric) + MarkupLength(Names(cs[..k]));
            var r := Merged(chordLine, lyric, style);
            p + |cs[k].1| + 2 <= |r| && r[p..p + |cs[k].1| + 2] == "[" + cs[k].1 + "]"
  {
    ExtractedPlaceable(chordLine, lyric, style);
    MarkerAt(lyric, 0, ExtractChords(chordLine, style), k);
  }

  lemma LastSplit<T>(s: seq<T>)
    requires s != []
    ensures s == s[..|s| - 1] + [s[|s| - 1]]
  {
  }

  /** When the last chord's column is the lyric's end, the spliced line ends with its marker. */
  lemma SpliceEndsWithLast(lyric: string, from: nat, cs: seq<Occurrence>)
    requires Placeable(cs, lyric, from) && cs != []
    requires cs[|cs| - 1].0 >= |lyric|
    ensures var r := Splice(lyric, from, cs);
            var m := MarkerText(cs[|cs| - 1].1);
            |r| >= |m| && r[|r| - |m|..] == m
  {
    var k := |cs| - 1;
    var last := cs[k];
    MarkerAt(lyric, from, cs, k);
    SpliceLength(lyric, from, cs);
    LastSplit(cs);
    NamesAppend(cs[..k], [last]);
    assert Names([last]) == [last.1];
    MarkupLengthAppend(Names(cs[..k]), [last.1]);
    var r := Splice(lyric, from, cs);
    var p := Column(last.0, lyric) - from + MarkupLength(Names(cs[..k]));
    assert p == |r| - |MarkerText(last.1)|;
  }

  /** A chord whose column lies at or past the lyric's end is appended: the line ends with its marker. */
  lemma MergedAppendsLate(chordLine: string, lyric: string, style: Style)
    requires ExtractChords(chordLine, style) != []
    requires ExtractChords(chordLine, style)[|ExtractChords(chordLine, style)| - 1].0 >= |lyric|
    ensures var last := ExtractChords(chordLine, style)[|ExtractChords(chordLine, style)| - 1];
            var r := Merged(chordLine, lyric, style);
            |r| >= |last.1| + 2 && r[|r| - |last.1| - 2..] == "[" + last.1 + "]"
  {
    ExtractedPlaceable(chordLine, lyric, style);
    SpliceEndsWithLast(lyric, 0, ExtractChords(chordLine, style));
  }
}
