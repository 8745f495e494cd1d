/**
 * The ChordPro formatter of `chordpro.py`: metadata directives, one block per
 * section (wrapped in start/end directives, introduced by a comment, or left
 * bare), blank lines between blocks and a final newline.
 */
module ChordPro {
  import opened Wrappers
  import opened Strings
  import opened Models

  /**
   * Rendering fails only where the source raises: a label made of whitespace
   * alone has no first word, so taking word 0 of its `split()` fails.
   */
  datatype RenderError = NoFirstWord(heading: string)

  /** First words whose sections ChordPro brackets with a directive pair. */
  const Structured: map<string, (string, string)> := map[
    "verse" := ("start_of_verse", "end_of_verse"),
    "chorus" := ("start_of_chorus", "end_of_chorus"),
    "bridge" := ("start_of_bridge", "end_of_bridge")]

  /** The label prefixes ChordPro knows only as comments, in lower case. */
  const CommentKeywords: seq<string> := [
    "intro", "outro", "solo", "interlude", "instrumental", "pre-chorus",
    "prechorus", "tag", "coda", "refrain", "hook"]

  /** Some word of `words` is a prefix of `s`. */
  predicate StartsWithAny(words: seq<string>, s: string) {
    words != [] && (words[0] <= s || StartsWithAny(words[1..], s))
  }

  /** The case-insensitive comment-keyword pattern matches at the start of `heading`. */
  predicate IsCommentKeyword(heading: string) {
    StartsWithAny(CommentKeywords, Lower(heading))
  }

  function Directive(name: string): string {
    "{" + name + "}"
  }

  function DirectiveWith(name: string, value: string): string {
    "{" + name + ": " + value + "}"
  }

  /** The text of every line of a section, in order. */
  function Contents(lines: seq<Line>): (r: seq<string>)
    ensures |r| == |lines|
    ensures forall i | 0 <= i < |lines| :: r[i] == lines[i].content
  {
    seq(|lines|, i requires 0 <= i < |lines| => lines[i].content)
  }

  /** The lines of one section block. */
  function RenderSection(s: Section): Result<seq<string>, RenderError> {
    var lines := Contents(s.lines);
    if s.heading.None? || s.heading.value == [] then Ok(lines)
    else
      var heading := s.heading.value;
      var words := SplitWhitespace(Lower(heading));
      if words == [] then Err(NoFirstWord(heading))
      else
        var first := words[0];
        if first in Structured then
          var (start, end) := Structured[first];
          if first == "verse" then Ok([DirectiveWith(start, heading)] + lines + [Directive(end)])
          else Ok([Directive(start)] + lines + [Directive(end)])
        else if IsCommentKeyword(heading) then Ok([DirectiveWith("comment", heading)] + lines)
        else Ok([DirectiveWith("comment", heading)] + lines)
  }

  // ---------------------------------------------------------------------------
  // Integers as text
  // ---------------------------------------------------------------------------

  function Digit(d: nat): char
    requires d < 10
  {
    ('0' as int + d) as char
  }

  /** The decimal digits of `n` (Python's `str` on a non-negative `int`). */
  function NatString(n: nat): (r: string)
    ensures r != [] && AllDigits(r)
    ensures |r| == 1 <==> n < 10
    ensures r[0] == '0' <==> n == 0
    decreases n
  {
    if n < 10 then [Digit(n)] else NatString(n / 10) + [Digit(n % 10)]
  }

  /** The value a string of decimal digits denotes. */
  function DecimalValue(s: string): nat
    requires AllDigits(s)
  {
    if s == [] then 0 else DecimalValue(s[..|s| - 1]) * 10 + (s[|s| - 1] as int - '0' as int)
  }

  /** Python's `str` on an `int`: a minus sign before the digits of a negative number. */
  function IntToString(n: int): string {
    if n < 0 then "-" + NatString(-n) else NatString(n)
  }

  /** Reading back the digits `NatString` writes gives the number. */
  lemma {:induction false} NatStringValue(n: nat)
    ensures DecimalValue(NatString(n)) == n
    decreases n
  {
    if n >= 10 {
      var s := NatString(n);
      assert s[..|s| - 1] == NatString(n / 10);
      NatStringValue(n / 10);
    }
  }

  /** Only a negative number is written with a leading minus sign. */
  lemma SignOf(n: int)
    ensures IntToString(n) != [] && (IntToString(n)[0] == '-' <==> n < 0)
  {
    if n >= 0 {
      assert IsDigit(NatString(n)[0]);
    }
  }

  /** Different numbers are written differently. */
  lemma IntToStringInjective(a: int, b: int)
    requires IntToString(a) == IntToString(b)
    ensures a == b
  {
    SignOf(a);
    SignOf(b);
    if a < 0 {
      assert IntToString(a)[1..] == NatString(-a);
      assert IntToString(b)[1..] == NatString(-b);
      NatStringValue(-a);
      NatStringValue(-b);
    } else {
      NatStringValue(a);
      NatStringValue(b);
    }
  }

  // ---------------------------------------------------------------------------
  // The whole song
  // ---------------------------------------------------------------------------

  /** Python truthiness of an optional string: present and not empty. */
  predicate Truthy(o: Option<string>) {
    o.Some? && o.value != []
  }

  /** Python truthiness of an optional `int`: present and not zero. */
  predicate CapoShown(o: Option<int>) {
    o.Some? && o.value != 0
  }

  /** The metadata directives, title and artist first. */
  function Metadata(song: Song): (r: seq<string>)
    ensures 2 <= |r| <= 5
    ensures r[0] == DirectiveWith("title", song.title)
    ensures r[1] == DirectiveWith("artist", song.artist)
  {
    [DirectiveWith("title", song.title), DirectiveWith("artist", song.artist)]
    + (if Truthy(song.key) then [DirectiveWith("key", song.key.value)] else [])
    + (if CapoShown(song.capo) then [DirectiveWith("capo", IntToString(song.capo.value))] else [])
    + (if Truthy(song.tuning) then [DirectiveWith("tuning", song.tuning.value)] else [])
  }

  /** The metadata fields, in the order they are written. */
  const MetadataFields: seq<string> := ["title", "artist", "key", "capo", "tuning"]

  /** The text of `s` up to its first `:`. */
  function UpToColon(s: string): string {
    if s == [] || s[0] == ':' then [] else [s[0]] + UpToColon(s[1..])
  }

  /** The field a directive line names: the text between `{` and the first `:`. */
  function FieldOf(line: string): string {
    if line == [] || line[0] != '{' then [] else UpToColon(line[1..])
  }

  /** The place of a line's field among `MetadataFields`, or `|MetadataFields|` when it names none. */
  function FieldRank(line: string): (r: nat)
    ensures r <= |MetadataFields|
    ensures r < |MetadataFields| ==> FieldOf(line) == MetadataFields[r]
  {
    var f := FieldOf(line);
    if f == "title" then 0 else if f == "artist" then 1 else if f == "key" then 2
    else if f == "capo" then 3 else if f == "tuning" then 4 else 5
  }

  lemma {:induction false} UpToColonAppend(name: string, rest: string)
    requires ':' !in name
    requires rest != [] && rest[0] == ':'
    ensures UpToColon(name + rest) == name
    decreases |name|
  {
    if name == [] {
      assert name + rest == rest;
    } else {
      assert name[0] in name;
      assert (name + rest)[1..] == name[1..] + rest;
      UpToColonAppend(name[1..], rest);
      assert [name[0]] + name[1..] == name;
    }
  }

  /** A directive line names its own field. */
  lemma FieldOfDirective(name: string, value: string)
    requires ':' !in name
    ensures FieldOf(DirectiveWith(name, value)) == name
  {
    var line := DirectiveWith(name, value);
    assert line[1..] == name + (": " + value + "}");
    UpToColonAppend(name, ": " + value + "}");
  }

  /** Each metadata line names the field of its place in `MetadataFields`. */
  lemma MetadataRanks(song: Song)
    ensures FieldRank(DirectiveWith("title", song.title)) == 0
    ensures FieldRank(DirectiveWith("artist", song.artist)) == 1
    ensures song.key.Some? ==> FieldRank(DirectiveWith("key", song.key.value)) == 2
    ensures song.capo.Some? ==> FieldRank(DirectiveWith("capo", IntToString(song.capo.value))) == 3
    ensures song.tuning.Some? ==> FieldRank(DirectiveWith("tuning", song.tuning.value)) == 4
  {
    FieldOfDirective("title", song.title);
    FieldOfDirective("artist", song.artist);
    if song.key.Some? {
      FieldOfDirective("key", song.key.value);
    }
    if song.capo.Some? {
      FieldOfDirective("capo", IntToString(song.capo.value));
    }
    if song.tuning.Some? {
      FieldOfDirective("tuning", song.tuning.value);
    }
  }

  /** Two fixed entries and three optional ones, ranked 0 to 4, stay in rank order. */
  lemma OptionalOrder(m: seq<string>, rank: string -> nat, t: string, a: string, k: string, c: string, u: string,
                      hk: bool, hc: bool, hu: bool)
    requires m == [t, a] + (if hk then [k] else []) + (if hc then [c] else []) + (if hu then [u] else [])
    requires rank(t) == 0 && rank(a) == 1
    requires (hk ==> rank(k) == 2) && (hc ==> rank(c) == 3) && (hu ==> rank(u) == 4)
    ensures forall i | 0 <= i < |m| :: rank(m[i]) < 5
    ensures forall i, j | 0 <= i < j < |m| :: rank(m[i]) < rank(m[j])
  {
    var ks := if hk then [k] else [];
    var cs := if hc then [c] else [];
    var us := if hu then [u] else [];
    var ranks := [0, 1] + (if hk then [2] else []) + (if hc then [3] else []) + (if hu then [4] else []);
    assert |ranks| == |m|;
    assert forall i | 0 <= i < |m| :: rank(m[i]) == ranks[i];
  }

  /** The metadata lines come in the order title, artist, key, capo, tuning, each field at most once. */
  lemma MetadataOrder(song: Song)
    ensures forall i | 0 <= i < |Metadata(song)| :: FieldRank(Metadata(song)[i]) < |MetadataFields|
    ensures forall i, j | 0 <= i < j < |Metadata(song)| :: FieldRank(Metadata(song)[i]) < FieldRank(Metadata(song)[j])
  {
    MetadataRanks(song);
    var k := if song.key.Some? then DirectiveWith("key", song.key.value) else [];
    var c := if song.capo.Some? then DirectiveWith("capo", IntToString(song.capo.value)) else [];
    var u := if song.tuning.Some? then DirectiveWith("tuning", song.tuning.value) else [];
    OptionalOrder(Metadata(song), FieldRank, DirectiveWith("title", song.title), DirectiveWith("artist", song.artist),
                  k, c, u, Truthy(song.key), CapoShown(song.capo), Truthy(song.tuning));
  }

  /** How each section renders, in order. */
  function Rendered(sections: seq<Section>): (r: seq<Result<seq<string>, RenderError>>)
    ensures |r| == |sections|
    ensures forall i | 0 <= i < |sections| :: r[i] == RenderSection(sections[i])
  {
    seq(|sections|, i requires 0 <= i < |sections| => RenderSection(sections[i]))
  }

  /** The rendered blocks in order, each after a blank line, or the first failure. */
  function Blocks(results: seq<Result<seq<string>, RenderError>>): Result<seq<string>, RenderError>
    decreases |results|
  {
    if results == [] then Ok([])
    else match Blocks(results[..|results| - 1])
      case Err(e) => Err(e)
      case Ok(parts) =>
        match results[|results| - 1]
        case Err(e) => Err(e)
        case Ok(block) => Ok(parts + [""] + block)
  }

  /** The text `render` returns. */
  function RenderSong(song: Song): Result<string, RenderError> {
    match Blocks(Rendered(song.sections))
    case Err(e) => Err(e)
    case Ok(blocks) => Ok(Join(Metadata(song) + blocks, "\n") + "\n")
  }

  /** A failure among the first `k` results is the failure of all of them. */
  lemma {:induction false} BlocksErrorSticks(results: seq<Result<seq<string>, RenderError>>, k: nat)
    requires k <= |results| && Blocks(results[..k]).Err?
    ensures Blocks(results) == Blocks(results[..k])
    decreases |results| - k
  {
    if k < |results| {
      assert results[..k + 1][..k] == results[..k];
      BlocksErrorSticks(results, k + 1);
    } else {
      assert results[..k] == results;
    }
  }

  /** One more result extends the blocks by a blank line and its own block, or fails with it. */
  lemma BlocksStep(results: seq<Result<seq<string>, RenderError>>, k: nat, parts: seq<string>)
    requires k < |results| && Blocks(results[..k]) == Ok(parts)
    ensures results[k].Ok? ==> Blocks(results[..k + 1]) == Ok(parts + [""] + results[k].value)
    ensures results[k].Err? ==> Blocks(results) == Err(results[k].error)
  {
    var prefix := results[..k + 1];
    assert prefix[..|prefix| - 1] == results[..k] && prefix[|prefix| - 1] == results[k];
    if results[k].Err? {
      BlocksErrorSticks(results, k + 1);
    }
  }

  lemma Regroup<T>(a: seq<T>, b: seq<T>, c: seq<T>, d: seq<T>)
    ensures a + b + c + d == a + (b + c + d)
  {
  }

  /** `render`: the metadata lines, then a blank line and the block of each section. */
  method Render(song: Song) returns (r: Result<string, RenderError>)
    ensures r == RenderSong(song)
  {
    var parts: seq<string> := [];
    parts := parts + [DirectiveWith("title", song.title)];
    parts := parts + [DirectiveWith("artist", song.artist)];
    ghost var withKey := parts + (if Truthy(song.key) then [DirectiveWith("key", song.key.value)] else []);
    if Truthy(song.key) {
      parts := parts + [DirectiveWith("key", song.key.value)];
    }
    assert parts == withKey;
    ghost var withCapo := parts + (if CapoShown(song.capo) then [DirectiveWith("capo", IntToString(song.capo.value))] else []);
    if CapoShown(song.capo) {
      parts := parts + [DirectiveWith("capo", IntToString(song.capo.value))];
    }
    assert parts == withCapo;
    ghost var withTuning := parts + (if Truthy(song.tuning) then [DirectiveWith("tuning", song.tuning.value)] else []);
    if Truthy(song.tuning) {
      parts := parts + [DirectiveWith("tuning", song.tuning.value)];
    }
    assert parts == withTuning;
    assert parts == Metadata(song);
    ghost var meta := parts;
    ghost var results := Rendered(song.sections);
    for k := 0 to |song.sections|
      invariant Blocks(results[..k]).Ok?
      invariant parts == meta + Blocks(results[..k]).value
    {
      ghost var done := Blocks(results[..k]).value;
      BlocksStep(results, k, done);
      parts := parts + [""];
      var block := RenderSection(song.sections[k]);
      assert block == results[k];
      if block.Err? {
        return Err(block.error);
      }
      ghost var before := parts;
      parts := parts + block.value;
      Regroup(meta, done, [""], block.value);
      assert before == meta + done + [""];
    }
    assert results[..|results|] == results;
    r := Ok(Join(parts, "\n") + "\n");
  }

  // ---------------------------------------------------------------------------
  // Section blocks
  // ---------------------------------------------------------------------------

  /** A label is blank when it is present and not empty but holds only whitespace. */
  predicate BlankHeading(s: Section) {
    s.heading.Some? && s.heading.value != [] && AllSpace(s.heading.value)
  }

  /** A section fails to render exactly when its label is blank. */
  lemma SectionFails(s: Section)
    ensures RenderSection(s).Err? <==> BlankHeading(s)
    ensures RenderSection(s).Err? ==> RenderSection(s).error == NoFirstWord(s.heading.value)
  {
    if s.heading.Some? && s.heading.value != [] {
      SplitWhitespaceEmpty(Lower(s.heading.value));
      LowerSpaces(s.heading.value);
    }
  }

  /** The first word of a label, lower-cased, is the lower-cased word after its leading whitespace. */
  lemma FirstWordOfLabel(pre: string, w: string, rest: string)
    requires AllSpace(pre) && w != [] && !HasSpace(w)
    requires rest == [] || IsSpace(rest[0])
    ensures SplitWhitespace(Lower(pre + w + rest)) != []
    ensures SplitWhitespace(Lower(pre + w + rest))[0] == Lower(w)
  {
    LowerAppend(pre + w, rest);
    LowerAppend(pre, w);
    LowerSpaces(pre);
    LowerHasSpace(w);
    if rest != [] {
      assert Lower(rest)[0] == LowerChar(rest[0]);
    }
    FirstWord(Lower(pre), Lower(w), Lower(rest));
  }

  /** An unlabelled section, or one with an empty label, is its lines alone. */
  lemma UnlabelledSection(heading: Option<string>, lines: seq<Line>)
    requires heading == None || heading == Some([])
    ensures RenderSection(Section(heading, lines)) == Ok(Contents(lines))
  {
  }

  /** A label whose first word is `verse` in any case opens its block with the whole label. */
  lemma VerseSection(pre: string, w: string, rest: string, lines: seq<Line>)
    requires AllSpace(pre) && Lower(w) == "verse"
    requires rest == [] || IsSpace(rest[0])
    ensures RenderSection(Section(Some(pre + w + rest), lines))
      == Ok([DirectiveWith("start_of_verse", pre + w + rest)] + Contents(lines) + [Directive("end_of_verse")])
  {
    LowerHasSpace(w);
    FirstWordOfLabel(pre, w, rest);
  }

  /** A label whose first word is `chorus` in any case gets bare chorus directives. */
  lemma ChorusSection(pre: string, w: string, rest: string, lines: seq<Line>)
    requires AllSpace(pre) && Lower(w) == "chorus"
    requires rest == [] || IsSpace(rest[0])
    ensures RenderSection(Section(Some(pre + w + rest), lines))
      == Ok([Directive("start_of_chorus")] + Contents(lines) + [Directive("end_of_chorus")])
  {
    LowerHasSpace(w);
    FirstWordOfLabel(pre, w, rest);
  }

  /** A label whose first word is `bridge` in any case gets bare bridge directives. */
  lemma BridgeSection(pre: string, w: string, rest: string, lines: seq<Line>)
    requires AllSpace(pre) && Lower(w) == "bridge"
    requires rest == [] || IsSpace(rest[0])
    ensures RenderSection(Section(Some(pre + w + rest), lines))
      == Ok([Directive("start_of_bridge")] + Contents(lines) + [Directive("end_of_bridge")])
  {
    LowerHasSpace(w);
    FirstWordOfLabel(pre, w, rest);
  }

  /** Any other label is announced by a comment, and nothing closes its block. */
  lemma CommentSection(pre: string, w: string, rest: string, lines: seq<Line>)
    requires AllSpace(pre) && w != [] && !HasSpace(w)
    requires Lower(w) != "verse" && Lower(w) != "chorus" && Lower(w) != "bridge"
    requires rest == [] || IsSpace(rest[0])
    ensures RenderSection(Section(Some(pre + w + rest), lines))
      == Ok([DirectiveWith("comment", pre + w + rest)] + Contents(lines))
  {
    FirstWordOfLabel(pre, w, rest);
  }

  /** Each comment keyword opens with two lower-case letters that no structured first word opens with. */
  lemma KeywordFacts(k: nat)
    requires k < |CommentKeywords|
    ensures |CommentKeywords[k]| >= 2
    ensures 'a' <= CommentKeywords[k][0] <= 'z' && 'a' <= CommentKeywords[k][1] <= 'z'
    ensures CommentKeywords[k][0] != 'v' && CommentKeywords[k][0] != 'b'
    ensures CommentKeywords[k][0] == 'c' ==> CommentKeywords[k][1] == 'o'
  {
  }

  lemma {:induction false} StartsWithSome(words: seq<string>, s: string)
    requires StartsWithAny(words, s)
    ensures exists k | 0 <= k < |words| :: words[k] <= s
  {
    if !(words[0] <= s) {
      StartsWithSome(words[1..], s);
      var k :| 0 <= k < |words| - 1 && words[1..][k] <= s;
      assert words[k + 1] <= s;
    }
  }

  /** A label the comment-keyword pattern matches opens with two letters no structured word opens with. */
  lemma KeywordOpening(heading: string)
    requires IsCommentKeyword(heading)
    ensures |heading| >= 2
    ensures 'a' <= Lower(heading)[0] <= 'z' && 'a' <= Lower(heading)[1] <= 'z'
    ensures Lower(heading)[0] != 'v' && Lower(heading)[0] != 'b'
    ensures Lower(heading)[0] == 'c' ==> Lower(heading)[1] == 'o'
  {
    var low := Lower(heading);
    StartsWithSome(CommentKeywords, low);
    var k :| 0 <= k < |CommentKeywords| && CommentKeywords[k] <= low;
    KeywordFacts(k);
    var kw := CommentKeywords[k];
    assert low[0] == kw[0] && low[1] == kw[1];
  }

  /** A label the comment-keyword pattern matches starts with a word that is not a structured one. */
  lemma KeywordWord(heading: string) returns (w: string, rest: string)
    requires IsCommentKeyword(heading)
    ensures heading == w + rest && w != [] && !HasSpace(w)
    ensures Lower(w) != "verse" && Lower(w) != "chorus" && Lower(w) != "bridge"
    ensures rest == [] || IsSpace(rest[0])
  {
    KeywordOpening(heading);
    var low := Lower(heading);
    assert !IsSpace(heading[0]) && !IsSpace(heading[1]);
    var b := RunEnd(heading, 0);
    w := heading[..b];
    rest := heading[b..];
    assert Lower(w)[0] == low[0] && Lower(w)[1] == low[1];
  }

  /** A label the comment-keyword pattern matches is announced by a comment. */
  lemma CommentKeywordSection(heading: string, lines: seq<Line>)
    requires IsCommentKeyword(heading)
    ensures RenderSection(Section(Some(heading), lines))
      == Ok([DirectiveWith("comment", heading)] + Contents(lines))
  {
    var w, rest := KeywordWord(heading);
    assert heading == [] + w + rest;
    CommentSection([], w, rest, lines);
  }

  /** Rendering keeps a section's lines as they are and frames a labelled one with directive lines. */
  lemma SectionFrame(s: Section, r: seq<string>)
    requires RenderSection(s) == Ok(r)
    ensures s.heading.None? || s.heading == Some([]) ==> r == Contents(s.lines)
    ensures s.heading.Some? && s.heading.value != [] ==>
      |s.lines| + 1 <= |r| <= |s.lines| + 2 && r[1..|s.lines| + 1] == Contents(s.lines)
      && r[0] != [] && r[0][0] == '{' && (|r| == |s.lines| + 2 ==> r[|r| - 1] != [] && r[|r| - 1][0] == '{')
  {
  }

  // ---------------------------------------------------------------------------
  // The song's text
  // ---------------------------------------------------------------------------

  predicate AllOk(results: seq<Result<seq<string>, RenderError>>) {
    forall i | 0 <= i < |results| :: results[i].Ok?
  }

  /** Reference: a blank line and then each block, read from the front. */
  function Spaced(results: seq<Result<seq<string>, RenderError>>): seq<string>
    requires AllOk(results)
  {
    if results == [] then [] else [""] + results[0].value + Spaced(results[1..])
  }

  lemma {:induction false} SpacedSnoc(results: seq<Result<seq<string>, RenderError>>)
    requires results != [] && AllOk(results)
    ensures Spaced(results) == Spaced(results[..|results| - 1]) + [""] + results[|results| - 1].value
  {
    if |results| > 1 {
      var tail := results[1..];
      assert tail[..|tail| - 1] == results[..|results| - 1][1..];
      SpacedSnoc(tail);
    }
  }

  /** The blocks exist exactly when every section renders, and they are then the spaced blocks. */
  lemma {:induction false} BlocksOk(results: seq<Result<seq<string>, RenderError>>)
    ensures Blocks(results).Ok? <==> AllOk(results)
    ensures Blocks(results).Ok? ==> Blocks(results).value == Spaced(results)
    decreases |results|
  {
    if results != [] {
      var init := results[..|results| - 1];
      BlocksOk(init);
      if AllOk(results) {
        assert AllOk(init);
        SpacedSnoc(results);
      }
    }
  }

  /** The first section that fails decides the error. */
  lemma BlocksFirstError(results: seq<Result<seq<string>, RenderError>>, i: nat)
    requires i < |results| && results[i].Err? && AllOk(results[..i])
    ensures Blocks(results) == Err(results[i].error)
  {
    BlocksOk(results[..i]);
    BlocksStep(results, i, Blocks(results[..i]).value);
  }

  /** A song renders unless one of its labels is blank, and the first blank label is the error. */
  lemma RenderFails(song: Song)
    ensures RenderSong(song).Err? <==> exists i | 0 <= i < |song.sections| :: BlankHeading(song.sections[i])
  {
    var results := Rendered(song.sections);
    BlocksOk(results);
    forall i | 0 <= i < |song.sections|
      ensures results[i].Err? <==> BlankHeading(song.sections[i])
    {
      SectionFails(song.sections[i]);
    }
  }

  lemma RenderFirstFailure(song: Song, i: nat)
    requires i < |song.sections| && BlankHeading(song.sections[i])
    requires forall j | 0 <= j < i :: !BlankHeading(song.sections[j])
    ensures RenderSong(song) == Err(NoFirstWord(song.sections[i].heading.value))
  {
    var results := Rendered(song.sections);
    forall j | 0 <= j <= i
      ensures results[j].Err? <==> BlankHeading(song.sections[j])
      ensures results[j].Err? ==> results[j].error == NoFirstWord(song.sections[j].heading.value)
    {
      SectionFails(song.sections[j]);
    }
    assert AllOk(results[..i]);
    BlocksFirstError(results, i);
  }

  /**
   * The text is the metadata lines and then, for each section, a blank line and
   * its block, every line ended by a newline: so it ends with a newline and the
   * metadata comes first.
   */
  lemma RenderLayout(song: Song)
    requires RenderSong(song).Ok?
    ensures AllOk(Rendered(song.sections))
    ensures RenderSong(song).value
      == Terminated(Metadata(song)) + Terminated(Spaced(Rendered(song.sections)))
  {
    var results := Rendered(song.sections);
    BlocksOk(results);
    JoinNewlines(Metadata(song) + Spaced(results));
    TerminatedAppend(Metadata(song), Spaced(results));
  }

  /** No line of `parts` holds a line boundary. */
  predicate NoBreaks(parts: seq<string>) {
    forall i | 0 <= i < |parts| :: !HasLineBoundary(parts[i])
  }

  /** No field the formatter writes out holds a line boundary. */
  predicate SongWithoutBreaks(song: Song) {
    !HasLineBoundary(song.title) && !HasLineBoundary(song.artist)
    && (song.key.Some? ==> !HasLineBoundary(song.key.value))
    && (song.tuning.Some? ==> !HasLineBoundary(song.tuning.value))
    && forall i | 0 <= i < |song.sections| ::
         (song.sections[i].heading.Some? ==> !HasLineBoundary(song.sections[i].heading.value))
         && NoBreaks(Contents(song.sections[i].lines))
  }

  lemma DirectiveNoBreak(name: string, value: string)
    requires !HasLineBoundary(name) && !HasLineBoundary(value)
    ensures !HasLineBoundary(Directive(name)) && !HasLineBoundary(DirectiveWith(name, value))
  {
    BoundaryAppend("{", name);
    BoundaryAppend("{" + name, "}");
    BoundaryAppend("{" + name, ": ");
    BoundaryAppend("{" + name + ": ", value);
    BoundaryAppend("{" + name + ": " + value, "}");
  }

  /** A directive name is lower-case letters and underscores. */
  predicate IsName(name: string) {
    forall i | 0 <= i < |name| :: 'a' <= name[i] <= 'z' || name[i] == '_'
  }

  lemma NameNoBreak(name: string)
    requires IsName(name)
    ensures !HasLineBoundary(name)
  {
  }

  lemma DirectiveNamesNoBreak()
    ensures !HasLineBoundary("comment")
    ensures forall w | w in Structured :: !HasLineBoundary(Structured[w].0) && !HasLineBoundary(Structured[w].1)
  {
    NameNoBreak("comment");
    NameNoBreak("start_of_verse");
    NameNoBreak("end_of_verse");
    NameNoBreak("start_of_chorus");
    NameNoBreak("end_of_chorus");
    NameNoBreak("start_of_bridge");
    NameNoBreak("end_of_bridge");
  }

  lemma NumberNoBreak(n: int)
    ensures !HasLineBoundary(IntToString(n))
  {
    if n < 0 {
      BoundaryAppend("-", NatString(-n));
    }
  }

  lemma MetadataNoBreaks(song: Song)
    requires SongWithoutBreaks(song)
    ensures NoBreaks(Metadata(song))
  {
    NameNoBreak("title");
    NameNoBreak("artist");
    NameNoBreak("key");
    NameNoBreak("capo");
    NameNoBreak("tuning");
    DirectiveNoBreak("title", song.title);
    DirectiveNoBreak("artist", song.artist);
    if song.key.Some? {
      DirectiveNoBreak("key", song.key.value);
    }
    if song.capo.Some? {
      NumberNoBreak(song.capo.value);
      DirectiveNoBreak("capo", IntToString(song.capo.value));
    }
    if song.tuning.Some? {
      DirectiveNoBreak("tuning", song.tuning.value);
    }
  }

  lemma SectionNoBreaks(s: Section, r: seq<string>)
    requires RenderSection(s) == Ok(r)
    requires s.heading.Some? ==> !HasLineBoundary(s.heading.value)
    requires NoBreaks(Contents(s.lines))
    ensures NoBreaks(r)
  {
    if s.heading.Some? && s.heading.value != [] {
      var h := s.heading.value;
      DirectiveNamesNoBreak();
      forall w | w in Structured
        ensures !HasLineBoundary(DirectiveWith(Structured[w].0, h)) && !HasLineBoundary(Directive(Structured[w].0))
        ensures !HasLineBoundary(Directive(Structured[w].1))
      {
        DirectiveNoBreak(Structured[w].0, h);
        DirectiveNoBreak(Structured[w].1, h);
      }
      DirectiveNoBreak("comment", h);
    }
  }

  lemma {:induction false} SpacedNoBreaks(results: seq<Result<seq<string>, RenderError>>)
    requires AllOk(results)
    requires forall i | 0 <= i < |results| :: NoBreaks(results[i].value)
    ensures NoBreaks(Spaced(results))
  {
    if results != [] {
      SpacedNoBreaks(results[1..]);
      assert !HasLineBoundary("");
      assert NoBreaks(results[0].value);
    }
  }

  /** When no field holds a line boundary, splitting the text into lines gives back every part. */
  lemma RenderLines(song: Song)
    requires RenderSong(song).Ok? && SongWithoutBreaks(song)
    ensures AllOk(Rendered(song.sections))
    ensures SplitLines(RenderSong(song).value) == Metadata(song) + Spaced(Rendered(song.sections))
  {
    var results := Rendered(song.sections);
    RenderLayout(song);
    TerminatedAppend(Metadata(song), Spaced(results));
    MetadataNoBreaks(song);
    forall i | 0 <= i < |results|
      ensures NoBreaks(results[i].value)
    {
      SectionNoBreaks(song.sections[i], results[i].value);
    }
    SpacedNoBreaks(results);
    SplitTerminated(Metadata(song) + Spaced(results));
  }

  // ---------------------------------------------------------------------------
  // Metadata directives
  // ---------------------------------------------------------------------------

  /** Directives whose names differ in their first two letters never coincide. */
  lemma DirectiveNamesDiffer(a: string, x: string, b: string, y: string)
    requires |a| >= 2 && |b| >= 2 && (a[0] != b[0] || a[1] != b[1])
    ensures DirectiveWith(a, x) != DirectiveWith(b, y)
  {
    assert DirectiveWith(a, x)[1] == a[0] && DirectiveWith(a, x)[2] == a[1];
    assert DirectiveWith(b, y)[1] == b[0] && DirectiveWith(b, y)[2] == b[1];
  }

  /** A directive determines its value. */
  lemma DirectiveValue(a: string, x: string, y: string)
    requires DirectiveWith(a, x) == DirectiveWith(a, y)
    ensures x == y
  {
    var d := DirectiveWith(a, x);
    assert d[|a| + 3..|d| - 1] == x;
    assert DirectiveWith(a, y)[|a| + 3..|d| - 1] == y;
  }

  /** Every metadata directive other than `name` differs from a `name` directive. */
  lemma OtherDirectives(song: Song, name: string, v: string)
    requires name == "key" || name == "capo" || name == "tuning"
    ensures DirectiveWith(name, v) != DirectiveWith("title", song.title)
    ensures DirectiveWith(name, v) != DirectiveWith("artist", song.artist)
    ensures name != "key" && song.key.Some? ==> DirectiveWith(name, v) != DirectiveWith("key", song.key.value)
    ensures name != "capo" && song.capo.Some? ==> DirectiveWith(name, v) != DirectiveWith("capo", IntToString(song.capo.value))
    ensures name != "tuning" && song.tuning.Some? ==> DirectiveWith(name, v) != DirectiveWith("tuning", song.tuning.value)
  {
    DirectiveNamesDiffer(name, v, "title", song.title);
    DirectiveNamesDiffer(name, v, "artist", song.artist);
    if song.key.Some? && name != "key" {
      DirectiveNamesDiffer(name, v, "key", song.key.value);
    }
    if song.capo.Some? && name != "capo" {
      DirectiveNamesDiffer(name, v, "capo", IntToString(song.capo.value));
    }
    if song.tuning.Some? && name != "tuning" {
      DirectiveNamesDiffer(name, v, "tuning", song.tuning.value);
    }
  }

  /** The key line is there, with the song's key, exactly when the key is set and not empty. */
  lemma KeyLine(song: Song, v: string)
    ensures DirectiveWith("key", v) in Metadata(song) <==> song.key == Some(v) && v != []
  {
    OtherDirectives(song, "key", v);
    if Truthy(song.key) && DirectiveWith("key", v) == DirectiveWith("key", song.key.value) {
      DirectiveValue("key", v, song.key.value);
    }
  }

  /** The capo line is there, with the song's capo, exactly when the capo is set and not zero. */
  lemma CapoLine(song: Song, n: int)
    ensures DirectiveWith("capo", IntToString(n)) in Metadata(song) <==> song.capo == Some(n) && n != 0
  {
    OtherDirectives(song, "capo", IntToString(n));
    if CapoShown(song.capo) && DirectiveWith("capo", IntToString(n)) == DirectiveWith("capo", IntToString(song.capo.value)) {
      DirectiveValue("capo", IntToString(n), IntToString(song.capo.value));
      IntToStringInjective(n, song.capo.value);
    }
  }

  /** The tuning line is there, with the song's tuning, exactly when the tuning is set and not empty. */
  lemma TuningLine(song: Song, v: string)
    ensures DirectiveWith("tuning", v) in Metadata(song) <==> song.tuning == Some(v) && v != []
  {
    OtherDirectives(song, "tuning", v);
    if Truthy(song.tuning) && DirectiveWith("tuning", v) == DirectiveWith("tuning", song.tuning.value) {
      DirectiveValue("tuning", v, song.tuning.value);
    }
  }
}
