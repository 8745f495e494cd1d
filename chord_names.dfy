/**
 * The chord-name shape of `CHORD_NAME_RE` and the narrower shape accepted
 * inside `[...]` by the bracketed token pattern, written as a datatype of
 * chord names, their spelling, and a deterministic parser whose accepted
 * strings are exactly the spellings of well-formed names.
 */
module ChordNames {
  import opened Wrappers
  import opened Strings

  datatype Accidental = Natural | Sharp | Flat

  /** The optional quality group `m(?:aj)?|aug|dim|sus|add`. */
  datatype Quality = Plain | Minor | Major | Augmented | Diminished | Suspended | Added

  /** A bass note written after a slash, e.g. the `B` of `G/B` or the `f#` of `/f#`. */
  datatype Bass = Bass(letter: char, accidental: Accidental)

  /**
   * `Chord`: root, accidental, quality, scale-degree digits and an optional
   * slash bass (`C#m7`, `G/B`, `D/a`); `SlashBass`: a standalone bass (`/b`).
   */
  datatype ChordName =
    | Chord(root: char, accidental: Accidental, quality: Quality, degree: string, bass: Option<Bass>)
    | SlashBass(over: Bass)

  predicate IsRoot(c: char) {
    'A' <= c <= 'G'
  }

  predicate IsBassLetter(c: char) {
    IsRoot(c) || 'a' <= c <= 'g'
  }

  predicate WellFormedBass(b: Bass) {
    IsBassLetter(b.letter)
  }

  /** The names `CHORD_NAME_RE` describes. */
  predicate WellFormed(c: ChordName) {
    match c
    case Chord(root, _, _, degree, bass) =>
      IsRoot(root) && AllDigits(degree) && (bass.Some? ==> WellFormedBass(bass.value))
    case SlashBass(b) => WellFormedBass(b)
  }

  /** The names the bracketed token pattern describes: no standalone bass, upper-case bass. */
  predicate BracketForm(c: ChordName) {
    c.Chord? && (c.bass.Some? ==> IsRoot(c.bass.value.letter))
  }

  function AccidentalText(a: Accidental): string {
    match a
    case Natural => ""
    case Sharp => "#"
    case Flat => "b"
  }

  function QualityText(q: Quality): string {
    match q
    case Plain => ""
    case Minor => "m"
    case Major => "maj"
    case Augmented => "aug"
    case Diminished => "dim"
    case Suspended => "sus"
    case Added => "add"
  }

  function BassText(b: Bass): string {
    [b.letter] + AccidentalText(b.accidental)
  }

  function BassSuffix(bass: Option<Bass>): string {
    if bass.Some? then "/" + BassText(bass.value) else ""
  }

  /** How a chord name is written. */
  function Spelling(c: ChordName): string {
    match c
    case Chord(root, a, q, d, bass) =>
      [root] + (AccidentalText(a) + (QualityText(q) + (d + BassSuffix(bass))))
    case SlashBass(b) => "/" + BassText(b)
  }

  function ParseAccidental(t: string): (r: (Accidental, string))
  {
    if t != [] && t[0] == '#' then (Sharp, t[1..])
    else if t != [] && t[0] == 'b' then (Flat, t[1..])
    else (Natural, t)
  }

  /** `t` begins with the three characters `a`, `b`, `c`. */
  predicate Starts3(t: string, a: char, b: char, c: char) {
    |t| >= 3 && t[0] == a && t[1] == b && t[2] == c
  }

  function ParseQuality(t: string): (r: (Quality, string))
  {
    if Starts3(t, 'm', 'a', 'j') then (Major, t[3..])
    else if t != [] && t[0] == 'm' then (Minor, t[1..])
    else if Starts3(t, 'a', 'u', 'g') then (Augmented, t[3..])
    else if Starts3(t, 'd', 'i', 'm') then (Diminished, t[3..])
    else if Starts3(t, 's', 'u', 's') then (Suspended, t[3..])
    else if Starts3(t, 'a', 'd', 'd') then (Added, t[3..])
    else (Plain, t)
  }

  /** The leading run of digits of `t`, and what follows it. */
  function SplitDigits(t: string): (r: (string, string))
    ensures r.0 + r.1 == t && AllDigits(r.0)
    ensures r.1 != [] ==> !IsDigit(r.1[0])
  {
    if t != [] && IsDigit(t[0]) then
      var (d, rest) := SplitDigits(t[1..]);
      assert t == [t[0]] + (d + rest);
      ([t[0]] + d, rest)
    else ([], t)
  }

  /** A whole bass note `[A-Ga-g][#b]?` and nothing after it. */
  function ParseBass(t: string): (r: Option<Bass>)
  {
    if t != [] && IsBassLetter(t[0]) then
      var (a, rest) := ParseAccidental(t[1..]);
      if rest == [] then Some(Bass(t[0], a)) else None
    else None
  }

  /** The full match of `CHORD_NAME_RE` against `t`, as a chord name. */
  function ParseChordName(t: string): (r: Option<ChordName>)
  {
    if t == [] then None
    else if t[0] == '/' then
      match ParseBass(t[1..])
      case Some(b) => Some(SlashBass(b))
      case None => None
    else if IsRoot(t[0]) then
      var (a, r1) := ParseAccidental(t[1..]);
      var (q, r2) := ParseQuality(r1);
      var (d, r3) := SplitDigits(r2);
      if r3 == [] then Some(Chord(t[0], a, q, d, None))
      else if r3[0] == '/' then
        match ParseBass(r3[1..])
        case Some(b) => Some(Chord(t[0], a, q, d, Some(b)))
        case None => None
      else None
    else None
  }

  /** `CHORD_NAME_RE` matches the whole of `t`. */
  predicate IsChordName(t: string) {
    ParseChordName(t).Some?
  }

  /** The content of a bracketed chord token `[...]` matches the whole of `t`. */
  predicate IsBracketChordName(t: string) {
    ParseChordName(t).Some? && BracketForm(ParseChordName(t).value)
  }

  /**
   * `CHORD_NAME_RE.match(t)`: its `$` also matches just before a final
   * `"\n"`, so one trailing newline is allowed.
   */
  predicate MatchesChordName(t: string) {
    IsChordName(t) || (t != [] && t[|t| - 1] == '\n' && IsChordName(t[..|t| - 1]))
  }

  lemma AccidentalSound(t: string)
    ensures AccidentalText(ParseAccidental(t).0) + ParseAccidental(t).1 == t
  {
  }

  lemma QualitySound(t: string)
    ensures QualityText(ParseQuality(t).0) + ParseQuality(t).1 == t
  {
  }

  lemma BassSound(t: string)
    ensures ParseBass(t).Some? ==> WellFormedBass(ParseBass(t).value) && BassText(ParseBass(t).value) == t
  {
    if t != [] {
      AccidentalSound(t[1..]);
    }
  }

  /** Whatever the parser accepts is the spelling of a well-formed chord name. */
  lemma ParseSound(t: string)
    ensures ParseChordName(t).Some? ==>
              WellFormed(ParseChordName(t).value) && Spelling(ParseChordName(t).value) == t
  {
    if t != [] && t[0] == '/' {
      BassSound(t[1..]);
      assert t == [t[0]] + t[1..];
    } else if t != [] && IsRoot(t[0]) {
      var (a, r1) := ParseAccidental(t[1..]);
      AccidentalSound(t[1..]);
      var (q, r2) := ParseQuality(r1);
      QualitySound(r1);
      var (d, r3) := SplitDigits(r2);
      assert t == [t[0]] + t[1..];
      if r3 != [] && r3[0] == '/' {
        BassSound(r3[1..]);
        assert r3 == [r3[0]] + r3[1..];
      }
    }
  }

  lemma AccidentalRoundTrip(a: Accidental, rest: string)
    requires rest != [] ==> rest[0] != '#' && rest[0] != 'b'
    ensures ParseAccidental(AccidentalText(a) + rest) == (a, rest)
  {
    var t := AccidentalText(a) + rest;
    match a
    case Natural => assert t == rest;
    case Sharp => assert t[0] == '#' && t[1..] == rest;
    case Flat => assert t[0] == 'b' && t[1..] == rest;
  }

  lemma QualityRoundTrip(q: Quality, rest: string)
    requires rest != [] ==> IsDigit(rest[0]) || rest[0] == '/'
    ensures ParseQuality(QualityText(q) + rest) == (q, rest)
  {
    var t := QualityText(q) + rest;
    assert t[|QualityText(q)|..] == rest;
    if q == Minor && rest != [] {
      assert t[1] == rest[0];
    }
    if q == Plain && rest != [] {
      assert t[0] == rest[0];
    }
  }

  lemma {:induction false} DigitsRoundTrip(d: string, rest: string)
    requires AllDigits(d)
    requires rest != [] ==> !IsDigit(rest[0])
    ensures SplitDigits(d + rest) == (d, rest)
  {
    if d != [] {
      assert (d + rest)[1..] == d[1..] + rest;
      DigitsRoundTrip(d[1..], rest);
      assert [d[0]] + d[1..] == d;
    } else {
      assert d + rest == rest;
    }
  }

  lemma BassRoundTrip(b: Bass)
    requires WellFormedBass(b)
    ensures ParseBass(BassText(b)) == Some(b)
  {
    var t := BassText(b);
    assert t[1..] == AccidentalText(b.accidental) + [];
    AccidentalRoundTrip(b.accidental, []);
  }

  /** Every well-formed chord name is recognised, and parsing recovers it. */
  lemma SpellingParses(c: ChordName)
    requires WellFormed(c)
    ensures ParseChordName(Spelling(c)) == Some(c)
  {
    var t := Spelling(c);
    match c
    case SlashBass(b) =>
      assert t[1..] == BassText(b);
      BassRoundTrip(b);
    case Chord(root, a, q, d, bass) =>
      var tail := BassSuffix(bass);
      assert t[1..] == AccidentalText(a) + (QualityText(q) + (d + tail));
      var afterQ := d + tail;
      if afterQ != [] {
        if d != [] {
          assert afterQ[0] == d[0];
        } else {
          assert afterQ == tail;
        }
      }
      DigitsRoundTrip(d, tail);
      QualityRoundTrip(q, afterQ);
      var afterA := QualityText(q) + afterQ;
      if afterA != [] && q != Plain {
        assert afterA[0] == QualityText(q)[0];
      }
      AccidentalRoundTrip(a, afterA);
      if bass.Some? {
        assert tail[1..] == BassText(bass.value);
        BassRoundTrip(bass.value);
      }
  }

  /** `CHORD_NAME_RE` describes exactly the spellings of well-formed chord names. */
  lemma ChordNameIff(t: string)
    ensures IsChordName(t) <==> exists c :: WellFormed(c) && Spelling(c) == t
  {
    ParseSound(t);
    if c :| WellFormed(c) && Spelling(c) == t {
      SpellingParses(c);
    }
  }

  /** The bracketed shape is the chord-name shape without lower-case or standalone bass. */
  lemma BracketChordIff(t: string)
    ensures IsBracketChordName(t) <==> exists c :: WellFormed(c) && BracketForm(c) && Spelling(c) == t
  {
    ParseSound(t);
    if c :| WellFormed(c) && BracketForm(c) && Spelling(c) == t {
      SpellingParses(c);
    }
  }

  /** The characters chord names are spelled with. */
  predicate IsChordChar(c: char) {
    IsBassLetter(c) || IsDigit(c) || c in {'#', '/', 'm', 'j', 'u', 'i', 's'}
  }

  lemma SpellingChars(c: ChordName)
    ensures Spelling(c) != []
    ensures forall i | 0 <= i < |Spelling(c)| :: IsChordChar(Spelling(c)[i]) || !WellFormed(c)
  {
    if WellFormed(c) {
      match c
      case SlashBass(b) =>
      case Chord(root, a, q, d, bass) =>
        var tail := BassSuffix(bass);
        var t := Spelling(c);
        assert t == [root] + AccidentalText(a) + QualityText(q) + d + tail;
        forall i | 0 <= i < |t| ensures IsChordChar(t[i]) {
          var k1 := 1 + |AccidentalText(a)|;
          var k2 := k1 + |QualityText(q)|;
          var k3 := k2 + |d|;
          if i >= k3 {
            assert t[i] == tail[i - k3];
          } else if i >= k2 {
            assert t[i] == d[i - k2];
          } else if i >= k1 {
            assert t[i] == QualityText(q)[i - k1];
          }
        }
    }
  }

  /** A chord name is non-empty and holds no whitespace, bracket or parenthesis. */
  lemma ChordNameChars(t: string)
    requires IsChordName(t)
    ensures t != []
    ensures forall i | 0 <= i < |t| :: IsChordChar(t[i])
  {
    ParseSound(t);
    SpellingChars(ParseChordName(t).value);
  }

  /** `D/a`: a chord shape, but not a bracketed chord shape. */
  lemma LowercaseBassIsNotBracketForm()
    ensures IsChordName("D/a") && !IsBracketChordName("D/a")
    ensures IsChordName("/f#") && !IsBracketChordName("/f#")
  {
    var c := Chord('D', Natural, Plain, "", Some(Bass('a', Natural)));
    assert Spelling(c) == "D/a";
    SpellingParses(c);
    var s := SlashBass(Bass('f', Sharp));
    assert Spelling(s) == "/f#";
    SpellingParses(s);
  }
}
