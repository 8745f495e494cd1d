# tab2pro text pipeline and ChordPro formatter, in Dafny

This project models the part of tab2pro that does not touch the network. That part has two pieces.

The first is the shared parsing module `src/tab2pro/adapters/utils.py`. It turns chord-over-lyric tab text into labelled sections. Chords are written inline as `[name]` markers. It has these stages:

- **Recognisers.** `CHORD_NAME_RE`, the bracketed chord-token pattern, `ANY_BRACKET_RE`, `SECTION_KEYWORDS_RE`, `TAB_LINE_RE` and `TAB_LEGEND_RE` become hand-written predicates over `seq<char>`. The chord-name shape is a `ChordName` datatype. Each name has a spelling, and a deterministic parser recognises exactly those spellings.
- **`classify_line` and its two helpers.** They give every line one tag: BLANK, SECTION, CHORD, TAB or LYRIC.
- **`extract_chords_with_offsets`.** It finds the `(offset, name)` pairs of a chord line, as a left-to-right scan in each style.
- **`merge_chord_lyric_lines`.** This is an imperative loop with a running `inserted` counter and a clamped insert position. It is proved equal to a reference layout written in lyric coordinates.
- **`extract_section_label`.**
- **`parse_text_tab`.** This is an imperative scanner with a one-line lookahead and a current-section accumulator. It is proved equal to a two-stage specification. The first stage turns lines into events, and the second groups events into sections.

The second piece is the ChordPro serialiser `src/tab2pro/chordpro.py`. It has three parts:

- **Header lines.** The `{title: …}` and `{artist: …}` directives come first. A key and a tuning are shown only when set and non-empty, a capo only when set and non-zero.
- **One block per section.** Each block has a blank line before it. A label whose first word is `verse`, `chorus` or `bridge` gets the directive pair from the `_STRUCTURED` table; any other label gets a `{comment: …}` line.
- **The final text.** It is the lines joined by `"\n"`, plus a final newline.

`render` is a method that builds its line list step by step. It is proved equal to a function on the song. The `Line`, `Section` and `Song` records of `src/tab2pro/models.py` are datatypes. The section's `label` field is called `heading` here, because `label` is a Dafny keyword.

Python's string operations are spelled out in module `Strings`:

- `str.isspace` uses its full Unicode whitespace set. That set also defines `\s`, `strip()` and `split()`.
- `splitlines()` uses Python's full set of line boundaries, with `"\r\n"` counted as one boundary.
- `rstrip(":")` and `sep.join`.

A label made only of whitespace makes the source's `label.lower().split()[0]` raise `IndexError`. The model returns this as the error value `NoFirstWord(label)` of a `Result`, and `render` passes it on.

## Model

| member | source | states |
|---|---|---|
| ChordNames.ChordNameIff | src/tab2pro/adapters/utils.py:31-37 | a string fully matches the chord-name pattern exactly when it is the spelling of a well-formed chord name. That means a root A-G with an optional `#`/`b`, an optional quality, digits and an optional slash bass in either case, or a standalone slash bass |
| ChordNames.ParseSound | src/tab2pro/adapters/utils.py:31-37 | whatever the recogniser accepts is the spelling of the well-formed name it returns |
| ChordNames.SpellingParses | src/tab2pro/adapters/utils.py:31-37 | the spelling of every well-formed name is accepted and parses back to that same name |
| ChordNames.BracketChordIff | src/tab2pro/adapters/utils.py:41-47 | the bracketed token's content matches exactly the spellings of well-formed names that have no standalone bass and an upper-case bass |
| ChordNames.LowercaseBassIsNotBracketForm | src/tab2pro/adapters/utils.py:29-46 | `D/a` and `/f#` are chord names but not bracketed chord contents |
| ChordNames.ChordNameChars | src/tab2pro/adapters/utils.py:31-37 | a chord name is non-empty and uses only root and bass letters, digits, `#`, `/` and the quality letters, so it has no whitespace, brackets, parentheses or colons |
| Classify.ClassifyLine | src/tab2pro/adapters/utils.py:89-106 | a line is BLANK exactly when it is all whitespace. It is TAB exactly when it is not all whitespace and its stripped form has the tab-line shape or a legend. Both facts hold in either style |
| Classify.ClassifyBracketed | src/tab2pro/adapters/utils.py:109-130 | the bracketed classifier only answers SECTION, CHORD or LYRIC |
| Classify.ClassifyUnbracketed | src/tab2pro/adapters/utils.py:133-149 | the unbracketed classifier only answers SECTION, CHORD or LYRIC |
| Classify.ScanBrackets | src/tab2pro/adapters/utils.py:110-111 | the groups `findall` returns and the text `sub("", …)` leaves account for every character of the line. Each group is non-empty and holds no `]` |
| Classify.ScanSplits | src/tab2pro/adapters/utils.py:110-111 | every line is rebuilt by interleaving the pieces of the remainder with the groups the scan finds |
| Classify.ScanWeave | src/tab2pro/adapters/utils.py:110-111 | conversely, when the pieces hold no `[` and the group contents no `]`, interleaving them scans back to exactly those groups and that remainder |
| Classify.BracketedChordSound | src/tab2pro/adapters/utils.py:109-130 | a bracketed line is CHORD only when it is bracket groups with chord-shaped contents and only whitespace before, between and after them |
| Classify.BracketedChordComplete | src/tab2pro/adapters/utils.py:109-130 | every line of that form is CHORD, and its groups are exactly the given chords |
| Classify.BracketedSectionSound | src/tab2pro/adapters/utils.py:109-124 | a bracketed line is SECTION only when it is a single group, padded by whitespace, whose content is not chord-shaped |
| Classify.BracketedSectionComplete | src/tab2pro/adapters/utils.py:109-124 | every single non-chord group padded by whitespace is SECTION |
| Classify.UnbracketedChordIff | src/tab2pro/adapters/utils.py:133-149 | a stripped line is CHORD exactly when it has words and each word is a chord name, standalone `/b` included. Neither the `[label]` check nor the keyword check ever claims such a line |
| Classify.UnbracketedChordLine | src/tab2pro/adapters/utils.py:89-149 | the same holds for `classify_line` in the unbracketed style, for any line: the strip and the TAB check never change that answer |
| Classify.NoChordKeyword | src/tab2pro/adapters/utils.py:53-57 | text made of chord characters and whitespace never matches the section-keyword pattern |
| Classify.NotTabShaped | src/tab2pro/adapters/utils.py:64-68 | text made of chord characters and whitespace matches neither the tab-line pattern nor the legend pattern |
| Classify.NotBracketLabel | src/tab2pro/adapters/utils.py:135 | text made of chord characters and whitespace is never a `[label]` heading |
| Classify.MatchesNoClose | src/tab2pro/adapters/utils.py:31-37 | whatever `CHORD_NAME_RE.match` accepts, including one trailing newline, is non-empty and holds no `]` |
| Strings.Strip | src/tab2pro/adapters/utils.py:99 | the result is empty exactly when the text is all whitespace, and otherwise has no whitespace at either end |
| Strings.StripPadded | src/tab2pro/adapters/utils.py:99 | stripping whitespace-padded text gives back its core |
| Strings.StripSlice | src/tab2pro/adapters/utils.py:99 | `strip()` keeps a contiguous slice with only whitespace outside it |
| Strings.RStripChar | src/tab2pro/adapters/utils.py:140 | the result is a prefix, everything removed is the stripped character, and the result does not end in it |
| Strings.SplitWhitespace | src/tab2pro/adapters/utils.py:145 | `split()` yields non-empty words without whitespace |
| Strings.SplitWhitespaceEmpty | src/tab2pro/adapters/utils.py:145 | `split()` yields no word exactly when the text is all whitespace |
| Strings.SplitStrip | src/tab2pro/adapters/utils.py:145 | a line and its stripped form split into the same words |
| Strings.FirstWord | src/tab2pro/chordpro.py:97 | after leading whitespace, the first word `split()` yields is the word written there |
| Strings.SplitLines | src/tab2pro/adapters/utils.py:267 | no line `splitlines()` yields holds a line boundary, and there are no lines exactly when the text is empty |
| Strings.SplitTerminated | src/tab2pro/adapters/utils.py:267 | splitting lines that each end in `"\n"` gives back those lines |
| Strings.JoinNewlines | src/tab2pro/chordpro.py:80 | joining a non-empty list of parts with `"\n"` and adding one `"\n"` is the same as ending each part with a newline |
| Strings.Lower | src/tab2pro/chordpro.py:97 | lower-casing changes no length and maps each character on its own |
| Extract.ExtractChordsSpec | src/tab2pro/adapters/utils.py:157-176 | in either style the offsets strictly increase, and the line holds the chord's text at each offset. The text is `[name]` in the bracketed style and `name` in the unbracketed one. Every match of the style's pattern is found |
| Extract.BracketedSpec | src/tab2pro/adapters/utils.py:171-172 | the `finditer` of the bracketed token pattern is increasing, sound and complete |
| Extract.UnbracketedSpec | src/tab2pro/adapters/utils.py:174-176 | the `\S+` scan keeps exactly the chord-shaped runs, in increasing order, each with its text |
| Extract.BracketedOrdered | src/tab2pro/adapters/utils.py:172 | bracketed matches found from a position on lie at or after it, in strictly increasing order |
| Extract.BracketedMatches | src/tab2pro/adapters/utils.py:172 | each bracketed match found is a real match, with its group as the name |
| Extract.BracketedComplete | src/tab2pro/adapters/utils.py:172 | no bracketed match is missed |
| Extract.NoMatchInside | src/tab2pro/adapters/utils.py:172 | no match starts inside another one, as `finditer`'s matches do not overlap |
| Extract.BracketToken | src/tab2pro/adapters/utils.py:172 | the text of a bracketed match at its offset is `[` + name + `]` |
| Extract.RunsOrdered | src/tab2pro/adapters/utils.py:175 | chord-shaped runs found from a run boundary on lie at or after it, in strictly increasing order |
| Extract.RunsMatches | src/tab2pro/adapters/utils.py:175 | each run kept is a maximal run of non-whitespace that is chord-shaped |
| Extract.RunsComplete | src/tab2pro/adapters/utils.py:175 | no chord-shaped run is missed |
| Merge.MergeChordLyricLines | src/tab2pro/adapters/utils.py:184-218 | the loop's result is the reference merge, and with no chords it is the lyric unchanged |
| Merge.SpliceStep | src/tab2pro/adapters/utils.py:212-216 | one iteration inserts `[name]` at `min(offset + inserted, len(result))`, which is that chord's clamped lyric column. This extends the reference merge by one chord and adds the marker's length to `inserted` |
| Merge.SpliceSnoc | src/tab2pro/adapters/utils.py:212-216 | one more chord inserts its marker at its column after every earlier marker |
| Merge.MergedLength | src/tab2pro/adapters/utils.py:209-218 | the merged line's length is the lyric's length plus `len(name) + 2` for each chord |
| Merge.MergedErases | src/tab2pro/adapters/utils.py:209-218 | taking the markers out of the merged line gives back the lyric exactly. The markers are the chord line's names, each once, in order |
| Merge.MergedMarkerAt | src/tab2pro/adapters/utils.py:212-216 | chord k's marker sits at its offset, clamped to the lyric's end, shifted by the markers before it |
| Merge.MergedAppendsLate | src/tab2pro/adapters/utils.py:214 | a last chord whose offset lies at or past the lyric's end is appended, not dropped |
| Merge.LayoutSpec | src/tab2pro/adapters/utils.py:209-218 | the reference layout spells the merged line. Its lyric characters are the lyric and its markers are the names |
| Merge.SpliceLength | src/tab2pro/adapters/utils.py:215-216 | each insertion adds exactly its marker's characters |
| Merge.ExtractedPlaceable | src/tab2pro/adapters/utils.py:205-214 | the extracted offsets can be placed one after another, so the clamped columns do not decrease |
| Merge.MarkerAt | src/tab2pro/adapters/utils.py:212-216 | in the reference merge from a column on, marker k starts at its column plus the markup before it |
| Parse.ExtractSectionLabel | src/tab2pro/adapters/utils.py:226-235 | a label is never longer than its line |
| Parse.LabelOfBracket | src/tab2pro/adapters/utils.py:231-234 | a `[X]` heading padded by whitespace gives exactly `X` |
| Parse.LabelOfColon | src/tab2pro/adapters/utils.py:235 | a bare heading with trailing colons, padded by whitespace, gives the heading without colons or padding |
| Parse.RStripColons | src/tab2pro/adapters/utils.py:235 | `rstrip(":")` removes exactly the trailing run of colons |
| Parse.Markers | src/tab2pro/adapters/utils.py:295 | each chord name becomes `[name]`, in order |
| Parse.ParseTextTab | src/tab2pro/adapters/utils.py:243-306 | the while loop returns the grouping of the scan of `splitlines(text)` |
| Parse.StepSkip | src/tab2pro/adapters/utils.py:275-277 | a BLANK or TAB line is skipped and the loop invariant is kept |
| Parse.StepHeading | src/tab2pro/adapters/utils.py:279-284 | a SECTION line flushes the open section if it has lines and opens one under the extracted label |
| Parse.StepPair | src/tab2pro/adapters/utils.py:286-291 | a CHORD line followed by a LYRIC line adds their merge and advances by two |
| Parse.StepChordOnly | src/tab2pro/adapters/utils.py:292-296 | a CHORD line without a following LYRIC line adds its markers alone |
| Parse.StepLyric | src/tab2pro/adapters/utils.py:299-301 | a LYRIC line is appended verbatim |
| Parse.NoEmptySections | src/tab2pro/adapters/utils.py:279-306 | no returned section is without lines |
| Parse.ParseKeepsLines | src/tab2pro/adapters/utils.py:267-306 | the sections hold exactly the scan's output lines, in order, none dropped or repeated |
| Parse.OnlyFirstUnlabelled | src/tab2pro/adapters/utils.py:269-284 | only the first section can be unlabelled |
| Parse.OnlySkippedLines | src/tab2pro/adapters/utils.py:275-277 | text whose every line is BLANK or TAB gives no sections |
| Parse.ChordOverLyric | src/tab2pro/adapters/utils.py:286-291 | a CHORD line over a LYRIC line becomes one merged line of an unlabelled section |
| Parse.ChordWithoutLyric | src/tab2pro/adapters/utils.py:292-296 | a CHORD line not followed by a LYRIC line gives its markers joined by single spaces |
| Parse.ChordOnlyEmpty | src/tab2pro/adapters/utils.py:294-295 | that chord-only line is empty exactly when no chord is extracted, as for `[D/a]` in the bracketed style |
| Parse.LyricUnderHeading | src/tab2pro/adapters/utils.py:279-301 | a LYRIC line under a heading is copied verbatim into a section with that heading's label |
| Parse.HeadingWithoutContent | src/tab2pro/adapters/utils.py:279-284 | a heading followed directly by another heading leaves no section behind |
| Parse.ParseTerminated | src/tab2pro/adapters/utils.py:267 | newline-terminated text is parsed line for line |
| Parse.AssembleKeepsLines | src/tab2pro/adapters/utils.py:279-304 | grouping keeps every content line, in order |
| Parse.AssembleLabels | src/tab2pro/adapters/utils.py:269-284 | once a heading has been seen, every section is labelled |
| ChordPro.Render | src/tab2pro/chordpro.py:57-80 | the method that builds `parts` returns the rendering of the song, or the first section's error |
| ChordPro.RenderLayout | src/tab2pro/chordpro.py:63-80 | the text is the metadata lines, then a blank line and the block of each section, with every line ended by `"\n"`. So the text ends with a newline and the metadata comes before any section |
| ChordPro.RenderLines | src/tab2pro/chordpro.py:76-80 | when no field holds a line boundary, the text's lines are exactly the metadata lines, then for each section a blank line and its block |
| ChordPro.Metadata | src/tab2pro/chordpro.py:66-73 | there are two to five metadata lines, and the first two are the title and artist directives |
| ChordPro.MetadataOrder | src/tab2pro/chordpro.py:66-73 | the metadata lines name title, artist, key, capo and tuning in that order, each at most once |
| ChordPro.KeyLine | src/tab2pro/chordpro.py:68-69 | a `{key: v}` line appears exactly when the key is set to a non-empty `v` |
| ChordPro.CapoLine | src/tab2pro/chordpro.py:70-71 | a `{capo: n}` line appears exactly when the capo is set to a non-zero `n`, so 0 and None are omitted |
| ChordPro.TuningLine | src/tab2pro/chordpro.py:72-73 | a `{tuning: v}` line appears exactly when the tuning is set to a non-empty `v` |
| ChordPro.NatString | src/tab2pro/chordpro.py:71 | the decimal form of a natural number is non-empty digits. It is one digit exactly below ten, and it starts with `0` exactly for zero |
| ChordPro.NatStringValue | src/tab2pro/chordpro.py:71 | reading the digits back gives the number |
| ChordPro.SignOf | src/tab2pro/chordpro.py:71 | `str(n)` starts with `-` exactly when n is negative |
| ChordPro.IntToStringInjective | src/tab2pro/chordpro.py:71 | different capo values are written differently |
| ChordPro.Rendered | src/tab2pro/chordpro.py:76-78 | each section is rendered on its own, in order |
| ChordPro.BlocksOk | src/tab2pro/chordpro.py:76-78 | the section blocks exist exactly when every section renders. They are then a blank line and the block of each section |
| ChordPro.BlocksFirstError | src/tab2pro/chordpro.py:76-78 | the first section that fails decides the error |
| ChordPro.BlocksStep | src/tab2pro/chordpro.py:76-78 | one loop step appends a blank line and the section's block, or stops with its error |
| ChordPro.BlocksErrorSticks | src/tab2pro/chordpro.py:76-78 | once a section has failed, later sections change nothing |
| ChordPro.RenderFails | src/tab2pro/chordpro.py:76-97 | rendering fails exactly when some section's label is whitespace only |
| ChordPro.RenderFirstFailure | src/tab2pro/chordpro.py:76-97 | the error names the first such label |
| ChordPro.SectionFails | src/tab2pro/chordpro.py:93-97 | a section fails exactly when its label is non-empty whitespace, and the error carries that label |
| ChordPro.Contents | src/tab2pro/chordpro.py:91 | the content lines are the sections' lines' text, in order |
| ChordPro.UnlabelledSection | src/tab2pro/chordpro.py:93-95 | a section without a label, or with an empty one, is its content lines alone |
| ChordPro.VerseSection | src/tab2pro/chordpro.py:97-107 | a label whose first word is `verse` in any case gives `{start_of_verse: <label>}`, the lines, then `{end_of_verse}` |
| ChordPro.ChorusSection | src/tab2pro/chordpro.py:97-107 | a label whose first word is `chorus` in any case gives `{start_of_chorus}`, the lines, then `{end_of_chorus}` |
| ChordPro.BridgeSection | src/tab2pro/chordpro.py:97-107 | a label whose first word is `bridge` in any case gives `{start_of_bridge}`, the lines, then `{end_of_bridge}` |
| ChordPro.CommentSection | src/tab2pro/chordpro.py:109-114 | any other label gives `{comment: <label>}` and the lines, with no end directive |
| ChordPro.CommentKeywordSection | src/tab2pro/chordpro.py:110-111 | a label the comment-keyword pattern matches gives `{comment: <label>}` and the lines, the same output as the fallback |
| ChordPro.KeywordWord | src/tab2pro/chordpro.py:48-51 | a label the comment-keyword pattern matches starts with a word that is not `verse`, `chorus` or `bridge` |
| ChordPro.SectionFrame | src/tab2pro/chordpro.py:91-114 | a block holds the content lines unchanged and in order: alone when unlabelled, or after one directive line and before at most one more |

## Left out

- Site adapters, registry, adapter base class, exceptions and CLI: fetching pages, walking HTML, decoding JSON, class dispatch and command-line wiring are I/O or library calls. They are not part of this model. Neither are the scraping helpers `_strip_ug_tags`, `_extract_capo`, `_extract_tuning` and `_title_from_url`.
- Regular expressions: each pattern is a hand-written recogniser. Its agreement with Python's `re` engine is argued from the pattern's text; it is not derived from a model of `re`.
- ASCII-only `\d`, `\w`, `IGNORECASE` and `lower()`: Python also counts non-ASCII digits and letters, and folds some non-ASCII letters, such as `ſ` or the Kelvin sign. The model treats those characters as other characters. For the comment-keyword check this makes no difference to the output, because both of its branches produce the same lines.
- The notation style is a two-valued datatype. The source compares a string with `"bracketed"` and treats every other string as unbracketed, which is the same behaviour.
- In-place updates of a `Section` object (`current.lines.append`) become a label and a line list that the loop reassigns. No two sections share a line list in the source, so aliasing has nothing to show.
- `ChordProFormatter` holds no state. Its `render` is modelled as a method without an object.
- Writing the rendered text to a file is left out, as is `source_url`, which rendering never reads.
- Classify.ClassifyBracketed: its own contract states only the range of answers. What it answers is stated by BracketedChordSound, BracketedChordComplete, BracketedSectionSound and BracketedSectionComplete. LYRIC is the remaining case.
- Classify.ClassifyUnbracketed: its own contract states only the range of answers. The CHORD answer is characterised by UnbracketedChordIff. The SECTION answers are its first two tests, taken as they stand.
- Parse.ExtractSectionLabel: its own contract bounds only the length. LabelOfBracket and LabelOfColon state the result for the `[X]` and `X:` heading shapes. Malformed shapes such as `[a]b]` are covered only by the function's definition.
