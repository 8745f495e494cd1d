/** The site-agnostic song records of `models.py`. */
module Models {
  import opened Wrappers

  /** One line of lyrics with its chords already written inline as `[name]`. */
  datatype Line = Line(content: string)

  /** A song section; `heading` (the source's `label`) is `None` for an unlabelled passage. */
  datatype Section = Section(heading: Option<string>, lines: seq<Line>)

  /** A song; `capo` is a Python `int`, so it may be negative or zero. */
  datatype Song = Song(
    title: string,
    artist: string,
    sections: seq<Section>,
    key: Option<string>,
    capo: Option<int>,
    tuning: Option<string>,
    sourceUrl: string)
}
