/** The records the ranking engine reads: a stored bookmark and the six scoring weights. */
module Links {
  import opened Wrappers

  /**
   * One bookmark. `lastOpened` is `None` when the Go `time.Time` is the zero
   * value (never opened); otherwise it is the instant it was last opened,
   * measured in days on the same scale as the `now` passed to scoring.
   */
  datatype Link = Link(
    id: string,
    url: string,
    title: string,
    comment: string,
    tags: seq<string>,
    labels: map<string, string>,
    openCount: int,
    lastOpened: Option<real>)

  /** The coefficient of each match signal; negative values are allowed. */
  datatype Weights = Weights(
    tag: real,
    labelPair: real,  // the Go field `Label`; `label` is a Dafny keyword
    title: real,
    comment: real,
    popularity: real,
    recency: real)

  /** The weights `main` builds before ranking. */
  const DefaultWeights := Weights(2.0, 1.5, 3.0, 1.0, 0.05, 0.02)
}
