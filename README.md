# Link ranking engine of `linker`

`linker` is a local bookmark index. It stores links with a title, a comment,
tags, `key=value` labels and usage statistics. Given free-text terms, it
ranks the stored links with a weighted score and hands the ranked list to an
interactive picker. This project models the ranking engine of `main.go` and
the argument handling of its `add` command, and proves properties about them.

Modules:

- `Wrappers` (wrappers.dfy): `Option`.
- `Text` (text.dfy): ASCII `Lower` stands in for `strings.ToLower`, and
  `IsSubstring` for `strings.Contains`.
- `Links` (links.dfy): the `Link` record, the six `Weights` and the default
  weights that `main` builds. The Go field `Label` is named `labelPair`
  because `label` is a Dafny keyword.
- `Scoring` (scoring.dfy): `contains` and `scoreLink` as loops, proved
  against the specification function `Score`.
  `Score = TermsScore + Base`:
  - `TermsScore` sums `TermScore` over the lower-cased terms. Per term it is
    the tag weight once, the label weight once per matching pair, then the
    title and comment weights.
  - `Base` is popularity plus recency, added once.
- `Ranking` (ranking.dfy): the filter loop and the in-place sort of `main`.
  `Rank` is proved to return a permutation of `Selected`, sorted by
  descending score. `Selected` holds the kept links with their scores, in
  store order.
- `AddCommand` (add_command.dfy): the flag loop of `handleAdd`,
  `parseLabels`, and the link that `handleAdd` builds.

Modelling choices:

- Scores and weights are `real`, not float64.
- The clock is a parameter `now`. A link's `lastOpened` is `None` for Go's
  zero `time.Time`, and otherwise an instant measured in days. The `days` of
  main.go:106 is `Scoring.Days(now, lastOpened)`: the difference
  `now - lastOpened`, saturated at the range of `time.Duration`
  (int64 nanoseconds, about ±106751.99 days), as `Time.Sub` saturates.
- Labels are a `map`. The label loop takes its keys in an arbitrary order,
  as Go's map iteration does. The count of matching pairs, `LabelHits`, does
  not depend on that order.
- The sort is written as an insertion sort over an `array`. Its contract
  says only what `sort.Slice` promises: the result is sorted and is a
  permutation. The order among equal scores is left open, because
  `sort.Slice` is not stable.

Consequences of the code worth knowing:

- Stored tags are not normalised: `handleAdd` stores them as given
  (main.go:136-138), and each is lower-cased only when compared
  (main.go:178).
- `sort.Slice` is not stable, so ties may come out in any order.
- The term is lower-cased, but label text is compared as stored. So a label
  pair whose key and value both contain a capital letter can never match any
  term (`Scoring.CapitalisedLabelNeverMatches`).

## Model

| member | source | states |
|---|---|---|
| Text.Lower | main.go:72-76 | lower-casing keeps the length and maps each character through ASCII `LowerChar` |
| Text.LowerIsLower | main.go:76 | a lower-cased string holds no capital letter |
| Text.LowerIdempotent | main.go:76 | lower-casing twice is lower-casing once |
| Text.EmptyIsSubstring | main.go:91-98 | an empty term occurs in every title and comment |
| Scoring.Days | main.go:106 | the days since opening lie within the `Duration` range, equal `now - at` inside it and saturate at its bounds outside it |
| Scoring.Contains | main.go:176-183 | `contains` is true iff some element, lower-cased, equals `s`; it is false on an empty list |
| Scoring.LabelScore | main.go:84-88 | the label loop adds the label weight once for each key whose pair matches, whatever the key order |
| Scoring.ScoreLink | main.go:69-111 | `scoreLink` returns `Score`: the term contributions summed, then popularity and recency once |
| Scoring.TagCountedOnce | main.go:79-81 | appending any number of tags equal to the term adds the tag weight only if no tag matched already: at most once per term |
| Scoring.LabelHitsInsert | main.go:84-88 | one more label pair adds one to the count of matches exactly when it matches |
| Scoring.LabelPairCountsSeparately | main.go:84-88 | each matching label pair adds the label weight on its own; the count is not capped at one |
| Scoring.TimesIsProduct | main.go:84-88 | the weight added once per match is the label weight times the number of matching pairs |
| Scoring.TwoMatchingLabelsCountTwice | main.go:84-88 | two pairs with the term as value are two matches |
| Scoring.CapitalisedLabelNeverMatches | main.go:76-88 | the term is lower-cased but label text is not, so a pair whose key and value both hold a capital never matches |
| Scoring.TermsScoreAppend | main.go:75-99 | the term part of the score over `a + b` is the sum of the parts over `a` and over `b` |
| Scoring.ScoreAdditive | main.go:75-108 | `Score(a + b) == Score(a) + Score(b) - Base`: terms are additive and the base is added once |
| Scoring.ScoreWithoutTerms | main.go:101-108 | without terms or a last-opened time the score is `openCount * popularity`, and 0 when the count is 0 |
| Scoring.TermsScoreIgnoresUsage | main.go:75-99 | the term part does not depend on the open count or the last-opened time |
| Scoring.ScoreLinearInOpenCount | main.go:102 | changing the open count by `d` changes the score by exactly `d * popularity` |
| Scoring.TermsCaseInsensitive | main.go:76 | terms equal up to case give equal scores |
| Scoring.TermsScoreIgnoresCase | main.go:72-98 | tags, title and comment equal up to case give equal term parts |
| Scoring.ScoreIgnoresCase | main.go:72-108 | tags, title and comment equal up to case give equal scores |
| Scoring.GoBlogScenario | main.go:69-111 | with the default weights, the link tagged go and cli and titled "Go Blog", opened 10 times, scores 5.5 for "go" and 0.5 with no terms |
| Ranking.Swap | main.go:257-259 | exchanges two entries and keeps the multiset of entries |
| Ranking.SortByScore | main.go:257-259 | after the sort the entries are in non-increasing score order and are a permutation of the input |
| Ranking.Rank | main.go:249-259 | the ranked list is a permutation of the kept links with their scores and is sorted by descending score |
| Ranking.SelectedMembers | main.go:250-255 | a scored pair is kept iff its link is stored, its score is the computed one, and there are no terms or the score is positive |
| Ranking.SelectedWithoutTerms | main.go:252-253 | with no terms every stored link is kept exactly once, in store order, with its score |
| Ranking.RankedMembers | main.go:249-259 | a pair is in the ranked list iff its link is stored, it carries the computed score, and there are no terms or the score is positive |
| AddCommand.SplitLabel | main.go:200-201 | a split exists iff the input holds `=`; key, `=` and value rebuild the input, and the key holds no `=` |
| AddCommand.SplitLabelUnique | main.go:200 | any split of the input whose key holds no `=` is the one `SplitLabel` returns: the key ends at the first `=` |
| AddCommand.ParseLabels | main.go:197-206 | the loop builds `LabelsOf`: each `k=v` input in order, later inputs overwriting |
| AddCommand.LabelsOfKeys | main.go:199-203 | the keys are exactly the texts before the first `=` of the inputs that hold one |
| AddCommand.LabelsOfLastWins | main.go:202 | of the inputs with one key, the last one gives its value |
| AddCommand.ValueKeepsLaterEquals | main.go:200-202 | `a=b=c` gives key `a` and value `b=c` |
| AddCommand.PlainInputDropped | main.go:201 | an input without `=` adds nothing |
| AddCommand.LaterLabelWins | main.go:202 | two inputs with one key keep the second value |
| AddCommand.ScanAddFlags | main.go:128-143 | the flag loop collects what `Flags` specifies |
| AddCommand.ScanAppend | main.go:128-143 | a scan that reaches the end of the arguments continues unchanged into what is appended |
| AddCommand.TagAppends | main.go:136-138 | `--tag x` appends `x` to the tags and changes nothing else |
| AddCommand.LabelAppends | main.go:139-141 | `--label x` appends `x` to the label inputs and changes nothing else |
| AddCommand.TitleLastWins | main.go:130-132 | a later `--title x` replaces the title |
| AddCommand.CommentLastWins | main.go:133-135 | a later `--comment x` replaces the comment |
| AddCommand.OtherArgumentSkipped | main.go:129-142 | an argument that is none of the four flags is skipped |
| AddCommand.TrailingFlagFails | main.go:130-141 | a flag given as the last argument breaks the precondition: the loop would index past the end |
| AddCommand.FlagValueTakenVerbatim | main.go:130-132 | a flag's value is taken as is, even when it looks like a flag |
| AddCommand.NewLink | main.go:113-157 | fewer than three arguments give the usage path; otherwise the link has the URL, the scanned title, comment and tags, the parsed labels, a zero open count and no last-opened time |

## Left out

- Scoring.ScoreLink: requires the recency divisor `days + 1` to be non-zero. With float64, `days == -1` gives an infinity, or NaN when the recency weight is 0; `real` can represent neither, so such a link's score (and the NaN's effect on the `score > 0` filter and on `sort.Slice`) is not modelled.
- Scoring.Days: treats time as continuous; Go measures the elapsed time in whole nanoseconds before converting it to float64 hours, and that truncation and rounding are not modelled.
- Ranking.Rank: requires the same condition for every link, for the same reason.
- Ranking.SortByScore: an insertion sort stands in for the pattern-defeating quicksort inside `sort.Slice`. Only sortedness and the permutation are stated, so the order among equal scores is not modelled.
- AddCommand.ScanAddFlags: a flag given as the last argument is a precondition failure (`ScanOk`), not a modelled index-out-of-range panic.
- AddCommand.NewLink: the ID is taken as a parameter, because `time.Now().UnixNano()` is a clock.
- Float64 rounding and `%.2f` formatting of scores: the model uses exact `real`.
- Full Unicode case folding in `strings.ToLower`: only ASCII letters are lower-cased.
- Reading and writing `links.json` (`baseDir`, `loadJSON` with its silently ignored errors, `saveJSON` with its temporary file and rename, `os.MkdirAll`), and appending the new link to the store: these are filesystem effects.
- The dispatch in `main` (`terms := os.Args[1:]`, the `add` sub-command, the "no matches" message): this is process I/O. `Rank` takes the terms directly.
- The fzf subprocess, its pipes and writer goroutine, the 2048-byte read, and the `xdg-open`/`open` launch: these are external processes and concurrency.
- `cmd/root.go` and `cmd/add.go`: command-line wiring over package functions that are not part of this model.
