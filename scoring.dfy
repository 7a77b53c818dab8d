/**
 * The per-link score of `scoreLink` in main.go: for every query term a tag,
 * label, title and comment contribution, then popularity and recency once.
 */
module Scoring {
  import opened Wrappers
  import opened Text
  import opened Links

  // ---------------------------------------------------------------------
  // Specification
  // ---------------------------------------------------------------------

  /** Some tag, lower-cased, equals the (already lower-cased) term `t`. */
  predicate HasTag(tags: seq<string>, t: string) {
    exists i :: 0 <= i < |tags| && Lower(tags[i]) == t
  }

  /** The label condition of one pair; label text is compared as stored. */
  predicate LabelMatches(t: string, k: string, v: string) {
    t == k || t == v || t == k + "=" + v
  }

  /** The keys among `keys` whose label pair matches `t`. */
  function MatchingKeys(labels: map<string, string>, t: string, keys: set<string>): set<string> {
    set k | k in keys && k in labels && LabelMatches(t, k, labels[k])
  }

  /** How many label pairs of the link match `t`. */
  function LabelHits(labels: map<string, string>, t: string): nat {
    |MatchingKeys(labels, t, labels.Keys)|
  }

  /** `x` added `n` times, as the label loop accumulates it. */
  function Times(n: nat, x: real): real {
    if n == 0 then 0.0 else Times(n - 1, x) + x
  }

  /** What one lower-cased term `t` adds to the score of `l`. */
  function TermScore(l: Link, w: Weights, t: string): real {
    (if HasTag(l.tags, t) then w.tag else 0.0)
    + Times(LabelHits(l.labels, t), w.labelPair)
    + (if IsSubstring(t, Lower(l.title)) then w.title else 0.0)
    + (if IsSubstring(t, Lower(l.comment)) then w.comment else 0.0)
  }

  /** The term part of the score: each term lower-cased and scored on its own. */
  function TermsScore(l: Link, w: Weights, terms: seq<string>): real
    decreases |terms|
  {
    if terms == [] then 0.0
    else TermsScore(l, w, terms[..|terms| - 1]) + TermScore(l, w, Lower(terms[|terms| - 1]))
  }

  /** The longest and the most negative `time.Duration` (int64 nanoseconds), in days. */
  const MaxDays: real := 9223372036854775807.0 / 86400000000000.0
  const MinDays: real := -9223372036854775808.0 / 86400000000000.0

  /**
   * `time.Since(at).Hours() / 24` at the instant `now`: the difference in
   * days, saturated as `Time.Sub` saturates at the `Duration` range.
   */
  function Days(now: real, at: real): (d: real)
    ensures MinDays <= d <= MaxDays
    ensures MinDays <= now - at <= MaxDays ==> d == now - at
    ensures now - at > MaxDays ==> d == MaxDays
    ensures now - at < MinDays ==> d == MinDays
  {
    if now - at > MaxDays then MaxDays
    else if now - at < MinDays then MinDays
    else now - at
  }

  /**
   * The recency divisor `days + 1` is non-zero. With `days` exactly -1 the
   * float64 division yields an infinity (NaN when the recency weight is 0),
   * neither of which `real` can represent.
   */
  predicate RecencyDefined(l: Link, now: real) {
    l.lastOpened.Some? ==> Days(now, l.lastOpened.value) + 1.0 != 0.0
  }

  /** The inverse-days recency bonus; nothing for a link never opened. */
  function Recency(l: Link, w: Weights, now: real): real
    requires RecencyDefined(l, now)
  {
    match l.lastOpened
    case None => 0.0
    case Some(at) => w.recency / (Days(now, at) + 1.0)
  }

  /** The term-independent part, added once per link. */
  function Base(l: Link, w: Weights, now: real): real
    requires RecencyDefined(l, now)
  {
    (l.openCount as real) * w.popularity + Recency(l, w, now)
  }

  function Score(l: Link, w: Weights, terms: seq<string>, now: real): real
    requires RecencyDefined(l, now)
  {
    TermsScore(l, w, terms) + Base(l, w, now)
  }

  // ---------------------------------------------------------------------
  // Implementation
  // ---------------------------------------------------------------------

  /** `contains`: does some element of `xs`, lower-cased, equal `s`? */
  method Contains(xs: seq<string>, s: string) returns (found: bool)
    ensures found <==> exists i :: 0 <= i < |xs| && Lower(xs[i]) == s
    ensures xs == [] ==> !found
  {
    for i := 0 to |xs|
      invariant forall j :: 0 <= j < i ==> Lower(xs[j]) != s
    {
      if Lower(xs[i]) == s {
        return true;
      }
    }
    return false;
  }

  /** The label loop of `scoreLink`: `weight` once per matching pair, in any key order. */
  method LabelScore(labels: map<string, string>, t: string, weight: real) returns (sum: real)
    ensures sum == Times(LabelHits(labels, t), weight)
  {
    sum := 0.0;
    var rest := labels.Keys;
    ghost var done: set<string> := {};
    while rest != {}
      invariant rest <= labels.Keys && done == labels.Keys - rest
      invariant sum == Times(|MatchingKeys(labels, t, done)|, weight)
      decreases rest
    {
      var k :| k in rest;
      var v := labels[k];
      ghost var hits := MatchingKeys(labels, t, done);
      if t == k || t == v || t == k + "=" + v {
        sum := sum + weight;
        assert MatchingKeys(labels, t, done + {k}) == hits + {k};
      } else {
        assert MatchingKeys(labels, t, done + {k}) == hits;
      }
      rest := rest - {k};
      done := done + {k};
    }
    assert done == labels.Keys;
  }

  /**
   * `scoreLink`, with the clock replaced by `now`: `now - t` is the
   * `time.Since(...).Hours() / 24` of a link last opened at `t`.
   */
  method ScoreLink(l: Link, w: Weights, terms: seq<string>, now: real) returns (score: real)
    requires RecencyDefined(l, now)
    ensures score == Score(l, w, terms, now)
  {
    score := 0.0;
    var title := Lower(l.title);
    var comment := Lower(l.comment);
    for n := 0 to |terms|
      invariant score == TermsScore(l, w, terms[..n])
    {
      var t := Lower(terms[n]);
      ghost var before := score;
      var tagged := Contains(l.tags, t);
      if tagged {
        score := score + w.tag;
      }
      var labelPart := LabelScore(l.labels, t, w.labelPair);
      score := score + labelPart;
      if IsSubstring(t, title) {
        score := score + w.title;
      }
      if IsSubstring(t, comment) {
        score := score + w.comment;
      }
      assert score == before + TermScore(l, w, t);
      assert terms[..n + 1][..n] == terms[..n];
    }
    assert terms[..|terms|] == terms;
    score := score + (l.openCount as real) * w.popularity;
    if l.lastOpened.Some? {
      var days := Days(now, l.lastOpened.value);
      score := score + w.recency / (days + 1.0);
    }
  }

  // ---------------------------------------------------------------------
  // Properties
  // ---------------------------------------------------------------------

  /**
   * Tags equal to the term add `tag` once per term: appending any number of
   * further matching tags adds `tag` only if none matched before.
   */
  lemma TagCountedOnce(l: Link, w: Weights, t: string, extra: seq<string>)
    requires |extra| > 0
    requires forall i :: 0 <= i < |extra| ==> Lower(extra[i]) == t
    ensures TermScore(l.(tags := l.tags + extra), w, t)
         == TermScore(l, w, t) + (if HasTag(l.tags, t) then 0.0 else w.tag)
  {
    var tags := l.tags + extra;
    assert tags[|l.tags|] == extra[0];
    assert HasTag(tags, t);
    if HasTag(l.tags, t) {
      var i :| 0 <= i < |l.tags| && Lower(l.tags[i]) == t;
      assert tags[i] == l.tags[i];
    }
  }

  /** A new label pair adds one to the count exactly when it matches. */
  lemma LabelHitsInsert(labels: map<string, string>, t: string, k: string, v: string)
    requires k !in labels
    ensures LabelHits(labels[k := v], t) == LabelHits(labels, t) + (if LabelMatches(t, k, v) then 1 else 0)
  {
    var m := labels[k := v];
    var before := MatchingKeys(labels, t, labels.Keys);
    if LabelMatches(t, k, v) {
      assert MatchingKeys(m, t, m.Keys) == before + {k};
    } else {
      assert MatchingKeys(m, t, m.Keys) == before;
    }
  }

  /**
   * Every label pair that matches the term adds `labelPair` on its own:
   * adding a new matching pair adds exactly one more `labelPair`.
   */
  lemma LabelPairCountsSeparately(l: Link, w: Weights, t: string, k: string, v: string)
    requires k !in l.labels
    ensures TermScore(l.(labels := l.labels[k := v]), w, t)
         == TermScore(l, w, t) + (if LabelMatches(t, k, v) then w.labelPair else 0.0)
  {
    LabelHitsInsert(l.labels, t, k, v);
  }

  /** The repeated sum is the product `n * x`. */
  lemma {:induction false} TimesIsProduct(n: nat, x: real)
    ensures Times(n, x) == (n as real) * x
  {
    if n > 0 {
      TimesIsProduct(n - 1, x);
    }
  }

  /** Multiplicity in a concrete case: two pairs whose value is the term count twice. */
  lemma TwoMatchingLabelsCountTwice()
    ensures LabelHits(map["lang" := "go", "topic" := "go"], "go") == 2
  {
    var m := map["lang" := "go", "topic" := "go"];
    assert MatchingKeys(m, "go", m.Keys) == {"lang", "topic"};
  }

  /** Label text is not lower-cased: a pair whose key and value both hold a capital never matches. */
  lemma CapitalisedLabelNeverMatches(term: string, k: string, v: string)
    requires HasUpper(k) && HasUpper(v)
    ensures !LabelMatches(Lower(term), k, v)
  {
    var t := Lower(term);
    LowerIsLower(term);
    var i :| 0 <= i < |k| && IsUpper(k[i]);
    assert (k + "=" + v)[i] == k[i];
  }

  lemma {:induction false} TermsScoreAppend(l: Link, w: Weights, a: seq<string>, b: seq<string>)
    ensures TermsScore(l, w, a + b) == TermsScore(l, w, a) + TermsScore(l, w, b)
    decreases |b|
  {
    if b == [] {
      assert a + b == a;
    } else {
      var b' := b[..|b| - 1];
      assert (a + b)[..|a + b| - 1] == a + b';
      assert (a + b)[|a + b| - 1] == b[|b| - 1];
      TermsScoreAppend(l, w, a, b');
    }
  }

  /** The score is additive over terms, with the base part counted once. */
  lemma ScoreAdditive(l: Link, w: Weights, a: seq<string>, b: seq<string>, now: real)
    requires RecencyDefined(l, now)
    ensures Score(l, w, a + b, now) == Score(l, w, a, now) + Score(l, w, b, now) - Base(l, w, now)
  {
    TermsScoreAppend(l, w, a, b);
  }

  /** With no terms and no last-opened time only popularity remains. */
  lemma ScoreWithoutTerms(l: Link, w: Weights, now: real)
    requires l.lastOpened.None?
    ensures Score(l, w, [], now) == (l.openCount as real) * w.popularity
    ensures l.openCount == 0 ==> Score(l, w, [], now) == 0.0
  {
  }

  lemma {:induction false} TermsScoreIgnoresUsage(l: Link, w: Weights, terms: seq<string>, count: int, last: Option<real>)
    ensures TermsScore(l.(openCount := count, lastOpened := last), w, terms) == TermsScore(l, w, terms)
    decreases |terms|
  {
    if terms != [] {
      var l' := l.(openCount := count, lastOpened := last);
      assert l'.tags == l.tags && l'.labels == l.labels && l'.title == l.title && l'.comment == l.comment;
      TermsScoreIgnoresUsage(l, w, terms[..|terms| - 1], count, last);
    }
  }

  /** The score is linear in the open count, with slope `popularity`. */
  lemma ScoreLinearInOpenCount(l: Link, w: Weights, terms: seq<string>, now: real, count: int)
    requires RecencyDefined(l, now)
    ensures Score(l.(openCount := count), w, terms, now)
         == Score(l, w, terms, now) + ((count - l.openCount) as real) * w.popularity
  {
    TermsScoreIgnoresUsage(l, w, terms, count, l.lastOpened);
    assert l.(openCount := count) == l.(openCount := count, lastOpened := l.lastOpened);
  }

  /** Terms are lower-cased before matching, so their case never matters. */
  lemma {:induction false} TermsCaseInsensitive(l: Link, w: Weights, terms: seq<string>, terms': seq<string>)
    requires |terms| == |terms'|
    requires forall i :: 0 <= i < |terms| ==> Lower(terms[i]) == Lower(terms'[i])
    ensures TermsScore(l, w, terms) == TermsScore(l, w, terms')
    decreases |terms|
  {
    if terms != [] {
      TermsCaseInsensitive(l, w, terms[..|terms| - 1], terms'[..|terms'| - 1]);
    }
  }

  /** Tags, title and comment are matched case-insensitively. */
  predicate SameUpToCase(l: Link, l': Link) {
    && l' == l.(title := l'.title, comment := l'.comment, tags := l'.tags)
    && Lower(l'.title) == Lower(l.title)
    && Lower(l'.comment) == Lower(l.comment)
    && |l'.tags| == |l.tags|
    && forall i :: 0 <= i < |l.tags| ==> Lower(l'.tags[i]) == Lower(l.tags[i])
  }

  lemma {:induction false} TermsScoreIgnoresCase(l: Link, l': Link, w: Weights, terms: seq<string>)
    requires SameUpToCase(l, l')
    ensures TermsScore(l', w, terms) == TermsScore(l, w, terms)
    decreases |terms|
  {
    if terms != [] {
      var t := Lower(terms[|terms| - 1]);
      assert HasTag(l'.tags, t) == HasTag(l.tags, t);
      TermsScoreIgnoresCase(l, l', w, terms[..|terms| - 1]);
    }
  }

  lemma ScoreIgnoresCase(l: Link, l': Link, w: Weights, terms: seq<string>, now: real)
    requires SameUpToCase(l, l') && RecencyDefined(l, now)
    ensures RecencyDefined(l', now) && Score(l', w, terms, now) == Score(l, w, terms, now)
  {
    TermsScoreIgnoresCase(l, l', w, terms);
  }

  /** A link tagged "go" and "cli", titled "Go Blog", opened ten times and never since. */
  const GoBlog := Link("1", "https://go.dev/blog", "Go Blog", "", ["go", "cli"], map[], 10, None)

  /** Tag 2 plus title 3 plus ten opens at 0.05 is 5.5; without terms only the 0.5 popularity remains. */
  lemma GoBlogScenario(now: real)
    ensures Score(GoBlog, DefaultWeights, ["go"], now) == 5.5
    ensures Score(GoBlog, DefaultWeights, [], now) == 0.5
  {
    assert Lower(GoBlog.tags[0]) == "go";
    assert HasTag(GoBlog.tags, "go");
    assert Lower("Go Blog") == "go blog";
    assert OccursAt("go", Lower("Go Blog"), 0);
    assert !IsSubstring("go", Lower(""));
    assert MatchingKeys(GoBlog.labels, "go", GoBlog.labels.Keys) == {};
    assert TermsScore(GoBlog, DefaultWeights, ["go"]) == TermScore(GoBlog, DefaultWeights, "go");
  }
}
