/**
 * The selection and ordering step of `main` in main.go: every link is
 * scored, links are kept when there are no terms or their score is
 * positive, and the kept links are sorted by descending score.
 */
module Ranking {
  import opened Links
  import opened Scoring

  /** A link paired with its computed score. */
  datatype Scored = Scored(link: Link, score: real)

  /** The filter rule: everything without terms, otherwise a positive score. */
  predicate Kept(terms: seq<string>, score: real) {
    |terms| == 0 || score > 0.0
  }

  /** Every link can be scored at `now`. */
  predicate AllDefined(links: seq<Link>, now: real) {
    forall i :: 0 <= i < |links| ==> RecencyDefined(links[i], now)
  }

  /** The kept links with their scores, in store order. */
  function Selected(links: seq<Link>, w: Weights, terms: seq<string>, now: real): seq<Scored>
    requires AllDefined(links, now)
    decreases |links|
  {
    if links == [] then []
    else
      var prev := Selected(links[..|links| - 1], w, terms, now);
      var l := links[|links| - 1];
      var s := Score(l, w, terms, now);
      if Kept(terms, s) then prev + [Scored(l, s)] else prev
  }

  /** Descending by score. */
  predicate SortedByScore(s: seq<Scored>) {
    forall i, j :: 0 <= i < j < |s| ==> s[i].score >= s[j].score
  }

  method Swap(a: array<Scored>, i: int, j: int)
    requires 0 <= i < j < a.Length
    modifies a
    ensures a[i] == old(a[j]) && a[j] == old(a[i])
    ensures forall m :: 0 <= m < a.Length && m != i && m != j ==> a[m] == old(a[m])
    ensures multiset(a[..]) == old(multiset(a[..]))
  {
    a[i], a[j] := a[j], a[i];
  }

  /**
   * The `sort.Slice` call, as an insertion sort: any in-place sort meets the
   * same contract, and the order among equal scores is left open.
   */
  method SortByScore(a: array<Scored>)
    modifies a
    ensures SortedByScore(a[..])
    ensures multiset(a[..]) == old(multiset(a[..]))
  {
    for i := 0 to a.Length
      invariant SortedByScore(a[..i])
      invariant multiset(a[..]) == old(multiset(a[..]))
    {
      var j := i;
      while j > 0 && a[j - 1].score < a[j].score
        invariant 0 <= j <= i
        invariant forall p, q :: 0 <= p < q <= i && p != j && q != j ==> a[p].score >= a[q].score
        invariant forall q :: j < q <= i ==> a[j].score >= a[q].score
        invariant multiset(a[..]) == old(multiset(a[..]))
      {
        Swap(a, j - 1, j);
        j := j - 1;
      }
    }
  }

  /** The ranked list: a permutation of the kept links, best score first. */
  method Rank(links: seq<Link>, w: Weights, terms: seq<string>, now: real) returns (ranked: seq<Scored>)
    requires AllDefined(links, now)
    ensures multiset(ranked) == multiset(Selected(links, w, terms, now))
    ensures SortedByScore(ranked)
  {
    var results: seq<Scored> := [];
    for i := 0 to |links|
      invariant results == Selected(links[..i], w, terms, now)
    {
      var l := links[i];
      var score := ScoreLink(l, w, terms, now);
      if |terms| == 0 || score > 0.0 {
        results := results + [Scored(l, score)];
      }
      assert links[..i + 1][..i] == links[..i];
    }
    assert links[..|links|] == links;
    var a := new Scored[|results|](k requires 0 <= k < |results| => results[k]);
    assert a[..] == results;
    SortByScore(a);
    ranked := a[..];
  }

  /** A scored pair is kept exactly when its link is stored, its score is computed and the rule admits it. */
  lemma {:induction false} SelectedMembers(links: seq<Link>, w: Weights, terms: seq<string>, now: real, x: Scored)
    requires AllDefined(links, now)
    ensures x in Selected(links, w, terms, now)
        <==> (exists i :: 0 <= i < |links| && links[i] == x.link)
             && RecencyDefined(x.link, now)
             && x.score == Score(x.link, w, terms, now)
             && Kept(terms, x.score)
    decreases |links|
  {
    if links != [] {
      var init := links[..|links| - 1];
      SelectedMembers(init, w, terms, now, x);
      assert forall i :: 0 <= i < |init| ==> init[i] == links[i];
      if (exists i :: 0 <= i < |links| && links[i] == x.link) {
        var i :| 0 <= i < |links| && links[i] == x.link;
        if i < |init| {
          assert init[i] == x.link;
        }
      }
    }
  }

  /** Without terms every stored link is kept, once, in store order. */
  lemma {:induction false} SelectedWithoutTerms(links: seq<Link>, w: Weights, now: real)
    requires AllDefined(links, now)
    ensures |Selected(links, w, [], now)| == |links|
    ensures forall i :: 0 <= i < |links| ==> Selected(links, w, [], now)[i] == Scored(links[i], Score(links[i], w, [], now))
    decreases |links|
  {
    if links != [] {
      SelectedWithoutTerms(links[..|links| - 1], w, now);
    }
  }

  /**
   * Anything with the contents `Rank` promises holds a stored link with its
   * computed score, and holds it exactly when the filter rule keeps it.
   */
  lemma RankedMembers(links: seq<Link>, w: Weights, terms: seq<string>, now: real, ranked: seq<Scored>, x: Scored)
    requires AllDefined(links, now)
    requires multiset(ranked) == multiset(Selected(links, w, terms, now))
    ensures x in ranked
        <==> (exists i :: 0 <= i < |links| && links[i] == x.link)
             && x.score == Score(x.link, w, terms, now)
             && (|terms| == 0 || x.score > 0.0)
  {
    assert x in ranked <==> x in multiset(ranked);
    SelectedMembers(links, w, terms, now, x);
  }
}
