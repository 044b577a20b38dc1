/** The ranking part of `filterMenuItems`: score every entry's title and info,
    keep the matched entries and sort them by score, highest first, stably. */
module Ranker {
  import Text
  import opened Wrappers
  import opened Catalog
  import opened Matcher

  /** The title's result if its score is strictly greater, else the info's. */
  function BetterField(titleMatch: MatchResult, infoMatch: MatchResult): MatchResult {
    if titleMatch.score > infoMatch.score then titleMatch else infoMatch
  }

  /** The annotated entry pushed for `e`, given its title and info results. */
  function HitFrom(e: Entry, titleMatch: MatchResult, infoMatch: MatchResult): Option<Hit> {
    var best := BetterField(titleMatch, infoMatch);
    if best.matched then Some(Hit(e, best.score, Text.Upper(best.kind.Name()))) else Option.None
  }

  /** The annotated entry pushed for `e`, if its best field result matched. */
  function HitOf(e: Entry, query: string): Option<Hit> {
    HitFrom(e, MatchOf(query, e.title), MatchOf(query, e.info))
  }

  lemma HitFromProperties(e: Entry, titleMatch: MatchResult, infoMatch: MatchResult)
    requires Producible(titleMatch) && Producible(infoMatch)
    ensures HitFrom(e, titleMatch, infoMatch).Some? <==> titleMatch.matched || infoMatch.matched
    ensures HitFrom(e, titleMatch, infoMatch).Some? ==>
      var h := HitFrom(e, titleMatch, infoMatch).value;
      && h.entry == e
      && 1 <= h.matchScore <= 100
      && (h.matchType == "EXACT" || h.matchType == "FUZZY")
      && h.matchScore == (if titleMatch.score > infoMatch.score then titleMatch.score else infoMatch.score)
      && (titleMatch.score > infoMatch.score ==> h.matchType == Text.Upper(titleMatch.kind.Name()))
      && (titleMatch.score <= infoMatch.score ==> h.matchType == Text.Upper(infoMatch.kind.Name()))
  {
    assert Text.Upper(Exact.Name()) == "EXACT";
    assert Text.Upper(Fuzzy.Name()) == "FUZZY";
  }

  /** An entry is kept exactly when its title or its info matches; the
      annotation scores between 1 and 100, is typed EXACT or FUZZY and carries
      the title's score and type only when its score is strictly greater than
      the info's: ties go to the info. */
  lemma HitOfProperties(e: Entry, query: string)
    ensures HitOf(e, query).Some? <==> MatchOf(query, e.title).matched || MatchOf(query, e.info).matched
    ensures HitOf(e, query).Some? ==>
      var h := HitOf(e, query).value;
      var titleScore, infoScore := MatchOf(query, e.title).score, MatchOf(query, e.info).score;
      && h.entry == e
      && 1 <= h.matchScore <= 100
      && (h.matchType == "EXACT" || h.matchType == "FUZZY")
      && h.matchScore == (if titleScore > infoScore then titleScore else infoScore)
      && (titleScore > infoScore ==> h.matchType == Text.Upper(MatchOf(query, e.title).kind.Name()))
      && (titleScore <= infoScore ==> h.matchType == Text.Upper(MatchOf(query, e.info).kind.Name()))
  {
    MatchTypesProduced(query, e.title);
    MatchTypesProduced(query, e.info);
    HitFromProperties(e, MatchOf(query, e.title), MatchOf(query, e.info));
  }

  /** What the loop body computes for each catalog entry, in catalog order. */
  function Candidates(catalog: seq<Entry>, query: string): (r: seq<Option<Hit>>)
    ensures |r| == |catalog|
    ensures forall i :: 0 <= i < |catalog| ==> r[i] == HitOf(catalog[i], query)
  {
    seq(|catalog|, i requires 0 <= i < |catalog| => HitOf(catalog[i], query))
  }

  /** The `results` list: the hits of the catalog, in catalog order. */
  function Hits(catalog: seq<Entry>, query: string): seq<Hit> {
    Somes(Candidates(catalog, query))
  }

  /** The results are the entries with a hit, each annotated by it, and no
      more than there are entries. */
  lemma HitsAreTheMatchedEntries(catalog: seq<Entry>, query: string)
    ensures |Hits(catalog, query)| <= |catalog|
    ensures forall h :: h in Hits(catalog, query) ==> h.entry in catalog && HitOf(h.entry, query) == Some(h)
    ensures forall i :: 0 <= i < |catalog| && HitOf(catalog[i], query).Some? ==> HitOf(catalog[i], query).value in Hits(catalog, query)
  {
    var c := Candidates(catalog, query);
    forall h | h in Hits(catalog, query) ensures h.entry in catalog && HitOf(h.entry, query) == Some(h) {
      var i :| 0 <= i < |c| && c[i] == Some(h);
      HitFromEntry(catalog[i], query);
    }
    forall i | 0 <= i < |catalog| && HitOf(catalog[i], query).Some?
      ensures HitOf(catalog[i], query).value in Hits(catalog, query)
    {
      SomesComplete(c, i);
    }
  }

  lemma HitFromEntry(e: Entry, query: string)
    ensures HitOf(e, query).Some? ==> HitOf(e, query).value.entry == e
  {
  }

  /** Every element of `s` scores at least as much as every later one. */
  ghost predicate SortedByScore(s: seq<Hit>) {
    forall i, j :: 0 <= i < j < |s| ==> s[i].matchScore >= s[j].matchScore
  }

  /** The elements of `s` that score `k`, in order. */
  function WithScore(s: seq<Hit>, k: nat): seq<Hit> {
    if s == [] then []
    else WithScore(s[..|s| - 1], k) + (if s[|s| - 1].matchScore == k then [s[|s| - 1]] else [])
  }

  /** Inserting `x` behind a sorted `s`: it moves forward past the elements
      that score strictly less, and no further. */
  function InsertLast(s: seq<Hit>, x: Hit): seq<Hit> {
    if s == [] || s[|s| - 1].matchScore >= x.matchScore then s + [x]
    else InsertLast(s[..|s| - 1], x) + [s[|s| - 1]]
  }

  /** The stable sort by descending score (insertion sort, front to back). */
  function SortDesc(s: seq<Hit>): seq<Hit> {
    if s == [] then [] else InsertLast(SortDesc(s[..|s| - 1]), s[|s| - 1])
  }

  lemma WithScoreAppend(s: seq<Hit>, x: Hit, k: nat)
    ensures WithScore(s + [x], k) == WithScore(s, k) + (if x.matchScore == k then [x] else [])
  {
    assert (s + [x])[..|s|] == s;
  }

  lemma {:induction false} InsertLastPermutes(s: seq<Hit>, x: Hit)
    ensures multiset(InsertLast(s, x)) == multiset(s) + multiset{x}
  {
    if !(s == [] || s[|s| - 1].matchScore >= x.matchScore) {
      var init, last := s[..|s| - 1], s[|s| - 1];
      InsertLastPermutes(init, x);
      assert s == init + [last];
    }
  }

  lemma {:induction false} InsertLastKeepsSorted(s: seq<Hit>, x: Hit)
    requires SortedByScore(s)
    ensures SortedByScore(InsertLast(s, x))
  {
    if s == [] || s[|s| - 1].matchScore >= x.matchScore {
    } else {
      var init, last := s[..|s| - 1], s[|s| - 1];
      InsertLastKeepsSorted(init, x);
      InsertLastPermutes(init, x);
      var t := InsertLast(init, x);
      forall i | 0 <= i < |t| ensures t[i].matchScore >= last.matchScore {
        assert t[i] in multiset(t);
        assert t[i] in multiset(init) || t[i] == x;
      }
    }
  }

  lemma {:induction false} InsertLastStable(s: seq<Hit>, x: Hit, k: nat)
    ensures WithScore(InsertLast(s, x), k) == WithScore(s, k) + (if x.matchScore == k then [x] else [])
  {
    if s == [] || s[|s| - 1].matchScore >= x.matchScore {
      WithScoreAppend(s, x, k);
    } else {
      var init, last := s[..|s| - 1], s[|s| - 1];
      InsertLastStable(init, x, k);
      WithScoreAppend(InsertLast(init, x), last, k);
      assert s == init + [last];
      WithScoreAppend(init, last, k);
    }
  }

  /** The sort returns its input sorted by descending score. */
  lemma {:induction false} SortDescSorted(s: seq<Hit>)
    ensures SortedByScore(SortDesc(s))
  {
    if s != [] {
      SortDescSorted(s[..|s| - 1]);
      InsertLastKeepsSorted(SortDesc(s[..|s| - 1]), s[|s| - 1]);
    }
  }

  /** The sort is a permutation of its input. */
  lemma {:induction false} SortDescPermutes(s: seq<Hit>)
    ensures multiset(SortDesc(s)) == multiset(s)
  {
    if s != [] {
      SortDescPermutes(s[..|s| - 1]);
      InsertLastPermutes(SortDesc(s[..|s| - 1]), s[|s| - 1]);
      assert s == s[..|s| - 1] + [s[|s| - 1]];
    }
  }

  /** The sort is stable: the elements of any one score keep their order. */
  lemma {:induction false} SortDescStable(s: seq<Hit>, k: nat)
    ensures WithScore(SortDesc(s), k) == WithScore(s, k)
  {
    if s != [] {
      SortDescStable(s[..|s| - 1], k);
      InsertLastStable(SortDesc(s[..|s| - 1]), s[|s| - 1], k);
    }
  }

  /** A score has no elements in the filter exactly when no element of `s`
      has that score. */
  lemma {:induction false} WithScoreEmpty(s: seq<Hit>, k: nat)
    ensures WithScore(s, k) == [] <==> forall i :: 0 <= i < |s| ==> s[i].matchScore != k
  {
    if s != [] {
      var init := s[..|s| - 1];
      WithScoreEmpty(init, k);
      assert forall i :: 0 <= i < |init| ==> init[i] == s[i];
    }
  }

  /** Two sorted sequences with the same elements of each score end in the
      same, lowest, score. */
  lemma LowestScoresAgree(t: seq<Hit>, u: seq<Hit>)
    requires t != [] && u != [] && SortedByScore(t) && SortedByScore(u)
    requires forall k: nat :: WithScore(t, k) == WithScore(u, k)
    ensures t[|t| - 1].matchScore == u[|u| - 1].matchScore
  {
    var x, y := t[|t| - 1], u[|u| - 1];
    WithScoreEmpty(t, x.matchScore);
    WithScoreEmpty(u, x.matchScore);
    WithScoreEmpty(t, y.matchScore);
    WithScoreEmpty(u, y.matchScore);
  }

  /** Equal per-score filters of `t0 + [x]` and `u0 + [y]`, where `x` and `y`
      score the same, force `x == y` and equal filters of `t0` and `u0`. */
  lemma DropLast(t0: seq<Hit>, x: Hit, u0: seq<Hit>, y: Hit)
    requires x.matchScore == y.matchScore
    requires forall k: nat :: WithScore(t0 + [x], k) == WithScore(u0 + [y], k)
    ensures x == y
    ensures forall k: nat :: WithScore(t0, k) == WithScore(u0, k)
  {
    var m := x.matchScore;
    WithScoreAppend(t0, x, m);
    WithScoreAppend(u0, y, m);
    var a, b := WithScore(t0, m) + [x], WithScore(u0, m) + [y];
    assert a == b;
    assert a[|a| - 1] == x && b[|b| - 1] == y;
    assert a[..|a| - 1] == WithScore(t0, m) && b[..|b| - 1] == WithScore(u0, m);
    forall k: nat | k != m ensures WithScore(t0, k) == WithScore(u0, k) {
      WithScoreAppend(t0, x, k);
      WithScoreAppend(u0, y, k);
      assert WithScore(t0 + [x], k) == WithScore(t0, k);
      assert WithScore(u0 + [y], k) == WithScore(u0, k);
    }
  }

  /** Two sequences sorted by descending score whose elements of each score
      agree, in order, are the same sequence. */
  lemma {:induction false} SortedUnique(t: seq<Hit>, u: seq<Hit>)
    requires SortedByScore(t) && SortedByScore(u)
    requires forall k: nat :: WithScore(t, k) == WithScore(u, k)
    ensures t == u
    decreases |t| + |u|
  {
    if t == [] || u == [] {
      if t != [] {
        WithScoreEmpty(t, t[|t| - 1].matchScore);
        WithScoreEmpty(u, t[|t| - 1].matchScore);
      } else if u != [] {
        WithScoreEmpty(u, u[|u| - 1].matchScore);
        WithScoreEmpty(t, u[|u| - 1].matchScore);
      }
    } else {
      var t0, x := t[..|t| - 1], t[|t| - 1];
      var u0, y := u[..|u| - 1], u[|u| - 1];
      assert t == t0 + [x] && u == u0 + [y];
      LowestScoresAgree(t, u);
      DropLast(t0, x, u0, y);
      SortedUnique(t0, u0);
    }
  }

  /** Any sort of `s` by descending score that keeps equal scores in their
      order, as section 22.1.3.27 of ECMAScript 2019 requires of
      `Array.prototype.sort`, returns `SortDesc(s)`: modelling the engine's
      sort by an insertion sort loses nothing. */
  lemma AnyStableSortIsSortDesc(s: seq<Hit>, t: seq<Hit>)
    requires SortedByScore(t)
    requires forall k: nat :: WithScore(t, k) == WithScore(s, k)
    ensures t == SortDesc(s)
  {
    SortDescSorted(s);
    forall k: nat ensures WithScore(SortDesc(s), k) == WithScore(s, k) {
      SortDescStable(s, k);
    }
    SortedUnique(t, SortDesc(s));
  }

  /** `results.sort((a, b) => b.matchScore - a.matchScore)`, in place. */
  method SortByScore(a: array<Hit>)
    modifies a
    ensures a[..] == SortDesc(old(a[..]))
  {
    ghost var input := a[..];
    for i := 0 to a.Length
      invariant a[..i] == SortDesc(input[..i])
      invariant forall m :: i <= m < a.Length ==> a[m] == input[m]
    {
      ghost var before := a[..];
      assert before[..i] == SortDesc(input[..i]) && before[i] == input[i];
      InsertBackward(a, i);
      assert input[..i + 1] == input[..i] + [input[i]];
    }
    assert input[..a.Length] == input;
  }

  /** One pass of the sort: moves `a[i]` forward past the elements of the
      sorted `a[..i]` that score strictly less. */
  method InsertBackward(a: array<Hit>, i: nat)
    requires i < a.Length
    modifies a
    ensures a[..i + 1] == InsertLast(old(a[..i]), old(a[i]))
    ensures forall m :: i < m < a.Length ==> a[m] == old(a[m])
  {
    var x := a[i];
    ghost var s := a[..i];
    var j := i;
    while j > 0 && a[j - 1].matchScore < x.matchScore
      invariant 0 <= j <= i
      invariant forall m :: 0 <= m < j ==> a[m] == s[m]
      invariant forall m :: j < m <= i ==> a[m] == s[m - 1]
      invariant forall m :: i < m < a.Length ==> a[m] == old(a[m])
      invariant forall m :: j <= m < i ==> s[m].matchScore < x.matchScore
    {
      a[j] := a[j - 1];
      j := j - 1;
    }
    a[j] := x;
    InsertLastAt(s, x, j);
    Reassembled(a[..i + 1], s, x, j);
  }

  /** `InsertLast` puts `x` right behind the last element that scores at
      least as much. */
  lemma {:induction false} InsertLastAt(s: seq<Hit>, x: Hit, j: nat)
    requires j <= |s| && (j == 0 || s[j - 1].matchScore >= x.matchScore)
    requires forall m :: j <= m < |s| ==> s[m].matchScore < x.matchScore
    ensures InsertLast(s, x) == s[..j] + [x] + s[j..]
  {
    if j < |s| {
      var init := s[..|s| - 1];
      InsertLastAt(init, x, j);
      assert init[..j] == s[..j] && init[j..] + [s[|s| - 1]] == s[j..];
    }
  }

  lemma Reassembled(t: seq<Hit>, s: seq<Hit>, x: Hit, j: nat)
    requires j <= |s| && |t| == |s| + 1
    requires forall m :: 0 <= m < j ==> t[m] == s[m]
    requires t[j] == x
    requires forall m :: j < m < |t| ==> t[m] == s[m - 1]
    ensures t == s[..j] + [x] + s[j..]
  {
  }

  /** The loop of `filterMenuItems` over the catalog: scores the title and
      the info of each entry and pushes the annotated entry when the better of
      the two matched. */
  method CollectHits(catalog: seq<Entry>, query: string) returns (results: seq<Hit>)
    ensures results == Hits(catalog, query)
  {
    results := [];
    ghost var candidates := Candidates(catalog, query);
    for n := 0 to |catalog|
      invariant results == Somes(candidates[..n])
    {
      var item := catalog[n];
      var titleMatch := FuzzyMatch(query, item.title);
      var infoMatch := FuzzyMatch(query, item.info);
      var bestMatch := if titleMatch.score > infoMatch.score then titleMatch else infoMatch;
      assert candidates[n] == HitFrom(item, titleMatch, infoMatch);
      SomesStep(candidates, n);
      if bestMatch.matched {
        results := results + [Hit(item, bestMatch.score, Text.Upper(bestMatch.kind.Name()))];
      }
    }
    assert candidates[..|catalog|] == candidates;
  }

  /** The ranking of a non-empty, trimmed query: the hits, sorted in place by
      descending score. The result is sorted, a permutation of the hits, and
      keeps the catalog order among hits of equal score. */
  method Rank(catalog: seq<Entry>, query: string) returns (ranked: seq<Hit>)
    ensures ranked == SortDesc(Hits(catalog, query))
    ensures SortedByScore(ranked)
    ensures multiset(ranked) == multiset(Hits(catalog, query))
    ensures forall k: nat :: WithScore(ranked, k) == WithScore(Hits(catalog, query), k)
  {
    var results := CollectHits(catalog, query);
    var a := new Hit[|results|](i requires 0 <= i < |results| => results[i]);
    assert a[..] == results;
    SortByScore(a);
    ranked := a[..];
    SortDescSorted(results);
    SortDescPermutes(results);
    forall k: nat ensures WithScore(ranked, k) == WithScore(results, k) {
      SortDescStable(results, k);
    }
  }

  /** What `filterMenuItems` leaves in `filteredData` for the input box
      content `input`: a plain copy of the catalog when the trimmed query is
      empty, the ranked hits otherwise. */
  function Filtered(catalog: seq<Entry>, input: string): seq<Shown> {
    var query := Text.Trim(input);
    if query == [] then AsPlain(catalog) else AsRanked(SortDesc(Hits(catalog, query)))
  }

  /** The ranked view of a list of hits: all of them, annotated, sorted by
      descending score. */
  lemma RankedView(hits: seq<Hit>)
    ensures var shown := AsRanked(SortDesc(hits));
      && |shown| == |hits|
      && (forall i :: 0 <= i < |shown| ==> shown[i].Ranked? && shown[i].hit in hits)
      && (forall i, j :: 0 <= i < j < |shown| ==> shown[i].hit.matchScore >= shown[j].hit.matchScore)
      && (forall h :: h in hits ==> Ranked(h) in shown)
  {
    var sorted := SortDesc(hits);
    var shown := AsRanked(sorted);
    SortDescSorted(hits);
    SortDescPermutes(hits);
    assert |sorted| == |hits| by {
      assert |multiset(sorted)| == |multiset(hits)|;
    }
    forall i | 0 <= i < |shown| ensures shown[i].hit in hits {
      assert sorted[i] in multiset(hits);
    }
    forall h | h in hits ensures Ranked(h) in shown {
      assert h in multiset(sorted);
      var j :| 0 <= j < |sorted| && sorted[j] == h;
      assert shown[j] == Ranked(h);
    }
  }

  /** An input that trims to nothing shows the catalog unannotated and in
      order. Any other input shows only annotated entries, at most one per
      catalog entry, sorted by descending score: exactly the entries whose
      title or info matches the trimmed query, each with its own annotation. */
  lemma FilteredProperties(catalog: seq<Entry>, input: string)
    ensures Text.Trim(input) == [] ==> Filtered(catalog, input) == AsPlain(catalog)
    ensures Text.Trim(input) != [] ==>
      var query, shown := Text.Trim(input), Filtered(catalog, input);
      && |shown| <= |catalog|
      && (forall i :: 0 <= i < |shown| ==> shown[i].Ranked?)
      && (forall i, j :: 0 <= i < j < |shown| ==> shown[i].hit.matchScore >= shown[j].hit.matchScore)
      && (forall i :: 0 <= i < |shown| ==> shown[i].hit.entry in catalog && HitOf(shown[i].hit.entry, query) == Some(shown[i].hit))
      && (forall i :: 0 <= i < |catalog| && HitOf(catalog[i], query).Some? ==> Ranked(HitOf(catalog[i], query).value) in shown)
  {
    var query := Text.Trim(input);
    if query != [] {
      HitsAreTheMatchedEntries(catalog, query);
      RankedView(Hits(catalog, query));
    }
  }
}
