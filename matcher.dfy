/** `fuzzyMatch(query, text)`: whether, and how well, a query matches one text
    field. */
module Matcher {
  import Text
  import opened Scorer

  /** The `type` of a match result. */
  datatype MatchType = None | Exact | Prefix | Fuzzy | Contains {
    /** The lower-case name the source stores in the result's `type` field. */
    function Name(): string {
      match this
      case None => "none"
      case Exact => "exact"
      case Prefix => "prefix"
      case Fuzzy => "fuzzy"
      case Contains => "contains"
    }
  }

  datatype MatchResult = MatchResult(matched: bool, score: nat, kind: MatchType)

  /** The running best before any word is looked at. */
  const NoMatch := MatchResult(false, 0, None)

  /** Minimum similarity (in percent) for a fuzzy word match. */
  const Threshold: nat := 60

  /** One iteration of the word loop: the prefix, fuzzy and contains tests in
      that order, each replacing the running best only with a strictly greater
      score. A test against an empty word would score `Math.round(NaN)`, which
      compares greater than nothing, so it never replaces the best. */
  function Step(best: MatchResult, q: string, w: string): (r: MatchResult)
    ensures r.score >= best.score
    ensures best.score <= 100 ==> r.score <= 100
    ensures r == best || (r.matched && r.score > best.score)
  {
    var afterPrefix :=
      if Text.StartsWith(w, q) && |w| > 0 && RoundHalfUp(100 * |q|, |w|) > best.score
      then
        RoundHalfUpAtMost(100 * |q|, |w|, 100);
        MatchResult(true, RoundHalfUp(100 * |q|, |w|), Prefix)
      else best;
    var similarity := Similarity(q, w);
    var afterFuzzy :=
      if similarity >= Threshold && similarity > afterPrefix.score
      then MatchResult(true, similarity, Fuzzy)
      else afterPrefix;
    if Text.Contains(w, q) && |w| > 0 && RoundHalfUp(90 * |q|, |w|) > afterFuzzy.score
    then
      RoundHalfUpAtMost(90 * |q|, |w|, 100);
      MatchResult(true, RoundHalfUp(90 * |q|, |w|), Contains)
    else afterFuzzy
  }

  /** The best result after the loop has visited `words` in order. */
  function Best(q: string, words: seq<string>): (r: MatchResult)
    ensures r.score <= 100
    ensures r == NoMatch || (r.matched && r.score > 0)
  {
    if words == [] then NoMatch
    else Step(Best(q, words[..|words| - 1]), q, words[|words| - 1])
  }

  /** What `fuzzyMatch(query, text)` returns. */
  function MatchOf(query: string, text: string): MatchResult {
    var queryLower, textLower := Text.Lower(query), Text.Lower(text);
    if Text.Contains(textLower, queryLower) then MatchResult(true, 100, Exact)
    else Best(queryLower, Text.Split(textLower))
  }

  /** `fuzzyMatch(query, text)`, with its loop over the words of the text. */
  method FuzzyMatch(query: string, text: string) returns (bestMatch: MatchResult)
    ensures bestMatch == MatchOf(query, text)
    ensures Text.Contains(Text.Lower(text), Text.Lower(query)) ==> bestMatch == MatchResult(true, 100, Exact)
  {
    var queryLower := Text.Lower(query);
    var textLower := Text.Lower(text);
    if Text.Contains(textLower, queryLower) {
      return MatchResult(true, 100, Exact);
    }
    var words := Text.Split(textLower);
    bestMatch := NoMatch;
    for k := 0 to |words|
      invariant bestMatch == Best(queryLower, words[..k])
    {
      var word := words[k];
      assert words[..k + 1][..k] == words[..k];
      if Text.StartsWith(word, queryLower) && |word| > 0 {
        var score := RoundHalfUp(100 * |queryLower|, |word|);
        if score > bestMatch.score {
          bestMatch := MatchResult(true, score, Prefix);
        }
      }
      var similarity := CalculateSimilarity(queryLower, word);
      if similarity >= Threshold && similarity > bestMatch.score {
        bestMatch := MatchResult(true, similarity, Fuzzy);
      }
      if Text.Contains(word, queryLower) && |word| > 0 {
        var score := RoundHalfUp(90 * |queryLower|, |word|);
        if score > bestMatch.score {
          bestMatch := MatchResult(true, score, Contains);
        }
      }
    }
    assert words[..|words|] == words;
  }

  /** The highest similarity of the query to any of `words` (0 for none). */
  function MaxSimilarity(q: string, words: seq<string>): (m: nat)
    ensures forall k :: 0 <= k < |words| ==> Similarity(q, words[k]) <= m
    ensures words == [] ==> m == 0
    ensures words != [] ==> exists k :: 0 <= k < |words| && Similarity(q, words[k]) == m
  {
    if words == [] then 0
    else
      var init := words[..|words| - 1];
      var m := Max(MaxSimilarity(q, init), Similarity(q, words[|words| - 1]));
      assert forall k :: 0 <= k < |init| ==> words[k] == init[k];
      m
  }

  /** When no word contains the query, the loop's result is a fuzzy match
      scoring the highest word similarity if that reaches the threshold, and no
      match otherwise. */
  lemma {:induction false} BestIsMaxSimilarity(q: string, words: seq<string>)
    requires forall k :: 0 <= k < |words| ==> !Text.Contains(words[k], q)
    ensures Best(q, words) ==
      if MaxSimilarity(q, words) >= Threshold then MatchResult(true, MaxSimilarity(q, words), Fuzzy)
      else NoMatch
  {
    if words != [] {
      var init, w := words[..|words| - 1], words[|words| - 1];
      BestIsMaxSimilarity(q, init);
      if Text.StartsWith(w, q) {
        Text.StartsWithContains(w, q);
      }
    }
  }

  /** When the lower-cased text does not contain the lower-cased query, neither
      does any of its words: no word can start with or contain the query. */
  lemma WordsMissQuery(queryLower: string, textLower: string)
    requires !Text.Contains(textLower, queryLower)
    ensures forall k :: 0 <= k < |Text.Split(textLower)| ==> !Text.Contains(Text.Split(textLower)[k], queryLower)
  {
    var words := Text.Split(textLower);
    Text.SplitWordsOccur(textLower);
    forall k | 0 <= k < |words| ensures !Text.Contains(words[k], queryLower) {
      if Text.Contains(words[k], queryLower) {
        Text.ContainsTransitive(textLower, words[k], queryLower);
      }
    }
  }

  /** Without a direct hit, `fuzzyMatch` is a fuzzy match on the most similar
      word when its similarity reaches 60, and no match otherwise. */
  lemma WordLevelMatch(query: string, text: string)
    requires !Text.Contains(Text.Lower(text), Text.Lower(query))
    ensures var m := MaxSimilarity(Text.Lower(query), Text.Split(Text.Lower(text)));
      MatchOf(query, text) == if m >= Threshold then MatchResult(true, m, Fuzzy) else NoMatch
  {
    WordsMissQuery(Text.Lower(query), Text.Lower(text));
    BestIsMaxSimilarity(Text.Lower(query), Text.Split(Text.Lower(text)));
  }

  /** The results `fuzzyMatch` can produce: no match, or an exact or fuzzy
      match with a positive score of at most 100. */
  predicate Producible(r: MatchResult) {
    || r == NoMatch
    || (r.matched && 0 < r.score <= 100 && (r.kind == Exact || r.kind == Fuzzy))
  }

  /** The prefix and contains branches are dead code: only exact, fuzzy or no
      match can come out, and a result is a match exactly when its score is
      positive. */
  lemma MatchTypesProduced(query: string, text: string)
    ensures Producible(MatchOf(query, text))
  {
    if !Text.Contains(Text.Lower(text), Text.Lower(query)) {
      WordLevelMatch(query, text);
    }
  }
}
