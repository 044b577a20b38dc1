# Menu search page (`ppk.js`) in Dafny

`ppk.js` drives a single-page menu browser. It loads a catalog of
`{ title, info }` entries from a public Google Sheet, and it keeps a copy in
`localStorage` for when the network fails. A search box ranks the entries
with a fuzzy matcher. A small on-page calculator edits a numeric display.
This project models the logic behind that page and proves what it
guarantees:

- **Scoring** (`similarity.dfy`, module `Scorer`). The Levenshtein edit
  distance is defined as a recursive function. The source's matrix algorithm
  is proved to compute it on a 2-D array. The similarity percentage rounds
  half up in exact arithmetic.
- **Matching** (`matcher.dfy`, module `Matcher`). `fuzzyMatch` has a direct
  substring hit, then a loop over the words that keeps the best prefix,
  fuzzy or contains result.
- **Ranking** (`ranker.dfy`, module `Ranker`; values in `catalog.dfy`).
  This is the non-DOM part of `filterMenuItems`: the better of the two field
  matches, the annotation of each kept entry, and the stable sort by
  descending score. The sort is an in-place insertion sort over an array.
- **Ingestion** (`ingest.dfy`, module `Ingest`). This covers the response
  envelope of the Google Chart Tools Datasource protocol and the per-row
  extraction of the catalog.
- **Loading** (`app.dfy`, module `App`). The class `SearchApp` holds
  `sheetData`, `filteredData` and the two `localStorage` keys.
  `FetchSheetData` runs the five-step fallback chain. `FilterMenuItems`
  derives the list that is shown.
- **Calculator display** (`calculator.dfy`, module `Calculator`). The class
  `CalculatorState` covers digit and decimal-point entry, backspace and
  clear.
- **Support.** `text.dfy` (module `Text`) holds the JavaScript string
  primitives: `\s` white space, `trim`, `split(/\s+/)`, `includes`,
  `startsWith` and case mapping. `wrappers.dfy` (module `Wrappers`) holds
  `Option` and an order-preserving filter.

Findings that the proofs bring out:

- **Dead branches.** The prefix and contains branches of `fuzzyMatch` can
  never fire. Every word of `split(/\s+/)` is a substring of the text, so a
  word that starts with or contains the query means the text contains it,
  and the direct hit has already returned. A result is therefore always
  `exact`, `fuzzy` or no match.
- **Score 100 without equality.** A similarity of 100, and so a fuzzy
  match scoring 100, means "equal up to case" only below 200 characters.
  From 200 characters on, one differing character still rounds up to 100.
- **Ties go to the info.** The title's match is used only when it scores
  strictly higher than the info's.
- **Any stable sort gives the same order.** ECMAScript 2019 requires a
  stable `Array.prototype.sort`. Any sort by descending score that keeps
  equal scores in order returns exactly the modelled order, so the insertion
  sort stands for the engine's sort without loss.

In three places the model follows the code where a reader might expect
otherwise:

- `levenshteinDistance` itself is case-sensitive. Only
  `calculateSimilarity` lower-cases its arguments.
- The cache step accepts any stored list, including an empty one.
- A title made only of white space passes the emptiness test (which runs
  before `trim`) and is kept as an entry with an empty title.

## Model

| member | source | states |
|---|---|---|
| Scorer.Distance | ppk.js:97-123 | the edit distance, defined by the matrix recurrence over the prefixes of the two strings; `DistanceSelf`, `DistanceZeroMeansEqual`, `DistanceSymmetric`, `DistanceAtMostLonger` and `DistanceAtLeastLengthGap` state its properties, and `LevenshteinDistance` is proved to compute it |
| Scorer.LevenshteinDistance | ppk.js:97-123 | filling the matrix of one row per prefix of `str2` and one column per prefix of `str1`, row by row, returns the edit distance `Distance(str1, str2)` of the whole strings; the loop invariants say each filled cell holds the distance of the two prefixes |
| Scorer.FillRow | ppk.js:110-121 | the inner loop fills row `i` so that, with the rows above it, every cell holds the distance of its two prefixes; the first column of the rows below is untouched |
| Scorer.DistanceOfPrefixes | ppk.js:111-120 | the distance of two non-empty prefixes follows the matrix recurrence: the diagonal neighbour when the last characters agree, else one more than the least of the three neighbours |
| Scorer.DistanceSelf | ppk.js:97-123 | a string is at distance 0 from itself |
| Scorer.DistanceZeroMeansEqual | ppk.js:97-123 | distance 0 only for equal strings |
| Scorer.DistanceSymmetric | ppk.js:97-123 | the distance does not depend on the argument order |
| Scorer.DistanceAtMostLonger | ppk.js:97-123 | the distance never exceeds the longer length |
| Scorer.DistanceAtLeastLengthGap | ppk.js:97-123 | the distance is at least the length difference; with the previous row, the distance to an empty string is the other string's length |
| Scorer.RoundHalfUp | ppk.js:133 | `Math.round(n / d)` for non-negative operands, in exact arithmetic: the nearest integer, halves rounding up; the three lemmas below bound it |
| Scorer.RoundHalfUpAtMost | ppk.js:133 | `Math.round` of a quotient bounded by `k` is at most `k` |
| Scorer.RoundHalfUpAtLeast | ppk.js:133 | `Math.round` of a quotient at least `k` is at least `k` |
| Scorer.RoundHalfUpBelow | ppk.js:133 | `Math.round` of a quotient below `k - 1/2` is below `k` |
| Scorer.Similarity | ppk.js:126-134 | the similarity percentage is an integer between 0 and 100 |
| Scorer.SimilarityOfCaseVariants | ppk.js:126-134 | strings equal up to case (including two empty strings) score 100 |
| Scorer.SimilarityFullOnlyForCaseVariants | ppk.js:126-134 | below 200 characters, a score of 100 holds exactly when the strings are equal up to case |
| Scorer.SimilarityRoundsUpLongNearMatch | ppk.js:126-134 | from 200 characters on, two strings differing in their last character (beyond case) still score 100 |
| Scorer.CalculateSimilarity | ppk.js:126-134 | the method, built on the matrix distance, returns `Similarity` of its arguments, at most 100 |
| Matcher.MatchOf | ppk.js:137-177 | `fuzzyMatch` as a function: the exact match when the lower-cased text contains the lower-cased query, else the fold of `Step` over the words of the lower-cased text; `FuzzyMatch` is proved to compute it, and `WordLevelMatch` and `MatchTypesProduced` state what it returns |
| Matcher.Step | ppk.js:152-174 | one word never lowers the running best; it either keeps it or replaces it with a match of strictly greater score; scores stay within 100 |
| Matcher.Best | ppk.js:150-176 | after any list of words the best is either no match or a match with a positive score of at most 100 |
| Matcher.FuzzyMatch | ppk.js:137-177 | the loop keeps `Best` of the words visited so far, so the result is `MatchOf(query, text)`; a text that contains the query, ignoring case, gives the exact match with score 100 |
| Matcher.MaxSimilarity | ppk.js:162-165 | the highest similarity of the query to any word: an upper bound on every word's similarity, attained by some word, 0 for no words |
| Matcher.BestIsMaxSimilarity | ppk.js:152-174 | when no word contains the query, the loop ends with a fuzzy match scoring the highest word similarity if it reaches 60, and with no match otherwise |
| Matcher.WordsMissQuery | ppk.js:142-147 | when the text misses the query, so does every word `split(/\s+/)` yields from it |
| Matcher.WordLevelMatch | ppk.js:137-177 | without a direct hit, `fuzzyMatch` returns a fuzzy match with the maximal word similarity when it is at least 60, else no match |
| Matcher.MatchTypesProduced | ppk.js:137-177 | the result is no match, or an exact or fuzzy match scoring 1 to 100; `prefix` and `contains` are never produced |
| Ranker.HitFrom | ppk.js:478-487 | the annotated entry pushed for given title and info results, if the better of them matched; `HitFromProperties` states which entries are kept and how they are annotated |
| Ranker.HitOf | ppk.js:472-487 | `HitFrom` of the entry's two `fuzzyMatch` results; `HitOfProperties` states its annotation |
| Ranker.Hits | ppk.js:468-489 | the results of the loop: the hits of the catalog in catalog order; `HitsAreTheMatchedEntries` states that they are exactly the matched entries |
| Ranker.HitFromProperties | ppk.js:478-487 | for results the matcher can produce, an entry is kept exactly when one of its fields matched; the annotation carries the entry, a score of 1 to 100, the type `EXACT` or `FUZZY`, and the title's score and upper-cased type when the title's score is strictly greater than the info's, the info's otherwise |
| Ranker.HitOfProperties | ppk.js:470-487 | an entry is kept exactly when its title or its info matches the query; its annotation carries the score and the upper-cased type of the title's match when that scores strictly higher than the info's, of the info's match otherwise |
| Ranker.HitsAreTheMatchedEntries | ppk.js:468-488 | the results are no more than the entries; each result annotates a catalog entry with that entry's own hit; every entry with a hit is among the results |
| Ranker.CollectHits | ppk.js:468-488 | the loop pushes exactly the hits of the catalog, in catalog order |
| Ranker.InsertLast | ppk.js:491-492 | one step of a stable insertion sort by descending score: the new element goes after every element scoring at least as much; the three `InsertLast` lemmas below state that it permutes, keeps order and is stable |
| Ranker.SortDesc | ppk.js:491-492 | the stable sort by descending `matchScore`; `SortDescSorted`, `SortDescPermutes`, `SortDescStable` and `AnyStableSortIsSortDesc` state that it is the result of `results.sort` |
| Ranker.InsertLastPermutes | ppk.js:491 | one insertion step is a permutation |
| Ranker.InsertLastKeepsSorted | ppk.js:491 | one insertion step keeps a list sorted by descending score |
| Ranker.InsertLastStable | ppk.js:491 | one insertion step places the new element after every element of its score |
| Ranker.SortDescSorted | ppk.js:491 | the sort's output is sorted by descending `matchScore` |
| Ranker.SortDescPermutes | ppk.js:491 | the sort's output is a permutation of its input |
| Ranker.SortDescStable | ppk.js:491 | elements of equal score keep their input order |
| Ranker.WithScoreEmpty | ppk.js:491 | a score has no elements in the filter exactly when no element has it |
| Ranker.SortedUnique | ppk.js:491 | two lists sorted by descending score whose elements of each score agree in order are equal |
| Ranker.AnyStableSortIsSortDesc | ppk.js:491 | any stable sort by descending score returns exactly `SortDesc` of its input |
| Ranker.SortByScore | ppk.js:491 | the in-place sort of the array leaves `SortDesc` of its old contents |
| Ranker.InsertBackward | ppk.js:491 | moving one element back past the strictly lower scores inserts it into the sorted prefix and leaves the rest of the array alone |
| Ranker.Rank | ppk.js:468-492 | the results end up sorted by descending score, a permutation of the hits, with equal scores in catalog order |
| Ranker.RankedView | ppk.js:491-494 | the annotated, sorted view holds every hit and only hits, sorted by descending score |
| Ranker.Filtered | ppk.js:462-495 | the list `filterMenuItems` shows for an input: the plain catalog for an input that trims to nothing, else the sorted annotated hits of the trimmed query; `FilteredProperties` states what it holds |
| Ranker.FilteredProperties | ppk.js:462-495 | an input that trims to nothing shows the catalog unannotated and in order; any other input shows, sorted by descending score, exactly the entries whose title or info matches the trimmed query, each with its own annotation |
| Ingest.Truthy | ppk.js:208-209 | the JavaScript truthiness of a cell value: a non-empty string, a non-zero number or `true` |
| Ingest.DigitsValue | ppk.js:208 | the number a run of decimal digits denotes, read most significant digit first |
| Ingest.NatText | ppk.js:208 | `String` of a whole number: a non-empty run of decimal digits without a leading zero whose decimal value is the number |
| Ingest.ValueText | ppk.js:208-209 | `String` of a truthy cell value is non-empty |
| Ingest.CellText | ppk.js:208-209 | a cell's text is non-empty exactly when the cell exists, is not null and holds a truthy value |
| Ingest.EntryOf | ppk.js:205-213 | the entry one row yields, if any: the trimmed texts of its first two cells when the first is non-empty; `EntryOfKeepsTitledRows` and `BlankTitleKeptEmpty` state when it yields one |
| Ingest.EntryOfKeepsTitledRows | ppk.js:203-214 | a row yields an entry exactly when its first cell holds a truthy value; a missing, null or falsy second cell gives an empty `info` |
| Ingest.BlankTitleKeptEmpty | ppk.js:208-212 | a title made only of white space passes the test and yields an entry with an empty title |
| Ingest.Extract | ppk.js:203-214 | the entries of a table's rows, in row order; `ExtractProperties` states that it keeps exactly the rows that yield an entry |
| Ingest.ExtractProperties | ppk.js:203-214 | extraction yields no more entries than rows, exactly the entries of rows that yield one, in row order |
| Ingest.StripEnvelope | ppk.js:200 | `text.substring(47).slice(0, -2)`, including its clamping on short texts; `EnvelopeRoundTrip` states that it recovers a wrapped payload |
| Ingest.EnvelopeRoundTrip | ppk.js:199-200 | stripping 47 characters in front and 2 at the end recovers the JSON payload of a protocol response, and such a response passes the marker test |
| Ingest.Parsed | ppk.js:196-201 | the rows of one remote step: none for a failed request or a body without the protocol marker, else the parse of the stripped body |
| App.Loaded | ppk.js:203-216 | the entries one remote step loads: none without rows, else the extraction of its rows |
| App.Retrieve | ppk.js:180-373 | the chain picks the first remote step with a non-empty extraction and loads exactly that extraction, else any stored list, else exactly the three samples; a remote outcome is non-empty, and the result is non-empty unless the stored list is empty |
| App.RemoteEntriesComeFromRows | ppk.js:203-224 | remotely loaded entries are the extraction of the winning step's table: each comes from one of its rows, and there are no more of them than rows |
| App.SearchApp.constructor | ppk.js:1-2 | the page starts with empty `sheetData` and `filteredData` over the storage it finds |
| App.SearchApp.LoadRows | ppk.js:203-214 | the extraction loop leaves `sheetData` equal to the extraction of the rows |
| App.SearchApp.TryRemote | ppk.js:186-230 | a failed request, a body without the marker or a rejected parse changes nothing; otherwise `sheetData` is the extraction, and only a non-empty one is stored with the timestamp and shown |
| App.SearchApp.FetchSheetData | ppk.js:180-373 | `sheetData` and the source are those of `Retrieve` on the parsed responses and the old storage; `filteredData` is a copy of `sheetData` on every path; storage is written, with the timestamp, exactly when a remote step won |
| App.SearchApp.FilterMenuItems | ppk.js:462-495 | `filteredData` becomes `Filtered(sheetData, input)`, whose properties `Ranker.FilteredProperties` states |
| Calculator.DigitEntered | ppk.js:512-523 | while an operand is awaited, or on a display of `0`, the display becomes the typed key alone; otherwise the key is appended to the old display |
| Calculator.DecimalEntered | ppk.js:525-536 | the display holds a point afterwards: `0.` while an operand is awaited; otherwise a display that has a point is unchanged and one without gets a point appended |
| Calculator.Backspaced | ppk.js:626-636 | the display never becomes empty: a display longer than one character loses exactly its last character, and a shorter one becomes `0` |
| Calculator.DigitKeepsNumeral | ppk.js:512-523 | a digit key keeps the display a well-formed decimal numeral |
| Calculator.DecimalKeepsNumeral | ppk.js:525-536 | the decimal-point key keeps the display a well-formed decimal numeral |
| Calculator.BackspaceKeepsNumeral | ppk.js:626-636 | backspace keeps the display a well-formed decimal numeral |
| Calculator.DecimalIdempotent | ppk.js:525-536 | a second decimal-point key changes nothing |
| Calculator.BackspaceUndoesDigit | ppk.js:512-523 | backspace undoes a digit typed onto a display other than `0` |
| Calculator.BackspaceUndoesDecimal | ppk.js:525-536 | backspace undoes a point typed onto a display without one |
| Calculator.CalculatorState.constructor | ppk.js:7-13 | the calculator starts in its initial state |
| Calculator.CalculatorState.InputDigit | ppk.js:512-523 | the display becomes `DigitEntered`; the wait for an operand ends; nothing else changes |
| Calculator.CalculatorState.InputDecimal | ppk.js:525-536 | the display becomes `DecimalEntered`; the wait for an operand ends; nothing else changes |
| Calculator.CalculatorState.ClearCalculator | ppk.js:538-548 | the initial state is restored |
| Calculator.CalculatorState.HandleBackspace | ppk.js:626-636 | the display becomes `Backspaced` of the old one, and only the display changes |
| Text.Lower | ppk.js:138-139 | `toLowerCase` keeps the length and lower-cases each character |
| Text.Upper | ppk.js:485 | `toUpperCase` keeps the length and upper-cases each character |
| Text.Contains | ppk.js:142 | `includes`: the query occurs at some position of the text |
| Text.StartsWith | ppk.js:154 | `startsWith`: the query is a prefix of the text |
| Text.Split | ppk.js:147 | `split(/\s+/)` yields at least one word |
| Text.SplitRebuilds | ppk.js:147 | the text is its words joined by non-empty runs of white space; with `SplitWordsHaveNoSpace` and `SplitInnerWordsNonEmpty` this makes the words exactly the maximal non-space runs, with an empty first (last) word when the text starts (ends) with white space |
| Text.SplitInnerWordsNonEmpty | ppk.js:147 | every word of the split other than the first and the last is non-empty |
| Text.SplitWordsOccur | ppk.js:147 | every word of the split occurs in the text |
| Text.SplitWordsHaveNoSpace | ppk.js:147 | no word of the split contains white space |
| Text.ContainsTransitive | ppk.js:142-168 | a substring of a substring is a substring |
| Text.Trim | ppk.js:463 | the trimmed text neither starts nor ends with white space and occurs in the original at a position preceded only by white space and followed only by white space |
| Text.TrimEmptyIff | ppk.js:463 | trimming leaves nothing exactly when the text is all white space |
| Catalog.AsPlain | ppk.js:466 | the unannotated copy of every entry, in order |
| Catalog.AsRanked | ppk.js:493-494 | the annotated copy of every hit, in order |
| Wrappers.SomesComplete | ppk.js:212 | an order-preserving filter keeps every present value |
| Wrappers.SomesInOrder | ppk.js:212 | an order-preserving filter keeps the relative order of what it keeps |

## Left out

- **Page and browser plumbing.** The DOM, the status and terminal lines, the
  detail view, the particles, the clock, the debug panel and
  `updateCalculatorDisplay` are presentation only.
- **Network, JSON and the clock.** `fetch`, `response.json`, `JSON.parse`
  and `JSON.stringify` become inputs. Each remote step receives its response
  body (`None` for a failed request or a non-OK status). `parse` stands for
  `JSON.parse` followed by `.table.rows`. `now` stands for
  `new Date().toISOString()`.
- **Worksheet feed lookup.** The third step's metadata request is left out;
  only the body of the final sheet request is an input.
- App.SearchApp.TryRemote: a `localStorage.setItem` that throws (quota
  exceeded, storage disabled) is not modelled. In the source the throw lands
  in the step's `catch` after `sheetData` was replaced, so the chain moves
  on and may end on the cache or the samples. `TryRemote`, `FetchSheetData`
  and `Retrieve` instead promise that the first non-empty extraction wins.
- **Storage encoding.** `localStorage` is held as already-decoded fields. A
  stored text that does not parse, which makes the source skip to the
  samples, is not modelled.
- **Cells and rows.** Numeric cells are integers; fractional numbers and
  dates are not modelled. A row without a `c` array, which makes the source
  throw in the middle of extraction, is not modelled.
- Ingest.ValueText: a numeric cell is an unbounded integer printed with
  every digit. In the source it is a double: integers beyond 2^53 are not
  exact, and `String` of a number whose magnitude is at least 1e21 gives
  exponent form (`1e+21`). Neither is modelled.
- **Timing and side channels.** The debounce timer, `setInterval`, the
  clipboard promise and `Math.random` are left out.
- **Calculator arithmetic.** `performOperation`, `handleEquals`,
  `handlePercent`, `calculate` and `getOperatorSymbol` are left out: they
  depend on `parseFloat`, floating-point arithmetic and `String` of a
  number. `previousValue` and `operation` are only reset here.
- Calculator.DigitKeepsNumeral: holds for the modelled keys only, since
  displays written by the left-out arithmetic (`NaN`, `-3`, `1e+21`) are
  not numerals.
- **Floating point.** `Math.round((L - D) / L * 100)` is modelled as exact
  rounding half up of `100 (L - D) / L`. Any artefact of the floating-point
  division is not modelled.
- **Unicode.** `toLowerCase` and `toUpperCase` are modelled on ASCII
  letters as length-preserving maps. Other case mappings, including ones
  that change the length, are not modelled. A Dafny `char` is a Unicode scalar
  value, while a JavaScript string is a sequence of UTF-16 code units. A
  character outside the Basic Multilingual Plane (an emoji, say) counts
  once in the model and twice in the source. This changes the lengths that
  enter the percentages at `ppk.js` lines 128-133, 155 and 169. A lone
  surrogate cannot be represented in the model at all.
