/** Edit distance and the similarity percentage derived from it
    (`levenshteinDistance` and `calculateSimilarity`). */
module Scorer {
  import opened Text

  function Min3(x: nat, y: nat, z: nat): (m: nat)
    ensures m <= x && m <= y && m <= z
    ensures m == x || m == y || m == z
  {
    if x <= y && x <= z then x else if y <= z then y else z
  }

  function Max(x: nat, y: nat): nat {
    if x >= y then x else y
  }

  /** Unit-cost edit distance (insert, delete, substitute), case-sensitive.
      `Distance(a[..j], b[..i])` is the entry the source keeps in `matrix[i][j]`:
      row 0 and column 0 count insertions, a matching last character copies the
      diagonal entry, and otherwise the cheapest of the three neighbours plus one. */
  function Distance(a: string, b: string): nat
    decreases |a| + |b|
  {
    if |b| == 0 then |a|
    else if |a| == 0 then |b|
    else
      var a', b' := a[..|a| - 1], b[..|b| - 1];
      if b[|b| - 1] == a[|a| - 1] then Distance(a', b')
      else Min3(Distance(a', b') + 1, Distance(a', b) + 1, Distance(a, b') + 1)
  }

  /** A string is at distance 0 from itself. */
  lemma {:induction false} DistanceSelf(s: string)
    ensures Distance(s, s) == 0
    decreases |s|
  {
    if |s| > 0 {
      DistanceSelf(s[..|s| - 1]);
    }
  }

  /** Distance 0 means equality. */
  lemma {:induction false} DistanceZeroMeansEqual(a: string, b: string)
    requires Distance(a, b) == 0
    ensures a == b
    decreases |a| + |b|
  {
    if |a| > 0 && |b| > 0 {
      var a', b' := a[..|a| - 1], b[..|b| - 1];
      DistanceZeroMeansEqual(a', b');
      assert a == a' + [a[|a| - 1]] && b == b' + [b[|b| - 1]];
    }
  }

  /** The distance is symmetric. */
  lemma {:induction false} DistanceSymmetric(a: string, b: string)
    ensures Distance(a, b) == Distance(b, a)
    decreases |a| + |b|
  {
    if |a| > 0 && |b| > 0 {
      var a', b' := a[..|a| - 1], b[..|b| - 1];
      DistanceSymmetric(a', b');
      DistanceSymmetric(a', b);
      DistanceSymmetric(a, b');
    }
  }

  /** The distance never exceeds the longer length. */
  lemma {:induction false} DistanceAtMostLonger(a: string, b: string)
    ensures Distance(a, b) <= Max(|a|, |b|)
    decreases |a| + |b|
  {
    if |a| > 0 && |b| > 0 {
      DistanceAtMostLonger(a[..|a| - 1], b[..|b| - 1]);
    }
  }

  /** The distance is at least the difference of the lengths. */
  lemma {:induction false} DistanceAtLeastLengthGap(a: string, b: string)
    ensures Distance(a, b) >= |a| - |b| && Distance(a, b) >= |b| - |a|
    decreases |a| + |b|
  {
    if |a| > 0 && |b| > 0 {
      var a', b' := a[..|a| - 1], b[..|b| - 1];
      DistanceAtLeastLengthGap(a', b');
      DistanceAtLeastLengthGap(a', b);
      DistanceAtLeastLengthGap(a, b');
    }
  }

  /** The recurrence of `Distance` on the prefixes `a[..j]` and `b[..i]`,
      which the matrix method follows cell by cell. */
  lemma DistanceOfPrefixes(a: string, b: string, j: nat, i: nat)
    requires 1 <= j <= |a| && 1 <= i <= |b|
    ensures Distance(a[..j], b[..i]) ==
      if b[i - 1] == a[j - 1] then Distance(a[..j - 1], b[..i - 1])
      else Min3(Distance(a[..j - 1], b[..i - 1]) + 1, Distance(a[..j - 1], b[..i]) + 1, Distance(a[..j], b[..i - 1]) + 1)
  {
    assert a[..j][..j - 1] == a[..j - 1];
    assert b[..i][..i - 1] == b[..i - 1];
  }

  /** Rows `0` to `i - 1` of `matrix` hold the distances between the prefixes
      of `str1` (by column) and of `str2` (by row). */
  ghost predicate RowsFilled(matrix: array2<nat>, str1: string, str2: string, i: nat)
    reads matrix
    requires matrix.Length0 == |str2| + 1 && matrix.Length1 == |str1| + 1 && i <= |str2| + 1
  {
    forall r, c :: 0 <= r < i && 0 <= c <= |str1| ==> matrix[r, c] == Distance(str1[..c], str2[..r])
  }

  /** `levenshteinDistance(str1, str2)`: fills the `(|str2|+1) x (|str1|+1)`
      matrix row by row and returns its bottom-right entry. */
  method LevenshteinDistance(str1: string, str2: string) returns (d: nat)
    ensures d == Distance(str1, str2)
  {
    var matrix := new nat[|str2| + 1, |str1| + 1];
    for i := 0 to |str2| + 1
      invariant forall r :: 0 <= r < i ==> matrix[r, 0] == r
    {
      matrix[i, 0] := i;
    }
    for j := 0 to |str1| + 1
      invariant forall r :: 0 < r <= |str2| ==> matrix[r, 0] == r
      invariant forall c :: 0 <= c < j ==> matrix[0, c] == c
    {
      matrix[0, j] := j;
    }
    for i := 1 to |str2| + 1
      invariant RowsFilled(matrix, str1, str2, i)
      invariant forall r :: i <= r <= |str2| ==> matrix[r, 0] == r
    {
      FillRow(matrix, str1, str2, i);
    }
    d := matrix[|str2|, |str1|];
    assert str1[..|str1|] == str1 && str2[..|str2|] == str2;
  }

  /** The inner loop of `levenshteinDistance`: fills row `i` from column 1 on,
      each cell from its left, upper and upper-left neighbours. */
  method FillRow(matrix: array2<nat>, str1: string, str2: string, i: nat)
    requires matrix.Length0 == |str2| + 1 && matrix.Length1 == |str1| + 1 && 1 <= i <= |str2|
    requires RowsFilled(matrix, str1, str2, i) && matrix[i, 0] == i
    modifies matrix
    ensures RowsFilled(matrix, str1, str2, i + 1)
    ensures forall r :: i < r <= |str2| ==> matrix[r, 0] == old(matrix[r, 0])
  {
    for j := 1 to |str1| + 1
      invariant RowsFilled(matrix, str1, str2, i)
      invariant forall r :: i < r <= |str2| ==> matrix[r, 0] == old(matrix[r, 0])
      invariant forall c :: 0 <= c < j ==> matrix[i, c] == Distance(str1[..c], str2[..i])
    {
      DistanceOfPrefixes(str1, str2, j, i);
      if str2[i - 1] == str1[j - 1] {
        matrix[i, j] := matrix[i - 1, j - 1];
      } else {
        matrix[i, j] := Min3(matrix[i - 1, j - 1] + 1, matrix[i, j - 1] + 1, matrix[i - 1, j] + 1);
      }
    }
  }

  /** `Math.round(n / d)` for non-negative operands, in exact arithmetic:
      halves round up. */
  function RoundHalfUp(n: nat, d: nat): nat
    requires d > 0
  {
    (2 * n + d) / (2 * d)
  }

  /** The rounded value `r` is the one with `n / d` in `[r - 1/2, r + 1/2)`. */
  lemma RoundHalfUpBracket(n: nat, d: nat)
    requires d > 0
    ensures 2 * RoundHalfUp(n, d) * d <= 2 * n + d < 2 * (RoundHalfUp(n, d) + 1) * d
  {
    var q, m := 2 * n + d, 2 * d;
    assert q == (q / m) * m + q % m;
  }

  lemma MulMonotonic(x: int, y: int, d: int)
    requires d >= 0 && x <= y
    ensures x * d <= y * d
  {
  }

  lemma CancelLess(x: int, y: int, d: int)
    requires d > 0 && x * d < y * d
    ensures x < y
  {
    if x >= y {
      MulMonotonic(y, x, d);
    }
  }

  lemma RoundHalfUpAtMost(n: nat, d: nat, k: nat)
    requires d > 0 && n <= k * d
    ensures RoundHalfUp(n, d) <= k
  {
    var r := RoundHalfUp(n, d);
    RoundHalfUpBracket(n, d);
    assert 2 * r * d < 2 * (k + 1) * d;
    CancelLess(2 * r, 2 * (k + 1), d);
  }

  lemma RoundHalfUpAtLeast(n: nat, d: nat, k: nat)
    requires d > 0 && 2 * n + d >= 2 * k * d
    ensures RoundHalfUp(n, d) >= k
  {
    var r := RoundHalfUp(n, d);
    RoundHalfUpBracket(n, d);
    assert 2 * k * d < 2 * (r + 1) * d;
    CancelLess(2 * k, 2 * (r + 1), d);
  }

  lemma RoundHalfUpBelow(n: nat, d: nat, k: nat)
    requires d > 0 && 2 * n + d < 2 * k * d
    ensures RoundHalfUp(n, d) < k
  {
    var r := RoundHalfUp(n, d);
    RoundHalfUpBracket(n, d);
    assert 2 * r * d < 2 * k * d;
    CancelLess(2 * r, 2 * k, d);
  }

  /** `calculateSimilarity(str1, str2)`: the rounded percentage of the longer
      length that the edit distance of the lower-cased strings leaves over; 100
      when both strings are empty. */
  function Similarity(str1: string, str2: string): (r: nat)
    ensures r <= 100
  {
    var distance := Distance(Lower(str1), Lower(str2));
    var longer := Max(|str1|, |str2|);
    if longer == 0 then 100
    else
      DistanceAtMostLonger(Lower(str1), Lower(str2));
      RoundHalfUpAtMost(100 * (longer - distance), longer, 100);
      RoundHalfUp(100 * (longer - distance), longer)
  }

  /** Strings equal up to case are 100% similar. */
  lemma SimilarityOfCaseVariants(str1: string, str2: string)
    requires Lower(str1) == Lower(str2)
    ensures Similarity(str1, str2) == 100
  {
    DistanceSelf(Lower(str1));
    var longer := Max(|str1|, |str2|);
    if longer > 0 {
      RoundHalfUpAtLeast(100 * longer, longer, 100);
    }
  }

  /** Below 200 characters, a similarity of 100 means equality up to case. */
  lemma SimilarityFullOnlyForCaseVariants(str1: string, str2: string)
    requires |str1| < 200 && |str2| < 200
    ensures Similarity(str1, str2) == 100 <==> Lower(str1) == Lower(str2)
  {
    var a, b := Lower(str1), Lower(str2);
    if a == b {
      SimilarityOfCaseVariants(str1, str2);
    } else {
      var longer := Max(|str1|, |str2|);
      if Distance(a, b) == 0 {
        DistanceZeroMeansEqual(a, b);
      }
      DistanceAtMostLonger(a, b);
      var n := 100 * (longer - Distance(a, b));
      RoundHalfUpBelow(n, longer, 100);
    }
  }

  /** From 200 characters on, one differing character still rounds to 100:
      `Math.round(99.5)` is 100. */
  lemma SimilarityRoundsUpLongNearMatch(s: string, x: char, y: char)
    requires |s| >= 199 && LowerChar(x) != LowerChar(y)
    ensures Similarity(s + [x], s + [y]) == 100
    ensures Lower(s + [x]) != Lower(s + [y])
  {
    var a, b := Lower(s + [x]), Lower(s + [y]);
    assert a[..|a| - 1] == Lower(s) == b[..|b| - 1];
    assert a[|a| - 1] != b[|b| - 1];
    DistanceSelf(Lower(s));
    assert Distance(a, b) == 1;
    var longer := |s| + 1;
    RoundHalfUpAtLeast(100 * (longer - 1), longer, 100);
  }

  /** `calculateSimilarity`, computing the distance with the matrix method. */
  method CalculateSimilarity(str1: string, str2: string) returns (r: nat)
    ensures r == Similarity(str1, str2)
    ensures r <= 100
  {
    var distance := LevenshteinDistance(Lower(str1), Lower(str2));
    var longer := if |str1| > |str2| then str1 else str2;
    if |longer| == 0 {
      return 100;
    }
    DistanceAtMostLonger(Lower(str1), Lower(str2));
    r := RoundHalfUp(100 * (|longer| - distance), |longer|);
  }
}
