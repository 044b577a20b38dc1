/** String primitives the matcher and the ingestion code rely on: the JavaScript
    white-space class (shared by `\s` and `String.prototype.trim`), ASCII case
    mapping, substring search, trimming and `split(/\s+/)`. */
module Text {

  /** The characters JavaScript's `\s` and `trim` treat as white space
      (WhiteSpace and LineTerminator of ECMA-262). */
  predicate IsSpace(c: char) {
    || c == ' ' || c == '\t' || c == '\n' || c == '\r' || c == '\U{0B}' || c == '\U{0C}'
    || c == '\U{A0}' || c == '\U{1680}' || ('\U{2000}' <= c <= '\U{200A}')
    || c == '\U{2028}' || c == '\U{2029}' || c == '\U{202F}' || c == '\U{205F}'
    || c == '\U{3000}' || c == '\U{FEFF}'
  }

  function LowerChar(c: char): char {
    if 'A' <= c <= 'Z' then (c as int + 32) as char else c
  }

  function UpperChar(c: char): char {
    if 'a' <= c <= 'z' then (c as int - 32) as char else c
  }

  /** `toLowerCase`, as a length-preserving map over characters. */
  function Lower(s: string): (r: string)
    ensures |r| == |s|
    ensures forall i :: 0 <= i < |s| ==> r[i] == LowerChar(s[i])
  {
    seq(|s|, i requires 0 <= i < |s| => LowerChar(s[i]))
  }

  /** `toUpperCase`, as a length-preserving map over characters. */
  function Upper(s: string): (r: string)
    ensures |r| == |s|
    ensures forall i :: 0 <= i < |s| ==> r[i] == UpperChar(s[i])
  {
    seq(|s|, i requires 0 <= i < |s| => UpperChar(s[i]))
  }

  /** `q` occurs in `s` starting at index `i`. */
  predicate OccursAt(s: string, q: string, i: int) {
    0 <= i && i + |q| <= |s| && s[i..i + |q|] == q
  }

  /** `s.includes(q)`. */
  predicate Contains(s: string, q: string) {
    exists i | 0 <= i <= |s| :: OccursAt(s, q, i)
  }

  /** `s.startsWith(q)`. */
  predicate StartsWith(s: string, q: string) {
    |q| <= |s| && s[..|q|] == q
  }

  lemma StartsWithContains(s: string, q: string)
    requires StartsWith(s, q)
    ensures Contains(s, q)
  {
    assert OccursAt(s, q, 0);
  }

  lemma OccursShift(s: string, k: int, w: string, i: int)
    requires 0 <= k <= |s| && OccursAt(s[k..], w, i)
    ensures OccursAt(s, w, k + i)
  {
    assert s[k + i..k + i + |w|] == s[k..][i..i + |w|];
  }

  /** Substring containment is transitive. */
  lemma ContainsTransitive(s: string, w: string, q: string)
    requires Contains(s, w) && Contains(w, q)
    ensures Contains(s, q)
  {
    var i :| 0 <= i <= |s| && OccursAt(s, w, i);
    var j :| 0 <= j <= |w| && OccursAt(w, q, j);
    forall k | 0 <= k < |q| ensures s[i + j + k] == q[k] {
      assert q[k] == w[j..j + |q|][k] == w[j + k] == s[i..i + |w|][j + k];
    }
    assert s[i + j..i + j + |q|] == q;
    assert OccursAt(s, q, i + j);
  }

  /** Index of the first white-space character at or after `k`, or `|s|`. */
  function FirstSpace(s: string, k: nat): (r: nat)
    requires k <= |s|
    ensures k <= r <= |s|
    ensures r < |s| ==> IsSpace(s[r])
    ensures forall m :: k <= m < r ==> !IsSpace(s[m])
    decreases |s| - k
  {
    if k == |s| || IsSpace(s[k]) then k else FirstSpace(s, k + 1)
  }

  /** End of the run of white space that starts at `k`. */
  function SkipSpaces(s: string, k: nat): (r: nat)
    requires k <= |s|
    ensures k <= r <= |s|
    ensures r < |s| ==> !IsSpace(s[r])
    ensures forall m :: k <= m < r ==> IsSpace(s[m])
    decreases |s| - k
  {
    if k == |s| || !IsSpace(s[k]) then k else SkipSpaces(s, k + 1)
  }

  /** `s.split(/\s+/)`: the maximal runs of non-space characters, with an empty
      first word when `s` starts with white space and an empty last word when
      it ends with white space. */
  function Split(s: string): (words: seq<string>)
    ensures |words| >= 1
    decreases |s|
  {
    var i := FirstSpace(s, 0);
    if i == |s| then [s]
    else
      var j := SkipSpaces(s, i);
      [s[..i]] + Split(s[j..])
  }

  /** A non-empty run of white space. */
  predicate Blank(t: string) {
    t != [] && forall m :: 0 <= m < |t| ==> IsSpace(t[m])
  }

  /** `words[0] + seps[0] + words[1] + ... + words[|words| - 1]`. */
  function Join(words: seq<string>, seps: seq<string>): string
    requires |words| == |seps| + 1
    decreases |seps|
  {
    if seps == [] then words[0] else words[0] + seps[0] + Join(words[1..], seps[1..])
  }

  /** `s` is `words` joined by the non-empty white-space runs `seps`. */
  predicate Separates(seps: seq<string>, words: seq<string>, s: string) {
    && |words| == |seps| + 1
    && (forall k :: 0 <= k < |seps| ==> Blank(seps[k]))
    && Join(words, seps) == s
  }

  /** The text is its words joined by non-empty runs of white space. With
      `SplitWordsHaveNoSpace` and `SplitInnerWordsNonEmpty` this pins the
      words down: they are the maximal non-space runs, with an empty first
      (last) word exactly when the text starts (ends) with white space. */
  lemma {:induction false} SplitRebuilds(s: string)
    ensures exists seps :: Separates(seps, Split(s), s)
    decreases |s|
  {
    var i := FirstSpace(s, 0);
    if i == |s| {
      assert Separates([], Split(s), s);
    } else {
      var j := SkipSpaces(s, i);
      var rest := s[j..];
      SplitRebuilds(rest);
      var seps :| Separates(seps, Split(rest), rest);
      assert Split(s) == [s[..i]] + Split(rest);
      Pieces(s, i, j);
      SeparatesCons(s[..i], s[i..j], seps, Split(rest), rest);
      assert Separates([s[i..j]] + seps, Split(s), s);
    }
  }

  /** Only the first and the last word of a split can be empty: white space
      inside the text separates two non-empty words. */
  lemma {:induction false} SplitInnerWordsNonEmpty(s: string)
    ensures forall k :: 0 < k < |Split(s)| - 1 ==> Split(s)[k] != []
    decreases |s|
  {
    var i := FirstSpace(s, 0);
    if i < |s| {
      var j := SkipSpaces(s, i);
      var rest := s[j..];
      SplitInnerWordsNonEmpty(rest);
      assert Split(s) == [s[..i]] + Split(rest);
      if |Split(rest)| > 1 {
        var i' := FirstSpace(rest, 0);
        assert i' < |rest|;
        assert rest[0] == s[j] && !IsSpace(rest[0]);
        assert Split(rest)[0] == rest[..i'] && i' > 0;
      }
    }
  }

  /** Putting a word and a run of white space in front of a joined text. */
  lemma SeparatesCons(w: string, sep: string, seps: seq<string>, words: seq<string>, rest: string)
    requires Blank(sep) && Separates(seps, words, rest)
    ensures Separates([sep] + seps, [w] + words, w + sep + rest)
  {
    var seps' := [sep] + seps;
    assert ([w] + words)[1..] == words && seps'[1..] == seps;
    forall k | 0 <= k < |seps'| ensures Blank(seps'[k]) {
      if k > 0 {
        assert seps'[k] == seps[k - 1];
      }
    }
  }

  lemma Pieces(s: string, i: nat, j: nat)
    requires i <= j <= |s|
    ensures s == s[..i] + s[i..j] + s[j..]
  {
    assert s[..j] == s[..i] + s[i..j];
  }

  /** Every word `split` yields is a substring of the text it came from. */
  lemma {:induction false} SplitWordsOccur(s: string)
    ensures forall k :: 0 <= k < |Split(s)| ==> Contains(s, Split(s)[k])
    decreases |s|
  {
    var i := FirstSpace(s, 0);
    if i == |s| {
      assert OccursAt(s, s, 0);
    } else {
      var j := SkipSpaces(s, i);
      var rest := s[j..];
      SplitWordsOccur(rest);
      forall k | 0 <= k < |Split(s)|
        ensures Contains(s, Split(s)[k])
      {
        if k == 0 {
          assert OccursAt(s, s[..i], 0);
        } else {
          assert Split(s)[k] == Split(rest)[k - 1];
          var p :| 0 <= p <= |rest| && OccursAt(rest, Split(rest)[k - 1], p);
          OccursShift(s, j, Split(rest)[k - 1], p);
        }
      }
    }
  }

  /** No word `split` yields contains white space. */
  lemma {:induction false} SplitWordsHaveNoSpace(s: string)
    ensures forall k, m :: 0 <= k < |Split(s)| && 0 <= m < |Split(s)[k]| ==> !IsSpace(Split(s)[k][m])
    decreases |s|
  {
    var i := FirstSpace(s, 0);
    if i < |s| {
      var j := SkipSpaces(s, i);
      SplitWordsHaveNoSpace(s[j..]);
      assert forall k :: 1 <= k < |Split(s)| ==> Split(s)[k] == Split(s[j..])[k - 1];
    }
  }

  function TrimStart(s: string): (r: string)
    ensures r == [] || !IsSpace(r[0])
    ensures |r| <= |s| && r == s[|s| - |r|..]
    ensures forall m :: 0 <= m < |s| - |r| ==> IsSpace(s[m])
  {
    if |s| > 0 && IsSpace(s[0]) then TrimStart(s[1..]) else s
  }

  function TrimEnd(s: string): (r: string)
    ensures r == [] || !IsSpace(r[|r| - 1])
    ensures |r| <= |s| && r == s[..|r|]
    ensures forall m :: |r| <= m < |s| ==> IsSpace(s[m])
  {
    if |s| > 0 && IsSpace(s[|s| - 1]) then TrimEnd(s[..|s| - 1]) else s
  }

  /** `r` occurs in `s` at `k` with only white space before and after it. */
  predicate PaddedAt(s: string, r: string, k: int) {
    && OccursAt(s, r, k)
    && (forall m :: 0 <= m < k ==> IsSpace(s[m]))
    && (forall m :: k + |r| <= m < |s| ==> IsSpace(s[m]))
  }

  /** `s.trim()`: the text between the leading and the trailing white space. */
  function Trim(s: string): (r: string)
    ensures r == [] || (!IsSpace(r[0]) && !IsSpace(r[|r| - 1]))
    ensures exists k :: PaddedAt(s, r, k)
    ensures Contains(s, r)
  {
    var t := TrimStart(s);
    var r := TrimEnd(t);
    Padding(s, t, r);
    r
  }

  /** Cutting the leading white space off `s`, giving `t`, and then the
      trailing white space off `t`, giving `r`, leaves `r` padded in `s`. */
  lemma Padding(s: string, t: string, r: string)
    requires |t| <= |s| && t == s[|s| - |t|..]
    requires forall m :: 0 <= m < |s| - |t| ==> IsSpace(s[m])
    requires t == [] || !IsSpace(t[0])
    requires |r| <= |t| && r == t[..|r|]
    requires forall m :: |r| <= m < |t| ==> IsSpace(t[m])
    requires r == [] || !IsSpace(r[|r| - 1])
    ensures r == [] || (!IsSpace(r[0]) && !IsSpace(r[|r| - 1]))
    ensures PaddedAt(s, r, |s| - |t|)
    ensures Contains(s, r)
  {
    var k := |s| - |t|;
    assert s[k..k + |r|] == r;
    assert OccursAt(s, r, k);
    forall m | k + |r| <= m < |s| ensures IsSpace(s[m]) {
      assert s[m] == t[m - k];
    }
  }

  /** Trimming leaves nothing exactly when the text is all white space. */
  lemma TrimEmptyIff(s: string)
    ensures Trim(s) == [] <==> forall m :: 0 <= m < |s| ==> IsSpace(s[m])
  {
    var t := TrimStart(s);
    if Trim(s) == [] {
      assert t == [];
    } else {
      var k := |s| - |t|;
      assert s[k] == Trim(s)[0];
    }
  }
}
