/** The optional-value type used for JavaScript's `null`/`undefined` results,
    and the filter that keeps the present values of a list. */
module Wrappers {

  datatype Option<+T> = None | Some(value: T)

  /** The present values of `xs`, in order: what a loop that pushes only the
      present values leaves behind. */
  function Somes<T>(xs: seq<Option<T>>): (r: seq<T>)
    ensures |r| <= |xs|
    ensures forall k :: 0 <= k < |r| ==> Some(r[k]) in xs
  {
    if xs == [] then []
    else
      var init, last := xs[..|xs| - 1], xs[|xs| - 1];
      var prev := Somes(init);
      var r := prev + (if last.Some? then [last.value] else []);
      assert forall k :: 0 <= k < |prev| ==> r[k] == prev[k];
      assert forall o :: o in init ==> o in xs;
      r
  }

  /** Every present value of `xs` is kept. */
  lemma {:induction false} SomesComplete<T>(xs: seq<Option<T>>, i: int)
    requires 0 <= i < |xs| && xs[i].Some?
    ensures xs[i].value in Somes(xs)
  {
    var init := xs[..|xs| - 1];
    if i < |init| {
      assert init[i] == xs[i];
      SomesComplete(init, i);
    }
  }

  /** The kept values keep their relative order. */
  lemma {:induction false} SomesInOrder<T>(xs: seq<Option<T>>, j: int, k: int)
    requires 0 <= j < k < |Somes(xs)|
    ensures exists p, q :: 0 <= p < q < |xs| && xs[p] == Some(Somes(xs)[j]) && xs[q] == Some(Somes(xs)[k])
  {
    var init := xs[..|xs| - 1];
    var prev := Somes(init);
    assert forall m :: 0 <= m < |prev| ==> Somes(xs)[m] == prev[m];
    if k < |prev| {
      SomesInOrder(init, j, k);
      var p, q :| 0 <= p < q < |init| && init[p] == Some(prev[j]) && init[q] == Some(prev[k]);
      assert xs[p] == init[p] && xs[q] == init[q];
    } else {
      assert Some(prev[j]) in init;
      var p :| 0 <= p < |init| && init[p] == Some(prev[j]);
      assert xs[p] == init[p];
      assert xs[|xs| - 1] == Some(Somes(xs)[k]);
    }
  }

  /** Visiting one more candidate extends the kept values by its value, if any. */
  lemma SomesStep<T>(xs: seq<Option<T>>, n: int)
    requires 0 <= n < |xs|
    ensures Somes(xs[..n + 1]) == Somes(xs[..n]) + (if xs[n].Some? then [xs[n].value] else [])
  {
    assert xs[..n + 1][..n] == xs[..n];
  }
}
