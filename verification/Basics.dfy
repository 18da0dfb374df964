/** Option, Result, and sequences without repetition, shared by every other module. */
module Basics {
  datatype Option<+T> = None | Some(value: T)

  datatype Result<+T, +E> = Ok(value: T) | Err(error: E)

  predicate Distinct<T(==)>(xs: seq<T>) {
    forall i, j :: 0 <= i < j < |xs| ==> xs[i] != xs[j]
  }

  function ToSet<T(!new)>(xs: seq<T>): (r: set<T>)
    ensures forall x :: x in r <==> x in xs
  {
    set x | x in xs
  }

  lemma DistinctAppend<T>(xs: seq<T>, x: T)
    ensures Distinct(xs + [x]) <==> Distinct(xs) && x !in xs
  {
    var ys := xs + [x];
    assert forall i :: 0 <= i < |xs| ==> ys[i] == xs[i];
    assert ys[|xs|] == x;
  }

  /** A sequence has no repetition exactly when its set is as large as it is long. */
  lemma {:induction false} DistinctCount<T(!new)>(xs: seq<T>)
    ensures |ToSet(xs)| <= |xs|
    ensures |ToSet(xs)| == |xs| <==> Distinct(xs)
  {
    if xs != [] {
      var last := |xs| - 1;
      DistinctCount(xs[..last]);
      assert xs == xs[..last] + [xs[last]];
      assert ToSet(xs) == ToSet(xs[..last]) + {xs[last]};
      if xs[last] in xs[..last] {
        assert ToSet(xs) == ToSet(xs[..last]);
      }
    }
  }
}
