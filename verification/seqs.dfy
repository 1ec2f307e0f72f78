/** Sequence facts shared by the pages: duplicate removal in first-seen order,
    which is what spreading a JavaScript `Set` built from a list produces. */
module Seqs {

  /** No value occurs twice. */
  predicate NoDuplicates<T(==)>(xs: seq<T>) {
    forall i, j :: 0 <= i < j < |xs| ==> xs[i] != xs[j]
  }

  /** The position of the first occurrence of `x` in `xs`. */
  function FirstIndex<T(==)>(xs: seq<T>, x: T): (k: nat)
    requires x in xs
    ensures k < |xs| && xs[k] == x
    ensures forall i :: 0 <= i < k ==> xs[i] != x
  {
    if xs[0] == x then 0 else 1 + FirstIndex(xs[1..], x)
  }

  /** `[...new Set(xs)]`: a Set keeps its insertion order and ignores a value it already
      holds, so the values of `xs` come out once each, in the order they are first seen. */
  function Distinct<T(==)>(xs: seq<T>): (r: seq<T>)
    ensures NoDuplicates(r)
    ensures forall i :: 0 <= i < |xs| ==> xs[i] in r
    ensures forall k :: 0 <= k < |r| ==> r[k] in xs
    ensures |r| <= |xs|
  {
    if |xs| == 0 then []
    else
      var r := Distinct(xs[..|xs| - 1]);
      var x := xs[|xs| - 1];
      assert forall i :: 0 <= i < |xs| - 1 ==> xs[i] == xs[..|xs| - 1][i];
      if x in r then r else r + [x]
  }

  /** Adding one value at the end: it is kept exactly when it was not seen before. */
  lemma DistinctSnoc<T>(xs: seq<T>, x: T)
    ensures Distinct(xs + [x]) == if x in xs then Distinct(xs) else Distinct(xs) + [x]
  {
    assert (xs + [x])[..|xs|] == xs;
    if x in xs {
      var i :| 0 <= i < |xs| && xs[i] == x;
      assert x in Distinct(xs);
    } else {
      assert x !in Distinct(xs);
    }
  }

  /** A value already present in a prefix has the same first position in the whole sequence. */
  lemma {:induction false} FirstIndexInPrefix<T>(xs: seq<T>, n: nat, x: T)
    requires n <= |xs| && x in xs[..n]
    ensures x in xs && FirstIndex(xs, x) == FirstIndex(xs[..n], x)
  {
    var k := FirstIndex(xs[..n], x);
    assert forall i :: 0 <= i < n ==> xs[..n][i] == xs[i];
    assert xs[k] == x;
  }

  /** The values `Distinct` returns are ordered by where each first occurs in the input. */
  lemma {:induction false} DistinctFirstSeenOrder<T>(xs: seq<T>)
    ensures forall i, j :: 0 <= i < j < |Distinct(xs)| ==>
      FirstIndex(xs, Distinct(xs)[i]) < FirstIndex(xs, Distinct(xs)[j])
  {
    if |xs| > 0 {
      var n := |xs| - 1;
      var p := xs[..n];
      var rp := Distinct(p);
      var x := xs[n];
      DistinctFirstSeenOrder(p);
      assert xs == p + [x];
      forall y | y in rp
        ensures FirstIndex(xs, y) == FirstIndex(p, y) < n
      {
        FirstIndexInPrefix(xs, n, y);
      }
      if x !in rp {
        assert x !in p;
        assert FirstIndex(xs, x) == n;
        assert Distinct(xs) == rp + [x];
      }
    }
  }
}
