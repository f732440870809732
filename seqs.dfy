/**
 Order facts about sequences shared by the store and the forecast summary.
 */
module Seqs {

  /** a can be obtained from b by deleting elements, keeping the order of the rest. */
  predicate IsSubsequence<T(==)>(a: seq<T>, b: seq<T>)
    decreases |b|
  {
    if b == [] then a == []
    else
      || (a != [] && a[|a| - 1] == b[|b| - 1] && IsSubsequence(a[..|a| - 1], b[..|b| - 1]))
      || IsSubsequence(a, b[..|b| - 1])
  }

  /** No element occurs twice. */
  predicate Distinct<T(==)>(s: seq<T>)
  {
    forall i, j :: 0 <= i < j < |s| ==> s[i] != s[j]
  }

  /** Every element of a subsequence comes from the sequence it was cut from. */
  lemma {:induction false} SubsequenceElements<T>(a: seq<T>, b: seq<T>)
    requires IsSubsequence(a, b)
    ensures forall x :: x in a ==> x in b
    decreases |b|
  {
    if b != [] {
      var b' := b[..|b| - 1];
      if a != [] && a[|a| - 1] == b[|b| - 1] && IsSubsequence(a[..|a| - 1], b') {
        SubsequenceElements(a[..|a| - 1], b');
        assert a == a[..|a| - 1] + [b[|b| - 1]];
        assert b == b' + [b[|b| - 1]];
      } else {
        SubsequenceElements(a, b');
        assert b == b' + [b[|b| - 1]];
      }
    }
  }

  /** `[f(x) for x in xs]`, built from the back as a loop appends. */
  function MapSeq<A, B>(xs: seq<A>, f: A -> B): seq<B>
  {
    if xs == [] then [] else MapSeq(xs[..|xs| - 1], f) + [f(xs[|xs| - 1])]
  }

  /** Position i of the mapped sequence holds f of the i-th element. */
  lemma {:induction false} MapSeqAt<A, B>(xs: seq<A>, f: A -> B)
    ensures |MapSeq(xs, f)| == |xs|
    ensures forall i :: 0 <= i < |xs| ==> MapSeq(xs, f)[i] == f(xs[i])
  {
    if xs != [] {
      var init := xs[..|xs| - 1];
      MapSeqAt(init, f);
      assert forall i :: 0 <= i < |init| ==> init[i] == xs[i];
    }
  }
}
