/** Applying a function to every element of a sequence, built front to back as the source's loops append. */
module Sequences {

  function MapSeq<A, B>(f: A -> B, xs: seq<A>): seq<B> {
    if xs == [] then [] else MapSeq(f, xs[..|xs| - 1]) + [f(xs[|xs| - 1])]
  }

  /** `MapSeq` keeps the length and applies `f` at each index. */
  lemma {:induction false} MapSeqAt<A, B>(f: A -> B, xs: seq<A>)
    ensures |MapSeq(f, xs)| == |xs|
    ensures forall i :: 0 <= i < |xs| ==> MapSeq(f, xs)[i] == f(xs[i])
  {
    if xs != [] {
      MapSeqAt(f, xs[..|xs| - 1]);
    }
  }

  /** `MapSeq` read from the front: the first image, then the images of the rest. */
  lemma MapSeqCons<A, B>(f: A -> B, xs: seq<A>)
    requires xs != []
    ensures MapSeq(f, xs) == [f(xs[0])] + MapSeq(f, xs[1..])
  {
    MapSeqAt(f, xs);
    MapSeqAt(f, xs[1..]);
  }

  /** No element occurs twice: a directory listing. */
  predicate Distinct<T(==)>(xs: seq<T>) {
    forall i, j :: 0 <= i < j < |xs| ==> xs[i] != xs[j]
  }

  /** In a sequence without repeats, each member occurs exactly once. */
  lemma {:induction false} DistinctOnce<T>(xs: seq<T>, x: T)
    requires Distinct(xs) && x in xs
    ensures multiset(xs)[x] == 1
  {
    var front := xs[..|xs| - 1];
    var last := xs[|xs| - 1];
    assert xs == front + [last];
    assert Distinct(front);
    if x == last {
      assert x !in front;
    } else {
      DistinctOnce(front, x);
    }
  }
}
