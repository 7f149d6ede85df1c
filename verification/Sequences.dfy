/** Sequences without repeats. */
module Sequences {

  predicate IsSimple<T(==)>(p: seq<T>) {
    forall i, j :: 0 <= i < j < |p| ==> p[i] != p[j]
  }

  /** One within a set is no longer than the set. */
  lemma {:induction false} SimpleFits<T>(p: seq<T>, all: set<T>)
    requires IsSimple(p) && forall i :: 0 <= i < |p| ==> p[i] in all
    ensures |p| <= |all|
    decreases |p|
  {
    if p != [] {
      var last := p[|p| - 1];
      SimpleFits(p[..|p| - 1], all - {last});
    }
  }
}
