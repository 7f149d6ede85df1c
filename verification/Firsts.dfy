/** De-duplication on a key, as the reporter and the proposal finder both do it: keep the
    first value with each key, in the order the keys were first seen. */
module Firsts {
  import opened Texts

  function KeysOf<T>(xs: seq<T>, key: T -> Text): set<Text> {
    set i | 0 <= i < |xs| :: key(xs[i])
  }

  function FirstBy<T>(xs: seq<T>, key: T -> Text): seq<T> {
    if xs == [] then []
    else
      var found := FirstBy(xs[..|xs| - 1], key);
      var last := xs[|xs| - 1];
      if key(last) in KeysOf(found, key) then found else found + [last]
  }

  lemma KeysOfSnoc<T>(xs: seq<T>, key: T -> Text, x: T)
    ensures KeysOf(xs + [x], key) == KeysOf(xs, key) + {key(x)}
  {
    var ys := xs + [x];
    assert ys[|xs|] == x;
    assert forall i :: 0 <= i < |xs| ==> ys[i] == xs[i];
  }

  lemma FirstBySnoc<T>(xs: seq<T>, key: T -> Text, x: T)
    ensures FirstBy(xs + [x], key) ==
            if key(x) in KeysOf(FirstBy(xs, key), key) then FirstBy(xs, key) else FirstBy(xs, key) + [x]
  {
    assert (xs + [x])[..|xs|] == xs;
  }

  /** No key is lost and none is made up. */
  lemma {:induction false} FirstByKeys<T>(xs: seq<T>, key: T -> Text)
    ensures KeysOf(FirstBy(xs, key), key) == KeysOf(xs, key)
  {
    if xs != [] {
      var before := xs[..|xs| - 1];
      var last := xs[|xs| - 1];
      assert xs == before + [last];
      FirstByKeys(before, key);
      KeysOfSnoc(before, key, last);
      KeysOfSnoc(FirstBy(before, key), key, last);
    }
  }

  /** Where each kept value stood: at the first position of its key, and in that order. */
  lemma {:induction false} FirstByPositions<T>(xs: seq<T>, key: T -> Text) returns (at: seq<nat>)
    ensures |at| == |FirstBy(xs, key)|
    ensures forall k :: 0 <= k < |at| ==> at[k] < |xs| && xs[at[k]] == FirstBy(xs, key)[k]
    ensures forall k, j :: 0 <= k < |at| && 0 <= j < at[k] ==> key(xs[j]) != key(xs[at[k]])
    ensures forall j, k :: 0 <= j < k < |at| ==> at[j] < at[k]
  {
    at := [];
    if xs != [] {
      var n := |xs| - 1;
      var before := xs[..n];
      var last := xs[n];
      assert xs == before + [last];
      at := FirstByPositions(before, key);
      FirstByKeys(before, key);
      if key(last) !in KeysOf(before, key) {
        forall j | 0 <= j < n ensures key(xs[j]) != key(last) {
          assert key(before[j]) in KeysOf(before, key);
        }
        at := at + [n];
      }
    }
  }

  /** Values whose keys have all been seen add nothing. */
  lemma {:induction false} FirstBySeen<T>(xs: seq<T>, ys: seq<T>, key: T -> Text)
    requires KeysOf(ys, key) <= KeysOf(xs, key)
    ensures FirstBy(xs + ys, key) == FirstBy(xs, key)
  {
    if ys == [] {
      assert xs + ys == xs;
    } else {
      var before := ys[..|ys| - 1];
      var last := ys[|ys| - 1];
      assert ys == before + [last];
      KeysOfSnoc(before, key, last);
      FirstBySeen(xs, before, key);
      assert xs + ys == (xs + before) + [last];
      FirstBySnoc(xs + before, key, last);
      FirstByKeys(xs, key);
    }
  }

  lemma {:induction false} FirstByMember<T>(xs: seq<T>, key: T -> Text, x: T)
    requires x in FirstBy(xs, key)
    ensures x in xs
  {
    var before := xs[..|xs| - 1];
    assert xs == before + [xs[|xs| - 1]];
    if x in FirstBy(before, key) { FirstByMember(before, key, x); }
  }

  /** Every value has a kept one with its key. */
  lemma FirstByCovers<T>(xs: seq<T>, key: T -> Text, x: T)
    requires x in xs
    ensures exists y :: y in FirstBy(xs, key) && key(y) == key(x)
  {
    var i :| 0 <= i < |xs| && xs[i] == x;
    assert key(xs[i]) in KeysOf(xs, key);
    FirstByKeys(xs, key);
    var found := FirstBy(xs, key);
    var j :| 0 <= j < |found| && key(found[j]) == key(x);
    assert found[j] in found;
  }

  lemma FirstByDistinct<T>(xs: seq<T>, key: T -> Text, j: nat, k: nat)
    requires j < k < |FirstBy(xs, key)|
    ensures key(FirstBy(xs, key)[j]) != key(FirstBy(xs, key)[k])
  {
    var at := FirstByPositions(xs, key);
    assert at[j] < at[k];
  }
}
