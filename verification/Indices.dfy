/** Indices selected by a test, in order. */
module Indices {
  /** `enumerate().filter(..).map(index)`. */
  function Filter(n: nat, test: nat -> bool): (r: seq<nat>)
    ensures forall i :: i in r <==> 0 <= i < n && test(i)
    ensures forall a, b :: 0 <= a < b < |r| ==> r[a] < r[b]
  {
    if n == 0 then []
    else
      var front := Filter(n - 1, test);
      assert forall a :: 0 <= a < |front| ==> front[a] in front;
      front + if test(n - 1) then [n - 1] else []
  }

  /** A test that only one index passes selects that one. */
  lemma {:induction false} FilterOne(n: nat, test: nat -> bool, k: nat)
    requires k < n && forall i: nat :: i < n ==> (test(i) <==> i == k)
    ensures Filter(n, test) == [k]
  {
    if k == n - 1 {
      FilterNone(n - 1, test);
    } else {
      FilterOne(n - 1, test, k);
    }
  }

  lemma {:induction false} FilterNone(n: nat, test: nat -> bool)
    requires forall i: nat :: i < n ==> !test(i)
    ensures Filter(n, test) == []
  {
    if n == 0 {
    } else {
      FilterNone(n - 1, test);
    }
  }

  predicate Distinct(s: seq<nat>) {
    forall i, j :: 0 <= i < j < |s| ==> s[i] != s[j]
  }

  ghost function Elements(s: seq<nat>): (r: set<nat>) {
    set x | x in s
  }

  lemma {:induction false} DistinctCard(s: seq<nat>)
    requires Distinct(s)
    ensures |Elements(s)| == |s|
  {
    if s == [] {
      assert Elements(s) == {};
    } else {
      var front, last := s[..|s| - 1], s[|s| - 1];
      DistinctCard(front);
      assert last !in front;
      assert s == front + [last];
      assert Elements(s) == Elements(front) + {last};
    }
  }

  /** As many distinct indices as there are places fill all the places. */
  lemma Pigeonhole(image: seq<nat>, all: seq<nat>)
    requires Distinct(image) && Distinct(all) && |image| == |all|
    requires forall i :: 0 <= i < |image| ==> image[i] in all
    ensures forall x :: x in all ==> x in image
  {
    DistinctCard(image);
    DistinctCard(all);
    var a, b := Elements(image), Elements(all);
    assert a <= b;
    assert b == (b - a) + a;
    assert b - a == {};
    forall x | x in all ensures x in image {
      assert x in b && x in a;
    }
  }
}
