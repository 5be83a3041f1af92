/** Numbers below a bound, and pigeonhole facts about lists of them. */
module Counting {

  function Below(n: nat): (s: set<nat>)
    ensures forall x: nat :: x in s <==> x < n
    ensures |s| == n
  {
    if n == 0 then {} else Below(n - 1) + {n - 1}
  }

  /** A set of numbers below `n` has at most `n` elements. */
  lemma {:induction false} BoundedSet(s: set<nat>, n: nat)
    requires forall x | x in s :: x < n
    ensures |s| <= n
  {
    if n > 0 {
      BoundedSet(s - {n - 1}, n - 1);
    } else if x :| x in s {
      assert false;
    }
  }

  lemma {:induction false} DistinctBound(values: seq<nat>, n: nat)
    requires forall i | 0 <= i < |values| :: values[i] < n
    requires forall i, j | 0 <= i < j < |values| :: values[i] != values[j]
    ensures |values| <= n
    decreases n
  {
    if values != [] {
      DistinctSize(values);
      BoundedSet(Elements(values), n);
    }
  }

  function Elements(values: seq<nat>): set<nat> {
    set x: nat | x in values
  }

  lemma {:induction false} DistinctSize(values: seq<nat>)
    requires forall i, j | 0 <= i < j < |values| :: values[i] != values[j]
    ensures |Elements(values)| == |values|
  {
    if values != [] {
      var n := |values| - 1;
      DistinctSize(values[..n]);
      assert values == values[..n] + [values[n]];
      assert Elements(values) == Elements(values[..n]) + {values[n]};
      assert values[n] !in values[..n];
    }
  }

  /** Distinct numbers below `n`, as many as there are, are all of them. */
  lemma DistinctOnto(images: seq<nat>, target: nat)
    requires target < |images|
    requires forall i | 0 <= i < |images| :: images[i] < |images|
    requires forall i, j | 0 <= i < j < |images| :: images[i] != images[j]
    ensures target in images
  {
    if target !in images {
      DistinctBound(images + [target], |images|);
    }
  }
}
