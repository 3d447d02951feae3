module Pigeonhole {
  ghost predicate Distinct(path: seq<nat>) {
    forall j, k :: 0 <= j < k < |path| ==> path[j] != path[k]
  }

  ghost function Below(n: nat): (s: set<nat>)
    ensures |s| == n
    ensures forall x :: x in s <==> 0 <= x < n
  {
    if n == 0 then {} else Below(n - 1) + {n - 1}
  }

  ghost function Elements(path: seq<nat>): (s: set<nat>)
    requires Distinct(path)
    ensures |s| == |path|
    ensures forall x :: x in s <==> x in path
  {
    if path == [] then {}
    else
      assert forall x :: x in path <==> x == path[0] || x in path[1..];
      {path[0]} + Elements(path[1..])
  }

  lemma {:induction false} SubsetCardinality(a: set<nat>, b: set<nat>)
    requires a <= b
    ensures |a| <= |b|
  {
    if a != {} {
      var x :| x in a;
      SubsetCardinality(a - {x}, b - {x});
    }
  }

  /** A sequence of distinct numbers below `n` has at most `n` elements. */
  lemma DistinctIsShort(n: nat, path: seq<nat>)
    requires Distinct(path) && forall k :: 0 <= k < |path| ==> path[k] < n
    ensures |path| <= n
  {
    SubsetCardinality(Elements(path), Below(n));
  }

  /** A sequence of `n` distinct numbers below `n` contains each of them. */
  lemma DistinctIsAll(n: nat, path: seq<nat>, x: nat)
    requires Distinct(path) && forall k :: 0 <= k < |path| ==> path[k] < n
    requires |path| == n && x < n
    ensures x in path
  {
    if x !in path {
      SubsetCardinality(Elements(path), Below(n) - {x});
    }
  }
}
