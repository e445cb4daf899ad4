/** The order a stable sort, highest rank first, puts the positions of a list in. */
module Ranking {

  predicate Ahead(ranks: seq<nat>, a: nat, b: nat)
    requires a < |ranks| && b < |ranks|
  {
    ranks[a] > ranks[b] || (ranks[a] == ranks[b] && a < b)
  }

  predicate InRange(ranks: seq<nat>, p: seq<nat>) { forall i :: 0 <= i < |p| ==> p[i] < |ranks| }

  ghost predicate InOrder(ranks: seq<nat>, p: seq<nat>)
    requires InRange(ranks, p)
  {
    forall i, j :: 0 <= i < j < |p| ==> Ahead(ranks, p[i], p[j])
  }

  /** Position `x` goes behind everything of at least its rank. */
  function Insert(ranks: seq<nat>, p: seq<nat>, x: nat): (r: seq<nat>)
    requires InRange(ranks, p) && x < |ranks|
    ensures |r| == |p| + 1 && InRange(ranks, r)
    ensures forall y: nat :: y in r <==> y in p || y == x
  {
    if p == [] || ranks[p[|p| - 1]] >= ranks[x] then p + [x]
    else Insert(ranks, p[..|p| - 1], x) + [p[|p| - 1]]
  }

  lemma {:induction false} InsertInOrder(ranks: seq<nat>, p: seq<nat>, x: nat)
    requires InRange(ranks, p) && x < |ranks| && InOrder(ranks, p) && forall i :: 0 <= i < |p| ==> p[i] < x
    ensures InOrder(ranks, Insert(ranks, p, x))
  {
    var n := |p| - 1;
    if p != [] && ranks[p[n]] < ranks[x] {
      InsertInOrder(ranks, p[..n], x);
      var q := Insert(ranks, p[..n], x);
      forall i | 0 <= i < |q|
        ensures Ahead(ranks, q[i], p[n])
      {
        assert q[i] in q;
        assert q[i] != x ==> exists k :: 0 <= k < n && p[..n][k] == q[i];
      }
    } else {
      forall i | 0 <= i < |p|
        ensures Ahead(ranks, p[i], x)
      {
        assert p[i] in p && (i < n ==> Ahead(ranks, p[i], p[n]));
      }
    }
  }

  /** The first `n` positions, sorted: each appears once, higher ranks first, ties in the original order. */
  function Order(ranks: seq<nat>, n: nat): (p: seq<nat>)
    requires n <= |ranks|
    ensures |p| == n && InRange(ranks, p) && InOrder(ranks, p)
    ensures forall i :: 0 <= i < n ==> p[i] < n
    ensures forall y: nat :: y < n ==> y in p
  {
    if n == 0 then [] else
      var q := Order(ranks, n - 1);
      InsertInOrder(ranks, q, n - 1);
      var p := Insert(ranks, q, n - 1);
      assert forall i :: 0 <= i < n ==> p[i] in p && (p[i] == n - 1 || p[i] in q);
      p
  }

  ghost predicate Ascending(s: seq<nat>) { forall i, j :: 0 <= i < j < |s| ==> s[i] < s[j] }

  /** The elements of an ordered set, in the order it is iterated. */
  method Iterate(s: set<nat>) returns (r: seq<nat>)
    ensures Ascending(r) && forall x :: x in r <==> x in s
  {
    var left := s;
    r := [];
    while left != {}
      invariant left <= s && Ascending(r)
      invariant forall x :: x in r <==> x in s && x !in left
      invariant forall i, y :: 0 <= i < |r| && y in left ==> r[i] < y
      decreases |left|
    {
      var m := Least(left);
      r := r + [m];
      left := left - {m};
    }
  }

  method Least(s: set<nat>) returns (m: nat)
    requires s != {}
    ensures m in s && forall x :: x in s ==> m <= x
  {
    m :| m in s;
    var left := s - {m};
    while left != {}
      invariant left <= s && m in s
      invariant forall x :: x in s && x !in left ==> m <= x
      decreases |left|
    {
      var x :| x in left;
      if x < m { m := x; }
      left := left - {x};
    }
  }
}
