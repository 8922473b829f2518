/** Finite directed graphs given by their set of edges `(from, to)`. */
module Graphs {

  ghost predicate IsPath<N(!new)>(edges: set<(N, N)>, p: seq<N>) {
    |p| >= 1 && forall i :: 0 <= i < |p| - 1 ==> (p[i], p[i + 1]) in edges
  }

  /** `p` is a path of one or more edges from `a` to `b`. */
  ghost predicate Connects<N(!new)>(edges: set<(N, N)>, p: seq<N>, a: N, b: N) {
    |p| >= 2 && p[0] == a && p[|p| - 1] == b && IsPath(edges, p)
  }

  /** `b` is reachable from `a` by a non-empty path. */
  ghost predicate Reaches<N(!new)>(edges: set<(N, N)>, a: N, b: N) {
    exists p :: Connects(edges, p, a, b)
  }

  ghost predicate Cyclic<N(!new)>(edges: set<(N, N)>) {
    exists a :: Reaches(edges, a, a)
  }

  ghost predicate Distinct<T(!new)>(s: seq<T>) {
    forall i, j :: 0 <= i < j < |s| ==> s[i] != s[j]
  }

  function Elements<T>(s: seq<T>): set<T> {
    set x | x in s
  }

  /** `a` occurs strictly earlier than `b`. */
  ghost predicate Before<T(!new)>(s: seq<T>, a: T, b: T) {
    exists i, j :: 0 <= i < j < |s| && s[i] == a && s[j] == b
  }

  // Facts about sequences, kept apart because they are costly amid quantifiers.

  lemma SplitLast<T>(s: seq<T>)
    requires s != []
    ensures s == s[..|s| - 1] + [s[|s| - 1]]
  {
  }

  lemma PrefixSnoc<T>(s: seq<T>, k: nat)
    requires k < |s|
    ensures s[..k + 1] == s[..k] + [s[k]]
    ensures s[..|s|] == s
  {
  }

  lemma DropHead<T>(s: seq<T>, j: nat)
    requires j < |s|
    ensures s[j..] == [s[j]] + s[j + 1..]
  {
  }

  lemma EdgeReaches<N(!new)>(edges: set<(N, N)>, a: N, b: N)
    requires (a, b) in edges
    ensures Reaches(edges, a, b)
  {
    assert Connects(edges, [a, b], a, b);
  }

  lemma ReachesTransitive<N(!new)>(edges: set<(N, N)>, a: N, b: N, c: N)
    requires Reaches(edges, a, b) && Reaches(edges, b, c)
    ensures Reaches(edges, a, c)
  {
    var p :| Connects(edges, p, a, b);
    var q :| Connects(edges, q, b, c);
    assert Connects(edges, p + q[1..], a, c);
  }

  lemma ReachesAppend<N(!new)>(edges: set<(N, N)>, a: N, b: N, c: N)
    requires Reaches(edges, a, b) && (b, c) in edges
    ensures Reaches(edges, a, c)
  {
    EdgeReaches(edges, b, c);
    ReachesTransitive(edges, a, b, c);
  }

  /** The last edge of a path. */
  lemma ReachesLast<N(!new)>(edges: set<(N, N)>, a: N, c: N) returns (b: N)
    requires Reaches(edges, a, c)
    ensures (b, c) in edges && (a == b || Reaches(edges, a, b))
  {
    var p :| Connects(edges, p, a, c);
    b := p[|p| - 2];
    if |p| > 2 {
      assert Connects(edges, p[..|p| - 1], a, b);
    }
  }

  /** The first edge of a path. */
  lemma ReachesFirst<N(!new)>(edges: set<(N, N)>, a: N, c: N) returns (b: N)
    requires Reaches(edges, a, c)
    ensures (a, b) in edges && (b == c || Reaches(edges, b, c))
  {
    var p :| Connects(edges, p, a, c);
    b := p[1];
    if |p| > 2 {
      assert Connects(edges, p[1..], b, c);
    }
  }

  lemma ReachesMonotone<N(!new)>(small: set<(N, N)>, large: set<(N, N)>, a: N, b: N)
    requires small <= large && Reaches(small, a, b)
    ensures Reaches(large, a, b)
  {
    var p :| Connects(small, p, a, b);
    assert Connects(large, p, a, b);
  }

  /** Whatever contains the successors of `a` and is closed under edges contains all that `a` reaches. */
  lemma {:induction false} ClosedContainsPath<N(!new)>(edges: set<(N, N)>, closed: set<N>, p: seq<N>, k: nat)
    requires IsPath(edges, p) && 1 <= k < |p|
    requires forall e :: e in edges && (e.0 == p[0] || e.0 in closed) ==> e.1 in closed
    ensures p[k] in closed
  {
    if k > 1 {
      ClosedContainsPath(edges, closed, p, k - 1);
    }
    assert (p[k - 1], p[k - 1 + 1]) in edges;
  }

  lemma ClosedContainsReachable<N(!new)>(edges: set<(N, N)>, closed: set<N>, a: N, b: N)
    requires Reaches(edges, a, b)
    requires forall e :: e in edges && (e.0 == a || e.0 in closed) ==> e.1 in closed
    ensures b in closed
  {
    var p :| Connects(edges, p, a, b);
    ClosedContainsPath(edges, closed, p, |p| - 1);
  }

  lemma {:induction false} DistinctBounded<T(!new)>(s: seq<T>, within: set<T>)
    requires Distinct(s) && forall x :: x in s ==> x in within
    ensures |s| <= |within|
  {
    if s != [] {
      var last := s[|s| - 1];
      DistinctBounded(s[..|s| - 1], within - {last});
    }
  }

  lemma {:induction false} DistinctCardinality<T(!new)>(s: seq<T>)
    requires Distinct(s)
    ensures |Elements(s)| == |s|
  {
    if s != [] {
      var front, last := s[..|s| - 1], s[|s| - 1];
      DistinctCardinality(front);
      assert Elements(s) == Elements(front) + {last};
    }
  }

  lemma SubsetOfSameSize<T(!new)>(a: set<T>, b: set<T>)
    requires a <= b && |a| == |b|
    ensures a == b
  {
    assert b == a + (b - a);
  }

  ghost predicate HasPredecessorIn<N(!new)>(edges: set<(N, N)>, within: set<N>, x: N) {
    exists y :: y in within && (y, x) in edges
  }

  /** Pigeonhole: walking backwards inside a finite set must repeat a node. */
  lemma {:induction false} BackwardWalkFindsCycle<N(!new)>(edges: set<(N, N)>, within: set<N>, p: seq<N>)
    requires forall x :: x in within ==> HasPredecessorIn(edges, within, x)
    requires IsPath(edges, p) && Distinct(p) && forall x :: x in p ==> x in within
    ensures Cyclic(edges)
    decreases |within| - |p|
  {
    assert HasPredecessorIn(edges, within, p[0]);
    var y :| y in within && (y, p[0]) in edges;
    if y in p {
      var i :| 0 <= i < |p| && p[i] == y;
      assert Connects(edges, [y] + p[..i + 1], y, y);
      assert Reaches(edges, y, y);
    } else {
      DistinctBounded([y] + p, within);
      BackwardWalkFindsCycle(edges, within, [y] + p);
    }
  }

  /** A total order that respects every edge rules out cycles. */
  lemma {:induction false} PathClimbs<N(!new)>(edges: set<(N, N)>, order: seq<N>, p: seq<N>, k: nat)
    returns (i: nat, j: nat)
    requires Distinct(order) && forall e :: e in edges ==> Before(order, e.0, e.1)
    requires IsPath(edges, p) && 1 <= k < |p|
    ensures i < j < |order| && order[i] == p[0] && order[j] == p[k]
  {
    var e := (p[k - 1], p[k - 1 + 1]);
    assert e in edges;
    var a, b :| 0 <= a < b < |order| && order[a] == e.0 && order[b] == e.1;
    i, j := a, b;
    if k > 1 {
      var c;
      i, c := PathClimbs(edges, order, p, k - 1);
    }
  }

  lemma OrderedIsAcyclic<N(!new)>(edges: set<(N, N)>, order: seq<N>)
    requires Distinct(order) && forall e :: e in edges ==> Before(order, e.0, e.1)
    ensures !Cyclic(edges)
  {
    if Cyclic(edges) {
      var a :| Reaches(edges, a, a);
      var p :| Connects(edges, p, a, a);
      var i, j := PathClimbs(edges, order, p, |p| - 1);
      assert false;
    }
  }
}
