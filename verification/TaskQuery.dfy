/** The recursive `UNION ALL` query of `_descendants`: when it stops, and what one of its rounds keeps. */
module TaskQuery {
  import opened DagRuntime
  import opened Graphs
  import opened TaskInvariants
  import opened TaskStore

  // The query emits one row per path from the root, so it stops when paths are bounded.

  ghost predicate HasWalk<N(!new)>(edges: set<(N, N)>, a: N, n: nat) {
    exists p :: |p| == n + 1 && p[0] == a && IsPath(edges, p)
  }

  lemma {:induction false} CycleWalksForever<N(!new)>(edges: set<(N, N)>, x: N, n: nat)
    requires Reaches(edges, x, x)
    ensures HasWalk(edges, x, n)
  {
    if n == 0 {
      assert IsPath(edges, [x]);
    } else {
      var b := ReachesFirst(edges, x, x);
      if b != x {
        ReachesAppend(edges, b, x, b);
      }
      CycleWalksForever(edges, b, n - 1);
      var p :| |p| == n && p[0] == b && IsPath(edges, p);
      assert IsPath(edges, [x] + p);
    }
  }

  lemma WalkThroughPath<N(!new)>(edges: set<(N, N)>, a: N, x: N, n: nat)
    requires Reaches(edges, a, x) && HasWalk(edges, x, n)
    ensures HasWalk(edges, a, n)
  {
    var q :| Connects(edges, q, a, x);
    var p :| |p| == n + 1 && p[0] == x && IsPath(edges, p);
    var walk := (q + p[1..])[..n + 1];
    assert walk[0] == a && IsPath(edges, walk);
  }

  lemma LongWalkRepeats<N(!new)>(edges: set<(N, N)>, p: seq<N>)
    requires IsPath(edges, p) && |p| > |Targets(edges)| + 1
    ensures exists x :: Reaches(edges, p[0], x) && Reaches(edges, x, x)
  {
    var later := p[1..];
    forall x | x in later ensures x in Targets(edges) {
      var i :| 0 <= i < |later| && later[i] == x;
      assert (p[i], p[i + 1]) in edges && (p[i], p[i + 1]).1 == x;
    }
    if Distinct(later) {
      DistinctBounded(later, Targets(edges));
    }
    var i, j :| 0 <= i < j < |later| && later[i] == later[j];
    assert Connects(edges, p[..i + 2], p[0], p[i + 1]);
    assert Connects(edges, p[i + 1..j + 2], p[i + 1], p[i + 1]);
    assert Reaches(edges, p[0], p[i + 1]) && Reaches(edges, p[i + 1], p[i + 1]);
  }

  /** The paths from `id` are bounded in length exactly when no cycle can be reached from it. */
  lemma QueryStopsWhenWalksAreBounded(edges: set<(TaskId, TaskId)>, id: TaskId)
    ensures QueryStops(edges, id) <==> exists n: nat :: !HasWalk(edges, id, n)
  {
    if QueryStops(edges, id) {
      var n := |Targets(edges)| + 1;
      if HasWalk(edges, id, n) {
        var p :| |p| == n + 1 && p[0] == id && IsPath(edges, p);
        LongWalkRepeats(edges, p);
      }
      assert !HasWalk(edges, id, n);
    } else {
      var x :| (x == id || Reaches(edges, id, x)) && Reaches(edges, x, x);
      forall n: nat ensures HasWalk(edges, id, n) {
        CycleWalksForever(edges, x, n);
        if x != id {
          WalkThroughPath(edges, id, x, n);
        }
      }
    }
  }

  lemma {:induction false} SelfParentIsARoot(s: Store, p: seq<TaskId>, a: TaskId, x: TaskId)
    requires Forest(s) && (x, x) in s.edges && Connects(s.edges, p, a, x)
    ensures a == x
    decreases |p|
  {
    var m := p[|p| - 2];
    assert (m, p[|p| - 2 + 1]) in s.edges && EdgeIsParent(s, (m, x)) && EdgeIsParent(s, (x, x));
    if |p| > 2 {
      SelfParentIsARoot(s, p[..|p| - 1], a, m);
    }
  }

  /** On the edges `create_task` can build, the query for a task stops unless the task is its own parent. */
  lemma QueryStopsUnlessSelfParent(s: Store, id: TaskId)
    requires Forest(s)
    ensures QueryStops(s.edges, id) <==> (id, id) !in s.edges
  {
    CyclesAreSelfParents(s, id);
    forall x | Reaches(s.edges, id, x) && Reaches(s.edges, x, x) ensures x == id {
      CyclesAreSelfParents(s, x);
      var p :| Connects(s.edges, p, id, x);
      SelfParentIsARoot(s, p, id, x);
    }
  }

  /** Rows found so far; those before `i` have had their children's edges appended. */
  ghost predicate Querying(edges: set<(TaskId, TaskId)>, id: TaskId, rows: seq<(TaskId, TaskId)>, i: nat) {
    && i <= |rows|
    && Distinct(rows)
    && (forall e :: e in rows ==> e in ReachableEdges(edges, id))
    && (forall e :: e in edges && e.0 == id ==> e in rows)
    && (forall e, k :: e in edges && 0 <= k < i && e.0 == rows[k].1 ==> e in rows)
    && (forall e :: e in rows ==> e.0 == id || exists k :: 0 <= k < i && rows[k].1 == e.0)
  }

  lemma ConcatDistinct<T(!new)>(a: seq<T>, b: seq<T>)
    requires Distinct(a) && Distinct(b) && forall x :: x in b ==> x !in a
    ensures Distinct(a + b)
  {
    forall i, j | 0 <= i < j < |a + b| ensures (a + b)[i] != (a + b)[j] {
      if j >= |a| {
        assert (a + b)[j] == b[j - |a|] && b[j - |a|] in b;
      }
    }
  }

  lemma RowChildReachable(edges: set<(TaskId, TaskId)>, id: TaskId, e: (TaskId, TaskId))
    requires e in ReachableEdges(edges, id)
    ensures Reaches(edges, id, e.1)
  {
    if e.0 == id {
      EdgeReaches(edges, id, e.1);
    } else {
      ReachesAppend(edges, id, e.0, e.1);
    }
  }

  lemma ChildEdgesAreNew(s: Store, id: TaskId, rows: seq<(TaskId, TaskId)>, i: nat, e: (TaskId, TaskId))
    requires Forest(s) && (id, id) !in s.edges && Querying(s.edges, id, rows, i) && i < |rows|
    requires e in s.edges && e.0 == rows[i].1
    ensures e !in rows && e in ReachableEdges(s.edges, id)
  {
    RowChildReachable(s.edges, id, rows[i]);
    CyclesAreSelfParents(s, id);
    assert e.0 != id;
    forall k | 0 <= k < i ensures rows[k].1 != e.0 {
      assert rows[k] in rows && rows[i] in rows;
      assert EdgeIsParent(s, rows[k]) && EdgeIsParent(s, rows[i]);
      assert rows[k] != rows[i];
    }
  }

  lemma QueryOneRow(s: Store, id: TaskId, rows: seq<(TaskId, TaskId)>, i: nat, found: seq<(TaskId, TaskId)>)
    requires Forest(s) && (id, id) !in s.edges && Querying(s.edges, id, rows, i) && i < |rows|
    requires Distinct(found) && forall e :: e in found <==> e in s.edges && e.0 == rows[i].1
    ensures Querying(s.edges, id, rows + found, i + 1)
  {
    forall e | e in found ensures e !in rows && e in ReachableEdges(s.edges, id) {
      ChildEdgesAreNew(s, id, rows, i, e);
    }
    ConcatDistinct(rows, found);
    var longer := rows + found;
    forall e | e in longer ensures e.0 == id || exists k :: 0 <= k < i + 1 && longer[k].1 == e.0 {
      if e in rows && e.0 != id {
        var k :| 0 <= k < i && rows[k].1 == e.0;
        assert longer[k].1 == e.0;
      } else if e !in rows {
        assert longer[i].1 == e.0;
      }
    }
  }

  lemma QueryDone(edges: set<(TaskId, TaskId)>, id: TaskId, rows: seq<(TaskId, TaskId)>)
    requires Querying(edges, id, rows, |rows|)
    ensures Elements(rows) == ReachableEdges(edges, id)
  {
    var targets := set e | e in rows :: e.1;
    forall e | e in ReachableEdges(edges, id) ensures e in rows {
      if e.0 != id {
        forall f | f in edges && (f.0 == id || f.0 in targets) ensures f.1 in targets {
          assert f in rows;
        }
        ClosedContainsReachable(edges, targets, id, e.0);
        var f :| f in rows && f.1 == e.0;
        var k :| 0 <= k < |rows| && rows[k] == f;
      }
    }
  }
}
