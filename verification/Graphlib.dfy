/** Python's `graphlib.TopologicalSorter`, which the task runtime and the pipeline compiler both rely on. */
module Graphlib {
  import opened Graphs
  import opened Wrappers

  /** How many edges still lead into `x` from nodes that are not done; repeated edges count repeatedly. */
  function Pending<N(==)>(edges: seq<(N, N)>, done: set<N>, x: N): nat {
    if edges == [] then 0 else
      var last := edges[|edges| - 1];
      Pending(edges[..|edges| - 1], done, x) + if last.1 == x && last.0 !in done then 1 else 0
  }

  function SuccessorsOf<N(==)>(edges: seq<(N, N)>, x: N): seq<N> {
    if edges == [] then [] else
      var last := edges[|edges| - 1];
      SuccessorsOf(edges[..|edges| - 1], x) + if last.0 == x then [last.1] else []
  }

  lemma {:induction false} PendingAfterDone<N(!new)>(edges: seq<(N, N)>, done: set<N>, n: N, x: N)
    requires n !in done
    ensures Pending(edges, done, x) == Pending(edges, done + {n}, x) + multiset(SuccessorsOf(edges, n))[x]
  {
    if edges != [] {
      PendingAfterDone(edges[..|edges| - 1], done, n, x);
    }
  }

  lemma {:induction false} NothingPending<N(!new)>(edges: seq<(N, N)>, done: set<N>, x: N)
    ensures Pending(edges, done, x) == 0 <==> forall e :: e in edges && e.1 == x ==> e.0 in done
  {
    if edges != [] {
      var front, last := edges[..|edges| - 1], edges[|edges| - 1];
      NothingPending(front, done, x);
      assert forall e :: e in edges <==> e in front || e == last;
    }
  }

  lemma {:induction false} SuccessorsAreEdges<N(!new)>(edges: seq<(N, N)>, n: N, x: N)
    ensures x in SuccessorsOf(edges, n) <==> (n, x) in edges
  {
    if edges != [] {
      var front, last := edges[..|edges| - 1], edges[|edges| - 1];
      SuccessorsAreEdges(front, n, x);
      assert (n, x) in edges <==> (n, x) in front || (n, x) == last;
    }
  }

  /** Every node of the graph once, each after all of its predecessors. */
  ghost predicate IsTopologicalOrder<N(!new)>(edges: seq<(N, N)>, nodes: set<N>, order: seq<N>) {
    && Distinct(order)
    && Elements(order) == nodes
    && forall e :: e in edges ==> Before(order, e.0, e.1)
  }

  lemma PendingSnoc<N(!new)>(edges: seq<(N, N)>, e: (N, N), done: set<N>, x: N)
    ensures Pending(edges + [e], done, x) == Pending(edges, done, x) + if e.1 == x && e.0 !in done then 1 else 0
    ensures SuccessorsOf(edges + [e], x) == SuccessorsOf(edges, x) + if e.0 == x then [e.1] else []
  {
    assert (edges + [e])[..|edges|] == edges;
  }

  lemma FreshNode<N(!new)>(edges: seq<(N, N)>, x: N)
    requires forall e :: e in edges ==> e.0 != x && e.1 != x
    ensures Pending(edges, {}, x) == 0 && SuccessorsOf(edges, x) == []
  {
    NothingPending(edges, {}, x);
    if SuccessorsOf(edges, x) != [] {
      SuccessorsAreEdges(edges, x, SuccessorsOf(edges, x)[0]);
    }
  }

  /** The node table agrees with the list of added edges once the nodes in `done` are finished. */
  ghost predicate Counts<N(!new)>(npredecessors: map<N, int>, edges: seq<(N, N)>, done: set<N>) {
    forall x :: x in npredecessors ==> npredecessors[x] == Pending(edges, done, x)
  }

  ghost predicate Links<N(!new)>(successors: map<N, seq<N>>, edges: seq<(N, N)>) {
    && (forall x :: x in successors ==> successors[x] == SuccessorsOf(edges, x))
    && forall e :: e in edges ==> e.0 in successors && e.1 in successors
  }

  lemma CountsAdded<N(!new)>(npredecessors: map<N, int>, edges: seq<(N, N)>, pred: N, node: N)
    requires node in npredecessors && Counts(npredecessors, edges, {})
    ensures Counts(npredecessors[node := npredecessors[node] + 1], edges + [(pred, node)], {})
  {
    var longer := edges + [(pred, node)];
    forall x | x in npredecessors
      ensures Pending(longer, {}, x) == Pending(edges, {}, x) + if x == node then 1 else 0
    {
      PendingSnoc(edges, (pred, node), {}, x);
    }
  }

  lemma LinksAdded<N(!new)>(successors: map<N, seq<N>>, edges: seq<(N, N)>, pred: N, node: N)
    requires pred in successors && node in successors && Links(successors, edges)
    ensures Links(successors[pred := successors[pred] + [node]], edges + [(pred, node)])
  {
    var longer := edges + [(pred, node)];
    forall x | x in successors
      ensures SuccessorsOf(longer, x) == SuccessorsOf(edges, x) + if x == pred then [node] else []
    {
      PendingSnoc(edges, (pred, node), {}, x);
    }
  }

  class TopologicalSorter<N(==, !new)> {
    // _node2info: the two attributes of each node
    var npredecessors: map<N, int>
    var successors: map<N, seq<N>>
    // every (predecessor, node) pair ever added, in order
    ghost var edges: seq<(N, N)>

    ghost predicate Valid()
      reads this
    {
      && npredecessors.Keys == successors.Keys
      && Counts(npredecessors, edges, {})
      && Links(successors, edges)
    }

    constructor ()
      ensures Valid() && successors.Keys == {} && edges == []
    {
      npredecessors, successors, edges := map[], map[], [];
    }

    method GetNodeInfo(node: N)
      requires Valid()
      modifies this
      ensures Valid() && edges == old(edges)
      ensures successors.Keys == old(successors.Keys) + {node}
    {
      if node !in npredecessors {
        FreshNode(edges, node);
        npredecessors := npredecessors[node := 0];
        successors := successors[node := []];
      }
    }

    method AddEdge(pred: N, node: N)
      requires Valid() && node in successors
      modifies this
      ensures Valid() && edges == old(edges) + [(pred, node)]
      ensures successors.Keys == old(successors.Keys) + {pred}
    {
      GetNodeInfo(pred);
      CountsAdded(npredecessors, edges, pred, node);
      LinksAdded(successors, edges, pred, node);
      npredecessors := npredecessors[node := npredecessors[node] + 1];
      successors := successors[pred := successors[pred] + [node]];
      edges := edges + [(pred, node)];
    }

    /** `add(node, *predecessors)`. */
    method Add(node: N, predecessors: seq<N>)
      requires Valid()
      modifies this
      ensures Valid()
      ensures edges == old(edges) + EdgesInto(node, predecessors)
      ensures successors.Keys == old(successors.Keys) + {node} + Elements(predecessors)
    {
      GetNodeInfo(node);
      for k := 0 to |predecessors|
        invariant Valid() && node in successors
        invariant edges == old(edges) + EdgesInto(node, predecessors[..k])
        invariant successors.Keys == old(successors.Keys) + {node} + Elements(predecessors[..k])
      {
        EdgesIntoSnoc(old(edges), node, predecessors, k);
        AddEdge(predecessors[k], node);
      }
      assert predecessors[..|predecessors|] == predecessors;
    }

    /** `static_order()`; `None` stands for `CycleError`. */
    method StaticOrder() returns (r: Option<seq<N>>)
      requires Valid()
      modifies this`npredecessors
      ensures r.None? <==> Cyclic(Elements(edges))
      ensures r.Some? ==> IsTopologicalOrder(edges, successors.Keys, r.value)
    {
      var order := InitiallyReady();
      var i := 0;
      assert Elements(order[..0]) == {};
      while i < |order|
        invariant 0 <= i <= |order|
        invariant Queued(npredecessors, edges, successors.Keys, order, Elements(order[..i]))
        decreases |successors| - i
      {
        DistinctBounded(order, successors.Keys);
        order := Finish(order, i);
        i := i + 1;
      }
      assert order[..i] == order;
      if |order| == |successors| {
        AllQueued(npredecessors, edges, successors.Keys, order);
        r := Some(order);
      } else {
        DistinctCardinality(order);
        StuckMeansCyclic(npredecessors, edges, successors.Keys, order);
        r := None;
      }
    }

    method InitiallyReady() returns (ready: seq<N>)
      requires Valid()
      ensures Queued(npredecessors, edges, successors.Keys, ready, {})
    {
      ready := [];
      var rest := npredecessors.Keys;
      while rest != {}
        invariant rest <= npredecessors.Keys
        invariant Distinct(ready)
        invariant forall x :: x in ready <==> x in npredecessors && x !in rest && npredecessors[x] == 0
      {
        var x :| x in rest;
        if npredecessors[x] == 0 {
          ready := ready + [x];
        }
        rest := rest - {x};
      }
      forall x | x in ready ensures forall e :: e in edges ==> e.1 != x {
        NothingPending(edges, {}, x);
      }
    }

    /** `done(order[i])`: lowers the counters of its successors and queues those that reach zero. */
    method Finish(order: seq<N>, i: nat) returns (order': seq<N>)
      requires i < |order|
      requires Links(successors, edges)
      requires Queued(npredecessors, edges, successors.Keys, order, Elements(order[..i]))
      modifies this`npredecessors
      ensures order <= order'
      ensures Queued(npredecessors, edges, successors.Keys, order', Elements(order'[..i + 1]))
    {
      var n := order[i];
      var succ := successors[n];
      ghost var done := Elements(order[..i]) + {n};
      order' := order;
      StartFinishing(npredecessors, edges, successors.Keys, order, i);
      for j := 0 to |succ|
        invariant order <= order'
        invariant Finishing(npredecessors, edges, successors.Keys, order', done, succ[j..])
      {
        var c := succ[j];
        SuccessorsAreEdges(edges, n, c);
        FinishOne(npredecessors, edges, successors.Keys, order', done, succ, j);
        npredecessors := npredecessors[c := npredecessors[c] - 1];
        if npredecessors[c] == 0 {
          order' := order' + [c];
        }
      }
      assert succ[|succ|..] == [];
      EndFinishing(npredecessors, edges, successors.Keys, order', order, i);
    }
  }

  function EdgesInto<N>(node: N, predecessors: seq<N>): seq<(N, N)> {
    if predecessors == [] then [] else
      EdgesInto(node, predecessors[..|predecessors| - 1]) + [(predecessors[|predecessors| - 1], node)]
  }

  lemma EdgesIntoSnoc<N(!new)>(before: seq<(N, N)>, node: N, predecessors: seq<N>, k: nat)
    requires k < |predecessors|
    ensures before + EdgesInto(node, predecessors[..k + 1])
         == before + EdgesInto(node, predecessors[..k]) + [(predecessors[k], node)]
    ensures Elements(predecessors[..k + 1]) == Elements(predecessors[..k]) + {predecessors[k]}
  {
    assert predecessors[..k + 1] == predecessors[..k] + [predecessors[k]];
  }

  /** Kahn's invariant: `order` holds exactly the nodes with no unfinished predecessor, predecessors first. */
  ghost predicate Queued<N(!new)>(npredecessors: map<N, int>, edges: seq<(N, N)>, nodes: set<N>, order: seq<N>,
                                  done: set<N>) {
    && npredecessors.Keys == nodes
    && Counts(npredecessors, edges, done)
    && Distinct(order)
    && (forall x :: x in order <==> x in npredecessors && npredecessors[x] == 0)
    && PredecessorsFirst(edges, order)
  }

  ghost predicate PredecessorsFirst<N(!new)>(edges: seq<(N, N)>, order: seq<N>) {
    forall k, e :: 0 <= k < |order| && e in edges && e.1 == order[k] ==> e.0 in order[..k]
  }

  /** Between two steps of `done`: the counters still include the successors in `left`. */
  ghost predicate Finishing<N(!new)>(npredecessors: map<N, int>, edges: seq<(N, N)>, nodes: set<N>, order: seq<N>,
                                     done: set<N>, left: seq<N>) {
    && npredecessors.Keys == nodes
    && (forall x :: x in npredecessors ==> npredecessors[x] == Pending(edges, done, x) + multiset(left)[x])
    && Distinct(order)
    && (forall x :: x in order <==> x in npredecessors && npredecessors[x] == 0)
    && PredecessorsFirst(edges, order)
    && done <= Elements(order)
  }

  lemma StartFinishing<N(!new)>(npredecessors: map<N, int>, edges: seq<(N, N)>, nodes: set<N>, order: seq<N>, i: nat)
    requires i < |order| && Queued(npredecessors, edges, nodes, order, Elements(order[..i]))
    ensures Finishing(npredecessors, edges, nodes, order, Elements(order[..i]) + {order[i]},
                      SuccessorsOf(edges, order[i])[0..])
  {
    forall x | x in npredecessors {
      PendingAfterDone(edges, Elements(order[..i]), order[i], x);
    }
  }

  lemma Lower<N(!new)>(npredecessors: map<N, int>, edges: seq<(N, N)>, nodes: set<N>, order: seq<N>,
                       done: set<N>, c: N, left: seq<N>)
    requires Finishing(npredecessors, edges, nodes, order, done, [c] + left) && c in nodes
    ensures var lowered := npredecessors[c := npredecessors[c] - 1];
            Finishing(lowered, edges, nodes, if lowered[c] == 0 then order + [c] else order, done, left)
  {
    assert multiset([c] + left) == multiset{c} + multiset(left);
    if npredecessors[c] == 1 {
      NothingPending(edges, done, c);
      AppendReady(edges, order, c);
    }
  }

  lemma FinishOne<N(!new)>(npredecessors: map<N, int>, edges: seq<(N, N)>, nodes: set<N>, order: seq<N>,
                           done: set<N>, succ: seq<N>, j: nat)
    requires j < |succ| && succ[j] in nodes
    requires Finishing(npredecessors, edges, nodes, order, done, succ[j..])
    ensures var lowered := npredecessors[succ[j] := npredecessors[succ[j]] - 1];
            Finishing(lowered, edges, nodes, if lowered[succ[j]] == 0 then order + [succ[j]] else order,
                      done, succ[j + 1..])
  {
    DropHead(succ, j);
    Lower(npredecessors, edges, nodes, order, done, succ[j], succ[j + 1..]);
  }

  lemma EndFinishing<N(!new)>(npredecessors: map<N, int>, edges: seq<(N, N)>, nodes: set<N>, order: seq<N>,
                              before: seq<N>, i: nat)
    requires i < |before| && before <= order
    requires Finishing(npredecessors, edges, nodes, order, Elements(before[..i]) + {before[i]}, [])
    ensures Queued(npredecessors, edges, nodes, order, Elements(order[..i + 1]))
  {
    assert order[..i + 1] == before[..i] + [before[i]];
    assert Elements(order[..i + 1]) == Elements(before[..i]) + {before[i]};
  }

  lemma AppendReady<N(!new)>(edges: seq<(N, N)>, order: seq<N>, c: N)
    requires PredecessorsFirst(edges, order)
    requires forall e :: e in edges && e.1 == c ==> e.0 in order
    ensures PredecessorsFirst(edges, order + [c])
  {
    var longer := order + [c];
    forall k, e | 0 <= k < |longer| && e in edges && e.1 == longer[k] ensures e.0 in longer[..k] {
      if k < |order| {
        assert longer[..k] == order[..k];
      } else {
        assert longer[..k] == order;
      }
    }
  }

  lemma AllQueued<N(!new)>(npredecessors: map<N, int>, edges: seq<(N, N)>, nodes: set<N>, order: seq<N>)
    requires Queued(npredecessors, edges, nodes, order, Elements(order)) && |order| == |nodes|
    requires forall e :: e in edges ==> e.1 in nodes
    ensures IsTopologicalOrder(edges, nodes, order) && !Cyclic(Elements(edges))
  {
    DistinctCardinality(order);
    SubsetOfSameSize(Elements(order), nodes);
    forall e | e in edges ensures Before(order, e.0, e.1) {
      assert e.1 in Elements(order);
      var j :| 0 <= j < |order| && order[j] == e.1;
      var i :| 0 <= i < j && order[..j][i] == e.0;
    }
    OrderedIsAcyclic(Elements(edges), order);
  }

  lemma StuckMeansCyclic<N(!new)>(npredecessors: map<N, int>, edges: seq<(N, N)>, nodes: set<N>, order: seq<N>)
    requires Queued(npredecessors, edges, nodes, order, Elements(order)) && |Elements(order)| != |nodes|
    requires forall e :: e in edges ==> e.0 in nodes
    ensures Cyclic(Elements(edges))
  {
    var rest := nodes - Elements(order);
    forall x | x in rest ensures HasPredecessorIn(Elements(edges), rest, x) {
      NothingPending(edges, Elements(order), x);
      var e :| e in edges && e.1 == x && e.0 !in Elements(order);
      assert (e.0, x) in Elements(edges);
    }
    assert Elements(order) <= nodes && Elements(order) != nodes;
    var start :| start in nodes && start !in Elements(order);
    assert IsPath(Elements(edges), [start]);
    BackwardWalkFindsCycle(Elements(edges), rest, [start]);
  }
}
