/** orchestrator/dag_runtime.py: the descendants of a task in an order that puts parents first. */
module DagRuntime {
  import opened Graphlib
  import opened Graphs
  import opened Wrappers

  /** `children_by_parent.get(parent, [])` */
  function ChildrenOf<N(==)>(childrenByParent: map<N, seq<N>>, parent: N): seq<N> {
    if parent in childrenByParent then childrenByParent[parent] else []
  }

  ghost predicate Grouped<N(!new)>(childrenByParent: map<N, seq<N>>, edges: set<(N, N)>) {
    forall p, c :: c in ChildrenOf(childrenByParent, p) <==> (p, c) in edges
  }

  lemma GroupOne<N(!new)>(childrenByParent: map<N, seq<N>>, edges: set<(N, N)>, parent: N, child: N)
    requires Grouped(childrenByParent, edges)
    ensures Grouped(childrenByParent[parent := ChildrenOf(childrenByParent, parent) + [child]],
                    edges + {(parent, child)})
  {
  }

  method GroupByParent<N(==, !new)>(edges: seq<(N, N)>) returns (childrenByParent: map<N, seq<N>>)
    ensures Grouped(childrenByParent, Elements(edges))
  {
    childrenByParent := map[];
    for k := 0 to |edges|
      invariant Grouped(childrenByParent, Elements(edges[..k]))
    {
      var (parent, child) := edges[k];
      GroupOne(childrenByParent, Elements(edges[..k]), parent, child);
      assert Elements(edges[..k + 1]) == Elements(edges[..k]) + {(parent, child)} by {
        assert edges[..k + 1] == edges[..k] + [edges[k]];
      }
      childrenByParent := childrenByParent[parent := ChildrenOf(childrenByParent, parent) + [child]];
    }
    assert edges[..|edges|] == edges;
  }

  /** What the stack search has found so far is reachable, and what is missing is still on the stack. */
  ghost predicate Searching<N(!new)>(edges: set<(N, N)>, root: N, seen: set<N>, stack: seq<N>) {
    && (forall x :: x in stack || x in seen ==> Reaches(edges, root, x))
    && forall e :: e in edges && (e.0 == root || e.0 in seen) ==> e.1 in seen || e.1 in stack
  }

  ghost function Targets<N(!new)>(edges: set<(N, N)>): set<N> {
    set e | e in edges :: e.1
  }

  lemma StartSearching<N(!new)>(edges: set<(N, N)>, root: N, childrenByParent: map<N, seq<N>>)
    requires Grouped(childrenByParent, edges)
    ensures Searching(edges, root, {}, ChildrenOf(childrenByParent, root))
  {
    var children := ChildrenOf(childrenByParent, root);
    forall x | x in children ensures Reaches(edges, root, x) {
      EdgeReaches(edges, root, x);
    }
  }

  lemma Visit<N(!new)>(edges: set<(N, N)>, root: N, seen: set<N>, popped: seq<N>, node: N,
                      childrenByParent: map<N, seq<N>>)
    requires Grouped(childrenByParent, edges)
    requires Searching(edges, root, seen, popped + [node]) && node !in seen
    ensures Searching(edges, root, seen + {node}, popped + ChildrenOf(childrenByParent, node))
    ensures |Targets(edges) - (seen + {node})| < |Targets(edges) - seen|
  {
    var children := ChildrenOf(childrenByParent, node);
    assert Reaches(edges, root, node);
    forall x | x in children ensures Reaches(edges, root, x) {
      ReachesAppend(edges, root, node, x);
    }
    forall e | e in edges && (e.0 == root || e.0 in seen + {node}) && e.1 !in seen + {node}
      ensures e.1 in popped + children
    {
      if e.0 == node {
        assert (node, e.1) in edges;
      } else {
        assert e.1 in popped + [node];
      }
    }
    var b := ReachesLast(edges, root, node);
    assert node in Targets(edges) by {
      assert (b, node) in edges && (b, node).1 == node;
    }
    assert Targets(edges) - seen == Targets(edges) - (seen + {node}) + {node};
  }

  lemma Revisit<N(!new)>(edges: set<(N, N)>, root: N, seen: set<N>, popped: seq<N>, node: N)
    requires Searching(edges, root, seen, popped + [node]) && node in seen
    ensures Searching(edges, root, seen, popped)
  {
    forall e | e in edges && (e.0 == root || e.0 in seen) && e.1 !in seen ensures e.1 in popped {
      assert e.1 in popped + [node];
    }
    forall x | x in popped ensures Reaches(edges, root, x) {
      assert x in popped + [node];
    }
  }

  lemma DoneSearching<N(!new)>(edges: set<(N, N)>, root: N, seen: set<N>)
    requires Searching(edges, root, seen, [])
    ensures forall x :: x in seen <==> Reaches(edges, root, x)
  {
    forall x | Reaches(edges, root, x) ensures x in seen {
      ClosedContainsReachable(edges, seen, root, x);
    }
  }

  method CollectDescendants<N(==, !new)>(root: N, edges: seq<(N, N)>) returns (seen: set<N>)
    ensures forall x :: x in seen <==> Reaches(Elements(edges), root, x)
  {
    var childrenByParent := GroupByParent(edges);
    ghost var E := Elements(edges);
    seen := {};
    var stack := ChildrenOf(childrenByParent, root);
    StartSearching(E, root, childrenByParent);
    while stack != []
      invariant Searching(E, root, seen, stack)
      decreases |Targets(E) - seen|, |stack|
    {
      var node, popped := stack[|stack| - 1], stack[..|stack| - 1];
      SplitLast(stack);
      if node in seen {
        Revisit(E, root, seen, popped, node);
        stack := popped;
        continue;
      }
      Visit(E, root, seen, popped, node, childrenByParent);
      seen := seen + {node};
      stack := popped + ChildrenOf(childrenByParent, node);
    }
    DoneSearching(E, root, seen);
  }

  /** The edges the sorter is given: between descendants, leaving out those that start at the root. */
  ghost function InnerEdges<N(!new)>(edges: set<(N, N)>, root: N): set<(N, N)> {
    set e | e in edges && e.0 != root && Reaches(edges, root, e.0) && Reaches(edges, root, e.1)
  }

  /** All descendants of `root`, each once, and parents before children among them. */
  ghost predicate DescendantsInOrder<N(!new)>(edges: set<(N, N)>, root: N, order: seq<N>) {
    && Distinct(order)
    && (forall x :: x in order <==> Reaches(edges, root, x))
    && forall e :: e in edges && e.0 != root && e.0 in order && e.1 in order ==> Before(order, e.0, e.1)
  }

  /** Position by position: nothing stands twice, and every edge but those of the root points forward. */
  lemma OrderSpelledOut<N(!new)>(edges: set<(N, N)>, root: N, order: seq<N>, i: nat, j: nat)
    requires DescendantsInOrder(edges, root, order) && i < |order| && j < |order|
    ensures order[i] == order[j] ==> i == j
    ensures (order[i], order[j]) in edges && order[i] != root ==> i < j
    ensures exists p: seq<N> :: |p| >= 2 && p[0] == root && p[|p| - 1] == order[i]
                        && forall k :: 0 <= k < |p| - 1 ==> (p[k], p[k + 1]) in edges
  {
    assert order[i] in order;
    var p :| Connects(edges, p, root, order[i]);
    if (order[i], order[j]) in edges && order[i] != root {
      assert Before(order, (order[i], order[j]).0, (order[i], order[j]).1);
    }
  }

  method AddNodes<N(==, !new)>(sorter: TopologicalSorter<N>, nodes: set<N>)
    requires sorter.Valid() && sorter.edges == [] && sorter.successors.Keys == {}
    modifies sorter
    ensures sorter.Valid() && sorter.edges == [] && sorter.successors.Keys == nodes
  {
    var rest := nodes;
    while rest != {}
      invariant rest <= nodes
      invariant sorter.Valid() && sorter.edges == [] && sorter.successors.Keys == nodes - rest
    {
      var node :| node in rest;
      sorter.Add(node, []);
      rest := rest - {node};
    }
  }

  ghost predicate Inner<N(!new)>(e: (N, N), root: N, descendants: set<N>) {
    e.0 != root && e.0 in descendants && e.1 in descendants
  }

  ghost predicate FedInner<N(!new)>(fed: seq<(N, N)>, root: N, descendants: set<N>, edges: seq<(N, N)>) {
    forall e :: e in fed <==> e in edges && Inner(e, root, descendants)
  }

  lemma FeedOne<N(!new)>(fed: seq<(N, N)>, root: N, descendants: set<N>, edges: seq<(N, N)>, k: nat)
    requires k < |edges| && FedInner(fed, root, descendants, edges[..k])
    ensures FedInner(if Inner(edges[k], root, descendants) then fed + [edges[k]] else fed,
                     root, descendants, edges[..k + 1])
  {
    PrefixSnoc(edges, k);
  }

  method AddEdge<N(==, !new)>(sorter: TopologicalSorter<N>, root: N, descendants: set<N>, parent: N, child: N)
    requires sorter.Valid() && sorter.successors.Keys == descendants
    modifies sorter
    ensures sorter.Valid() && sorter.successors.Keys == descendants
    ensures sorter.edges == if Inner((parent, child), root, descendants) then old(sorter.edges) + [(parent, child)]
                            else old(sorter.edges)
  {
    assert EdgesInto(child, []) == [] && EdgesInto(child, [parent]) == [(parent, child)];
    if child in descendants {
      if parent == root {
        sorter.Add(child, []);
      } else if parent in descendants {
        sorter.Add(child, [parent]);
      }
    }
  }

  method AddEdges<N(==, !new)>(sorter: TopologicalSorter<N>, root: N, descendants: set<N>, edges: seq<(N, N)>)
    requires sorter.Valid() && sorter.edges == [] && sorter.successors.Keys == descendants
    modifies sorter
    ensures sorter.Valid() && sorter.successors.Keys == descendants
    ensures FedInner(sorter.edges, root, descendants, edges)
  {
    for k := 0 to |edges|
      invariant sorter.Valid() && sorter.successors.Keys == descendants
      invariant FedInner(sorter.edges, root, descendants, edges[..k])
    {
      FeedOne(sorter.edges, root, descendants, edges, k);
      AddEdge(sorter, root, descendants, edges[k].0, edges[k].1);
    }
    assert edges[..|edges|] == edges;
  }

  method Keep<N(==, !new)>(order: seq<N>, descendants: set<N>) returns (kept: seq<N>)
    requires Elements(order) == descendants
    ensures kept == order
  {
    kept := [];
    for k := 0 to |order|
      invariant kept == order[..k]
    {
      assert order[k] in Elements(order);
      if order[k] in descendants {
        kept := kept + [order[k]];
      }
    }
  }

  /** `topological_descendants`; `None` stands for the sorter's `CycleError`. */
  method TopologicalDescendants<N(==, !new)>(root: N, edges: seq<(N, N)>) returns (r: Option<seq<N>>)
    ensures r.None? <==> Cyclic(InnerEdges(Elements(edges), root))
    ensures r.Some? ==> DescendantsInOrder(Elements(edges), root, r.value)
  {
    var descendants := CollectDescendants(root, edges);
    var sorter := new TopologicalSorter<N>();
    AddNodes(sorter, descendants);
    AddEdges(sorter, root, descendants, edges);
    assert Elements(sorter.edges) == InnerEdges(Elements(edges), root);
    var order := sorter.StaticOrder();
    if order.None? {
      return None;
    }
    var kept := Keep(order.value, descendants);
    SortedInnerEdges(root, edges, sorter.edges, descendants, kept);
    r := Some(kept);
  }

  lemma SortedInnerEdges<N(!new)>(root: N, edges: seq<(N, N)>, inner: seq<(N, N)>, descendants: set<N>, order: seq<N>)
    requires forall x :: x in descendants <==> Reaches(Elements(edges), root, x)
    requires FedInner(inner, root, descendants, edges)
    requires IsTopologicalOrder(inner, descendants, order)
    ensures DescendantsInOrder(Elements(edges), root, order)
  {
    assert forall x :: x in order <==> x in Elements(order);
    forall e | e in Elements(edges) && e.0 != root && e.0 in order && e.1 in order ensures Before(order, e.0, e.1) {
      assert e in inner;
    }
  }

  /** It succeeds on every acyclic edge list. */
  lemma AcyclicEdgesHaveNoInnerCycle<N(!new)>(edges: set<(N, N)>, root: N)
    requires !Cyclic(edges)
    ensures !Cyclic(InnerEdges(edges, root))
  {
    if Cyclic(InnerEdges(edges, root)) {
      var a :| Reaches(InnerEdges(edges, root), a, a);
      ReachesMonotone(InnerEdges(edges, root), edges, a, a);
    }
  }

  /** The edges on paths that start at `root`: what the recursive query returns. */
  ghost function ReachableEdges<N(!new)>(edges: set<(N, N)>, root: N): set<(N, N)> {
    set e | e in edges && (e.0 == root || Reaches(edges, root, e.0))
  }

  lemma {:induction false} PathFromRootIsReachable<N(!new)>(edges: set<(N, N)>, root: N, p: seq<N>, x: N)
    requires Connects(edges, p, root, x)
    ensures Connects(ReachableEdges(edges, root), p, root, x)
    decreases |p|
  {
    var b := p[|p| - 2];
    assert (b, p[|p| - 2 + 1]) in edges;
    if |p| > 2 {
      var q := p[..|p| - 1];
      assert Connects(edges, q, root, b);
      PathFromRootIsReachable(edges, root, q, b);
      assert p == q + [x];
      forall i | 0 <= i < |p| - 1 ensures (p[i], p[i + 1]) in ReachableEdges(edges, root) {
        if i < |q| - 1 {
          assert (q[i], q[i + 1]) in ReachableEdges(edges, root);
        }
      }
    }
  }

  /** Sorting over only the reachable edges gives what sorting over all edges gives. */
  lemma ReachableEdgesSuffice<N(!new)>(edges: set<(N, N)>, root: N)
    ensures forall x :: Reaches(ReachableEdges(edges, root), root, x) <==> Reaches(edges, root, x)
    ensures InnerEdges(ReachableEdges(edges, root), root) == InnerEdges(edges, root)
    ensures forall order :: DescendantsInOrder(ReachableEdges(edges, root), root, order)
                       <==> DescendantsInOrder(edges, root, order)
  {
    var some := ReachableEdges(edges, root);
    forall x ensures Reaches(some, root, x) <==> Reaches(edges, root, x) {
      if Reaches(edges, root, x) {
        var p :| Connects(edges, p, root, x);
        PathFromRootIsReachable(edges, root, p, x);
        assert Connects(some, p, root, x);
      }
      if Reaches(some, root, x) {
        ReachesMonotone(some, edges, root, x);
      }
    }
  }
}
