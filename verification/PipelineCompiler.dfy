/** orchestrator/pipeline/compiler.py: from a pipeline definition to an ordered plan. */
module PipelineCompiler {
  import opened Graphlib
  import opened Graphs
  import opened Templates
  import opened Wrappers

  datatype Step = Step(id: string, toolName: string, template: Args, dependsOn: seq<string>)

  datatype Definition = Definition(steps: seq<Step>, variables: Variables, maxSteps: int)

  datatype Todo = Todo(id: string, toolName: string, args: Args)

  datatype CompileError =
    | NoSteps
    | TooManySteps
    | DuplicateStepId
    | ToolNotAllowed(step: string)
    | UnknownDependency(step: string)
    | DependencyCycle
    | BindsItself(step: string)
    | BindsUnknownStep(step: string)
    | BindsLaterStep(step: string)
    | BindsUndeclaredStep(step: string)
    | UnresolvedVariables(step: string)

  predicate AboutBindings(e: CompileError) {
    e.BindsItself? || e.BindsUnknownStep? || e.BindsLaterStep? || e.BindsUndeclaredStep?
  }

  // What compile demands of a definition

  function StepIds(steps: seq<Step>): set<string> {
    set s | s in steps :: s.id
  }

  ghost predicate DistinctIds(steps: seq<Step>) {
    forall i, j :: 0 <= i < j < |steps| ==> steps[i].id != steps[j].id
  }

  predicate ToolAllowed(s: Step, allowed: Option<set<string>>) {
    allowed.Some? ==> s.toolName in allowed.value
  }

  predicate DependenciesKnown(s: Step, ids: set<string>) {
    forall dep :: dep in s.dependsOn ==> dep in ids
  }

  ghost predicate Validated(d: Definition, allowed: Option<set<string>>) {
    && 0 < |d.steps| <= d.maxSteps
    && DistinctIds(d.steps)
    && forall s :: s in d.steps ==> ToolAllowed(s, allowed) && DependenciesKnown(s, StepIds(d.steps))
  }

  /** Valid steps that can be put in order. */
  ghost predicate Sortable(d: Definition, allowed: Option<set<string>>) {
    Validated(d, allowed) && !Cyclic(DependencyEdges(d.steps))
  }

  /** The `depends_on` graph: an edge from each dependency to the step that needs it. */
  function DependencyEdges(steps: seq<Step>): set<(string, string)> {
    set s, dep | s in steps && dep in s.dependsOn :: (dep, s.id)
  }

  /** The top-level bindings of a step draw only on its declared dependencies. */
  predicate BindingsDeclared(s: Step) {
    forall key :: key in s.template && s.template[key].Binding? ==> s.template[key].fromStep in s.dependsOn
  }

  /** `{**declared_vars, **runtime_vars}` */
  function Merged(d: Definition, runtimeVars: Variables): Variables {
    d.variables + runtimeVars
  }

  function ResolvedArgs(s: Step, vars: Variables): Args {
    map key | key in s.template :: Resolve(s.template[key], vars)
  }

  function SerializedArgs(args: Args): Args {
    map key | key in args :: Serialize(args[key])
  }

  predicate FullyResolved(args: Args) {
    forall key :: key in args ==> Unresolved(args[key]) == {}
  }

  function TodoOf(s: Step, vars: Variables): Todo {
    Todo(s.id, s.toolName, SerializedArgs(ResolvedArgs(s, vars)))
  }

  function IdsOf(steps: seq<Step>): seq<string> {
    seq(|steps|, i requires 0 <= i < |steps| => steps[i].id)
  }

  /** A permutation of the steps with every dependency before the step that needs it. */
  ghost predicate Ordered(steps: seq<Step>, order: seq<Step>) {
    && multiset(order) == multiset(steps)
    && forall e :: e in DependencyEdges(steps) ==> Before(IdsOf(order), e.0, e.1)
  }

  /** The todos of a plan are the steps, each resolved, in such an order. */
  ghost predicate IsPlan(d: Definition, vars: Variables, order: seq<Step>, todos: seq<Todo>) {
    && Ordered(d.steps, order)
    && |todos| == |order|
    && forall i :: 0 <= i < |order| ==> todos[i] == TodoOf(order[i], vars)
  }

  ghost predicate Compilable(d: Definition, allowed: Option<set<string>>, vars: Variables) {
    && Sortable(d, allowed)
    && forall s :: s in d.steps ==> BindingsDeclared(s) && FullyResolved(ResolvedArgs(s, vars))
  }

  // Order

  lemma FindStep(steps: seq<Step>, id: string) returns (k: nat)
    requires id in StepIds(steps)
    ensures k < |steps| && steps[k].id == id
  {
    var s :| s in steps && s.id == id;
    k :| 0 <= k < |steps| && steps[k] == s;
  }

  lemma {:induction false} DistinctSameElements<T(!new)>(a: seq<T>, b: seq<T>)
    requires Distinct(a) && Distinct(b) && forall x :: x in a <==> x in b
    ensures multiset(a) == multiset(b)
  {
    forall x ensures multiset(a)[x] == multiset(b)[x] {
      DistinctCount(a, x);
      DistinctCount(b, x);
    }
  }

  lemma {:induction false} DistinctCount<T(!new)>(s: seq<T>, x: T)
    requires Distinct(s)
    ensures multiset(s)[x] == if x in s then 1 else 0
  {
    if s != [] {
      DistinctCount(s[..|s| - 1], x);
      SplitLast(s);
    }
  }

  /** Looking the sorted ids up in the step map gives an ordered permutation of the steps. */
  lemma LookupOrders(steps: seq<Step>, ids: seq<string>, order: seq<Step>)
    requires DistinctIds(steps)
    requires Distinct(ids) && Elements(ids) == StepIds(steps)
    requires forall e :: e in DependencyEdges(steps) ==> Before(ids, e.0, e.1)
    requires |order| == |ids| && forall i :: 0 <= i < |ids| ==> order[i] in steps && order[i].id == ids[i]
    ensures Ordered(steps, order) && IdsOf(order) == ids
  {
    assert IdsOf(order) == ids;
    forall s | s in steps ensures s in order {
      assert s.id in Elements(ids);
      var i :| 0 <= i < |ids| && ids[i] == s.id;
      assert order[i].id == s.id;
      var a :| 0 <= a < |steps| && steps[a] == s;
      var b :| 0 <= b < |steps| && steps[b] == order[i];
    }
    DistinctSameElements(order, steps);
  }

  class PipelineCompiler {
    const allowedTools: Option<set<string>>

    constructor (allowedTools: Option<set<string>>)
      ensures this.allowedTools == allowedTools
    {
      this.allowedTools := allowedTools;
    }

    method Validate(d: Definition) returns (e: Option<CompileError>)
      ensures e.None? <==> Validated(d, allowedTools)
      ensures e.Some? ==> !AboutBindings(e.value) && e.value != DependencyCycle && !e.value.UnresolvedVariables?
      ensures e == Some(NoSteps) <==> d.steps == []
      ensures e == Some(TooManySteps) <==> d.steps != [] && |d.steps| > d.maxSteps
      ensures e == Some(DuplicateStepId) <==> 0 < |d.steps| <= d.maxSteps && !DistinctIds(d.steps)
      ensures forall id :: e == Some(ToolNotAllowed(id)) ==>
          exists s :: s in d.steps && s.id == id && !ToolAllowed(s, allowedTools)
      ensures forall id :: e == Some(UnknownDependency(id)) ==>
                exists s :: s in d.steps && s.id == id && !DependenciesKnown(s, StepIds(d.steps))
    {
      if d.steps == [] {
        return Some(NoSteps);
      }
      if |d.steps| > d.maxSteps {
        return Some(TooManySteps);
      }
      var ids := StepIds(d.steps);
      CountIds(d.steps);
      if |ids| != |d.steps| {
        return Some(DuplicateStepId);
      }
      for k := 0 to |d.steps|
        invariant forall s :: s in d.steps[..k] ==> ToolAllowed(s, allowedTools) && DependenciesKnown(s, ids)
      {
        var s := d.steps[k];
        if !ToolAllowed(s, allowedTools) {
          return Some(ToolNotAllowed(s.id));
        }
        for j := 0 to |s.dependsOn|
          invariant forall dep :: dep in s.dependsOn[..j] ==> dep in ids
        {
          if s.dependsOn[j] !in ids {
            return Some(UnknownDependency(s.id));
          }
        }
        assert s.dependsOn[..|s.dependsOn|] == s.dependsOn;
      }
      assert d.steps[..|d.steps|] == d.steps;
      e := None;
    }

    /** `set(step.depends_on)` in the arbitrary order of a set. */
    method DependencyList(s: Step) returns (deps: seq<string>)
      ensures Elements(deps) == Elements(s.dependsOn)
    {
      deps := [];
      var rest := Elements(s.dependsOn);
      while rest != {}
        invariant rest <= Elements(s.dependsOn) && Elements(deps) == Elements(s.dependsOn) - rest
      {
        var dep :| dep in rest;
        assert Elements(deps + [dep]) == Elements(deps) + {dep};
        deps := deps + [dep];
        rest := rest - {dep};
      }
    }

    method TopologicalIds(steps: seq<Step>) returns (r: Option<seq<string>>)
      requires forall s :: s in steps ==> DependenciesKnown(s, StepIds(steps))
      ensures r.None? <==> Cyclic(DependencyEdges(steps))
      ensures r.Some? ==> Distinct(r.value) && Elements(r.value) == StepIds(steps)
                          && forall e :: e in DependencyEdges(steps) ==> Before(r.value, e.0, e.1)
    {
      var sorter := new TopologicalSorter<string>();
      assert FedSteps(sorter.edges, sorter.successors.Keys, steps[..0], StepIds(steps));
      for k := 0 to |steps|
        invariant sorter.Valid() && fresh(sorter)
        invariant FedSteps(sorter.edges, sorter.successors.Keys, steps[..k], StepIds(steps))
      {
        var deps := DependencyList(steps[k]);
        FeedStep(sorter.edges, sorter.successors.Keys, steps, k, deps);
        sorter.Add(steps[k].id, deps);
      }
      AllFed(sorter.edges, sorter.successors.Keys, steps);
      r := sorter.StaticOrder();
    }

    /** `_topological_order` */
    method TopologicalOrder(steps: seq<Step>) returns (r: Result<seq<Step>, CompileError>)
      requires DistinctIds(steps) && forall s :: s in steps ==> DependenciesKnown(s, StepIds(steps))
      ensures r == Err(DependencyCycle) <==> Cyclic(DependencyEdges(steps))
      ensures r.Err? ==> r.error == DependencyCycle
      ensures r.Ok? ==> Ordered(steps, r.value) && Distinct(IdsOf(r.value))
    {
      var ids := TopologicalIds(steps);
      if ids.None? {
        return Err(DependencyCycle);
      }
      var order := [];
      for k := 0 to |ids.value|
        invariant |order| == k && forall i :: 0 <= i < k ==> order[i] in steps && order[i].id == ids.value[i]
      {
        var s := Lookup(steps, ids.value[k]);
        order := order + [s];
      }
      LookupOrders(steps, ids.value, order);
      r := Ok(order);
    }

    /** `ordered_ids.index(id)` */
    method IndexOf(ids: seq<string>, id: string) returns (k: nat)
      requires id in ids
      ensures k < |ids| && ids[k] == id
    {
      k := 0;
      while ids[k] != id
        invariant k < |ids| && id !in ids[..k]
        decreases |ids| - k
      {
        assert ids[..k + 1] == ids[..k] + [ids[k]];
        k := k + 1;
      }
    }

    method ValidateBinding(s: Step, source: string, steps: seq<Step>, ids: seq<string>)
      returns (e: Option<CompileError>)
      requires Distinct(ids) && Elements(ids) == StepIds(steps) && s in steps
      requires forall edge :: edge in DependencyEdges(steps) ==> Before(ids, edge.0, edge.1)
      requires DependenciesKnown(s, StepIds(steps))
      ensures e.None? <==> source in s.dependsOn
      ensures e == Some(BindsItself(s.id)) <==> source == s.id
      ensures e == Some(BindsUnknownStep(s.id)) <==> source !in StepIds(steps)
      ensures e == Some(BindsLaterStep(s.id)) <==> source != s.id && Before(ids, s.id, source)
      ensures e.Some? ==> AboutBindings(e.value)
    {
      if source in s.dependsOn {
        assert (source, s.id) in DependencyEdges(steps) && Before(ids, source, s.id);
      }
      if source == s.id {
        return Some(BindsItself(s.id));
      }
      if source !in StepIds(steps) {
        return Some(BindsUnknownStep(s.id));
      }
      assert source in Elements(ids) && s.id in Elements(ids);
      var i := IndexOf(ids, source);
      var j := IndexOf(ids, s.id);
      if i >= j {
        return Some(BindsLaterStep(s.id));
      }
      if source !in s.dependsOn {
        return Some(BindsUndeclaredStep(s.id));
      }
      e := None;
    }

    /** `_validate_bindings`: four checks, which on a sorted definition amount to one. */
    method ValidateBindings(steps: seq<Step>, ids: seq<string>) returns (e: Option<CompileError>)
      requires Distinct(ids) && Elements(ids) == StepIds(steps)
      requires forall edge :: edge in DependencyEdges(steps) ==> Before(ids, edge.0, edge.1)
      requires forall s :: s in steps ==> DependenciesKnown(s, StepIds(steps))
      ensures e.None? <==> forall s :: s in steps ==> BindingsDeclared(s)
      ensures e.Some? ==> AboutBindings(e.value)
    {
      for k := 0 to |steps|
        invariant forall s :: s in steps[..k] ==> BindingsDeclared(s)
      {
        var s := steps[k];
        var rest := s.template.Keys;
        while rest != {}
          invariant rest <= s.template.Keys
          invariant forall key :: key in s.template && key !in rest && s.template[key].Binding? ==>
              s.template[key].fromStep in s.dependsOn
        {
          var key :| key in rest;
          if s.template[key].Binding? {
            e := ValidateBinding(s, s.template[key].fromStep, steps, ids);
            if e.Some? {
              assert !BindingsDeclared(s);
              return;
            }
          }
          rest := rest - {key};
        }
      }
      assert steps[..|steps|] == steps;
      e := None;
    }

    /** `compile`: it accepts exactly the compilable definitions, and the plan it makes is ordered. */
    method Compile(d: Definition, runtimeVars: Variables)
      returns (r: Result<seq<Todo>, CompileError>, ghost order: seq<Step>)
      ensures r.Ok? <==> Compilable(d, allowedTools, Merged(d, runtimeVars))
      ensures r.Ok? ==> IsPlan(d, Merged(d, runtimeVars), order, r.value) && Distinct(IdsOf(order))
      ensures r == Err(DependencyCycle) <==> Validated(d, allowedTools) && Cyclic(DependencyEdges(d.steps))
      ensures r.Err? && AboutBindings(r.error) <==>
                Sortable(d, allowedTools) && exists s :: s in d.steps && !BindingsDeclared(s)
      ensures r.Err? && r.error.UnresolvedVariables? <==>
                && Sortable(d, allowedTools) && (forall s :: s in d.steps ==> BindingsDeclared(s))
                && exists s :: s in d.steps && !FullyResolved(ResolvedArgs(s, Merged(d, runtimeVars)))
    {
      order := [];
      var invalid := Validate(d);
      if invalid.Some? {
        return Err(invalid.value), order;
      }
      var sorted := TopologicalOrder(d.steps);
      if sorted.Err? {
        return Err(sorted.error), order;
      }
      order := sorted.value;
      OrderedIds(d.steps, order);
      var misbound := ValidateBindings(d.steps, IdsOf(sorted.value));
      if misbound.Some? {
        return Err(misbound.value), order;
      }
      var todos: seq<Todo> := [];
      for k := 0 to |sorted.value|
        invariant |todos| == k && forall i :: 0 <= i < k ==> todos[i] == TodoOf(order[i], Merged(d, runtimeVars))
        invariant forall i :: 0 <= i < k ==> FullyResolved(ResolvedArgs(order[i], Merged(d, runtimeVars)))
      {
        var s := sorted.value[k];
        var resolved := ResolvedArgs(s, Merged(d, runtimeVars));
        if !FullyResolved(resolved) {
          assert order[k] in order;
          SameSteps(d.steps, order, order[k]);
          return Err(UnresolvedVariables(s.id)), order;
        }
        todos := todos + [Todo(s.id, s.toolName, SerializedArgs(resolved))];
      }
      forall s | s in d.steps ensures FullyResolved(ResolvedArgs(s, Merged(d, runtimeVars))) {
        SameSteps(d.steps, order, s);
      }
      r := Ok(todos);
    }

    method Lookup(steps: seq<Step>, id: string) returns (s: Step)
      requires id in StepIds(steps)
      ensures s in steps && s.id == id
    {
      ghost var w := FindStep(steps, id);
      var k := 0;
      while steps[k].id != id
        invariant k <= w
        decreases w - k
      {
        k := k + 1;
      }
      s := steps[k];
    }
  }

  /**
   * An argument of a compiled plan is free of references, and withstands all variables, exactly when the
   * bindings of its template, nested dicts included, name their steps and paths without references.
   */
  lemma PlanArgumentsAreClosed(d: Definition, allowed: Option<set<string>>, vars: Variables, order: seq<Step>,
                               todos: seq<Todo>, i: nat, key: string)
    requires Compilable(d, allowed, vars) && IsPlan(d, vars, order, todos)
    requires i < |todos| && key in todos[i].args
    ensures key in order[i].template
    ensures Closed(todos[i].args[key]) <==> BindingsClosed(order[i].template[key])
    ensures (forall later: Variables :: Resolve(todos[i].args[key], later) == todos[i].args[key])
       <==> BindingsClosed(order[i].template[key])
  {
    assert order[i] in order;
    SameSteps(d.steps, order, order[i]);
    var args := ResolvedArgs(order[i], vars);
    assert FullyResolved(args) && args[key] == Resolve(order[i].template[key], vars);
    NothingUnresolvedMeansClosed(args[key]);
    ResolvingKeepsBindings(order[i].template[key], vars);
    SerializedClosedExactly(args[key]);
    FixedExactly(todos[i].args[key]);
  }

  function PlainStep(): Step {
    Step("a", "t", map[], [])
  }

  /** A step that binds the output of the first one under a path. */
  function BoundStep(path: string): Step {
    Step("b", "t", map["k" := Binding("a", path)], ["a"])
  }

  function TwoSteps(path: string): Definition {
    Definition([PlainStep(), BoundStep(path)], map[], 2)
  }

  lemma TwoStepsCompile(path: string)
    ensures Compilable(TwoSteps(path), None, map[])
  {
    var d := TwoSteps(path);
    var edges := DependencyEdges(d.steps);
    assert d.steps[0].id == "a" && d.steps[1].id == "b" && "a"[0] == 'a' && "b"[0] == 'b';
    assert edges == {("a", "b")};
    OneEdgeIsAcyclic("a", "b");
    assert "a" in StepIds(d.steps) by { assert PlainStep() in d.steps; }
  }

  lemma OneEdgeIsAcyclic(a: string, b: string)
    requires a != b
    ensures !Cyclic({(a, b)})
  {
    if Cyclic({(a, b)}) {
      var x :| Reaches({(a, b)}, x, x);
      var first := ReachesFirst({(a, b)}, x, x);
      var last := ReachesLast({(a, b)}, x, x);
    }
  }

  /** A compiled plan may keep a reference: compile does not look into the path of a binding. */
  lemma BindingPathKeepsReference(path: string)
    requires !NoReference(path)
    ensures Compilable(TwoSteps(path), None, map[])
    ensures var arg := TodoOf(BoundStep(path), map[]).args["k"];
            !Closed(arg) && exists later: Variables :: Resolve(arg, later) != arg
  {
    TwoStepsCompile(path);
    var s := BoundStep(path);
    assert Resolve(s.template["k"], map[]) == s.template["k"];
    SerializedClosedExactly(s.template["k"]);
    FixedExactly(TodoOf(s, map[]).args["k"]);
  }

  lemma SomePathHasAReference()
    ensures !NoReference("${x}")
  {
    var path := "${x}";
    assert path[0..] == path && path[2..][0] == 'x' && path[2..][1] == '}';
    assert NameLength(path[2..]) == 1;
    assert ReferenceAt(path[0..]).Some?;
  }

  lemma SameSteps(steps: seq<Step>, order: seq<Step>, s: Step)
    requires Ordered(steps, order)
    ensures s in steps <==> s in order
  {
    assert s in steps <==> s in multiset(steps);
    assert s in order <==> s in multiset(order);
  }

  lemma OrderedIds(steps: seq<Step>, order: seq<Step>)
    requires Ordered(steps, order)
    ensures Elements(IdsOf(order)) == StepIds(steps)
  {
    forall id ensures id in Elements(IdsOf(order)) <==> id in StepIds(steps) {
      if id in StepIds(steps) {
        var s :| s in steps && s.id == id;
        SameSteps(steps, order, s);
        var i :| 0 <= i < |order| && order[i] == s;
        assert IdsOf(order)[i] == id;
      }
      if id in Elements(IdsOf(order)) {
        var i :| 0 <= i < |IdsOf(order)| && IdsOf(order)[i] == id;
        SameSteps(steps, order, order[i]);
      }
    }
  }

  lemma {:induction false} CountIds(steps: seq<Step>)
    ensures |StepIds(steps)| <= |steps| && (|StepIds(steps)| == |steps| <==> DistinctIds(steps))
  {
    if steps != [] {
      var front, last := steps[..|steps| - 1], steps[|steps| - 1];
      CountIds(front);
      SplitLast(steps);
      assert StepIds(steps) == StepIds(front) + {last.id};
      if last.id in StepIds(front) {
        var k := FindStep(front, last.id);
        assert steps[k].id == steps[|steps| - 1].id;
      }
    }
  }

  /** What the sorter holds after some of the steps were added. */
  ghost predicate FedSteps(edges: seq<(string, string)>, nodes: set<string>, fed: seq<Step>, ids: set<string>) {
    Elements(edges) == DependencyEdges(fed) && StepIds(fed) <= nodes <= ids
  }

  lemma FeedStep(edges: seq<(string, string)>, nodes: set<string>, steps: seq<Step>, k: nat, deps: seq<string>)
    requires k < |steps| && FedSteps(edges, nodes, steps[..k], StepIds(steps))
    requires Elements(deps) == Elements(steps[k].dependsOn) && DependenciesKnown(steps[k], StepIds(steps))
    ensures FedSteps(edges + EdgesInto(steps[k].id, deps), nodes + {steps[k].id} + Elements(deps), steps[..k + 1],
        StepIds(steps))
  {
    NextStep(steps, k);
    EdgesIntoElements(steps[k].id, deps);
    ConcatElements(edges, EdgesInto(steps[k].id, deps));
    assert forall dep :: dep in deps <==> dep in Elements(deps);
    assert forall dep :: dep in steps[k].dependsOn <==> dep in Elements(steps[k].dependsOn);
  }

  lemma AllFed(edges: seq<(string, string)>, nodes: set<string>, steps: seq<Step>)
    requires FedSteps(edges, nodes, steps[..|steps|], StepIds(steps))
    ensures Elements(edges) == DependencyEdges(steps) && nodes == StepIds(steps)
    ensures forall e :: e in edges <==> e in DependencyEdges(steps)
  {
    assert steps[..|steps|] == steps;
    assert forall e :: e in edges <==> e in Elements(edges);
  }

  lemma ConcatElements<T>(a: seq<T>, b: seq<T>)
    ensures Elements(a + b) == Elements(a) + Elements(b)
  {
  }

  lemma NextStep(steps: seq<Step>, k: nat)
    requires k < |steps|
    ensures StepIds(steps[..k + 1]) == StepIds(steps[..k]) + {steps[k].id}
    ensures DependencyEdges(steps[..k + 1]) == DependencyEdges(steps[..k]) + set dep | dep in steps[k].dependsOn ::
        (dep, steps[k].id)
    ensures steps[k] in steps
  {
    PrefixSnoc(steps, k);
    forall s ensures s in steps[..k + 1] <==> s in steps[..k] || s == steps[k] {
    }
  }

  lemma {:induction false} EdgesIntoElements(node: string, preds: seq<string>)
    ensures Elements(EdgesInto(node, preds)) == set p | p in preds :: (p, node)
  {
    if preds != [] {
      var front, last := preds[..|preds| - 1], preds[|preds| - 1];
      EdgesIntoElements(node, front);
      SplitLast(preds);
      assert Elements(EdgesInto(node, preds)) == Elements(EdgesInto(node, front)) + {(last, node)};
    }
  }
}
