/** The step loop of orchestrator/agent_workflow/runner.py over a compiled plan. */
module WorkflowRunner {
  import opened Graphs
  import opened PipelineCompiler
  import opened Templates
  import opened Wrappers

  /** The one tool whose success ends the workflow early. */
  predicate IsHandoff(toolName: string) {
    toolName == "mcp_investigation_compile_handoff"
  }

  datatype Raw = Raw(ok: bool, status: string, summary: string, artifacts: map<string, string>,
      error: Option<map<string, string>>)

  /** What a tool call ends in. */
  datatype Response = Raises(message: string) | Returns(raw: Raw)

  /** What the bound artifact of an argument turns out to be. */
  datatype Resolution = MissingStep | MissingKey | Found(value: string)

  type Outputs = map<string, Raw>

  /** `path.partition(".")` */
  function PartitionAt(path: string): (string, string) {
    if path == "" then ("", "")
    else if path[0] == '.' then ("", path[1..])
    else var (prefix, key) := PartitionAt(path[1..]); ([path[0]] + prefix, key)
  }

  /** Only `artifacts` and `error` of a step result are dicts. */
  function Section(output: Raw, prefix: string): map<string, string> {
    if prefix == "artifacts" then output.artifacts
    else if prefix == "error" && output.error.Some? then output.error.value
    else map[]
  }

  function LookUp(output: Raw, path: string): Resolution {
    var (prefix, key) := PartitionAt(path);
    if key in Section(output, prefix) then Found(Section(output, prefix)[key]) else MissingKey
  }

  /** `_resolve_binding` */
  function ResolveBinding(fromStep: string, path: string, outputs: Outputs): Resolution {
    if fromStep !in outputs then MissingStep else LookUp(outputs[fromStep], path)
  }

  /** `str(value)` of what stands in a dict that passes for a binding. */
  function PyStr(a: Arg): string {
    match a
    case Text(s) => s
    case Flag(b) => if b then "True" else "False"
    case Other(repr) => repr
    case _ => "{...}"
  }

  /** A dict that passes for a binding but lacks a part makes the lookup raise. */
  predicate Malformed(a: Arg) {
    IsBinding(a) && ("from_step" !in a.entries || "path" !in a.entries)
  }

  function Source(a: Arg): string
    requires IsBinding(a) && !Malformed(a)
  {
    PyStr(a.entries["from_step"])
  }

  function Target(a: Arg): string
    requires IsBinding(a) && !Malformed(a)
  {
    PyStr(a.entries["path"])
  }

  /** How each binding among the arguments of a step is resolved. */
  function Resolutions(args: Args, outputs: Outputs): map<string, Resolution> {
    map key | key in args && IsBinding(args[key]) && !Malformed(args[key]) ::
      ResolveBinding(Source(args[key]), Target(args[key]), outputs)
  }

  predicate AllFound(resolutions: map<string, Resolution>) {
    forall key :: key in resolutions ==> resolutions[key].Found?
  }

  /** The arguments handed to the tool. */
  function CallArgs(args: Args, resolutions: map<string, Resolution>): Args {
    map key | key in args ::
      if key in resolutions && resolutions[key].Found? then Text(resolutions[key].value) else args[key]
  }

  function Blocked(resolutions: map<string, Resolution>): Raw {
    Raw(false, "POLICY_BLOCK", "binding failed", map[], Some(map["code" := "binding_resolution_failed"]))
  }

  /** What an exception becomes; the error keeps at most 2000 characters of its text. */
  function Failure(text: string): Raw {
    Raw(false, "ERROR", "workflow tool execution failed: " + text, map[],
        Some(map["code" := "tool_execution_failed", "message" := if |text| <= 2000 then text else text[..2000]]))
  }

  /** One executed step: how its bindings were resolved, what the tool was called with, and what came of it. */
  datatype Record = Record(id: string, resolutions: map<string, Resolution>, call: Option<Args>, output: Raw)

  function StepRecord(todo: Todo, outputs: Outputs, response: Response): Record {
    if exists key :: key in todo.args && Malformed(todo.args[key])
    then Record(todo.id, map[], None, Failure("KeyError"))
    else
      var resolutions := Resolutions(todo.args, outputs);
      if !AllFound(resolutions) then Record(todo.id, resolutions, None, Blocked(resolutions))
      else
        Record(todo.id, resolutions, Some(CallArgs(todo.args, resolutions)),
               match response case Raises(message) => Failure(message) case Returns(raw) => raw)
  }

  function OutputsOf(trace: seq<Record>): Outputs {
    if trace == [] then map[]
    else OutputsOf(trace[..|trace| - 1])[trace[|trace| - 1].id := trace[|trace| - 1].output]
  }

  /** `trace` is the run of `plan` when the tools answer with `responses`, up to the step that ended it. */
  ghost predicate IsTrace(plan: seq<Todo>, responses: nat -> Response, trace: seq<Record>) {
    && |trace| <= |plan|
    && (forall k :: 0 <= k < |trace| ==> IsStep(plan, responses, trace, k))
    && (forall k :: 0 <= k < |trace| - 1 ==> GoesOn(plan, trace, k))
  }

  ghost predicate IsStep(plan: seq<Todo>, responses: nat -> Response, trace: seq<Record>, k: nat)
    requires k < |trace| <= |plan|
  {
    trace[k] == StepRecord(plan[k], OutputsOf(trace[..k]), responses(k))
  }

  predicate GoesOn(plan: seq<Todo>, trace: seq<Record>, k: nat)
    requires k < |trace| <= |plan|
  {
    trace[k].output.ok && !IsHandoff(plan[k].toolName)
  }

  ghost predicate Stopped(plan: seq<Todo>, trace: seq<Record>) {
    |trace| == |plan| || (0 < |trace| <= |plan| && !GoesOn(plan, trace, |trace| - 1))
  }

  // Bindings cannot dangle

  /** No literal dict at the top of a template is dressed up as a binding. */
  predicate NoDisguisedBindings(s: Step, vars: Variables) {
    forall key :: key in s.template ==> !IsBinding(Resolve(s.template[key], vars))
  }

  lemma {:induction false} OutputsCoverTrace(trace: seq<Record>, k: nat)
    requires k < |trace| && forall i, j :: 0 <= i < j < |trace| ==> trace[i].id != trace[j].id
    ensures trace[k].id in OutputsOf(trace) && OutputsOf(trace)[trace[k].id] == trace[k].output
  {
    if k < |trace| - 1 {
      var front := trace[..|trace| - 1];
      OutputsCoverTrace(front, k);
      assert front[k] == trace[k];
    }
  }

  lemma TraceIdsDistinct(d: Definition, vars: Variables, order: seq<Step>, plan: seq<Todo>, responses: nat -> Response,
                         trace: seq<Record>)
    requires IsPlan(d, vars, order, plan) && Distinct(IdsOf(order)) && IsTrace(plan, responses, trace)
    ensures forall k :: 0 <= k < |trace| ==> trace[k].id == order[k].id
    ensures forall i, j :: 0 <= i < j < |trace| ==> trace[i].id != trace[j].id
  {
    forall k | 0 <= k < |trace| ensures trace[k].id == order[k].id {
      assert IsStep(plan, responses, trace, k);
      assert plan[k] == TodoOf(order[k], vars);
    }
    forall i, j | 0 <= i < j < |trace| ensures trace[i].id != trace[j].id {
      assert IdsOf(order)[i] != IdsOf(order)[j];
    }
  }

  lemma DependencyIsEarlier(d: Definition, order: seq<Step>, k: nat, dep: string) returns (i: nat)
    requires Ordered(d.steps, order) && Distinct(IdsOf(order)) && k < |order| && dep in order[k].dependsOn
    ensures i < k && order[i].id == dep
  {
    SameSteps(d.steps, order, order[k]);
    assert (dep, order[k].id) in DependencyEdges(d.steps);
    var a, b :| 0 <= a < b < |order| && IdsOf(order)[a] == dep && IdsOf(order)[b] == order[k].id;
    assert IdsOf(order)[k] == order[k].id;
    i := a;
  }

  lemma BindingResolution(todo: Todo, s: Step, vars: Variables, outputs: Outputs, response: Response, key: string)
    requires todo == TodoOf(s, vars) && key in s.template && s.template[key].Binding?
    requires key in StepRecord(todo, outputs, response).resolutions
    ensures StepRecord(todo, outputs, response).resolutions[key]
        == ResolveBinding(s.template[key].fromStep, s.template[key].path, outputs)
  {
    assert todo.args[key] == Serialize(s.template[key]);
  }

  /**
   * When the runner reaches a step of a compiled plan, the source of each of its bindings has run before
   * and with success, so a binding can only fail for a missing key.
   */
  lemma CompiledBindingsCannotDangle(d: Definition, allowed: Option<set<string>>, vars: Variables, order: seq<Step>,
                                     plan: seq<Todo>, responses: nat -> Response, trace: seq<Record>, k: nat,
                                     key: string)
    returns (source: nat)
    requires Compilable(d, allowed, vars) && IsPlan(d, vars, order, plan) && Distinct(IdsOf(order))
    requires IsTrace(plan, responses, trace) && k < |trace|
    requires key in order[k].template && order[k].template[key].Binding?
    ensures source < k && trace[source].id == order[k].template[key].fromStep && trace[source].output.ok
    ensures key in trace[k].resolutions ==>
              && trace[k].resolutions[key] == LookUp(trace[source].output, order[k].template[key].path)
              && trace[k].resolutions[key] != MissingStep
  {
    var b, before := order[k].template[key], trace[..k];
    assert b.fromStep in order[k].dependsOn by {
      SameSteps(d.steps, order, order[k]);
      assert BindingsDeclared(order[k]);
    }
    source := DependencyIsEarlier(d, order, k, b.fromStep);
    TraceIdsDistinct(d, vars, order, plan, responses, trace);
    assert IsStep(plan, responses, trace, k) && GoesOn(plan, trace, source);
    if key in trace[k].resolutions {
      OutputsCoverTrace(before, source);
      BindingResolution(plan[k], order[k], vars, OutputsOf(before), responses(k), key);
    }
  }

  /** Without disguised bindings the bindings the runner resolves are exactly those of the definition. */
  lemma OnlyDeclaredBindingsResolve(d: Definition, vars: Variables, order: seq<Step>, plan: seq<Todo>,
                                    outputs: Outputs, k: nat, key: string)
    requires IsPlan(d, vars, order, plan) && k < |order| && NoDisguisedBindings(order[k], vars)
    ensures !(exists key' :: key' in plan[k].args && Malformed(plan[k].args[key']))
    ensures key in Resolutions(plan[k].args, outputs) <==> key in order[k].template && order[k].template[key].Binding?
  {
    forall key' | key' in plan[k].args
      ensures IsBinding(plan[k].args[key']) <==> order[k].template[key'].Binding?
      ensures !Malformed(plan[k].args[key'])
    {
      SerializedBindings(Resolve(order[k].template[key'], vars));
    }
  }

  /** A whole compiled run without disguised bindings never takes the missing-step branch. */
  lemma MissingStepIsUnreachable(d: Definition, allowed: Option<set<string>>, vars: Variables, order: seq<Step>,
                                 plan: seq<Todo>, responses: nat -> Response, trace: seq<Record>, k: nat, key: string)
    requires Compilable(d, allowed, vars) && IsPlan(d, vars, order, plan) && Distinct(IdsOf(order))
    requires IsTrace(plan, responses, trace) && k < |trace| && forall s :: s in d.steps ==> NoDisguisedBindings(s, vars)
    ensures key in trace[k].resolutions ==> trace[k].resolutions[key] != MissingStep
  {
    SameSteps(d.steps, order, order[k]);
    assert IsStep(plan, responses, trace, k);
    if key in trace[k].resolutions {
      OnlyDeclaredBindingsResolve(d, vars, order, plan, OutputsOf(trace[..k]), k, key);
      var source := CompiledBindingsCannotDangle(d, allowed, vars, order, plan, responses, trace, k, key);
    }
  }

  lemma {:induction false} OutputsKeys(trace: seq<Record>)
    ensures forall id :: id in OutputsOf(trace) <==> exists r :: r in trace && r.id == id
  {
    if trace != [] {
      OutputsKeys(trace[..|trace| - 1]);
      SplitLast(trace);
    }
  }

  lemma RecordsNameSteps(plan: seq<Todo>, responses: nat -> Response, trace: seq<Record>, k: nat, j: nat)
    requires IsTrace(plan, responses, trace) && j < k <= |trace|
    ensures trace[..k][j].id == plan[j].id
  {
    assert IsStep(plan, responses, trace, j);
  }

  /** Whether the missing-step branch is taken is decided by the plan: no earlier step has the name asked for. */
  lemma MissingStepExactly(plan: seq<Todo>, responses: nat -> Response, trace: seq<Record>, k: nat, key: string)
    requires IsTrace(plan, responses, trace) && k < |trace| && key in trace[k].resolutions
    ensures key in plan[k].args && IsBinding(plan[k].args[key]) && !Malformed(plan[k].args[key])
    ensures trace[k].resolutions[key] == MissingStep <==>
              forall j :: 0 <= j < k ==> plan[j].id != Source(plan[k].args[key])
  {
    assert IsStep(plan, responses, trace, k);
    var earlier, source := trace[..k], Source(plan[k].args[key]);
    OutputsKeys(earlier);
    forall j | 0 <= j < k ensures earlier[j].id == plan[j].id {
      RecordsNameSteps(plan, responses, trace, k, j);
    }
    if j :| 0 <= j < k && plan[j].id == source {
      assert earlier[j] in earlier;
    }
  }

  function Disguised(step: string): Arg {
    Dict(map["__binding__" := Flag(true), "from_step" := Text(step), "path" := Text("p")])
  }

  function DisguisedStep(step: string): Step {
    Step("s", "t", map["x" := Disguised(step)], [])
  }

  lemma DisguisedIsInert(step: string)
    requires References(step) == []
    ensures Unresolved(Disguised(step)) == {} && Resolve(Disguised(step), map[]) == Disguised(step)
  {
    DollarFreeHasNoReferences("p");
    TextUnresolved(step);
    TextUnresolved("p");
    ResolveIsFixed(Disguised(step), map[]);
  }

  lemma DisguisedTodo(step: string)
    requires References(step) == []
    ensures TodoOf(DisguisedStep(step), map[]).args == map["x" := Disguised(step)]
  {
    DisguisedIsInert(step);
    assert Serialize(Disguised(step)) == Disguised(step);
  }

  lemma SingleStepIsAcyclic(s: Step)
    requires s.dependsOn == []
    ensures !Cyclic(DependencyEdges([s]))
  {
    assert DependencyEdges([s]) == {};
    if Cyclic(DependencyEdges([s])) {
      var a :| Reaches(DependencyEdges([s]), a, a);
      var b := ReachesFirst(DependencyEdges([s]), a, a);
    }
  }

  /** A literal dict dressed up as a binding to any step slips past compile, and dangles when the runner meets it. */
  lemma DisguisedBindingDangles(step: string, response: Response)
    requires References(step) == []
    ensures Compilable(Definition([DisguisedStep(step)], map[], 1), None, map[])
    ensures var record := StepRecord(TodoOf(DisguisedStep(step), map[]), map[], response);
            "x" in record.resolutions && record.resolutions["x"] == MissingStep
  {
    DisguisedTodo(step);
    DisguisedIsInert(step);
    SingleStepIsAcyclic(DisguisedStep(step));
    assert !Malformed(Disguised(step));
  }

  // The runner

  datatype TodoStatus = TodoPending | TodoActive | TodoDone | TodoBlocked

  datatype Phase = PLAN | ACT | SUMMARISE_TOOL_RESULT | CHECK | SYNTHESIZE | FINAL

  datatype RunResult = Complete | PlanTooLong | StepFailed(status: string)

  /** What the artifacts of a workflow hold: texts, and what the runner itself puts among them. */
  datatype Artifact =
    | Value(s: string)
    | StepCount(n: nat)
    | BindingTrace(produced: map<string, set<string>>)
    | Receipt(pipelineId: string, planned: nat, completed: nat)

  type Artifacts = map<string, Artifact>

  function Values(artifacts: map<string, string>): Artifacts {
    map key | key in artifacts :: Value(artifacts[key])
  }

  /** `_merge_artifacts`: an artifact already there is kept. */
  function Merge(merged: Artifacts, artifacts: map<string, string>): Artifacts {
    Values(artifacts) + merged
  }

  function ArtifactsAfter(initial: Artifacts, trace: seq<Record>): Artifacts {
    if trace == [] then initial
    else Merge(ArtifactsAfter(initial, trace[..|trace| - 1]), trace[|trace| - 1].output.artifacts)
  }

  /** Of several steps that produce an artifact the first one's value stays. */
  lemma {:induction false} FirstArtifactWins(initial: Artifacts, trace: seq<Record>, key: string)
    ensures key in initial ==>
        key in ArtifactsAfter(initial, trace) && ArtifactsAfter(initial, trace)[key] == initial[key]
    ensures key !in initial ==>
              (key in ArtifactsAfter(initial, trace) <==>
               exists k :: 0 <= k < |trace| && key in trace[k].output.artifacts)
    ensures key !in initial && key in ArtifactsAfter(initial, trace) ==>
              exists k :: 0 <= k < |trace| && key in trace[k].output.artifacts
                          && ArtifactsAfter(initial, trace)[key] == Value(trace[k].output.artifacts[key])
                          && forall j :: 0 <= j < k ==> key !in trace[j].output.artifacts
  {
    if trace != [] {
      var front, n := trace[..|trace| - 1], |trace| - 1;
      FirstArtifactWins(initial, front, key);
      assert forall k :: 0 <= k < n ==> front[k] == trace[k];
      if key !in initial {
        if key in ArtifactsAfter(initial, front) {
          var k :| 0 <= k < n && key in front[k].output.artifacts
                   && ArtifactsAfter(initial, front)[key] == Value(front[k].output.artifacts[key])
                   && forall j :: 0 <= j < k ==> key !in front[j].output.artifacts;
          assert key in trace[k].output.artifacts;
        } else if key in trace[n].output.artifacts {
          assert forall j :: 0 <= j < n ==> key !in front[j].output.artifacts;
        }
      }
    }
  }

  // What the runner attaches

  /** Set before the first step. */
  function Opening(initial: Artifacts, pipelineId: string, planned: nat): Artifacts {
    initial["pipeline_id" := Value(pipelineId)]["compiled_step_count" := StepCount(planned)]
  }

  /** What analysis, snapshot memory, conversation memory and report writers hand to a completed workflow. */
  datatype Attached = Attached(
    candidateAnalysis: Option<string>,
    snapshotId: Option<string>,
    memoryResult: Option<string>,
    report: map<string, string>)

  function Noted(artifacts: Artifacts, key: string, value: Option<string>): Artifacts {
    if value.None? then artifacts else artifacts[key := Value(value.value)]
  }

  /** `_attach_round_one_artifacts` */
  function AfterRoundOne(artifacts: Artifacts, late: Attached): Artifacts {
    var analysed := Noted(artifacts, "candidate_analysis", late.candidateAnalysis);
    Noted(Noted(analysed, "snapshot_id", late.snapshotId), "summary_memory_result", late.memoryResult)
  }

  function Produced(outputs: Outputs): Artifact {
    BindingTrace(map id | id in outputs :: outputs[id].artifacts.Keys)
  }

  function CompletedSteps(outputs: Outputs): set<string> {
    set id | id in outputs && outputs[id].ok
  }

  predicate WritesReport(pipelineId: string) {
    pipelineId == "code_review" || pipelineId == "deep_research"
  }

  /** The artifacts of a completed workflow: each attachment overwrites what is there under its key. */
  function Concluded(artifacts: Artifacts, outputs: Outputs, pipelineId: string, planned: nat,
                     late: Attached): Artifacts {
    var one := AfterRoundOne(artifacts, late);
    var traced := if outputs == map[] then one else one["binding_trace" := Produced(outputs)];
    var receipt := Receipt(pipelineId, planned, |CompletedSteps(outputs)|);
    var receipted := if pipelineId == "" then traced else traced["pipeline_receipt" := receipt];
    receipted + if WritesReport(pipelineId) then Values(late.report) else map[]
  }

  predicate AttachmentKey(key: string) {
    || key == "candidate_analysis" || key == "snapshot_id" || key == "summary_memory_result"
    || key == "binding_trace" || key == "pipeline_receipt"
  }

  /** Attachments never touch what is filed under other keys. */
  lemma AttachmentsOverrideOnlyTheirKeys(artifacts: Artifacts, outputs: Outputs, pipelineId: string, planned: nat,
                                         late: Attached, key: string)
    requires !AttachmentKey(key) && (WritesReport(pipelineId) ==> key !in late.report)
    ensures var final := Concluded(artifacts, outputs, pipelineId, planned, late);
            (key in final <==> key in artifacts) && (key in artifacts ==> final[key] == artifacts[key])
  {
  }

  /** Whatever the steps filed under them, these two keys hold the runner's own account of the run. */
  lemma AccountOverridesSteps(artifacts: Artifacts, outputs: Outputs, pipelineId: string, planned: nat, late: Attached)
    requires outputs != map[] && pipelineId != ""
    requires WritesReport(pipelineId) ==> "binding_trace" !in late.report && "pipeline_receipt" !in late.report
    requires forall id :: id in outputs ==> outputs[id].ok
    ensures var final := Concluded(artifacts, outputs, pipelineId, planned, late);
            && "binding_trace" in final && final["binding_trace"] == Produced(outputs)
            && "pipeline_receipt" in final
            && final["pipeline_receipt"] == Receipt(pipelineId, planned, |outputs.Keys|)
  {
    assert CompletedSteps(outputs) == outputs.Keys;
    assert |"binding_trace"| != |"pipeline_receipt"|;
  }

  class WorkflowState {
    var phase: Phase
    var todos: seq<TodoStatus>
    var artifacts: Artifacts
    var errors: nat

    constructor (artifacts: Artifacts)
      ensures phase == PLAN && todos == [] && this.artifacts == artifacts && errors == 0
    {
      phase, todos, this.artifacts, errors := PLAN, [], artifacts, 0;
    }
  }

  /** How the todos stand when `done` steps were carried out and `ok` tells whether the last of them succeeded. */
  ghost predicate StatusesAre(todos: seq<TodoStatus>, trace: seq<Record>) {
    && |trace| <= |todos|
    && (forall k :: 0 <= k < |trace| ==> todos[k] == if trace[k].output.ok then TodoDone else TodoBlocked)
    && forall k :: |trace| <= k < |todos| ==> todos[k] == TodoPending
  }

  class Runner {
    const maxSteps: int

    constructor (maxSteps: int)
      ensures this.maxSteps == maxSteps
    {
      this.maxSteps := maxSteps;
    }

    /** `_resolve_args`; `None` stands for the KeyError of a malformed binding. */
    method ResolveArgs(args: Args, outputs: Outputs) returns (r: Option<(Args, map<string, Resolution>)>)
      ensures r.None? <==> exists key :: key in args && Malformed(args[key])
      ensures r.Some? ==> r.value.1 == Resolutions(args, outputs) && r.value.0 == CallArgs(args, r.value.1)
    {
      var resolved: Args := map[];
      var resolutions: map<string, Resolution> := map[];
      var rest := args.Keys;
      ghost var seen: Args := map[];
      while rest != {}
        invariant rest <= args.Keys && seen == args - rest
        invariant forall key :: key in seen ==> !Malformed(seen[key])
        invariant resolutions == Resolutions(seen, outputs) && resolved == CallArgs(seen, resolutions)
      {
        var key :| key in rest;
        var value := args[key];
        if Malformed(value) {
          return None;
        }
        OneMoreArg(seen, key, value, outputs);
        assert seen[key := value] == args - (rest - {key});
        seen := seen[key := value];
        if IsBinding(value) {
          var found := ResolveBinding(Source(value), Target(value), outputs);
          resolutions := resolutions[key := found];
          resolved := resolved[key := if found.Found? then Text(found.value) else value];
        } else {
          resolved := resolved[key := value];
        }
        rest := rest - {key};
      }
      assert args - rest == args;
      r := Some((resolved, resolutions));
    }

    /** The `try` block of one step: resolve the bindings, call the tool, turn exceptions into failures. */
    method Act(todo: Todo, outputs: Outputs, response: Response) returns (r: Record)
      ensures r == StepRecord(todo, outputs, response)
    {
      var resolution := ResolveArgs(todo.args, outputs);
      if resolution.None? {
        return Record(todo.id, map[], None, Failure("KeyError"));
      }
      var (resolved, resolutions) := resolution.value;
      if !AllFound(resolutions) {
        return Record(todo.id, resolutions, None, Blocked(resolutions));
      }
      var output := match response case Raises(message) => Failure(message) case Returns(raw) => raw;
      r := Record(todo.id, resolutions, Some(resolved), output);
    }

    /** The body of the step loop. */
    method RunStep(state: WorkflowState, plan: seq<Todo>, outputs: Outputs, responses: nat -> Response, k: nat,
                   ghost trace: seq<Record>)
      returns (r: Record)
      requires k == |trace| < |plan| == |state.todos| && outputs == OutputsOf(trace)
      modifies state`phase, state`todos, state`artifacts
      ensures IsStep(plan, responses, trace + [r], k)
      ensures state.todos == old(state.todos)[k := if r.output.ok then TodoDone else TodoBlocked]
      ensures state.artifacts == Merge(old(state.artifacts), r.output.artifacts)
    {
      state.phase := ACT;
      state.todos := state.todos[k := TodoActive];
      r := Act(plan[k], outputs, responses(k));
      LastStep(plan, responses, trace, r);
      state.artifacts := Merge(state.artifacts, r.output.artifacts);
      state.phase := SUMMARISE_TOOL_RESULT;
      state.todos := state.todos[k := if r.output.ok then TodoDone else TodoBlocked];
      state.phase := CHECK;
    }

    /**
     * `run` from the compiled plan on. A failed run keeps the artifacts of its steps; a completed one files its
     * own account and what is attached to it over them.
     */
    method Run(state: WorkflowState, plan: seq<Todo>, pipelineId: string, responses: nat -> Response, late: Attached)
      returns (result: RunResult, ghost trace: seq<Record>)
      modifies state
      ensures state.phase == FINAL
      ensures result == PlanTooLong <==> |plan| > maxSteps
      ensures result == PlanTooLong ==>
                trace == [] && state.artifacts == Opening(old(state.artifacts), pipelineId, |plan|)
      ensures result != PlanTooLong ==>
                && IsTrace(plan, responses, trace) && Stopped(plan, trace)
                && |state.todos| == |plan| && StatusesAre(state.todos, trace)
      ensures result == Complete <==> |plan| <= maxSteps && AllOk(trace)
      ensures result != PlanTooLong ==>
                && StatusIsLast(result, trace)
                && var ran := ArtifactsAfter(Opening(old(state.artifacts), pipelineId, |plan|), trace);
                   state.artifacts == if result == Complete
                                      then Concluded(ran, OutputsOf(trace), pipelineId, |plan|, late) else ran
      ensures state.errors == old(state.errors) + if result == Complete then 0 else 1
    {
      trace := [];
      state.artifacts := Opening(state.artifacts, pipelineId, |plan|);
      if |plan| > maxSteps {
        state.errors := state.errors + 1;
        state.phase := FINAL;
        return PlanTooLong, trace;
      }
      state.todos := seq(|plan|, _ => TodoPending);
      var stepOutputs;
      result, stepOutputs, trace := RunSteps(state, plan, responses);
      if result == Complete {
        state.phase := SYNTHESIZE;
        Conclude(state, stepOutputs, pipelineId, |plan|, late);
      }
      state.phase := FINAL;
    }

    /** What follows the last step of a completed workflow. */
    method Conclude(state: WorkflowState, outputs: Outputs, pipelineId: string, planned: nat, late: Attached)
      modifies state`artifacts
      ensures state.artifacts == Concluded(old(state.artifacts), outputs, pipelineId, planned, late)
    {
      state.artifacts := AfterRoundOne(state.artifacts, late);
      if outputs != map[] {
        state.artifacts := state.artifacts["binding_trace" := Produced(outputs)];
      }
      if pipelineId != "" {
        state.artifacts :=
            state.artifacts["pipeline_receipt" := Receipt(pipelineId, planned, |CompletedSteps(outputs)|)];
      }
      if WritesReport(pipelineId) {
        state.artifacts := state.artifacts + Values(late.report);
      }
    }

    /** The step loop of `run`. */
    method RunSteps(state: WorkflowState, plan: seq<Todo>, responses: nat -> Response)
      returns (result: RunResult, stepOutputs: Outputs, ghost trace: seq<Record>)
      requires |state.todos| == |plan| && StatusesAre(state.todos, [])
      modifies state
      ensures IsTrace(plan, responses, trace) && Stopped(plan, trace)
      ensures |state.todos| == |plan| && Executed(trace, state.todos, old(state.artifacts), state.artifacts)
      ensures stepOutputs == OutputsOf(trace)
      ensures result != PlanTooLong && (result == Complete <==> AllOk(trace)) && StatusIsLast(result, trace)
      ensures state.errors == old(state.errors) + if result == Complete then 0 else 1
    {
      trace, result, stepOutputs := [], Complete, map[];
      for k := 0 to |plan|
        invariant |trace| == k && stepOutputs == OutputsOf(trace) && result == Complete
        invariant Underway(plan, responses, trace) && AllOk(trace)
        invariant |state.todos| == |plan| && Executed(trace, state.todos, old(state.artifacts), state.artifacts)
        invariant state.errors == old(state.errors)
      {
        ghost var todos, artifacts := state.todos, state.artifacts;
        var r := RunStep(state, plan, stepOutputs, responses, k, trace);
        ExtendTrace(plan, responses, trace, r);
        AllOkSnoc(trace, r);
        ExecutedSnoc(trace, r, old(state.artifacts), todos, artifacts);
        stepOutputs := stepOutputs[r.id := r.output];
        trace := trace + [r];
        if !r.output.ok {
          state.errors := state.errors + 1;
          result := StepFailed(r.output.status);
          break;
        }
        if IsHandoff(plan[k].toolName) {
          break;
        }
      }
    }
  }

  lemma OneMoreArg(seen: Args, key: string, value: Arg, outputs: Outputs)
    requires key !in seen && !Malformed(value)
    ensures var found := if IsBinding(value) then Some(ResolveBinding(Source(value), Target(value), outputs)) else None;
            var before, after := Resolutions(seen, outputs), Resolutions(seen[key := value], outputs);
            && after == (if found.Some? then before[key := found.value] else before)
            && CallArgs(seen[key := value], after) ==
               CallArgs(seen, before)
                 [key := if found.Some? && found.value.Found? then Text(found.value.value) else value]
  {
  }

  /** Todos and artifacts after the steps of `trace`. */
  ghost predicate Executed(trace: seq<Record>, todos: seq<TodoStatus>, initial: Artifacts, artifacts: Artifacts) {
    StatusesAre(todos, trace) && artifacts == ArtifactsAfter(initial, trace)
  }

  lemma ExecutedSnoc(trace: seq<Record>, r: Record, initial: Artifacts, todos: seq<TodoStatus>, artifacts: Artifacts)
    requires Executed(trace, todos, initial, artifacts) && |trace| < |todos|
    ensures Executed(trace + [r], todos[|trace| := if r.output.ok then TodoDone else TodoBlocked], initial,
                     Merge(artifacts, r.output.artifacts))
    ensures OutputsOf(trace + [r]) == OutputsOf(trace)[r.id := r.output]
  {
    var longer := trace + [r];
    assert longer[..|longer| - 1] == trace && longer[|longer| - 1] == r;
    StatusesSnoc(trace, r, todos);
  }

  lemma StatusesSnoc(trace: seq<Record>, r: Record, todos: seq<TodoStatus>)
    requires StatusesAre(todos, trace) && |trace| < |todos|
    ensures StatusesAre(todos[|trace| := if r.output.ok then TodoDone else TodoBlocked], trace + [r])
  {
  }

  /** A failed run returns the status of its last step. */
  predicate StatusIsLast(result: RunResult, trace: seq<Record>) {
    result.StepFailed? ==>
        trace != [] && !trace[|trace| - 1].output.ok && result.status == trace[|trace| - 1].output.status
  }

  predicate AllOk(trace: seq<Record>) {
    forall r :: r in trace ==> r.output.ok
  }

  /** All steps so far succeeded and none was the last. */
  ghost predicate Underway(plan: seq<Todo>, responses: nat -> Response, trace: seq<Record>) {
    IsTrace(plan, responses, trace) && forall k :: 0 <= k < |trace| ==> GoesOn(plan, trace, k)
  }

  lemma EarlierStepStays(plan: seq<Todo>, responses: nat -> Response, trace: seq<Record>, r: Record, k: nat)
    requires k < |trace| < |plan|
    ensures IsStep(plan, responses, trace + [r], k) <==> IsStep(plan, responses, trace, k)
    ensures GoesOn(plan, trace + [r], k) <==> GoesOn(plan, trace, k)
  {
    assert (trace + [r])[..k] == trace[..k];
  }

  lemma LastStep(plan: seq<Todo>, responses: nat -> Response, trace: seq<Record>, r: Record)
    requires |trace| < |plan| && r == StepRecord(plan[|trace|], OutputsOf(trace), responses(|trace|))
    ensures IsStep(plan, responses, trace + [r], |trace|)
  {
    assert (trace + [r])[..|trace|] == trace;
  }

  lemma ExtendTrace(plan: seq<Todo>, responses: nat -> Response, trace: seq<Record>, r: Record)
    requires Underway(plan, responses, trace) && |trace| < |plan|
    requires IsStep(plan, responses, trace + [r], |trace|)
    ensures IsTrace(plan, responses, trace + [r])
    ensures GoesOn(plan, trace + [r], |trace|) ==> Underway(plan, responses, trace + [r])
  {
    forall k | 0 <= k < |trace| ensures IsStep(plan, responses, trace + [r], k) && GoesOn(plan, trace + [r], k) {
      assert IsStep(plan, responses, trace, k) && GoesOn(plan, trace, k);
      EarlierStepStays(plan, responses, trace, r, k);
    }
  }

  lemma AllOkSnoc(trace: seq<Record>, r: Record)
    requires AllOk(trace)
    ensures AllOk(trace + [r]) <==> r.output.ok
  {
    assert r in trace + [r];
  }
}
