/** What a tool is called with: which value a bound argument has, and that all others are the plan's own. */
module WorkflowMeaning {
  import opened Graphs
  import opened PipelineCompiler
  import opened PipelineMeaning
  import opened Templates
  import opened WorkflowRunner
  import opened Wrappers

  /** The first dot parts a path. */
  lemma {:induction false} PartsAtFirstDot(prefix: string, key: string)
    requires '.' !in prefix
    ensures PartitionAt(prefix + "." + key) == (prefix, key)
  {
    var path := prefix + "." + key;
    if prefix == "" {
      assert path[0] == '.' && path[1..] == key;
    } else {
      assert path[0] == prefix[0] && path[1..] == prefix[1..] + "." + key;
      PartsAtFirstDot(prefix[1..], key);
      assert [prefix[0]] + prefix[1..] == prefix;
    }
  }

  lemma {:induction false} NoDotIsAllPrefix(path: string)
    requires '.' !in path
    ensures PartitionAt(path) == (path, "")
  {
    if path != "" {
      NoDotIsAllPrefix(path[1..]);
      assert [path[0]] + path[1..] == path;
    }
  }

  /** `artifacts.key` is that artifact of the output, `error.key` that entry of its error, and no other path is. */
  lemma LookUpExactly(output: Raw, prefix: string, key: string)
    requires '.' !in prefix
    ensures LookUp(output, prefix + "." + key) ==
            if prefix == "artifacts" then
              if key in output.artifacts then Found(output.artifacts[key]) else MissingKey
            else if prefix == "error" then
              if output.error.Some? && key in output.error.value then Found(output.error.value[key]) else MissingKey
            else MissingKey
  {
    PartsAtFirstDot(prefix, key);
  }

  /** When a tool is called, and what comes of it; when it is not, and with which status the step ends. */
  lemma StepOutcome(todo: Todo, outputs: Outputs, response: Response)
    ensures var r := StepRecord(todo, outputs, response);
            && r.id == todo.id
            && (r.call.Some? && response.Returns? ==> r.output == response.raw)
            && (r.call.Some? && response.Raises? ==>
                  && Fails(r.output, "ERROR", "tool_execution_failed")
                  && r.output.summary == "workflow tool execution failed: " + response.message
                  && "message" in r.output.error.value && r.output.error.value["message"] <= response.message
                  && |r.output.error.value["message"]| == Least(|response.message|, 2000))
            && (r.call.None? ==>
                  if exists key :: key in todo.args && LacksPart(todo.args[key])
                  then Fails(r.output, "ERROR", "tool_execution_failed")
                  else Fails(r.output, "POLICY_BLOCK", "binding_resolution_failed"))
            && (r.call.None? <==> exists key :: key in todo.args && CannotResolve(todo.args[key], outputs))
  {
    var r := StepRecord(todo, outputs, response);
    forall key | key in todo.args && CannotResolve(todo.args[key], outputs) ensures r.call.None? {
      if !Malformed(todo.args[key]) && !(exists k :: k in todo.args && Malformed(todo.args[k])) {
        assert key in Resolutions(todo.args, outputs) && !Resolutions(todo.args, outputs)[key].Found?;
      }
    }
    if r.call.None? {
      if exists key :: key in todo.args && Malformed(todo.args[key]) {
        var key :| key in todo.args && Malformed(todo.args[key]);
        assert CannotResolve(todo.args[key], outputs);
      } else {
        var key :| key in r.resolutions && !r.resolutions[key].Found?;
        assert CannotResolve(todo.args[key], outputs);
      }
    }
  }

  function Least(a: nat, b: nat): nat {
    if a <= b then a else b
  }

  /** A result that is not ok, without artifacts, with the error code given. */
  predicate Fails(output: Raw, status: string, code: string) {
    && !output.ok && output.status == status && output.artifacts == map[]
    && output.error.Some? && "code" in output.error.value && output.error.value["code"] == code
  }

  predicate LacksPart(a: Arg) {
    IsMarked(a) && ("from_step" !in a.entries || "path" !in a.entries)
  }

  /** A dict marked as a binding that lacks a part, or points where nothing is. */
  predicate CannotResolve(a: Arg, outputs: Outputs) {
    && IsMarked(a)
    && (LacksPart(a)
        || PyStr(a.entries["from_step"]) !in outputs
        || LookUp(outputs[PyStr(a.entries["from_step"])], PyStr(a.entries["path"])) == MissingKey)
  }

  predicate IsMarked(a: Arg) {
    a.Dict? && "__binding__" in a.entries && a.entries["__binding__"] == Flag(true)
  }

  /** Whatever the plan, a tool gets an argument under each key of the plan, the plan's own where it is no binding. */
  lemma OtherArgumentsPass(plan: seq<Todo>, responses: nat -> Response, trace: seq<Record>, k: nat, key: string)
    requires IsTrace(plan, responses, trace) && k < |trace| && trace[k].call.Some?
    ensures trace[k].call.value.Keys == plan[k].args.Keys
    ensures key in plan[k].args && !IsMarked(plan[k].args[key]) ==> trace[k].call.value[key] == plan[k].args[key]
  {
    assert IsStep(plan, responses, trace, k);
  }

  /**
   * When a step of a compiled plan calls its tool, an argument bound to an artifact of an earlier step is exactly
   * that artifact, and one bound to an entry of its error is exactly that entry.
   */
  lemma BoundArgumentIsTheValue(d: Definition, allowed: Option<set<string>>, vars: Variables, order: seq<Step>,
                                plan: seq<Todo>, responses: nat -> Response, trace: seq<Record>, k: nat, key: string,
                                name: string)
    returns (source: nat)
    requires Compilable(d, allowed, vars) && IsPlan(d, vars, order, plan) && Distinct(IdsOf(order))
    requires IsTrace(plan, responses, trace) && k < |trace| && trace[k].call.Some?
    requires key in order[k].template && order[k].template[key].Binding?
    ensures source < k && plan[source].id == order[k].template[key].fromStep && key in trace[k].call.value
    ensures order[k].template[key].path == "artifacts." + name ==>
              && name in trace[source].output.artifacts
              && trace[k].call.value[key] == Text(trace[source].output.artifacts[name])
    ensures order[k].template[key].path == "error." + name ==>
              && trace[source].output.error.Some? && name in trace[source].output.error.value
              && trace[k].call.value[key] == Text(trace[source].output.error.value[name])
  {
    source := BoundArgumentIsLookedUp(d, allowed, vars, order, plan, responses, trace, k, key);
    LookUpByName(trace[source].output, order[k].template[key].path, name);
  }

  lemma LookUpByName(output: Raw, path: string, name: string)
    ensures path == "artifacts." + name ==>
              LookUp(output, path) == if name in output.artifacts then Found(output.artifacts[name]) else MissingKey
    ensures path == "error." + name ==>
              LookUp(output, path) == if output.error.Some? && name in output.error.value
                                      then Found(output.error.value[name]) else MissingKey
  {
    LookUpExactly(output, "artifacts", name);
    LookUpExactly(output, "error", name);
    assert "artifacts" + "." + name == "artifacts." + name;
    assert "error" + "." + name == "error." + name;
    assert |"artifacts"| != |"error"|;
  }

  lemma BoundArgumentIsLookedUp(d: Definition, allowed: Option<set<string>>, vars: Variables, order: seq<Step>,
                                plan: seq<Todo>, responses: nat -> Response, trace: seq<Record>, k: nat, key: string)
    returns (source: nat)
    requires Compilable(d, allowed, vars) && IsPlan(d, vars, order, plan) && Distinct(IdsOf(order))
    requires IsTrace(plan, responses, trace) && k < |trace| && trace[k].call.Some?
    requires key in order[k].template && order[k].template[key].Binding?
    ensures source < k && plan[source].id == order[k].template[key].fromStep && key in trace[k].call.value
    ensures var found := LookUp(trace[source].output, order[k].template[key].path);
            found.Found? && trace[k].call.value[key] == Text(found.value)
  {
    source := CompiledBindingsCannotDangle(d, allowed, vars, order, plan, responses, trace, k, key);
    TraceIdsDistinct(d, vars, order, plan, responses, trace);
    assert IsStep(plan, responses, trace, k);
    BindingIsResolved(order[k], plan[k], vars, OutputsOf(trace[..k]), responses(k), key);
  }

  lemma BindingIsResolved(s: Step, todo: Todo, vars: Variables, outputs: Outputs, response: Response, key: string)
    requires todo == TodoOf(s, vars) && key in s.template && s.template[key].Binding?
    requires StepRecord(todo, outputs, response).call.Some?
    ensures var r := StepRecord(todo, outputs, response);
            && key in r.resolutions && r.resolutions[key].Found? && key in r.call.value
            && r.call.value[key] == Text(r.resolutions[key].value)
  {
    assert todo.args[key] == Serialize(s.template[key]);
    SerializedBindings(s.template[key]);
  }

  /** A run stops after its last step, at the first step that fails, or at the tool that hands off, and not before. */
  lemma RunStopsExactly(plan: seq<Todo>, responses: nat -> Response, trace: seq<Record>)
    requires IsTrace(plan, responses, trace) && Stopped(plan, trace)
    ensures |trace| <= |plan|
    ensures |trace| == |plan| || !trace[|trace| - 1].output.ok
            || plan[|trace| - 1].toolName == "mcp_investigation_compile_handoff"
    ensures forall k :: 0 <= k < |trace| - 1 ==>
              trace[k].output.ok && plan[k].toolName != "mcp_investigation_compile_handoff"
    ensures forall k :: 0 <= k < |trace| ==> trace[k].id == plan[k].id
  {
    forall k | 0 <= k < |trace| - 1
      ensures trace[k].output.ok && plan[k].toolName != "mcp_investigation_compile_handoff"
    {
      assert GoesOn(plan, trace, k);
    }
    forall k | 0 <= k < |trace| ensures trace[k].id == plan[k].id {
      assert IsStep(plan, responses, trace, k);
    }
  }

  /** Texts stand for themselves, truth values for their Python names, and whatever else for its own spelling. */
  lemma NamesAsPythonWrites(s: string)
    ensures PyStr(Text(s)) == s && PyStr(Other(s)) == s
    ensures PyStr(Flag(true)) == "True" && PyStr(Flag(false)) == "False"
  {
  }

  /** Each thing that is attached to a completed run without a report stands under its own key. */
  lemma AttachmentsLand(artifacts: Artifacts, outputs: Outputs, pipelineId: string, planned: nat, late: Attached)
    requires pipelineId != "code_review" && pipelineId != "deep_research"
    ensures var final := Concluded(artifacts, outputs, pipelineId, planned, late);
            && Lands(final, artifacts, "candidate_analysis", late.candidateAnalysis)
            && Lands(final, artifacts, "snapshot_id", late.snapshotId)
            && Lands(final, artifacts, "summary_memory_result", late.memoryResult)
  {
    RoundOneLands(artifacts, late);
    assert |"candidate_analysis"| == 18 && |"snapshot_id"| == 11 && |"summary_memory_result"| == 21;
    assert |"binding_trace"| == 13 && |"pipeline_receipt"| == 16;
    forall key | key == "candidate_analysis" || key == "snapshot_id" || key == "summary_memory_result" {
      LaterOnesSpareOthers(artifacts, outputs, pipelineId, planned, late, key);
    }
  }

  lemma RoundOneLands(artifacts: Artifacts, late: Attached)
    ensures var one := AfterRoundOne(artifacts, late);
            && Lands(one, artifacts, "candidate_analysis", late.candidateAnalysis)
            && Lands(one, artifacts, "snapshot_id", late.snapshotId)
            && Lands(one, artifacts, "summary_memory_result", late.memoryResult)
  {
    assert |"candidate_analysis"| == 18 && |"snapshot_id"| == 11 && |"summary_memory_result"| == 21;
  }

  lemma LaterOnesSpareOthers(artifacts: Artifacts, outputs: Outputs, pipelineId: string, planned: nat, late: Attached,
                             key: string)
    requires pipelineId != "code_review" && pipelineId != "deep_research"
    requires key != "binding_trace" && key != "pipeline_receipt"
    ensures var one, final := AfterRoundOne(artifacts, late), Concluded(artifacts, outputs, pipelineId, planned, late);
            (key in final <==> key in one) && (key in one ==> final[key] == one[key])
  {
  }

  /** The account of a run names every step that ran with what it produced, and counts those that succeeded. */
  lemma AccountNamesEveryStep(artifacts: Artifacts, outputs: Outputs, pipelineId: string, planned: nat, late: Attached,
                              produced: map<string, set<string>>)
    requires outputs != map[] && pipelineId != "" && pipelineId != "code_review" && pipelineId != "deep_research"
    requires produced.Keys == outputs.Keys
    requires forall id, key :: id in produced ==> (key in produced[id] <==> key in outputs[id].artifacts)
    ensures var final := Concluded(artifacts, outputs, pipelineId, planned, late);
            && "binding_trace" in final && final["binding_trace"] == BindingTrace(produced)
            && "pipeline_receipt" in final && final["pipeline_receipt"].Receipt?
            && final["pipeline_receipt"].pipelineId == pipelineId && final["pipeline_receipt"].planned == planned
            && final["pipeline_receipt"].completed == |outputs.Keys| - |set id | id in outputs && !outputs[id].ok|
  {
    assert Produced(outputs) == BindingTrace(produced) by {
      forall id | id in outputs ensures produced[id] == outputs[id].artifacts.Keys {
      }
      assert Produced(outputs).produced == produced;
    }
    assert |"binding_trace"| == 13 && |"pipeline_receipt"| == 16;
    SucceededAndFailed(outputs);
  }

  lemma SucceededAndFailed(outputs: Outputs)
    ensures |CompletedSteps(outputs)| == |outputs.Keys| - |set id | id in outputs && !outputs[id].ok|
  {
    var failed := set id | id in outputs && !outputs[id].ok;
    assert CompletedSteps(outputs) + failed == outputs.Keys;
  }

  ghost predicate Lands(final: Artifacts, was: Artifacts, key: string, value: Option<string>) {
    if value.Some? then key in final && final[key] == Value(value.value)
    else (key in final <==> key in was) && (key in was ==> final[key] == was[key])
  }

  /** A report overwrites whatever is under its keys, in the two pipelines that write one and in no other. */
  lemma ReportsLand(artifacts: Artifacts, outputs: Outputs, pipelineId: string, planned: nat, late: Attached,
                    key: string)
    requires key in late.report
    ensures pipelineId == "code_review" || pipelineId == "deep_research" ==>
              var final := Concluded(artifacts, outputs, pipelineId, planned, late);
              key in final && final[key] == Value(late.report[key])
  {
  }

  /** Before the first step a run notes which pipeline it is and how many steps were planned. */
  lemma RunsOpenWithPlan(initial: Artifacts, pipelineId: string, planned: nat)
    ensures var begun := Opening(initial, pipelineId, planned);
            && begun.Keys == initial.Keys + {"pipeline_id", "compiled_step_count"}
            && begun["pipeline_id"] == Value(pipelineId) && begun["compiled_step_count"] == StepCount(planned)
            && forall key :: key in initial && key != "pipeline_id" && key != "compiled_step_count" ==>
                 begun[key] == initial[key]
  {
    assert |"pipeline_id"| != |"compiled_step_count"|;
  }
}
