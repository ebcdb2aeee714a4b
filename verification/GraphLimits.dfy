// Where graph runs get stuck or are cut off, and which of them a log can hold
// (crates/penelope-executor/src/graph.rs).
module GraphLimits {
  import opened Wrappers
  import opened Domain
  import opened SagaDefinition
  import opened Identifiers
  import opened GraphDefinition
  import opened GraphPaths
  import opened GraphEngine
  import opened GraphReplay
  import opened GraphRuns
  import opened ProcessCommit
  import opened CommitChains
  import L = LinearEngine

  // An accepted run refuses this next input, with the error.
  ghost predicate Refuses(g: Instance, inputs: seq<GraphSagaInput>, input: GraphSagaInput, error: GraphEngineError) {
    && DistinctInputIds(inputs + [input]) && Live(g, inputs).Ok? && Live(g, inputs).value.Some?
    && Decide(g, Live(g, inputs).value, input) == Err(error)
  }

  ghost predicate SomeRunRefuses(g: Instance, error: GraphEngineError) {
    exists inputs, input :: Refuses(g, inputs, input, error)
  }

  // ------------------------------------------------------------- missing transitions

  // No edge leaves the step with this outcome.
  predicate Lacks(d: ProcessGraphDefinition, x: StepId, on: GraphTransitionOutcome) {
    forall e :: e in d.transitions ==> e.fromStep != x || e.on != on
  }

  // A step within the visit bound lacks an edge.
  ghost predicate IsGap(d: ProcessGraphDefinition, path: seq<StepId>, on: GraphTransitionOutcome) {
    PathFromEntry(d, path) && |path| <= d.maxStepVisits && Lacks(d, path[|path| - 1], on)
  }

  // What the decision of a running graph says of an error.
  lemma MissingDecision(verdict: Result<(), GraphDefinitionError>, g: Instance, p: GraphSagaProjection, input: GraphSagaInput)
    requires verdict.Ok? && ApplyGiven(verdict, g, p, input) == Err(MissingTransition)
    ensures p.status == L.Running && p.currentStepId.Some? && input.Observe?
    ensures Lacks(g.definition, p.currentStepId.value, TransitionOutcome(input.observation.result))
  {
  }

  lemma GapDecision(verdict: Result<(), GraphDefinitionError>, g: Instance, p: GraphSagaProjection, on: GraphTransitionOutcome, m: nat)
    requires verdict.Ok? && p.status == L.Running && p.currentStepId.Some? && m + 1 < ID_LIMIT
    requires p.activeActionId == Some(NthId(m)) && Lacks(g.definition, p.currentStepId.value, on)
    ensures ApplyGiven(verdict, g, p, Report(m, ResultFor(on), Some(NthId(m + 1)))) == Err(MissingTransition)
  {
  }

  lemma LabelledNextIsDistinct(inputs: seq<GraphSagaInput>, m: nat, result: L.ActionResult, next: Option<ActionId>)
    requires Labelled(inputs) && |inputs| == m + 1 < ID_LIMIT
    ensures DistinctInputIds(inputs + [Report(m, result, next)])
  {
    ReportGrows(inputs, m, result, next);
    LabelledIsDistinct(inputs + [Report(m, result, next)]);
  }

  lemma GapIsRun(g: Instance, path: seq<StepId>, on: GraphTransitionOutcome) returns (inputs: seq<GraphSagaInput>, input: GraphSagaInput)
    requires ValidGraph(g.definition) && IsGap(g.definition, path, on)
    ensures Refuses(g, inputs, input, MissingTransition)
  {
    var decision;
    inputs, decision := PathIsRun(g, path);
    var m := |path| - 1;
    GapDecision(Verdict(g.definition), g, decision.projection, on, m);
    input := Report(m, ResultFor(on), Some(NthId(m + 1)));
    LabelledNextIsDistinct(inputs, m, ResultFor(on), Some(NthId(m + 1)));
  }

  // Where a run stands is the end of a path from the entry within the visit bound.
  lemma RunIsPath(g: Instance, inputs: seq<GraphSagaInput>, decision: GraphSagaDecision) returns (path: seq<StepId>)
    requires Live(g, inputs) == Ok(Some(decision)) && decision.projection.status == L.Running
    ensures PathFromEntry(g.definition, path) && |path| == decision.projection.stepVisits <= g.definition.maxStepVisits
    ensures decision.projection.currentStepId == Some(path[|path| - 1])
  {
    path := RunsAreWalks(g, inputs, decision);
    WalkIsPath(g, inputs, path, decision.projection.issuedActionIds);
  }

  lemma MissingIsGap(g: Instance, inputs: seq<GraphSagaInput>, input: GraphSagaInput) returns (path: seq<StepId>, on: GraphTransitionOutcome)
    requires ValidGraph(g.definition) && Refuses(g, inputs, input, MissingTransition)
    ensures IsGap(g.definition, path, on)
  {
    var decision := Live(g, inputs).value.value;
    MissingDecision(Verdict(g.definition), g, decision.projection, input);
    path := RunIsPath(g, inputs, decision);
    on := TransitionOutcome(input.observation.result);
  }

  // A valid graph has a run whose next result finds no transition exactly when some
  // step within the visit bound lacks an edge for some outcome.
  lemma SomeRunMissesIff(g: Instance)
    requires ValidGraph(g.definition)
    ensures SomeRunRefuses(g, MissingTransition) <==> exists path, on :: IsGap(g.definition, path, on)
  {
    if SomeRunRefuses(g, MissingTransition) {
      var inputs, input :| Refuses(g, inputs, input, MissingTransition);
      var path, on := MissingIsGap(g, inputs, input);
    }
    if path, on :| IsGap(g.definition, path, on) {
      var inputs, input := GapIsRun(g, path, on);
    }
  }

  // ----------------------------------------------------------------- the visit bound

  lemma CutDecision(verdict: Result<(), GraphDefinitionError>, g: Instance, p: GraphSagaProjection, input: GraphSagaInput)
    returns (edge: GraphTransition)
    requires verdict.Ok? && ApplyGiven(verdict, g, p, input) == Err(VisitLimitExceeded) && p.stepVisits <= g.definition.maxStepVisits
    ensures p.status == L.Running && p.currentStepId.Some? && p.stepVisits == g.definition.maxStepVisits
    ensures edge in g.definition.transitions && edge.fromStep == p.currentStepId.value && edge.toStep.Some?
  {
    edge := FindEdge(g.definition.transitions, p.currentStepId.value, TransitionOutcome(input.observation.result)).value;
  }

  lemma EdgeLinks(d: ProcessGraphDefinition, edge: GraphTransition)
    requires edge in d.transitions && edge.toStep.Some?
    ensures Linked(d, edge.fromStep, edge.toStep.value)
  {
  }

  lemma CutNeedsPath(g: Instance, inputs: seq<GraphSagaInput>, input: GraphSagaInput)
    requires ValidGraph(g.definition) && Refuses(g, inputs, input, VisitLimitExceeded)
    ensures HasPath(g.definition, g.definition.maxStepVisits + 1)
  {
    var decision := Live(g, inputs).value.value;
    GraphRunsAreBounded(g, inputs, decision, input);
    var edge := CutDecision(Verdict(g.definition), g, decision.projection, input);
    var path := RunIsPath(g, inputs, decision);
    EdgeLinks(g.definition, edge);
    PathSnoc(g.definition, path, edge.toStep.value);
    assert PathFromEntry(g.definition, path + [edge.toStep.value]);
  }

  lemma FullDecision(verdict: Result<(), GraphDefinitionError>, g: Instance, p: GraphSagaProjection, edge: GraphTransition, m: nat)
    requires verdict.Ok? && p.status == L.Running && p.currentStepId == Some(edge.fromStep) && m + 1 < ID_LIMIT
    requires p.stepVisits == m + 1 == g.definition.maxStepVisits && p.activeActionId == Some(NthId(m))
    requires NthId(m + 1) !in p.issuedActionIds && edge.toStep.Some?
    requires FindEdge(g.definition.transitions, edge.fromStep, edge.on) == Some(edge)
    ensures ApplyGiven(verdict, g, p, Report(m, ResultFor(edge.on), Some(NthId(m + 1)))) == Err(VisitLimitExceeded)
  {
  }

  lemma PathIsCut(g: Instance, path: seq<StepId>) returns (inputs: seq<GraphSagaInput>, input: GraphSagaInput)
    requires ValidGraph(g.definition) && PathFromEntry(g.definition, path) && |path| == g.definition.maxStepVisits + 1
    ensures Refuses(g, inputs, input, VisitLimitExceeded)
  {
    var m := |path| - 2;
    PathPrefix(g.definition, path, m + 1);
    var decision;
    inputs, decision := PathIsRun(g, path[..m + 1]);
    assert Linked(g.definition, path[m], path[m + 1]);
    var edge := LinkHasEdge(g.definition, path[m], path[m + 1]);
    EdgeIsFound(g.definition, edge);
    FreshNthId(decision.projection.issuedActionIds, m + 1);
    FullDecision(Verdict(g.definition), g, decision.projection, edge, m);
    input := Report(m, ResultFor(edge.on), Some(NthId(m + 1)));
    LabelledNextIsDistinct(inputs, m, ResultFor(edge.on), Some(NthId(m + 1)));
  }

  // A valid graph has a run that the visit bound cuts off exactly when it has a path
  // one step longer than the bound; with as many visits as steps or more, exactly
  // when it has a cycle.
  lemma SomeRunIsCutIff(g: Instance)
    requires ValidGraph(g.definition)
    ensures SomeRunRefuses(g, VisitLimitExceeded) <==> HasPath(g.definition, g.definition.maxStepVisits + 1)
    ensures g.definition.maxStepVisits >= |g.definition.steps| ==>
      (SomeRunRefuses(g, VisitLimitExceeded) <==> HasCycle(g.definition))
  {
    if SomeRunRefuses(g, VisitLimitExceeded) {
      var inputs, input :| Refuses(g, inputs, input, VisitLimitExceeded);
      CutNeedsPath(g, inputs, input);
    }
    if HasPath(g.definition, g.definition.maxStepVisits + 1) {
      var path :| PathFromEntry(g.definition, path) && |path| == g.definition.maxStepVisits + 1;
      var inputs, input := PathIsCut(g, path);
    }
    if g.definition.maxStepVisits >= |g.definition.steps| {
      LongPathIffCycle(g.definition, g.definition.maxStepVisits + 1);
    }
  }

  // -------------------------------------------------------------------- effect keys

  lemma ActionCountsVisits(g: Instance, inputs: seq<GraphSagaInput>, decision: GraphSagaDecision)
    requires Live(g, inputs) == Ok(Some(decision)) && decision.nextAction.Some?
    ensures inputs != [] && decision.nextAction.value.attempt == |inputs| - 1
  {
    var visited := RunsAreWalks(g, inputs, decision);
  }

  // Unlike linear runs, a graph run never plans two actions under one effect key:
  // the attempt numbers its visits.
  lemma GraphKeysNeverRepeat(g: Instance, inputs: seq<GraphSagaInput>, m: nat, a: GraphSagaDecision, b: GraphSagaDecision)
    requires m < |inputs| && Live(g, inputs[..m]) == Ok(Some(a)) && Live(g, inputs) == Ok(Some(b))
    requires a.nextAction.Some? && b.nextAction.Some?
    ensures EffectKeyOf(a.nextAction.value) != EffectKeyOf(b.nextAction.value)
  {
    ActionCountsVisits(g, inputs[..m], a);
    ActionCountsVisits(g, inputs, b);
  }

  // ------------------------------------------------------------- logs that replay

  // A graph run whose commits all fit its outcome log always replays.
  lemma FittingRunReplays(g: Instance, inputs: seq<GraphSagaInput>, facts: seq<seq<ProcessOutcomeFact>>, records: seq<ProcessInput>)
    requires inputs != [] && |facts| == |inputs| && Records(GraphIds(inputs), records) && DistinctInputIds(inputs)
    requires GraphRunCommits(g, inputs, facts, records).Ok?
    requires AllInTurn(ScopeOf(g), GraphRunCommits(g, inputs, facts, records).value)
    ensures Live(g, inputs).Ok? && Live(g, inputs).value.Some?
    ensures ReplayResult(g, EventsOf(inputs)) == Ok(Live(g, inputs).value.value.projection)
  {
    GraphCommitsInTurnIff(g, inputs, facts, records);
    var prior, c := LastGraphCommit(g, inputs, facts, records);
    ReplayAgreesIff(g, inputs);
  }

  // ---------------------------------------------------------------------- an example

  // One step that succeeds into itself.
  function SelfLoop(id: DefinitionId, version: DefinitionVersion, digest: ContentDigest, step: StepPlan, visits: NonZeroU32): ProcessGraphDefinition {
    ProcessGraphDefinition(id, version, digest, [step], step.stepId,
                           [GraphTransition(step.stepId, OnSucceeded, Some(step.stepId))], visits)
  }

  lemma SelfLoopIsValid(d: ProcessGraphDefinition, x: StepId)
    requires |d.steps| == 1 && d.steps[0].stepId == x == d.entryStepId
    requires d.transitions == [GraphTransition(x, OnSucceeded, Some(x))]
    ensures ValidGraph(d) && HasCycle(d)
  {
    assert IsPath(d, [x]) && Reaches(d, d.entryStepId, d.steps[0].stepId);
    assert Linked(d, x, x) by {
      assert d.transitions[0].fromStep == x;
    }
    assert IsCycle(d, [x, x]);
  }

  // With 4096 visits or more its run of 4096 visits and one lost outcome is
  // accepted input by input, and its events are refused.
  lemma SelfLoopOutgrowsReplay(g: Instance, step: StepPlan) returns (inputs: seq<GraphSagaInput>)
    requires g.definition == SelfLoop(g.definition.definitionId, g.definition.definitionVersion, g.definition.definitionDigest, step, g.definition.maxStepVisits)
    requires g.definition.maxStepVisits >= MAX_GRAPH_REPLAY_EVENTS
    ensures ValidGraph(g.definition) && |inputs| == MAX_GRAPH_REPLAY_EVENTS + 1 && Outgrows(g, inputs)
  {
    SelfLoopIsValid(g.definition, step.stepId);
    inputs := OutgrowingRun(g);
  }
}
