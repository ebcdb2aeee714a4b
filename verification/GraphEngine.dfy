// Deterministic execution and replay of bounded process graphs
// (crates/penelope-executor/src/graph.rs).
module GraphEngine {
  import opened Wrappers
  import opened Domain
  import opened TextOrder
  import opened SagaDefinition
  import opened GraphDefinition
  import L = LinearEngine

  const MAX_GRAPH_REPLAY_EVENTS: nat := 4096

  datatype GraphSagaProjection = GraphSagaProjection(
    scope: ProcessScope,
    currentStepId: Option<StepId>,
    stepVisits: u32,
    activeActionId: Option<ActionId>,
    issuedActionIds: seq<ActionId>,
    status: L.SagaStatus)

  datatype GraphSagaInput =
    | Start(inputId: InputId, actionId: ActionId)
    | Observe(inputId: InputId, observation: L.ActionResultObservation, nextActionId: Option<ActionId>)

  datatype GraphSagaEvent =
    | Started(inputId: InputId, actionId: ActionId)
    | Observed(inputId: InputId, observation: L.ActionResultObservation, nextActionId: Option<ActionId>)

  datatype GraphSagaEventEnvelope = GraphSagaEventEnvelope(sequence: u64, event: GraphSagaEvent)

  datatype GraphEngineError =
    | InvalidDefinition(source: GraphDefinitionError)
    | AlreadyStarted | NotRunning | ActionMismatch | DuplicateInput | ActionIdentityMismatch
    | DuplicateActionId | MissingTransition | VisitLimitExceeded | SequenceMismatch | ReplayLimitExceeded

  datatype GraphSagaDecision = GraphSagaDecision(
    projection: GraphSagaProjection,
    nextAction: Option<ProcessAction>,
    event: GraphSagaEvent)

  type Decided = Result<GraphSagaDecision, GraphEngineError>

  // A graph definition bound to the tenant and process that run it.
  datatype Instance = Instance(definition: ProcessGraphDefinition, tenantId: TenantId, processId: ProcessId)

  function ScopeOf(g: Instance): ProcessScope {
    ProcessScope(g.tenantId, g.processId, g.definition.definitionId,
                 g.definition.definitionVersion, g.definition.definitionDigest)
  }

  function EventOf(input: GraphSagaInput): GraphSagaEvent {
    match input
    case Start(inputId, actionId) => Started(inputId, actionId)
    case Observe(inputId, observation, next) => Observed(inputId, observation, next)
  }

  // ------------------------------------------------------------------ transitions

  // `iter().find` over the declared steps.
  function FindStep(steps: seq<StepPlan>, id: StepId): (found: Option<StepPlan>)
    ensures found.Some? ==> found.value in steps && found.value.stepId == id
    ensures found.None? ==> forall i :: 0 <= i < |steps| ==> steps[i].stepId != id
  {
    if steps == [] then None
    else if steps[0].stepId == id then Some(steps[0])
    else FindStep(steps[1..], id)
  }

  // `iter().find` over the edges: the first with this source and outcome.
  function FindEdge(edges: seq<GraphTransition>, from: StepId, on: GraphTransitionOutcome): (found: Option<GraphTransition>)
    ensures found.Some? ==> found.value in edges && found.value.fromStep == from && found.value.on == on
    ensures found.None? ==> forall e :: e in edges ==> e.fromStep != from || e.on != on
  {
    if edges == [] then None
    else if edges[0].fromStep == from && edges[0].on == on then Some(edges[0])
    else
      assert edges == [edges[0]] + edges[1..];
      FindEdge(edges[1..], from, on)
  }

  function ActionFor(steps: seq<StepPlan>, scope: ProcessScope, stepId: StepId, actionId: ActionId, visit: u32)
    : Result<ProcessAction, GraphEngineError>
  {
    var step := FindStep(steps, stepId);
    if step.None? then Err(ActionIdentityMismatch)
    else Ok(ProcessAction(scope, actionId, step.value.stepId, if visit == 0 then 0 else visit - 1,
                          step.value.actionKind, step.value.payloadDigest))
  }

  function TransitionOutcome(result: L.ActionResult): GraphTransitionOutcome {
    match result
    case Succeeded => OnSucceeded
    case RetryableFailure => OnRetryableFailure
    case TerminalFailure => OnTerminalFailure
    case Unknown => OnTerminalFailure
  }

  function EnsureNewAction(p: GraphSagaProjection, next: Option<ActionId>): Result<ActionId, GraphEngineError> {
    if next.None? then Err(ActionIdentityMismatch)
    else if next.value in p.issuedActionIds then Err(DuplicateActionId)
    else Ok(next.value)
  }

  function Inactive(p: GraphSagaProjection): GraphSagaProjection {
    p.(currentStepId := None, activeActionId := None)
  }

  // The source validates the definition at every call; `verdict` is its result.
  function StartGiven(verdict: Result<(), GraphDefinitionError>, g: Instance, input: GraphSagaInput): Decided {
    if verdict.Err? then Err(InvalidDefinition(verdict.error))
    else if !input.Start? then Err(AlreadyStarted)
    else
      var d := g.definition;
      var action :- ActionFor(d.steps, ScopeOf(g), d.entryStepId, input.actionId, 1);
      Ok(GraphSagaDecision(
           GraphSagaProjection(ScopeOf(g), Some(d.entryStepId), 1, Some(input.actionId), [input.actionId], L.Running),
           Some(action), Started(input.inputId, input.actionId)))
  }

  function Follow(steps: seq<StepPlan>, maxStepVisits: NonZeroU32, p: GraphSagaProjection, edge: GraphTransition, input: GraphSagaInput)
    : Decided
    requires input.Observe?
  {
    var event := Observed(input.inputId, input.observation, input.nextActionId);
    match edge.toStep
    case Some(target) =>
      var actionId :- EnsureNewAction(p, input.nextActionId);
      if p.stepVisits == U32_MAX then Err(VisitLimitExceeded)
      else if p.stepVisits + 1 > maxStepVisits then Err(VisitLimitExceeded)
      else
        var action :- ActionFor(steps, p.scope, target, actionId, p.stepVisits + 1);
        Ok(GraphSagaDecision(
             p.(currentStepId := Some(target), stepVisits := p.stepVisits + 1, activeActionId := Some(actionId),
                issuedActionIds := p.issuedActionIds + [actionId]),
             Some(action), event))
    case None =>
      if input.nextActionId.Some? then Err(ActionIdentityMismatch)
      else
        var status := if input.observation.result == L.Succeeded then L.Completed else L.Escalated;
        Ok(GraphSagaDecision(Inactive(p).(status := status), None, event))
  }

  function ApplyGiven(verdict: Result<(), GraphDefinitionError>, g: Instance, p: GraphSagaProjection, input: GraphSagaInput): Decided {
    if verdict.Err? then Err(InvalidDefinition(verdict.error))
    else if !input.Observe? then Err(NotRunning)
    else if p.status != L.Running then Err(NotRunning)
    else if p.activeActionId != Some(input.observation.actionId) then Err(ActionMismatch)
    else if p.currentStepId.None? then Err(NotRunning)
    else if input.observation.result == L.Unknown then
      if input.nextActionId.Some? then Err(ActionIdentityMismatch)
      else Ok(GraphSagaDecision(Inactive(p).(status := L.Escalated), None,
                                Observed(input.inputId, input.observation, input.nextActionId)))
    else
      var edge := FindEdge(g.definition.transitions, p.currentStepId.value, TransitionOutcome(input.observation.result));
      if edge.None? then Err(MissingTransition) else Follow(g.definition.steps, g.definition.maxStepVisits, p, edge.value, input)
  }

  ghost function StartGraph(g: Instance, input: GraphSagaInput): Decided {
    StartGiven(Verdict(g.definition), g, input)
  }

  ghost function ApplyGraphResult(g: Instance, p: GraphSagaProjection, input: GraphSagaInput): Decided {
    ApplyGiven(Verdict(g.definition), g, p, input)
  }

  // ------------------------------------------------------------------------- runs

  ghost function Decide(g: Instance, prior: Option<GraphSagaDecision>, input: GraphSagaInput): Decided {
    match prior
    case None => StartGraph(g, input)
    case Some(decision) => ApplyGraphResult(g, decision.projection, input)
  }

  ghost function Live(g: Instance, inputs: seq<GraphSagaInput>): Result<Option<GraphSagaDecision>, GraphEngineError> {
    if inputs == [] then Ok(None)
    else
      var prior :- Live(g, inputs[..|inputs| - 1]);
      var decision :- Decide(g, prior, inputs[|inputs| - 1]);
      Ok(Some(decision))
  }

  // -------------------------------------------------------------------- invariants

  ghost predicate Consistent(g: Instance, decision: GraphSagaDecision) {
    var d, p := g.definition, decision.projection;
    && ValidGraph(d) && p.scope == ScopeOf(g)
    && Distinct(p.issuedActionIds)
    && 1 <= p.stepVisits == |p.issuedActionIds| <= d.maxStepVisits
    && p.status in {L.Running, L.Completed, L.Escalated}
    && (p.status == L.Running <==> p.activeActionId.Some?)
    && (p.status == L.Running <==> p.currentStepId.Some?)
    && (p.status == L.Running ==>
          && p.activeActionId.value == p.issuedActionIds[|p.issuedActionIds| - 1]
          && ActionFor(d.steps, p.scope, p.currentStepId.value, p.activeActionId.value, p.stepVisits).Ok?
          && decision.nextAction == Some(ActionFor(d.steps, p.scope, p.currentStepId.value, p.activeActionId.value, p.stepVisits).value))
    && (p.status != L.Running ==> decision.nextAction == None)
  }

  // An edge leaves the step under the label of the result: success, retryable
  // failure or terminal failure. An unknown outcome has no label.
  predicate HasEdge(d: ProcessGraphDefinition, x: StepId, result: L.ActionResult, to: Option<StepId>) {
    match result
    case Succeeded => GraphTransition(x, OnSucceeded, to) in d.transitions
    case RetryableFailure => GraphTransition(x, OnRetryableFailure, to) in d.transitions
    case TerminalFailure => GraphTransition(x, OnTerminalFailure, to) in d.transitions
    case Unknown => false
  }

  // Input i + 1 took the walk from visit i to visit i + 1, along an edge labelled
  // by the result it observed.
  ghost predicate TookEdge(g: Instance, inputs: seq<GraphSagaInput>, visited: seq<StepId>, issued: seq<ActionId>, i: nat)
    requires i + 1 < |visited| == |issued| <= |inputs|
  {
    var input := inputs[i + 1];
    && input.Observe?
    && input.observation.actionId == issued[i]
    && input.nextActionId == Some(issued[i + 1])
    && HasEdge(g.definition, visited[i], input.observation.result, Some(visited[i + 1]))
  }

  // `visited` is a walk from the entry along edges labelled by the observed
  // results; each visit ran under its own issued action.
  ghost predicate Walked(g: Instance, inputs: seq<GraphSagaInput>, visited: seq<StepId>, issued: seq<ActionId>) {
    && 1 <= |visited| == |issued| <= |inputs|
    && visited[0] == g.definition.entryStepId
    && inputs[0].Start? && inputs[0].actionId == issued[0]
    && forall i: nat :: i + 1 < |visited| ==> TookEdge(g, inputs, visited, issued, i)
  }

  lemma StartIsConsistent(g: Instance, input: GraphSagaInput, decision: GraphSagaDecision)
    requires StartGraph(g, input) == Ok(decision)
    ensures Consistent(g, decision) && decision.projection.status == L.Running
    ensures decision.event == EventOf(input)
    ensures decision.projection.currentStepId == Some(g.definition.entryStepId)
    ensures input.Start? && decision.projection.issuedActionIds == [input.actionId]
  {
  }

  // The edge a running projection follows, or that it stops.
  ghost predicate Steps(g: Instance, p: GraphSagaProjection, input: GraphSagaInput, q: GraphSagaProjection) {
    && input.Observe? && p.status == L.Running && p.currentStepId.Some?
    && p.activeActionId == Some(input.observation.actionId)
    && (if q.status == L.Running
        then && q.currentStepId.Some? && input.nextActionId.Some?
             && q.issuedActionIds == p.issuedActionIds + [input.nextActionId.value]
             && HasEdge(g.definition, p.currentStepId.value, input.observation.result, q.currentStepId)
        else q.issuedActionIds == p.issuedActionIds)
  }

  lemma FollowIsConsistent(g: Instance, prior: GraphSagaDecision, edge: GraphTransition, input: GraphSagaInput, decision: GraphSagaDecision)
    requires Consistent(g, prior) && prior.projection.status == L.Running && input.Observe?
    requires prior.projection.activeActionId == Some(input.observation.actionId)
    requires Follow(g.definition.steps, g.definition.maxStepVisits, prior.projection, edge, input) == Ok(decision)
    requires edge in g.definition.transitions && edge.fromStep == prior.projection.currentStepId.value
    requires edge.on == TransitionOutcome(input.observation.result) && input.observation.result != L.Unknown
    ensures Consistent(g, decision)
    ensures Steps(g, prior.projection, input, decision.projection)
    ensures decision.event == EventOf(input)
  {
    if edge.toStep.Some? {
      FreshStaysDistinct(prior.projection.issuedActionIds, input.nextActionId.value);
      assert edge == GraphTransition(edge.fromStep, edge.on, edge.toStep);
    }
  }

  lemma ApplyIsConsistent(g: Instance, prior: GraphSagaDecision, input: GraphSagaInput, decision: GraphSagaDecision)
    requires Consistent(g, prior) && ApplyGraphResult(g, prior.projection, input) == Ok(decision)
    ensures Consistent(g, decision)
    ensures Steps(g, prior.projection, input, decision.projection)
    ensures decision.event == EventOf(input)
  {
    if input.observation.result != L.Unknown {
      var edge := FindEdge(g.definition.transitions, prior.projection.currentStepId.value,
                           TransitionOutcome(input.observation.result));
      FollowIsConsistent(g, prior, edge.value, input, decision);
    }
  }

  lemma FreshStaysDistinct(issued: seq<ActionId>, id: ActionId)
    requires Distinct(issued) && id !in issued
    ensures Distinct(issued + [id])
  {
  }

  lemma LastStep(g: Instance, inputs: seq<GraphSagaInput>, decision: GraphSagaDecision) returns (prior: Option<GraphSagaDecision>)
    requires Live(g, inputs) == Ok(Some(decision))
    ensures inputs != [] && Live(g, inputs[..|inputs| - 1]) == Ok(prior)
    ensures Decide(g, prior, inputs[|inputs| - 1]) == Ok(decision)
    ensures prior.None? <==> |inputs| == 1
  {
    prior := Live(g, inputs[..|inputs| - 1]).value;
  }

  // Every reachable projection is consistent, and its steps form a walk.
  lemma {:induction false} RunsAreWalks(g: Instance, inputs: seq<GraphSagaInput>, decision: GraphSagaDecision)
    returns (visited: seq<StepId>)
    requires Live(g, inputs) == Ok(Some(decision))
    ensures Consistent(g, decision)
    ensures Walked(g, inputs, visited, decision.projection.issuedActionIds)
    ensures if decision.projection.status == L.Running
            then |inputs| == |visited| && decision.projection.currentStepId == Some(visited[|visited| - 1])
            else |inputs| == |visited| + 1
  {
    var prior := LastStep(g, inputs, decision);
    var before, input := inputs[..|inputs| - 1], inputs[|inputs| - 1];
    if prior.None? {
      StartIsConsistent(g, input, decision);
      visited := [g.definition.entryStepId];
      StartWalks(g, inputs, input.actionId);
    } else {
      visited := RunsAreWalks(g, before, prior.value);
      ApplyIsConsistent(g, prior.value, input, decision);
      if decision.projection.status == L.Running {
        WalkGrows(g, inputs, visited, prior.value.projection, decision.projection);
        visited := visited + [decision.projection.currentStepId.value];
      } else {
        WalkKeeps(g, inputs, visited, prior.value.projection.issuedActionIds);
      }
    }
  }

  lemma StartWalks(g: Instance, inputs: seq<GraphSagaInput>, actionId: ActionId)
    requires inputs != [] && inputs[0].Start? && inputs[0].actionId == actionId
    ensures Walked(g, inputs, [g.definition.entryStepId], [actionId])
  {
  }

  lemma WalkKeeps(g: Instance, inputs: seq<GraphSagaInput>, visited: seq<StepId>, issued: seq<ActionId>)
    requires inputs != [] && Walked(g, inputs[..|inputs| - 1], visited, issued)
    ensures Walked(g, inputs, visited, issued)
  {
    forall i: nat | i + 1 < |visited| ensures TookEdge(g, inputs, visited, issued, i) {
      assert TookEdge(g, inputs[..|inputs| - 1], visited, issued, i);
    }
  }

  lemma WalkGrows(g: Instance, inputs: seq<GraphSagaInput>, visited: seq<StepId>, p: GraphSagaProjection, q: GraphSagaProjection)
    requires inputs != [] && Walked(g, inputs[..|inputs| - 1], visited, p.issuedActionIds)
    requires |inputs| - 1 == |visited| && p.currentStepId == Some(visited[|visited| - 1])
    requires p.activeActionId == Some(p.issuedActionIds[|p.issuedActionIds| - 1])
    requires q.status == L.Running && Steps(g, p, inputs[|inputs| - 1], q)
    ensures Walked(g, inputs, visited + [q.currentStepId.value], q.issuedActionIds)
  {
    var longer := visited + [q.currentStepId.value];
    forall i: nat | i + 1 < |longer| ensures TookEdge(g, inputs, longer, q.issuedActionIds, i) {
      if i + 1 < |visited| {
        assert TookEdge(g, inputs[..|inputs| - 1], visited, p.issuedActionIds, i);
      }
    }
  }

  // A graph run accepts one start, at most one input per visit, and nothing
  // once it has stopped.
  lemma GraphRunsAreBounded(g: Instance, inputs: seq<GraphSagaInput>, decision: GraphSagaDecision, input: GraphSagaInput)
    requires Live(g, inputs) == Ok(Some(decision))
    ensures decision.projection.stepVisits == |decision.projection.issuedActionIds| <= g.definition.maxStepVisits
    ensures |inputs| <= 1 + decision.projection.stepVisits <= 1 + g.definition.maxStepVisits
    ensures decision.projection.status != L.Running ==> Decide(g, Some(decision), input) == Err(NotRunning)
  {
    var visited := RunsAreWalks(g, inputs, decision);
  }

  lemma EdgeLinksSteps(d: ProcessGraphDefinition, x: StepId, result: L.ActionResult, y: StepId)
    requires HasEdge(d, x, result, Some(y))
    ensures Linked(d, x, y)
  {
    var k :| 0 <= k < |d.transitions| && d.transitions[k].fromStep == x && d.transitions[k].toStep == Some(y);
  }

  // Every visited step is one that validation found reachable from the entry.
  lemma {:induction false} WalkIsPath(g: Instance, inputs: seq<GraphSagaInput>, visited: seq<StepId>, issued: seq<ActionId>)
    requires Walked(g, inputs, visited, issued)
    ensures IsPath(g.definition, visited)
  {
    forall i | 0 <= i < |visited| - 1 ensures Linked(g.definition, visited[i], visited[i + 1]) {
      assert TookEdge(g, inputs, visited, issued, i);
      EdgeLinksSteps(g.definition, visited[i], inputs[i + 1].observation.result, visited[i + 1]);
    }
  }

  // -------------------------------------------------------- edge order is immaterial

  lemma UniqueKeysPermute(a: seq<GraphTransition>, b: seq<GraphTransition>)
    requires multiset(a) == multiset(b) && UniqueKeys(a)
    ensures UniqueKeys(b)
  {
    forall i, j | 0 <= i < j < |b| ensures b[i].fromStep != b[j].fromStep || b[i].on != b[j].on {
      if b[i] == b[j] {
        RepeatCountsTwice(b, i, j);
        assert Distinct(a);
        var k :| 0 <= k < |a| && a[k] == b[i];
        SingleCountsOne(a, k);
      } else {
        assert b[i] in multiset(a) && b[j] in multiset(a);
        var k :| 0 <= k < |a| && a[k] == b[i];
        var l :| 0 <= l < |a| && a[l] == b[j];
        assert k < l || l < k;
      }
    }
  }

  lemma SameEdges(a: seq<GraphTransition>, b: seq<GraphTransition>, e: GraphTransition)
    requires multiset(a) == multiset(b)
    ensures e in a <==> e in b
  {
    assert e in a <==> e in multiset(a);
    assert e in b <==> e in multiset(b);
  }

  lemma KeyNamesEdge(edges: seq<GraphTransition>, x: GraphTransition, y: GraphTransition)
    requires UniqueKeys(edges) && x in edges && y in edges
    ensures SameEdgeKey(x, y) ==> x == y
  {
    var k :| 0 <= k < |edges| && edges[k] == x;
    var l :| 0 <= l < |edges| && edges[l] == y;
  }

  // With unique keys, the first edge found is the only one there is.
  lemma FindEdgePermutes(a: seq<GraphTransition>, b: seq<GraphTransition>, from: StepId, on: GraphTransitionOutcome)
    requires multiset(a) == multiset(b) && UniqueKeys(a)
    ensures FindEdge(a, from, on) == FindEdge(b, from, on)
  {
    var x, y := FindEdge(a, from, on), FindEdge(b, from, on);
    if x.Some? {
      SameEdges(a, b, x.value);
    }
    if y.Some? {
      SameEdges(a, b, y.value);
    }
    if x.Some? && y.Some? {
      KeyNamesEdge(a, x.value, y.value);
    }
  }

  lemma LinkedPermutes(d: ProcessGraphDefinition, edges: seq<GraphTransition>, a: StepId, b: StepId)
    requires multiset(edges) == multiset(d.transitions) && Linked(d, a, b)
    ensures Linked(d.(transitions := edges), a, b)
  {
    var i :| 0 <= i < |d.transitions| && d.transitions[i].fromStep == a && d.transitions[i].toStep == Some(b);
    SameEdges(d.transitions, edges, d.transitions[i]);
    var j :| 0 <= j < |edges| && edges[j] == d.transitions[i];
  }

  lemma ReachesPermutes(d: ProcessGraphDefinition, edges: seq<GraphTransition>, a: StepId, b: StepId)
    requires multiset(edges) == multiset(d.transitions) && Reaches(d, a, b)
    ensures Reaches(d.(transitions := edges), a, b)
  {
    var path :| IsPath(d, path) && path[0] == a && path[|path| - 1] == b;
    forall i | 0 <= i < |path| - 1 ensures Linked(d.(transitions := edges), path[i], path[i + 1]) {
      LinkedPermutes(d, edges, path[i], path[i + 1]);
    }
    assert IsPath(d.(transitions := edges), path);
  }

  lemma ValidGraphPermutes(d: ProcessGraphDefinition, edges: seq<GraphTransition>)
    requires multiset(edges) == multiset(d.transitions) && ValidGraph(d)
    ensures ValidGraph(d.(transitions := edges))
  {
    var e := d.(transitions := edges);
    SameCount(edges, d.transitions);
    UniqueKeysPermute(d.transitions, edges);
    forall i | 0 <= i < |edges|
      ensures Declared(e, edges[i].fromStep)
      ensures edges[i].toStep.Some? ==> Declared(e, edges[i].toStep.value)
      ensures edges[i].on == OnRetryableFailure ==> edges[i].toStep.Some?
    {
      SameEdges(d.transitions, edges, edges[i]);
      var j :| 0 <= j < |d.transitions| && d.transitions[j] == edges[i];
    }
    forall i | 0 <= i < |e.steps| ensures Reaches(e, e.entryStepId, e.steps[i].stepId) {
      ReachesPermutes(d, edges, d.entryStepId, d.steps[i].stepId);
    }
  }

  lemma ApplyPermutes(verdict: Result<(), GraphDefinitionError>, g: Instance, h: Instance, p: GraphSagaProjection, input: GraphSagaInput)
    requires h.definition == g.definition.(transitions := h.definition.transitions)
    requires multiset(h.definition.transitions) == multiset(g.definition.transitions) && UniqueKeys(g.definition.transitions)
    ensures ApplyGiven(verdict, h, p, input) == ApplyGiven(verdict, g, p, input)
  {
    if input.Observe? && p.currentStepId.Some? {
      FindEdgePermutes(g.definition.transitions, h.definition.transitions, p.currentStepId.value,
                       TransitionOutcome(input.observation.result));
    }
  }

  function WithEdges(g: Instance, edges: seq<GraphTransition>): Instance {
    g.(definition := g.definition.(transitions := edges))
  }

  lemma VerdictPermutes(g: Instance, edges: seq<GraphTransition>)
    requires ValidGraph(g.definition) && multiset(edges) == multiset(g.definition.transitions)
    ensures Verdict(WithEdges(g, edges).definition) == Verdict(g.definition) == Ok(())
    ensures UniqueKeys(g.definition.transitions)
  {
    ValidGraphPermutes(g.definition, edges);
  }

  // Listing the same edges in another order changes no decision of a valid graph.
  lemma EdgeOrderIsImmaterial(g: Instance, edges: seq<GraphTransition>, prior: Option<GraphSagaDecision>, input: GraphSagaInput)
    requires ValidGraph(g.definition) && multiset(edges) == multiset(g.definition.transitions)
    ensures Decide(WithEdges(g, edges), prior, input) == Decide(g, prior, input)
  {
    VerdictPermutes(g, edges);
    if prior.Some? {
      ApplyPermutes(Ok(()), g, WithEdges(g, edges), prior.value.projection, input);
    }
  }

  // Nor does it change any run.
  lemma {:induction false} EdgeOrderKeepsRuns(g: Instance, edges: seq<GraphTransition>, inputs: seq<GraphSagaInput>)
    requires ValidGraph(g.definition) && multiset(edges) == multiset(g.definition.transitions)
    ensures Live(WithEdges(g, edges), inputs) == Live(g, inputs)
  {
    if inputs != [] {
      var before := inputs[..|inputs| - 1];
      EdgeOrderKeepsRuns(g, edges, before);
      if Live(g, before).Ok? {
        EdgeOrderIsImmaterial(g, edges, Live(g, before).value, inputs[|inputs| - 1]);
      }
    }
  }
}
