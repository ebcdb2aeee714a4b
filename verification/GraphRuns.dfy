// Which paths of a valid graph are runs, and what the bounds on visits and on
// replayed events cut off (crates/penelope-executor/src/graph.rs).
module GraphRuns {
  import opened Wrappers
  import opened Domain
  import opened TextOrder
  import opened SagaDefinition
  import opened Identifiers
  import opened GraphDefinition
  import opened GraphPaths
  import opened GraphEngine
  import opened GraphReplay
  import L = LinearEngine

  // ---------------------------------------------------------------- paths as runs

  ghost predicate Labelled(inputs: seq<GraphSagaInput>) {
    |inputs| <= ID_LIMIT && forall i :: 0 <= i < |inputs| ==> inputs[i].inputId == NthInput(i)
  }

  lemma LabelledIsDistinct(inputs: seq<GraphSagaInput>)
    requires Labelled(inputs)
    ensures DistinctInputIds(inputs)
  {
    forall i, j | 0 <= i < j < |inputs| ensures inputs[i].inputId != inputs[j].inputId {
      NthTextsDiffer(INPUT_KIND, i, j);
    }
  }

  lemma LabelledGrows(inputs: seq<GraphSagaInput>, input: GraphSagaInput)
    requires Labelled(inputs) && |inputs| < ID_LIMIT && input.inputId == NthInput(|inputs|)
    ensures Labelled(inputs + [input])
  {
  }

  // A run is at this step on its m-th visit, counted from zero.
  ghost predicate AtVisit(g: Instance, inputs: seq<GraphSagaInput>, decision: GraphSagaDecision, x: StepId, m: nat) {
    && |inputs| == m + 1 <= ID_LIMIT && Labelled(inputs) && Live(g, inputs) == Ok(Some(decision))
    && decision.projection.status == L.Running && decision.projection.currentStepId == Some(x)
    && decision.projection.stepVisits == m + 1 && decision.projection.activeActionId == Some(NthId(m))
    && decision.projection.issuedActionIds == NthIds(m + 1)
  }

  function ResultFor(on: GraphTransitionOutcome): (result: L.ActionResult)
    ensures TransitionOutcome(result) == on && result != L.Unknown
  {
    match on
    case OnSucceeded => L.Succeeded
    case OnRetryableFailure => L.RetryableFailure
    case OnTerminalFailure => L.TerminalFailure
  }

  // The result of the m-th action, offering this next identity.
  function Report(m: nat, result: L.ActionResult, next: Option<ActionId>): GraphSagaInput
    requires m + 1 < ID_LIMIT
  {
    Observe(NthInput(m + 1), L.ActionResultObservation(NthId(m), result), next)
  }

  lemma EdgeIsFound(d: ProcessGraphDefinition, edge: GraphTransition)
    requires ValidGraph(d) && edge in d.transitions
    ensures FindEdge(d.transitions, edge.fromStep, edge.on) == Some(edge)
  {
    KeyNamesEdge(d.transitions, edge, FindEdge(d.transitions, edge.fromStep, edge.on).value);
  }

  lemma EndsAreDeclared(d: ProcessGraphDefinition, edge: GraphTransition)
    requires ValidGraph(d) && edge in d.transitions
    ensures Declared(d, edge.fromStep) && (edge.toStep.Some? ==> Declared(d, edge.toStep.value))
  {
    var i :| 0 <= i < |d.transitions| && d.transitions[i] == edge;
  }

  lemma DeclaredIsFound(d: ProcessGraphDefinition, id: StepId)
    requires Declared(d, id)
    ensures FindStep(d.steps, id).Some?
  {
  }

  lemma FollowDecision(verdict: Result<(), GraphDefinitionError>, g: Instance, p: GraphSagaProjection, edge: GraphTransition, y: StepId, m: nat)
    requires verdict.Ok? && p.status == L.Running && p.currentStepId == Some(edge.fromStep) && m + 1 < ID_LIMIT
    requires p.stepVisits == m + 1 < g.definition.maxStepVisits && p.activeActionId == Some(NthId(m))
    requires NthId(m + 1) !in p.issuedActionIds && edge.toStep == Some(y) && FindStep(g.definition.steps, y).Some?
    requires FindEdge(g.definition.transitions, edge.fromStep, edge.on) == Some(edge)
    ensures var r := ApplyGiven(verdict, g, p, Report(m, ResultFor(edge.on), Some(NthId(m + 1))));
      && r.Ok? && r.value.projection.status == L.Running && r.value.projection.currentStepId == Some(y)
      && r.value.projection.stepVisits == m + 2 && r.value.projection.activeActionId == Some(NthId(m + 1))
      && r.value.projection.issuedActionIds == p.issuedActionIds + [NthId(m + 1)]
  {
  }

  lemma LiveExtends(g: Instance, inputs: seq<GraphSagaInput>, decision: GraphSagaDecision, input: GraphSagaInput)
    requires Live(g, inputs) == Ok(Some(decision))
    ensures Live(g, inputs + [input])
         == match Decide(g, Some(decision), input) case Ok(next) => Ok(Some(next)) case Err(e) => Err(e)
  {
    assert (inputs + [input])[..|inputs|] == inputs;
  }

  // The next visit of a projection.
  predicate Visits(p: GraphSagaProjection, y: StepId, m: nat, issued: seq<ActionId>)
    requires m < ID_LIMIT
  {
    && p.status == L.Running && p.currentStepId == Some(y) && p.stepVisits == m + 1
    && p.activeActionId == Some(NthId(m)) && p.issuedActionIds == issued + [NthId(m)]
  }

  lemma EdgeDecision(g: Instance, decision: GraphSagaDecision, edge: GraphTransition, y: StepId, m: nat)
    requires ValidGraph(g.definition) && edge in g.definition.transitions && edge.toStep == Some(y) && m + 1 < ID_LIMIT
    requires var p := decision.projection;
      && p.status == L.Running && p.currentStepId == Some(edge.fromStep) && p.activeActionId == Some(NthId(m))
      && p.stepVisits == m + 1 < g.definition.maxStepVisits && NthId(m + 1) !in p.issuedActionIds
    ensures var r := Decide(g, Some(decision), Report(m, ResultFor(edge.on), Some(NthId(m + 1))));
      r.Ok? && Visits(r.value.projection, y, m + 1, decision.projection.issuedActionIds)
  {
    EdgeIsFound(g.definition, edge);
    EndsAreDeclared(g.definition, edge);
    DeclaredIsFound(g.definition, y);
    FollowDecision(Verdict(g.definition), g, decision.projection, edge, y, m);
  }

  lemma EdgeIsTaken(g: Instance, inputs: seq<GraphSagaInput>, decision: GraphSagaDecision, edge: GraphTransition, y: StepId, m: nat)
    returns (next: GraphSagaDecision)
    requires ValidGraph(g.definition) && edge in g.definition.transitions && edge.toStep == Some(y) && m + 1 < ID_LIMIT
    requires AtVisit(g, inputs, decision, edge.fromStep, m) && m + 1 < g.definition.maxStepVisits
    ensures Live(g, inputs + [Report(m, ResultFor(edge.on), Some(NthId(m + 1)))]) == Ok(Some(next))
    ensures Visits(next.projection, y, m + 1, NthIds(m + 1))
  {
    FreshNthId(decision.projection.issuedActionIds, m + 1);
    EdgeDecision(g, decision, edge, y, m);
    var input := Report(m, ResultFor(edge.on), Some(NthId(m + 1)));
    LiveExtends(g, inputs, decision, input);
    next := Decide(g, Some(decision), input).value;
  }

  lemma ReportGrows(inputs: seq<GraphSagaInput>, m: nat, result: L.ActionResult, next: Option<ActionId>)
    requires Labelled(inputs) && |inputs| == m + 1 < ID_LIMIT
    ensures Labelled(inputs + [Report(m, result, next)])
  {
    LabelledGrows(inputs, Report(m, result, next));
  }

  lemma ReportIsTaken(g: Instance, inputs: seq<GraphSagaInput>, decision: GraphSagaDecision, edge: GraphTransition, y: StepId, m: nat)
    returns (more: seq<GraphSagaInput>, next: GraphSagaDecision)
    requires ValidGraph(g.definition) && edge in g.definition.transitions && edge.toStep == Some(y) && m + 1 < ID_LIMIT
    requires AtVisit(g, inputs, decision, edge.fromStep, m) && m + 1 < g.definition.maxStepVisits
    ensures |more| == m + 2 && Labelled(more) && Live(g, more) == Ok(Some(next))
    ensures Visits(next.projection, y, m + 1, NthIds(m + 1))
  {
    next := EdgeIsTaken(g, inputs, decision, edge, y, m);
    more := inputs + [Report(m, ResultFor(edge.on), Some(NthId(m + 1)))];
    ReportGrows(inputs, m, ResultFor(edge.on), Some(NthId(m + 1)));
  }

  // A run goes on along any edge, within the bound.
  lemma VisitNext(g: Instance, inputs: seq<GraphSagaInput>, decision: GraphSagaDecision, edge: GraphTransition, y: StepId, m: nat)
    returns (more: seq<GraphSagaInput>, next: GraphSagaDecision)
    requires ValidGraph(g.definition) && AtVisit(g, inputs, decision, edge.fromStep, m)
    requires edge in g.definition.transitions && edge.toStep == Some(y) && m + 1 < g.definition.maxStepVisits && m + 1 < ID_LIMIT
    ensures AtVisit(g, more, next, y, m + 1)
  {
    more, next := ReportIsTaken(g, inputs, decision, edge, y, m);
    FreshNthId(NthIds(m + 1), m + 1);
  }

  lemma EntryIsRun(g: Instance) returns (inputs: seq<GraphSagaInput>, decision: GraphSagaDecision)
    requires ValidGraph(g.definition)
    ensures AtVisit(g, inputs, decision, g.definition.entryStepId, 0)
  {
    DeclaredIsFound(g.definition, g.definition.entryStepId);
    inputs := [Start(NthInput(0), NthId(0))];
    assert inputs[..0] == [];
    decision := StartGiven(Ok(()), g, inputs[0]).value;
  }

  lemma LinkHasEdge(d: ProcessGraphDefinition, a: StepId, b: StepId) returns (edge: GraphTransition)
    requires Linked(d, a, b)
    ensures edge in d.transitions && edge.fromStep == a && edge.toStep == Some(b)
  {
    var i :| 0 <= i < |d.transitions| && d.transitions[i].fromStep == a && d.transitions[i].toStep == Some(b);
    edge := d.transitions[i];
  }

  // Every path from the entry, within the visit bound, is walked by some accepted run.
  lemma {:induction false} PathIsRun(g: Instance, path: seq<StepId>) returns (inputs: seq<GraphSagaInput>, decision: GraphSagaDecision)
    requires ValidGraph(g.definition) && PathFromEntry(g.definition, path) && |path| <= g.definition.maxStepVisits
    ensures AtVisit(g, inputs, decision, path[|path| - 1], |path| - 1)
    decreases |path|
  {
    var n := |path| - 1;
    if n == 0 {
      inputs, decision := EntryIsRun(g);
    } else {
      PathPrefix(g.definition, path, n);
      var before, prior := PathIsRun(g, path[..n]);
      assert Linked(g.definition, path[n - 1], path[n]);
      var edge := LinkHasEdge(g.definition, path[n - 1], path[n]);
      inputs, decision := VisitNext(g, before, prior, edge, path[n], n - 1);
    }
  }

  // --------------------------------------------------------------- events to replay

  // The outcome of the active action is unknown, and the run escalates.
  lemma LostStops(g: Instance, inputs: seq<GraphSagaInput>, decision: GraphSagaDecision, x: StepId, m: nat)
    returns (more: seq<GraphSagaInput>, next: GraphSagaDecision)
    requires ValidGraph(g.definition) && AtVisit(g, inputs, decision, x, m) && m + 1 < ID_LIMIT
    ensures |more| == m + 2 && Labelled(more) && Live(g, more) == Ok(Some(next))
  {
    var input := Report(m, L.Unknown, None);
    LostDecision(Verdict(g.definition), g, decision.projection, x, m);
    LiveExtends(g, inputs, decision, input);
    ReportGrows(inputs, m, L.Unknown, None);
    more, next := inputs + [input], Decide(g, Some(decision), input).value;
  }

  lemma LostDecision(verdict: Result<(), GraphDefinitionError>, g: Instance, p: GraphSagaProjection, x: StepId, m: nat)
    requires verdict.Ok? && p.status == L.Running && p.currentStepId == Some(x) && m + 1 < ID_LIMIT
    requires p.activeActionId == Some(NthId(m))
    ensures ApplyGiven(verdict, g, p, Report(m, L.Unknown, None)).Ok?
  {
  }

  // An accepted run whose events cannot be replayed.
  ghost predicate Outgrows(g: Instance, inputs: seq<GraphSagaInput>) {
    && DistinctInputIds(inputs) && Live(g, inputs).Ok?
    && ReplayResult(g, EventsOf(inputs)) == Err(ReplayLimitExceeded)
  }

  lemma OutgrowingRun(g: Instance) returns (inputs: seq<GraphSagaInput>)
    requires ValidGraph(g.definition) && HasCycle(g.definition) && g.definition.maxStepVisits >= MAX_GRAPH_REPLAY_EVENTS
    ensures |inputs| == MAX_GRAPH_REPLAY_EVENTS + 1 && Outgrows(g, inputs)
  {
    CycleGivesLength(g.definition, MAX_GRAPH_REPLAY_EVENTS);
    var path :| PathFromEntry(g.definition, path) && |path| == MAX_GRAPH_REPLAY_EVENTS;
    var before, decision := PathIsRun(g, path);
    var next;
    inputs, next := LostStops(g, before, decision, path[|path| - 1], |path| - 1);
    LabelledIsDistinct(inputs);
  }

  // A valid graph has an accepted run that is too long to replay exactly when it
  // has a cycle and permits 4096 visits.
  lemma SomeRunOutgrowsReplayIff(g: Instance)
    requires ValidGraph(g.definition)
    ensures (exists inputs :: Outgrows(g, inputs))
       <==> HasCycle(g.definition) && g.definition.maxStepVisits >= MAX_GRAPH_REPLAY_EVENTS
  {
    if HasCycle(g.definition) && g.definition.maxStepVisits >= MAX_GRAPH_REPLAY_EVENTS {
      var inputs := OutgrowingRun(g);
    }
    if inputs :| Outgrows(g, inputs) {
      LongRunNeedsCycle(g, inputs);
    }
  }

  lemma LongRunNeedsCycle(g: Instance, inputs: seq<GraphSagaInput>)
    requires ValidGraph(g.definition) && Outgrows(g, inputs)
    ensures HasCycle(g.definition) && g.definition.maxStepVisits >= MAX_GRAPH_REPLAY_EVENTS
  {
    if |inputs| <= MAX_GRAPH_REPLAY_EVENTS {
      ReplayEqualsLive(g, inputs);
    }
    LiveIsDecided(g, inputs);
    var decision := Live(g, inputs).value.value;
    var visited := RunsAreWalks(g, inputs, decision);
    WalkIsPath(g, inputs, visited, decision.projection.issuedActionIds);
    LongPathRepeats(g.definition, visited);
  }
}
