// Which input a graph run accepts when, where it leads, and how runs end
// (crates/penelope-executor/src/graph.rs).
module GraphDecisions {
  import opened Wrappers
  import opened Domain
  import opened SagaDefinition
  import opened GraphDefinition
  import opened GraphEngine
  import L = LinearEngine

  // ------------------------------------------------------------------- one decision

  predicate Failed(result: L.ActionResult) {
    result == L.RetryableFailure || result == L.TerminalFailure
  }

  // A running graph at step `x` observes the result of its active action.
  predicate Observes(p: GraphSagaProjection, input: GraphSagaInput, x: StepId) {
    && p.status == L.Running && p.currentStepId == Some(x)
    && input.Observe? && p.activeActionId == Some(input.observation.actionId)
  }

  // An edge leads on to `y`, a visit is left, and the next identity is new.
  ghost predicate GoesOn(d: ProcessGraphDefinition, p: GraphSagaProjection, input: GraphSagaInput, x: StepId, y: StepId) {
    && Observes(p, input, x) && HasEdge(d, x, input.observation.result, Some(y))
    && p.stepVisits < d.maxStepVisits && input.nextActionId.Some? && input.nextActionId.value !in p.issuedActionIds
  }

  // The success of the step ends the process.
  ghost predicate Completes(d: ProcessGraphDefinition, p: GraphSagaProjection, input: GraphSagaInput, x: StepId) {
    && Observes(p, input, x) && input.nextActionId.None?
    && input.observation.result == L.Succeeded && GraphTransition(x, OnSucceeded, None) in d.transitions
  }

  // The outcome is unknown, or a failure ends the process.
  ghost predicate Escalates(d: ProcessGraphDefinition, p: GraphSagaProjection, input: GraphSagaInput, x: StepId) {
    && Observes(p, input, x) && input.nextActionId.None?
    && (input.observation.result == L.Unknown || (Failed(input.observation.result) && HasEdge(d, x, input.observation.result, None)))
  }

  // The step's declared effect, under the visit's number.
  ghost predicate PlansStep(g: Instance, decision: GraphSagaDecision, x: StepId) {
    exists k :: 0 <= k < |g.definition.steps| && g.definition.steps[k].stepId == x
      && decision.projection.activeActionId.Some? && decision.projection.stepVisits >= 1
      && decision.nextAction == Some(ProcessAction(
           ProcessScope(g.tenantId, g.processId, g.definition.definitionId, g.definition.definitionVersion, g.definition.definitionDigest),
           decision.projection.activeActionId.value, x, decision.projection.stepVisits - 1,
           g.definition.steps[k].actionKind, g.definition.steps[k].payloadDigest))
  }

  // The next visit, at `y` under the offered identity.
  predicate NextVisit(p: GraphSagaProjection, q: GraphSagaProjection, next: Option<ActionId>, y: StepId) {
    && q.status == L.Running && q.currentStepId == Some(y) && q.stepVisits == p.stepVisits + 1 && q.scope == p.scope
    && next.Some? && q.activeActionId == next && q.issuedActionIds == p.issuedActionIds + [next.value]
  }

  // The run is over.
  predicate Over(p: GraphSagaProjection, q: GraphSagaProjection, status: L.SagaStatus) {
    && q.status == status && q.currentStepId == None && q.activeActionId == None
    && q.stepVisits == p.stepVisits && q.issuedActionIds == p.issuedActionIds && q.scope == p.scope
  }

  lemma TheEdge(d: ProcessGraphDefinition, x: StepId, result: L.ActionResult) returns (edge: Option<GraphTransition>)
    requires UniqueKeys(d.transitions) && result != L.Unknown
    ensures edge == FindEdge(d.transitions, x, TransitionOutcome(result))
    ensures forall to :: HasEdge(d, x, result, to) <==> edge.Some? && edge.value.toStep == to
  {
    edge := FindEdge(d.transitions, x, TransitionOutcome(result));
    forall to ensures HasEdge(d, x, result, to) <==> edge.Some? && edge.value.toStep == to {
      var wanted := GraphTransition(x, TransitionOutcome(result), to);
      if edge.Some? && wanted in d.transitions {
        KeyNamesEdge(d.transitions, edge.value, wanted);
      }
    }
  }

  lemma TargetIsFound(d: ProcessGraphDefinition, edge: GraphTransition)
    requires ValidGraph(d) && edge in d.transitions && edge.toStep.Some?
    ensures FindStep(d.steps, edge.toStep.value).Some?
  {
    var i :| 0 <= i < |d.transitions| && d.transitions[i] == edge;
    assert Declared(d, d.transitions[i].toStep.value);
  }

  lemma KnownOutcome(g: Instance, p: GraphSagaProjection, input: GraphSagaInput, x: StepId, y: StepId, edge: Option<GraphTransition>)
    requires ValidGraph(g.definition) && Observes(p, input, x) && input.observation.result != L.Unknown
    requires edge == FindEdge(g.definition.transitions, x, TransitionOutcome(input.observation.result))
    requires forall to :: HasEdge(g.definition, x, input.observation.result, to) <==> edge.Some? && edge.value.toStep == to
    ensures GoesOn(g.definition, p, input, x, y) ==> ApplyGiven(Ok(()), g, p, input).Ok? && NextVisit(p, ApplyGiven(Ok(()), g, p, input).value.projection, input.nextActionId, y)
    ensures Completes(g.definition, p, input, x) ==> ApplyGiven(Ok(()), g, p, input).Ok? && Over(p, ApplyGiven(Ok(()), g, p, input).value.projection, L.Completed)
    ensures Escalates(g.definition, p, input, x) ==> ApplyGiven(Ok(()), g, p, input).Ok? && Over(p, ApplyGiven(Ok(()), g, p, input).value.projection, L.Escalated)
    ensures ApplyGiven(Ok(()), g, p, input).Ok? ==>
      || Completes(g.definition, p, input, x) || Escalates(g.definition, p, input, x)
      || (edge.Some? && edge.value.toStep.Some? && GoesOn(g.definition, p, input, x, edge.value.toStep.value))
  {
    if edge.Some? && edge.value.toStep.Some? {
      TargetIsFound(g.definition, edge.value);
    }
  }

  lemma LostOutcome(g: Instance, p: GraphSagaProjection, input: GraphSagaInput, x: StepId)
    requires Observes(p, input, x) && input.observation.result == L.Unknown
    ensures ApplyGiven(Ok(()), g, p, input).Ok? <==> Escalates(g.definition, p, input, x)
    ensures Escalates(g.definition, p, input, x) ==> Over(p, ApplyGiven(Ok(()), g, p, input).value.projection, L.Escalated)
  {
  }

  ghost predicate Accepts(d: ProcessGraphDefinition, p: GraphSagaProjection, input: GraphSagaInput) {
    exists x :: (exists y :: GoesOn(d, p, input, x, y)) || Completes(d, p, input, x) || Escalates(d, p, input, x)
  }

  lemma UnobservedIsRefused(g: Instance, p: GraphSagaProjection, input: GraphSagaInput)
    requires p.status == L.Running <==> p.currentStepId.Some?
    requires ApplyGiven(Ok(()), g, p, input).Ok?
    ensures p.currentStepId.Some? && Observes(p, input, p.currentStepId.value)
  {
  }

  // What a running graph does with the result of its active action at step `x`.
  lemma ObservedOutcome(g: Instance, p: GraphSagaProjection, input: GraphSagaInput, x: StepId)
    requires ValidGraph(g.definition) && Observes(p, input, x)
    ensures ApplyGiven(Ok(()), g, p, input).Ok? <==>
      (exists y :: GoesOn(g.definition, p, input, x, y)) || Completes(g.definition, p, input, x) || Escalates(g.definition, p, input, x)
    ensures forall y :: GoesOn(g.definition, p, input, x, y) ==> NextVisit(p, ApplyGiven(Ok(()), g, p, input).value.projection, input.nextActionId, y)
    ensures Completes(g.definition, p, input, x) ==> Over(p, ApplyGiven(Ok(()), g, p, input).value.projection, L.Completed)
    ensures Escalates(g.definition, p, input, x) ==> Over(p, ApplyGiven(Ok(()), g, p, input).value.projection, L.Escalated)
  {
    if input.observation.result == L.Unknown {
      LostOutcome(g, p, input, x);
    } else {
      var edge := TheEdge(g.definition, x, input.observation.result);
      forall y
        ensures GoesOn(g.definition, p, input, x, y) ==>
          ApplyGiven(Ok(()), g, p, input).Ok? && NextVisit(p, ApplyGiven(Ok(()), g, p, input).value.projection, input.nextActionId, y)
      {
        KnownOutcome(g, p, input, x, y, edge);
      }
      KnownOutcome(g, p, input, x, x, edge);
    }
  }

  lemma WorkPlansStep(g: Instance, decision: GraphSagaDecision)
    requires Consistent(g, decision) && decision.projection.status == L.Running
    ensures decision.projection.currentStepId.Some? && PlansStep(g, decision, decision.projection.currentStepId.value)
  {
    var x := decision.projection.currentStepId.value;
    var step := FindStep(g.definition.steps, x).value;
    var k :| 0 <= k < |g.definition.steps| && g.definition.steps[k] == step;
  }

  // The decision does what the situation calls for.
  ghost predicate Outcome(g: Instance, p: GraphSagaProjection, input: GraphSagaInput, decision: GraphSagaDecision) {
    && (forall x, y :: GoesOn(g.definition, p, input, x, y) ==>
          NextVisit(p, decision.projection, input.nextActionId, y) && PlansStep(g, decision, y))
    && (forall x :: Completes(g.definition, p, input, x) ==> Over(p, decision.projection, L.Completed) && decision.nextAction == None)
    && (forall x :: Escalates(g.definition, p, input, x) ==> Over(p, decision.projection, L.Escalated) && decision.nextAction == None)
  }

  lemma AcceptedOnlyIf(g: Instance, prior: GraphSagaDecision, input: GraphSagaInput, decision: GraphSagaDecision)
    requires Consistent(g, prior) && ApplyGiven(Ok(()), g, prior.projection, input) == Ok(decision)
    requires Consistent(g, decision)
    ensures Accepts(g.definition, prior.projection, input) && Outcome(g, prior.projection, input, decision)
  {
    UnobservedIsRefused(g, prior.projection, input);
    ObservedOutcome(g, prior.projection, input, prior.projection.currentStepId.value);
    if decision.projection.status == L.Running {
      WorkPlansStep(g, decision);
    }
  }

  lemma AcceptedIfCalled(g: Instance, p: GraphSagaProjection, input: GraphSagaInput)
    requires ValidGraph(g.definition) && Accepts(g.definition, p, input)
    ensures ApplyGiven(Ok(()), g, p, input).Ok?
  {
    ObservedOutcome(g, p, input, p.currentStepId.value);
  }

  // From a consistent decision an input is accepted exactly when it reports the
  // active action's result and the run can go on, is completed or escalates by it;
  // it then does just that.
  lemma AcceptedIff(g: Instance, prior: GraphSagaDecision, input: GraphSagaInput)
    requires Consistent(g, prior)
    ensures Decide(g, Some(prior), input).Ok? <==> Accepts(g.definition, prior.projection, input)
    ensures Decide(g, Some(prior), input).Ok? ==> Outcome(g, prior.projection, input, Decide(g, Some(prior), input).value)
  {
    var r := Decide(g, Some(prior), input);
    assert r == ApplyGiven(Ok(()), g, prior.projection, input);
    if r.Ok? {
      ApplyIsConsistent(g, prior, input, r.value);
      AcceptedOnlyIf(g, prior, input, r.value);
    }
    if Accepts(g.definition, prior.projection, input) {
      AcceptedIfCalled(g, prior.projection, input);
    }
  }

  // A graph starts exactly when it is valid: at its entry, on its first visit.
  lemma StartIff(g: Instance, id: InputId, actionId: ActionId)
    ensures var r := Decide(g, None, Start(id, actionId));
      && (r.Ok? <==> ValidGraph(g.definition))
      && (r.Ok? ==>
            && r.value.projection.status == L.Running && r.value.projection.currentStepId == Some(g.definition.entryStepId)
            && r.value.projection.stepVisits == 1 && r.value.projection.activeActionId == Some(actionId)
            && r.value.projection.issuedActionIds == [actionId] && PlansStep(g, r.value, g.definition.entryStepId))
  {
    var r := Decide(g, None, Start(id, actionId));
    if ValidGraph(g.definition) {
      var i :| 0 <= i < |g.definition.steps| && g.definition.steps[i].stepId == g.definition.entryStepId;
      assert FindStep(g.definition.steps, g.definition.entryStepId).Some?;
    }
    if r.Ok? {
      StartIsConsistent(g, Start(id, actionId), r.value);
      WorkPlansStep(g, r.value);
    }
  }

  // ---------------------------------------------------------------------- refusals

  // No edge carries the result.
  ghost predicate NoEdge(d: ProcessGraphDefinition, x: StepId, result: L.ActionResult) {
    forall to :: !HasEdge(d, x, result, to)
  }

  // The result ends the run.
  ghost predicate EndsRun(d: ProcessGraphDefinition, x: StepId, result: L.ActionResult) {
    result == L.Unknown || HasEdge(d, x, result, None)
  }

  ghost predicate LeadsOn(d: ProcessGraphDefinition, x: StepId, result: L.ActionResult) {
    exists y :: HasEdge(d, x, result, Some(y))
  }

  // What each refusal of a started run says about the input and the state.
  ghost predicate Blames(d: ProcessGraphDefinition, p: GraphSagaProjection, input: GraphSagaInput, e: GraphEngineError) {
    match e
    case NotRunning => input.Start? || p.status != L.Running
    case ActionMismatch => input.Observe? && p.activeActionId != Some(input.observation.actionId)
    case MissingTransition => exists x :: Observes(p, input, x) && input.observation.result != L.Unknown && NoEdge(d, x, input.observation.result)
    case ActionIdentityMismatch =>
      exists x :: Observes(p, input, x)
        && (if input.nextActionId.Some? then EndsRun(d, x, input.observation.result) else LeadsOn(d, x, input.observation.result))
    case DuplicateActionId =>
      exists x :: Observes(p, input, x) && LeadsOn(d, x, input.observation.result)
        && input.nextActionId.Some? && input.nextActionId.value in p.issuedActionIds
    case VisitLimitExceeded =>
      exists x :: Observes(p, input, x) && LeadsOn(d, x, input.observation.result) && p.stepVisits >= d.maxStepVisits
    case _ => false
  }

  lemma KnownRefusal(g: Instance, p: GraphSagaProjection, input: GraphSagaInput, x: StepId, edge: Option<GraphTransition>, e: GraphEngineError)
    requires ValidGraph(g.definition) && Observes(p, input, x) && input.observation.result != L.Unknown
    requires edge == FindEdge(g.definition.transitions, x, TransitionOutcome(input.observation.result))
    requires forall to :: HasEdge(g.definition, x, input.observation.result, to) <==> edge.Some? && edge.value.toStep == to
    requires ApplyGiven(Ok(()), g, p, input) == Err(e)
    ensures Blames(g.definition, p, input, e)
  {
    if edge.Some? && edge.value.toStep.Some? {
      TargetIsFound(g.definition, edge.value);
      assert HasEdge(g.definition, x, input.observation.result, Some(edge.value.toStep.value));
    }
  }

  // Every refusal from a consistent decision names something that is so.
  lemma RefusalsBlame(g: Instance, prior: GraphSagaDecision, input: GraphSagaInput, e: GraphEngineError)
    requires Consistent(g, prior) && Decide(g, Some(prior), input) == Err(e)
    ensures Blames(g.definition, prior.projection, input, e)
  {
    var p := prior.projection;
    assert ApplyGiven(Ok(()), g, p, input) == Err(e);
    if p.currentStepId.Some? && Observes(p, input, p.currentStepId.value) {
      var x := p.currentStepId.value;
      if input.observation.result != L.Unknown {
        var edge := TheEdge(g.definition, x, input.observation.result);
        KnownRefusal(g, p, input, x, edge, e);
      }
    }
  }

  // ------------------------------------------------------------------ how runs end

  // A run that has stopped is completed exactly when its last result is a success
  // that ends the process from the last visited step, and escalated exactly when
  // that result is unknown or a failure that ends the process there.
  lemma StoppedRunEndsIff(g: Instance, inputs: seq<GraphSagaInput>, decision: GraphSagaDecision)
    returns (visited: seq<StepId>, last: GraphSagaInput)
    requires Live(g, inputs) == Ok(Some(decision)) && decision.projection.status != L.Running
    ensures inputs != [] && last == inputs[|inputs| - 1] && last.Observe?
    ensures Walked(g, inputs, visited, decision.projection.issuedActionIds) && |inputs| == |visited| + 1
    ensures var x := visited[|visited| - 1];
      && (decision.projection.status == L.Completed <==>
            last.observation.result == L.Succeeded && GraphTransition(x, OnSucceeded, None) in g.definition.transitions)
      && (decision.projection.status == L.Escalated <==>
            last.observation.result == L.Unknown || (Failed(last.observation.result) && HasEdge(g.definition, x, last.observation.result, None)))
      && decision.projection.status in {L.Completed, L.Escalated}
  {
    var prior := LastStep(g, inputs, decision);
    last := inputs[|inputs| - 1];
    if prior.None? {
      StartIsConsistent(g, last, decision);
    } else {
      visited := RunsAreWalks(g, inputs[..|inputs| - 1], prior.value);
      AcceptedIff(g, prior.value, last);
      WalkEndsHere(g, inputs, visited, prior.value, decision, last);
    }
  }

  lemma WalkEndsHere(g: Instance, inputs: seq<GraphSagaInput>, visited: seq<StepId>, prior: GraphSagaDecision, decision: GraphSagaDecision, last: GraphSagaInput)
    requires inputs != [] && last == inputs[|inputs| - 1] && Walked(g, inputs[..|inputs| - 1], visited, prior.projection.issuedActionIds)
    requires prior.projection.status == L.Running ==> prior.projection.currentStepId == Some(visited[|visited| - 1])
    requires Accepts(g.definition, prior.projection, last) && decision.projection.status != L.Running
    requires forall x, y :: GoesOn(g.definition, prior.projection, last, x, y) ==> decision.projection.status == L.Running
    requires forall x :: Completes(g.definition, prior.projection, last, x) ==> Over(prior.projection, decision.projection, L.Completed)
    requires forall x :: Escalates(g.definition, prior.projection, last, x) ==> Over(prior.projection, decision.projection, L.Escalated)
    ensures Walked(g, inputs, visited, decision.projection.issuedActionIds) && last.Observe?
    ensures Observes(prior.projection, last, visited[|visited| - 1])
    ensures decision.projection.status == L.Completed || decision.projection.status == L.Escalated
    ensures decision.projection.status == L.Completed <==> Completes(g.definition, prior.projection, last, visited[|visited| - 1])
    ensures decision.projection.status == L.Escalated <==> Escalates(g.definition, prior.projection, last, visited[|visited| - 1])
  {
    WalkKeeps(g, inputs, visited, prior.projection.issuedActionIds);
  }
}
