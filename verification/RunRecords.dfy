// What the outcome kinds of a committed run say about the run
// (crates/penelope-executor/src/engine.rs).
module RunRecords {
  import opened Wrappers
  import opened Domain
  import opened SagaDefinition
  import opened SagaOutcomes
  import opened LinearEngine
  import opened LinearInvariants
  import opened EndToEnd

  // ------------------------------------------------------------ one plan per action

  // The decision issues exactly the identity of the action it plans, if any.
  ghost predicate IssuesItsPlan(p: LinearSagaProjection, decision: SagaDecision) {
    decision.projection.issuedActionIds ==
      p.issuedActionIds + (if decision.nextAction.Some? then [decision.nextAction.value.actionId] else [])
  }

  ghost predicate StepIssues(p: LinearSagaProjection, r: Decided) {
    r.Ok? ==> IssuesItsPlan(p, r.value)
  }

  lemma ForwardIssues(s: Instance, p: LinearSagaProjection, result: ActionResult, next: Option<ActionId>)
    ensures StepIssues(p, ApplyForwardResult(s, p, result, next))
    ensures StepIssues(p, BeginCompensation(s, p, next))
  {
    assert p.issuedActionIds + [] == p.issuedActionIds;
  }

  lemma CompensationIssues(s: Instance, p: LinearSagaProjection, result: ActionResult, next: Option<ActionId>)
    ensures StepIssues(p, ApplyCompensationResult(s, p, result, next))
  {
    assert p.issuedActionIds + [] == p.issuedActionIds;
  }

  lemma ResultIssues(s: Instance, p: LinearSagaProjection, observation: ActionResultObservation, next: Option<ActionId>)
    ensures StepIssues(p, ApplyActionResult(s, p, observation, next))
  {
    ForwardIssues(s, p, observation.result, next);
    CompensationIssues(s, p, observation.result, next);
  }

  lemma ScheduleIssues(s: Instance, p: LinearSagaProjection, request: RetryTimerScheduleRequest)
    ensures StepIssues(p, ScheduleRetryTimer(s, p, request))
  {
    ForwardIssues(s, p, request.observation.result, request.nextActionId);
  }

  lemma FiringIssues(s: Instance, p: LinearSagaProjection, timer: ActionId, firedAt: LogicalTime, retry: ActionId)
    ensures StepIssues(p, FireRetryTimer(s, p, timer, firedAt, retry))
  {
  }

  lemma ManualIssues(s: Instance, p: LinearSagaProjection, resolution: ManualReviewResolution, resume: Option<ActionId>)
    ensures StepIssues(p, ApplyManualResolution(s, p, resolution, resume))
  {
    assert p.issuedActionIds + [] == p.issuedActionIds;
  }

  // Every accepted input issues one new action identity or none, and plans an
  // action under it exactly when it issues one.
  lemma DecideIssues(s: Instance, p: LinearSagaProjection, input: LinearSagaInput)
    ensures StepIssues(p, Decide(s, Some(p), input))
  {
    match input
    case Start(_, _) =>
    case ActionResultInput(_, observation, next) => ResultIssues(s, p, observation, next);
    case RetryTimerScheduledInput(_, request) => ScheduleIssues(s, p, request);
    case RetryTimerFiredInput(_, timer, firedAt, retry) => FiringIssues(s, p, timer, firedAt, retry);
    case ManualResolution(_, resolution, resume) => ManualIssues(s, p, resolution, resume);
  }

  predicate IsPlan(kind: ProcessOutcomeKind) {
    kind == ActionPlanned || kind == CompensationPlanned
  }

  function PlanCount(outcomes: seq<ProcessOutcome>): nat {
    if outcomes == [] then 0
    else PlanCount(outcomes[..|outcomes| - 1]) + (if IsPlan(outcomes[|outcomes| - 1].fact.kind) then 1 else 0)
  }

  lemma {:induction false} PlanCountJoin(a: seq<ProcessOutcome>, b: seq<ProcessOutcome>)
    ensures PlanCount(a + b) == PlanCount(a) + PlanCount(b)
  {
    if b == [] {
      assert a + b == a;
    } else {
      PlanCountJoin(a, b[..|b| - 1]);
      assert (a + b)[..|a + b| - 1] == a + b[..|b| - 1];
    }
  }

  // Only the last outcome of a batch may be a plan.
  ghost predicate PlansLast(outcomes: seq<ProcessOutcome>) {
    forall i :: 0 <= i < |outcomes| - 1 ==> !IsPlan(outcomes[i].fact.kind)
  }

  lemma {:induction false} LastPlanCounts(outcomes: seq<ProcessOutcome>)
    requires outcomes != [] && PlansLast(outcomes)
    ensures PlanCount(outcomes) == if IsPlan(outcomes[|outcomes| - 1].fact.kind) then 1 else 0
  {
    NoPlans(outcomes[..|outcomes| - 1]);
  }

  lemma {:induction false} NoPlans(outcomes: seq<ProcessOutcome>)
    requires forall i :: 0 <= i < |outcomes| ==> !IsPlan(outcomes[i].fact.kind)
    ensures PlanCount(outcomes) == 0
  {
    if outcomes != [] {
      NoPlans(outcomes[..|outcomes| - 1]);
    }
  }

  // ------------------------------------------------------------- reading the log back

  // The status a last outcome kind announces.
  function AnnouncedStatus(kind: ProcessOutcomeKind): Option<SagaStatus> {
    match kind
    case ActionPlanned => Some(Running)
    case CompensationPlanned => Some(Compensating)
    case ProcessCompleted => Some(Completed)
    case ProcessCancelled => Some(Cancelled)
    case ProcessCompensated => Some(Compensated)
    case ProcessEscalated => Some(Escalated)
    case _ => None
  }

  // What the end of a batch says about the decision it records.
  ghost predicate Announces(outcomes: seq<ProcessOutcome>, decision: SagaDecision) {
    && |outcomes| >= 2
    && AnnouncedStatus(outcomes[|outcomes| - 1].fact.kind) == Some(decision.projection.status)
    && (outcomes[|outcomes| - 2].fact.kind == ProcessOutcomeKind.RetryScheduled <==> decision.projection.retryDueAt.Some?)
  }

  // The same, of the kinds the engine requires.
  ghost predicate KindsAnnounce(kinds: seq<ProcessOutcomeKind>, decision: SagaDecision) {
    && |kinds| >= 2
    && AnnouncedStatus(kinds[|kinds| - 1]) == Some(decision.projection.status)
    && (kinds[|kinds| - 2] == ProcessOutcomeKind.RetryScheduled <==> decision.projection.retryDueAt.Some?)
    && (forall i :: 0 <= i < |kinds| - 1 ==> !IsPlan(kinds[i]))
    && (IsPlan(kinds[|kinds| - 1]) <==> decision.nextAction.Some?)
  }

  lemma PlanAnnounces(s: Instance, decision: SagaDecision, event: LinearSagaEvent)
    requires Consistent(s, decision)
    ensures KindsAnnounce(LinearObservedKinds(event) + LinearPlannedKinds(decision), decision)
  {
    PlannedAnnounces(LinearObservedKinds(event), decision);
  }

  // Two kinds that plan nothing, followed by those the decision requires.
  lemma PlannedAnnounces(observed: seq<ProcessOutcomeKind>, decision: SagaDecision)
    requires |observed| == 2 && !IsPlan(observed[0]) && !IsPlan(observed[1]) && observed[1] != ProcessOutcomeKind.RetryScheduled
    requires decision.nextAction.Some? <==> Working(decision.projection)
    requires decision.projection.retryDueAt.Some? ==> decision.projection.status == Running
    ensures KindsAnnounce(observed + LinearPlannedKinds(decision), decision)
  {
  }

  lemma BatchAnnounces(s: Instance, decision: SagaDecision, event: LinearSagaEvent, first: u64, facts: seq<ProcessOutcomeFact>,
                       batch: seq<ProcessOutcome>)
    requires Consistent(s, decision)
    requires BuildLinear(decision, event, ScopeOf(s), first, facts) == Ok(batch)
    ensures Announces(batch, decision) && PlansLast(batch)
    ensures IsPlan(batch[|batch| - 1].fact.kind) <==> decision.nextAction.Some?
  {
    var kinds := LinearObservedKinds(event) + LinearPlannedKinds(decision);
    PlanAnnounces(s, decision, event);
    LinearPlanIsShort(s, decision, event);
    KindsCarryOver(kinds, event.inputId, ScopeOf(s), first, facts, batch, decision);
  }

  lemma KindsCarryOver(kinds: seq<ProcessOutcomeKind>, inputId: InputId, scope: ProcessScope, first: u64,
                       facts: seq<ProcessOutcomeFact>, batch: seq<ProcessOutcome>, decision: SagaDecision)
    requires Build(kinds, inputId, scope, first, facts) == Ok(batch) && KindsAnnounce(kinds, decision)
    ensures Announces(batch, decision) && PlansLast(batch)
    ensures IsPlan(batch[|batch| - 1].fact.kind) <==> decision.nextAction.Some?
  {
    assert forall i :: 0 <= i < |batch| ==> batch[i].fact.kind == kinds[i];
  }

  // The log of a run is the log before its last input and the last batch.
  lemma LastBatch(s: Instance, inputs: seq<LinearSagaInput>, facts: seq<seq<ProcessOutcomeFact>>, decision: SagaDecision)
    returns (before: seq<ProcessOutcome>, batch: seq<ProcessOutcome>)
    requires |facts| == |inputs| && inputs != [] && Live(s, inputs) == Ok(Some(decision))
    requires RunLog(s, inputs, facts).Ok?
    ensures RunLog(s, inputs[..|inputs| - 1], facts[..|inputs| - 1]) == Ok(before) && |before| <= U64_MAX
    ensures BuildLinear(decision, ToEvent(s.definition, inputs[|inputs| - 1]), ScopeOf(s), |before|, facts[|inputs| - 1]) == Ok(batch)
    ensures RunLog(s, inputs, facts) == Ok(before + batch)
  {
    var n := |inputs| - 1;
    before := RunLog(s, inputs[..n], facts[..n]).value;
    batch := BuildLinear(decision, ToEvent(s.definition, inputs[n]), ScopeOf(s), |before|, facts[n]).value;
  }

  ghost predicate Tells(log: seq<ProcessOutcome>, decision: SagaDecision) {
    Announces(log, decision) && PlanCount(log) == |decision.projection.issuedActionIds|
  }

  lemma BatchTells(before: seq<ProcessOutcome>, batch: seq<ProcessOutcome>, prior: Option<SagaDecision>, decision: SagaDecision)
    requires Announces(batch, decision) && PlansLast(batch)
    requires IsPlan(batch[|batch| - 1].fact.kind) <==> decision.nextAction.Some?
    requires match prior
             case None => before == [] && decision.nextAction.Some? && |decision.projection.issuedActionIds| == 1
             case Some(earlier) => Tells(before, earlier) && IssuesItsPlan(earlier.projection, decision)
    ensures Tells(before + batch, decision)
  {
    LastPlanCounts(batch);
    PlanCountJoin(before, batch);
  }

  lemma StartPlansOne(s: Instance, actionId: ActionId)
    ensures var r := StartSaga(s, actionId);
      r.Ok? ==> r.value.nextAction.Some? && |r.value.projection.issuedActionIds| == 1
  {
  }

  // The committed log of a run of any length ends with the run's status and
  // whether a retry timer is pending, and it holds one plan for every action
  // identity the run ever issued.
  lemma {:induction false} LogTellsTheRun(s: Instance, inputs: seq<LinearSagaInput>, facts: seq<seq<ProcessOutcomeFact>>, decision: SagaDecision)
    requires |facts| == |inputs| && RunLog(s, inputs, facts).Ok?
    requires Live(s, inputs) == Ok(Some(decision))
    ensures Tells(RunLog(s, inputs, facts).value, decision)
  {
    RunsStayConsistent(s, inputs, decision);
    var prior := LastStep(s, inputs, decision);
    var n := |inputs| - 1;
    var before, batch := LastBatch(s, inputs, facts, decision);
    BatchAnnounces(s, decision, ToEvent(s.definition, inputs[n]), |before|, facts[n], batch);
    if prior.Some? {
      LogTellsTheRun(s, inputs[..n], facts[..n], prior.value);
      DecideIssues(s, prior.value.projection, inputs[n]);
    } else {
      assert inputs[..n] == [];
      StartPlansOne(s, inputs[0].startActionId);
    }
    BatchTells(before, batch, prior, decision);
  }
}
