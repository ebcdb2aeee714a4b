// What becomes of a linear batch built for another tenant or process: the builder
// compares the definition coordinates of the scope only
// (crates/penelope-executor/src/engine.rs).
module ForeignScopes {
  import opened Wrappers
  import opened Domain
  import opened SagaDefinition
  import opened Identifiers
  import opened ProcessCommit
  import opened SagaOutcomes
  import opened EndToEnd
  import L = LinearEngine
  import LI = LinearInvariants
  import LR = LinearReplay
  import LP = LinearProgress
  import LT = LinearTermination

  // The scope runs the same definition for another tenant or process.
  predicate Foreign(s: L.Instance, scope: ProcessScope) {
    && scope != L.ScopeOf(s)
    && scope.definitionId == s.definition.definitionId
    && scope.definitionVersion == s.definition.definitionVersion
    && scope.definitionDigest == s.definition.definitionDigest
  }

  // The batch planned for the run's last decision, built in this scope from facts
  // whose identities differ, with room for the sequence after the last.
  ghost predicate BuiltIn(s: L.Instance, inputs: seq<L.LinearSagaInput>, decision: L.SagaDecision, scope: ProcessScope, first: u64,
                          facts: seq<ProcessOutcomeFact>, outcomes: seq<ProcessOutcome>)
  {
    && inputs != [] && L.Live(s, inputs) == Ok(Some(decision))
    && BuildLinear(decision, L.ToEvent(s.definition, inputs[|inputs| - 1]), scope, first, facts) == Ok(outcomes)
    && DistinctFactIds(facts) && first + |facts| <= U64_MAX
  }

  lemma OutOfScopeIsRefused(scope: ProcessScope, first: u64, input: ProcessInput, facts: seq<ProcessOutcomeFact>,
                            outcomes: seq<ProcessOutcome>, action: ProcessAction)
    requires IsBatch(scope, first, input.inputId, facts, outcomes) && DistinctFactIds(facts) && first + |facts| <= U64_MAX
    requires action.scope != scope
    ensures CommitFault(CommitOf(first, input, outcomes, Some(action))) == Some(ActionScopeMismatch)
  {
    var c := CommitOf(first, input, outcomes, Some(action));
    forall i, j | 0 <= i < j < |outcomes| ensures outcomes[i].fact.outcomeId != outcomes[j].fact.outcomeId {
      assert facts[i].outcomeId != facts[j].outcomeId;
    }
    OutcomesAcceptedIff(c);
    assert FirstActionFault(c, 0).None? && ActionFault(c, 0) == Some(ActionScopeMismatch);
    ActionFaultStands(c, 0, 1);
  }

  // A foreign batch with a foreign input is refused, for the scope of its action,
  // exactly while the saga plans an action. Once it plans none nothing in the
  // commit names the tenant and process that ran, and the batch is accepted.
  lemma ForeignBatchCommitsIff(s: L.Instance, inputs: seq<L.LinearSagaInput>, decision: L.SagaDecision, scope: ProcessScope,
                               first: u64, input: ProcessInput, facts: seq<ProcessOutcomeFact>, outcomes: seq<ProcessOutcome>)
    requires Foreign(s, scope) && BuiltIn(s, inputs, decision, scope, first, facts, outcomes)
    requires input.inputId == inputs[|inputs| - 1].inputId && OwnedBy(input, scope)
    ensures CommitFault(CommitOf(first, input, outcomes, decision.nextAction))
         == if LI.Working(decision.projection) then Some(ActionScopeMismatch) else None
  {
    LI.RunsStayConsistent(s, inputs, decision);
    LinearBatchCommitsIff(s, inputs, decision, scope, first, input, facts, outcomes);
    if LI.Working(decision.projection) {
      LinearActionScope(s, decision);
      OutOfScopeIsRefused(scope, first, input, facts, outcomes, decision.nextAction.value);
    }
  }

  function FactOf(kind: ProcessOutcomeKind, inputId: InputId, i: nat): ProcessOutcomeFact
    requires i < ID_LIMIT
  {
    ProcessOutcomeFact(NthOutcome(i), InputCause(inputId), System, 0, kind, seq(DIGEST_LENGTH, _ => 0))
  }

  // Facts of the given kinds, each with an identity of its own.
  function FactsOf(kinds: seq<ProcessOutcomeKind>, inputId: InputId): (facts: seq<ProcessOutcomeFact>)
    requires |kinds| <= 4
    ensures KindsAre(facts, kinds) && BoundTo(facts, inputId)
  {
    seq(|kinds|, i requires 0 <= i < |kinds| => FactOf(kinds[i], inputId, i))
  }

  lemma FactsDiffer(kinds: seq<ProcessOutcomeKind>, inputId: InputId)
    requires |kinds| <= 4
    ensures DistinctFactIds(FactsOf(kinds, inputId))
  {
    forall i, j | 0 <= i < j < |kinds| ensures FactsOf(kinds, inputId)[i].outcomeId != FactsOf(kinds, inputId)[j].outcomeId {
      NthTextsDiffer(OUTCOME_KIND, i, j);
    }
  }

  // The builder takes any scope that runs the definition.
  lemma ForeignBatchIsBuilt(s: L.Instance, inputs: seq<L.LinearSagaInput>, decision: L.SagaDecision, scope: ProcessScope, first: u64)
    returns (facts: seq<ProcessOutcomeFact>, outcomes: seq<ProcessOutcome>)
    requires inputs != [] && L.Live(s, inputs) == Ok(Some(decision)) && Foreign(s, scope) && first + 4 <= U64_MAX
    ensures BuiltIn(s, inputs, decision, scope, first, facts, outcomes)
  {
    LI.RunsStayConsistent(s, inputs, decision);
    var event := L.ToEvent(s.definition, inputs[|inputs| - 1]);
    LinearPlanIsShort(s, decision, event);
    var kinds := LinearObservedKinds(event) + LinearPlannedKinds(decision);
    facts := FactsOf(kinds, event.inputId);
    FactsDiffer(kinds, event.inputId);
    outcomes := Sequence(scope, first, facts).value;
  }

  lemma UnknownStops(s: L.Instance, decision: L.SagaDecision, id: InputId)
    requires LI.Consistent(s, decision) && decision.projection.status == L.Running && decision.projection.retryDueAt.None?
    requires decision.projection.activeActionId == Some(NthId(0))
    ensures var r := L.Decide(s, Some(decision.projection), LP.NthResult(id, 0, L.Unknown));
            r.Ok? && !LI.Working(r.value.projection)
  {
  }

  // The saga starts, and then its first action's outcome is unknown.
  lemma StartedAndStopped(s: L.Instance)
    returns (started: seq<L.LinearSagaInput>, planning: L.SagaDecision, stopping: seq<L.LinearSagaInput>, stopped: L.SagaDecision)
    requires ValidDefinition(s.definition)
    ensures |started| == 1 && LR.Recorded(s, started, planning) && LI.Working(planning.projection)
    ensures |stopping| == 2 && LR.Recorded(s, stopping, stopped) && !LI.Working(stopped.projection)
  {
    var id := NthInput(0);
    var first, last := LP.SuccessRun(id, 0), LP.NthResult(id, 0, L.Unknown);
    planning := LP.ReachStep(s, id, 0);
    LI.RunsStayConsistent(s, first, planning);
    UnknownStops(s, planning, id);
    stopped := LT.Extended(s, first, planning, last);
    LR.NumberedIsRecorded(s, first, planning);
    LR.NumberedIsRecorded(s, first + [last], stopped);
    started, stopping := LR.Numbered(first), LR.Numbered(first + [last]);
  }

  // The batch for the run's last input, built in the scope, and its commit.
  lemma ForeignCommit(s: L.Instance, inputs: seq<L.LinearSagaInput>, decision: L.SagaDecision, scope: ProcessScope, first: u64, input: ProcessInput)
    returns (facts: seq<ProcessOutcomeFact>, outcomes: seq<ProcessOutcome>, c: AtomicProcessCommit)
    requires inputs != [] && L.Live(s, inputs) == Ok(Some(decision)) && Foreign(s, scope) && first + 4 <= U64_MAX && OwnedBy(input, scope)
    ensures BuiltIn(s, inputs, decision, scope, first, facts, outcomes)
    ensures c == CommitOf(first, input.(inputId := inputs[|inputs| - 1].inputId), outcomes, decision.nextAction)
    ensures CommitFault(c) == if LI.Working(decision.projection) then Some(ActionScopeMismatch) else None
  {
    var record := input.(inputId := inputs[|inputs| - 1].inputId);
    facts, outcomes := ForeignBatchIsBuilt(s, inputs, decision, scope, first);
    ForeignBatchCommitsIff(s, inputs, decision, scope, first, record, facts, outcomes);
    c := CommitOf(first, record, outcomes, decision.nextAction);
  }

  // Every valid definition, for every foreign scope and sequence, has an accepted
  // log whose foreign batch is built and then refused, and one whose foreign batch
  // is built and committed.
  lemma ForeignScopesAreRefusedOrCommitted(s: L.Instance, scope: ProcessScope, first: u64, input: ProcessInput)
    returns (refused: seq<L.LinearSagaInput>, planning: L.SagaDecision, facts: seq<ProcessOutcomeFact>, outcomes: seq<ProcessOutcome>,
             committed: seq<L.LinearSagaInput>, stopped: L.SagaDecision, lastFacts: seq<ProcessOutcomeFact>, lastOutcomes: seq<ProcessOutcome>)
    requires ValidDefinition(s.definition) && Foreign(s, scope) && OwnedBy(input, scope) && first + 4 <= U64_MAX
    ensures LR.Recorded(s, refused, planning) && BuiltIn(s, refused, planning, scope, first, facts, outcomes)
    ensures CommitFault(CommitOf(first, input.(inputId := refused[|refused| - 1].inputId), outcomes, planning.nextAction))
         == Some(ActionScopeMismatch)
    ensures LR.Recorded(s, committed, stopped) && BuiltIn(s, committed, stopped, scope, first, lastFacts, lastOutcomes)
    ensures CommitFault(CommitOf(first, input.(inputId := committed[|committed| - 1].inputId), lastOutcomes, stopped.nextAction)).None?
  {
    refused, planning, committed, stopped := StartedAndStopped(s);
    var c;
    facts, outcomes, c := ForeignCommit(s, refused, planning, scope, first, input);
    lastFacts, lastOutcomes, c := ForeignCommit(s, committed, stopped, scope, first, input);
  }
}
