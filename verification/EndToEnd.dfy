// What the engines plan is what the commit validator accepts and the outcome
// log takes in, decision after decision.
module EndToEnd {
  import opened Wrappers
  import opened Domain
  import opened SagaDefinition
  import opened OutcomeLogs
  import opened ProcessCommit
  import opened SagaOutcomes
  import L = LinearEngine
  import LI = LinearInvariants
  import LR = LinearReplay
  import G = GraphEngine

  ghost predicate DistinctFactIds(facts: seq<ProcessOutcomeFact>) {
    forall i, j :: 0 <= i < j < |facts| ==> facts[i].outcomeId != facts[j].outcomeId
  }

  predicate OwnedBy(input: ProcessInput, scope: ProcessScope) {
    input.tenantId == scope.tenantId && input.processId == scope.processId
  }

  // The commit a host makes of one built batch.
  function CommitOf(first: u64, input: ProcessInput, outcomes: seq<ProcessOutcome>, action: Option<ProcessAction>): AtomicProcessCommit {
    AtomicProcessCommit(first, Some(input), None, outcomes, Listed(action))
  }

  // What a built batch looks like, whichever engine planned it.
  ghost predicate IsBatch(scope: ProcessScope, first: u64, inputId: InputId, facts: seq<ProcessOutcomeFact>, outcomes: seq<ProcessOutcome>) {
    && 1 <= |outcomes| == |facts| <= 4
    && (forall i :: 0 <= i < |outcomes| ==>
          outcomes[i].scope == scope && outcomes[i].sequence == first + i && outcomes[i].fact == facts[i])
    && outcomes[0].fact.causationId == InputCause(inputId)
  }

  lemma BuiltIsBatch(kinds: seq<ProcessOutcomeKind>, inputId: InputId, scope: ProcessScope, first: u64, facts: seq<ProcessOutcomeFact>,
                     outcomes: seq<ProcessOutcome>)
    requires 1 <= |kinds| <= 4 && kinds[0] == InputAccepted
    requires Build(kinds, inputId, scope, first, facts) == Ok(outcomes)
    ensures IsBatch(scope, first, inputId, facts, outcomes)
  {
    assert facts[0].kind == kinds[0];
  }

  // A commit of a batch is accepted exactly when the outcome identities differ,
  // the sequence after the last is representable, the action is in scope and the
  // input belongs to the process.
  lemma BatchCommitAcceptedIff(scope: ProcessScope, first: u64, input: ProcessInput, facts: seq<ProcessOutcomeFact>,
                               outcomes: seq<ProcessOutcome>, action: Option<ProcessAction>)
    requires IsBatch(scope, first, input.inputId, facts, outcomes)
    ensures CommitFault(CommitOf(first, input, outcomes, action)).None? <==>
              && DistinctFactIds(facts) && first + |facts| <= U64_MAX
              && (action.Some? ==> action.value.scope == scope)
              && OwnedBy(input, scope)
  {
    var c := CommitOf(first, input, outcomes, action);
    CommitAcceptedIff(c);
    assert CausedBy(outcomes, input.inputId);
    assert DistinctOutcomeIds(outcomes) <==> DistinctFactIds(facts) by {
      if DistinctFactIds(facts) {
        forall i, j | 0 <= i < j < |outcomes| ensures outcomes[i].fact.outcomeId != outcomes[j].fact.outcomeId {
          assert facts[i].outcomeId != facts[j].outcomeId;
        }
      }
      if DistinctOutcomeIds(outcomes) {
        forall i, j | 0 <= i < j < |facts| ensures facts[i].outcomeId != facts[j].outcomeId {
          assert outcomes[i].fact.outcomeId != outcomes[j].fact.outcomeId;
        }
      }
    }
  }

  // ------------------------------------------------------------------ linear engine

  lemma LinearPlanIsShort(s: L.Instance, decision: L.SagaDecision, event: L.LinearSagaEvent)
    requires LI.Consistent(s, decision)
    ensures var kinds := LinearObservedKinds(event) + LinearPlannedKinds(decision);
            3 <= |kinds| <= 4 && kinds[0] == InputAccepted
  {
  }

  // The action a working linear decision plans is in the scope of its instance.
  lemma LinearActionScope(s: L.Instance, decision: L.SagaDecision)
    requires LI.Consistent(s, decision) && decision.nextAction.Some?
    ensures decision.nextAction.value.scope == L.ScopeOf(s)
  {
  }

  // Facts the linear engine accepts for a reachable decision form a commit that
  // validation accepts, exactly when identities and sequences allow it and, as
  // the engine itself does not compare them, tenant and process match.
  lemma LinearBatchCommitsIff(s: L.Instance, inputs: seq<L.LinearSagaInput>, decision: L.SagaDecision, scope: ProcessScope,
                              first: u64, input: ProcessInput, facts: seq<ProcessOutcomeFact>, outcomes: seq<ProcessOutcome>)
    requires L.Live(s, inputs) == Ok(Some(decision)) && inputs != []
    requires input.inputId == inputs[|inputs| - 1].inputId
    requires BuildLinear(decision, L.ToEvent(s.definition, inputs[|inputs| - 1]), scope, first, facts) == Ok(outcomes)
    ensures IsBatch(scope, first, input.inputId, facts, outcomes)
    ensures CommitFault(CommitOf(first, input, outcomes, decision.nextAction)).None? <==>
              && DistinctFactIds(facts) && first + |facts| <= U64_MAX
              && (decision.nextAction.Some? ==> scope == L.ScopeOf(s))
              && OwnedBy(input, scope)
  {
    LI.RunsStayConsistent(s, inputs, decision);
    var event := L.ToEvent(s.definition, inputs[|inputs| - 1]);
    LinearPlanIsShort(s, decision, event);
    BuiltIsBatch(LinearObservedKinds(event) + LinearPlannedKinds(decision), input.inputId, scope, first, facts, outcomes);
    BatchCommitAcceptedIff(scope, first, input, facts, outcomes, decision.nextAction);
    if decision.nextAction.Some? {
      LinearActionScope(s, decision);
    }
  }

  // The receipt that matches such a commit names the last planned fact.
  lemma LinearReceiptNamesLastFact(s: L.Instance, inputs: seq<L.LinearSagaInput>, decision: L.SagaDecision, scope: ProcessScope,
                                   first: u64, input: ProcessInput, facts: seq<ProcessOutcomeFact>, outcomes: seq<ProcessOutcome>,
                                   receipt: AtomicProcessCommitReceipt)
    requires L.Live(s, inputs) == Ok(Some(decision)) && inputs != []
    requires input.inputId == inputs[|inputs| - 1].inputId
    requires BuildLinear(decision, L.ToEvent(s.definition, inputs[|inputs| - 1]), scope, first, facts) == Ok(outcomes)
    requires CommitFault(CommitOf(first, input, outcomes, decision.nextAction)).None?
    ensures ReceiptFault(receipt, CommitOf(first, input, outcomes, decision.nextAction)).None?
       <==> receipt.committedThroughSequence == first + |facts| - 1
  {
    LinearBatchCommitsIff(s, inputs, decision, scope, first, input, facts, outcomes);
    ReceiptNamesLastOutcome(receipt, CommitOf(first, input, outcomes, decision.nextAction));
  }

  // ------------------------------------------------------------------- graph engine

  lemma GraphPlanIsShort(g: G.Instance, decision: G.GraphSagaDecision)
    requires G.Consistent(g, decision)
    ensures var kinds := GraphObservedKinds(decision.event) + GraphPlannedKinds(decision);
            |kinds| == 3 && kinds[0] == InputAccepted
  {
  }

  lemma {:induction false} GraphDecisionRecordsInput(g: G.Instance, inputs: seq<G.GraphSagaInput>, decision: G.GraphSagaDecision)
    requires G.Live(g, inputs) == Ok(Some(decision))
    ensures inputs != [] && decision.event == G.EventOf(inputs[|inputs| - 1])
    ensures G.Consistent(g, decision)
  {
    var prior := G.LastStep(g, inputs, decision);
    if prior.None? {
      G.StartIsConsistent(g, inputs[|inputs| - 1], decision);
    } else {
      var visited := G.RunsAreWalks(g, inputs[..|inputs| - 1], prior.value);
      G.ApplyIsConsistent(g, prior.value, inputs[|inputs| - 1], decision);
    }
  }

  // Facts the graph engine accepts for a reachable decision form a commit that
  // validation accepts, exactly when identities and sequences allow it.
  lemma GraphBatchCommitsIff(g: G.Instance, inputs: seq<G.GraphSagaInput>, decision: G.GraphSagaDecision, scope: ProcessScope,
                             first: u64, input: ProcessInput, facts: seq<ProcessOutcomeFact>, outcomes: seq<ProcessOutcome>)
    requires G.Live(g, inputs) == Ok(Some(decision)) && inputs != []
    requires input.inputId == inputs[|inputs| - 1].inputId
    requires BuildGraph(decision, scope, first, facts) == Ok(outcomes)
    ensures IsBatch(scope, first, input.inputId, facts, outcomes) && scope == G.ScopeOf(g)
    ensures CommitFault(CommitOf(first, input, outcomes, decision.nextAction)).None? <==>
              DistinctFactIds(facts) && first + |facts| <= U64_MAX && OwnedBy(input, scope)
  {
    GraphDecisionRecordsInput(g, inputs, decision);
    GraphPlanIsShort(g, decision);
    BuiltIsBatch(GraphObservedKinds(decision.event) + GraphPlannedKinds(decision), input.inputId, scope, first, facts, outcomes);
    BatchCommitAcceptedIff(scope, first, input, facts, outcomes, decision.nextAction);
  }

  // ------------------------------------------------------------- consecutive commits

  // The outcomes of a whole linear run: each decision's batch is built at the
  // length reached so far, from the facts supplied for it.
  ghost function RunLog(s: L.Instance, inputs: seq<L.LinearSagaInput>, facts: seq<seq<ProcessOutcomeFact>>)
    : Result<seq<ProcessOutcome>, EngineError>
    requires |facts| == |inputs|
  {
    if inputs == [] then Ok([])
    else
      var n := |inputs| - 1;
      var prior :- RunLog(s, inputs[..n], facts[..n]);
      var decision :- L.Live(s, inputs);
      if |prior| > U64_MAX then Err(OutcomeSequenceOverflow)
      else
        var batch :- BuildLinear(decision.value, L.ToEvent(s.definition, inputs[n]), L.ScopeOf(s), |prior|, facts[n]);
        Ok(prior + batch)
  }

  // The last batch of a run, numbered from the length of the log before it.
  lemma NextBatch(s: L.Instance, inputs: seq<L.LinearSagaInput>, facts: seq<seq<ProcessOutcomeFact>>)
    returns (prior: seq<ProcessOutcome>, batch: seq<ProcessOutcome>)
    requires inputs != [] && |facts| == |inputs| && RunLog(s, inputs, facts).Ok?
    ensures RunLog(s, inputs[..|inputs| - 1], facts[..|inputs| - 1]) == Ok(prior) && RunLog(s, inputs, facts) == Ok(prior + batch)
    ensures Numbered(L.ScopeOf(s), |prior|, batch) && 3 <= |batch| <= 4
  {
    var n := |inputs| - 1;
    var decision := L.Live(s, inputs).value.value;
    var event := L.ToEvent(s.definition, inputs[n]);
    prior := RunLog(s, inputs[..n], facts[..n]).value;
    batch := BuildLinear(decision, event, L.ScopeOf(s), |prior|, facts[n]).value;
    LI.RunsStayConsistent(s, inputs, decision);
    LinearPlanIsShort(s, decision, event);
    BuiltIsBatch(LinearObservedKinds(event) + LinearPlannedKinds(decision), event.inputId, L.ScopeOf(s), |prior|, facts[n], batch);
  }

  // Over a whole run the committed batches are numbered through, and hold three
  // or four outcomes per accepted input.
  lemma {:induction false} RunLogIsNumbered(s: L.Instance, inputs: seq<L.LinearSagaInput>, facts: seq<seq<ProcessOutcomeFact>>)
    requires |facts| == |inputs| && RunLog(s, inputs, facts).Ok?
    ensures Numbered(L.ScopeOf(s), 0, RunLog(s, inputs, facts).value)
    ensures 3 * |inputs| <= |RunLog(s, inputs, facts).value| <= 4 * |inputs|
  {
    if inputs != [] {
      var n := |inputs| - 1;
      var prior, batch := NextBatch(s, inputs, facts);
      RunLogIsNumbered(s, inputs[..n], facts[..n]);
      NumberedJoin(L.ScopeOf(s), prior, batch);
    }
  }

  lemma NumberedJoin(scope: ProcessScope, a: seq<ProcessOutcome>, b: seq<ProcessOutcome>)
    requires Numbered(scope, 0, a) && Numbered(scope, |a|, b)
    ensures Numbered(scope, 0, a + b)
  {
  }

  // The whole run fits one outcome log exactly when the outcome identities are
  // distinct across its commits and their number is within the replay bound;
  // with distinct identities every run of at most 1024 inputs fits.
  lemma RunFitsLogIff(s: L.Instance, inputs: seq<L.LinearSagaInput>, facts: seq<seq<ProcessOutcomeFact>>)
    requires |facts| == |inputs| && RunLog(s, inputs, facts).Ok?
    ensures var all := RunLog(s, inputs, facts).value;
            && (AppendFault(L.ScopeOf(s), [], all).None?
                <==> DistinctOutcomeIds(all) && |all| <= MAX_OUTCOMES_PER_REPLAY_LOG)
            && (|inputs| <= 1024 ==> |all| <= MAX_OUTCOMES_PER_REPLAY_LOG)
            && (|inputs| > 1365 ==> |all| > MAX_OUTCOMES_PER_REPLAY_LOG)
  {
    RunLogIsNumbered(s, inputs, facts);
    var all := RunLog(s, inputs, facts).value;
    AppendsIffWellFormed(L.ScopeOf(s), [], all);
    assert [] + all == all;
  }
}
