// How manual resolutions repeat effect keys.
module LinearHandKeys {
  import opened Wrappers
  import opened Domain
  import opened SagaDefinition
  import opened Identifiers
  import opened LinearEngine
  import opened LinearInvariants
  import opened LinearMoves
  import opened LinearCompensation
  import opened LinearTermination
  import opened LinearReplay
  import opened LinearProgress
  import opened LinearManualRetry
  import opened LinearTiming
  import opened LinearKeys

  // The same step, stack and attempt, in the same phase.
  predicate Again(p: LinearSagaProjection, q: LinearSagaProjection) {
    && SamePlace(p, q) && p.currentAttempt == q.currentAttempt && p.status == q.status
    && p.retryDueAt.None? && q.retryDueAt.None?
  }

  // Two decisions at one place of the definition plan one effect.
  lemma PlaceFixesKey(s: Instance, a: SagaDecision, b: SagaDecision)
    requires Consistent(s, a) && Consistent(s, b) && Again(a.projection, b.projection) && Working(a.projection)
    ensures a.nextAction.Some? && b.nextAction.Some? && EffectKeyOf(a.nextAction.value) == EffectKeyOf(b.nextAction.value)
  {
  }

  lemma PlaceRepeats(s: Instance, before: seq<LinearSagaInput>, inputs: seq<LinearSagaInput>, m: nat, a: SagaDecision, b: SagaDecision)
    requires before <= inputs && |before| == m < |inputs| && Live(s, before) == Ok(Some(a)) && Live(s, inputs) == Ok(Some(b))
    requires Again(a.projection, b.projection) && Working(a.projection)
    ensures RepeatsKey(s, inputs, m, a, b)
  {
    RunsStayConsistent(s, before, a);
    RunsStayConsistent(s, inputs, b);
    PlaceFixesKey(s, a, b);
    assert inputs[..m] == before;
  }

  // -------------------------------------------------------------------- retry by hand

  // The outcome of the active action of step `k` is unknown.
  function Lost(id: InputId, m: nat): LinearSagaInput
    requires m < ID_LIMIT
  {
    ActionResultInput(id, ActionResultObservation(NthId(m), Unknown), None)
  }

  // The outcome of the k-th step is lost and the case then retried by hand.
  predicate LostAndRetried(inputs: seq<LinearSagaInput>, k: nat) {
    && |inputs| == k + 3 && inputs[k + 1].ActionResultInput? && inputs[k + 1].observation.result == Unknown
    && inputs[k + 2].ManualResolution? && inputs[k + 2].resolution == RetryAction
  }

  lemma LostDecision(s: Instance, decision: SagaDecision, id: InputId, m: nat)
    requires Consistent(s, decision) && Idle(decision.projection, Running) && m < ID_LIMIT
    requires decision.projection.activeActionId == Some(NthId(m))
    ensures var r := Decide(s, Some(decision.projection), Lost(id, m));
            && r.Ok? && Idle(r.value.projection, Escalated) && SamePlace(decision.projection, r.value.projection)
            && r.value.projection.currentAttempt == decision.projection.currentAttempt
            && r.value.projection.issuedActionIds == decision.projection.issuedActionIds
  {
  }

  lemma RetryByHandDecision(s: Instance, decision: SagaDecision, id: InputId, resume: ActionId)
    requires Consistent(s, decision) && Idle(decision.projection, Escalated) && resume !in decision.projection.issuedActionIds
    ensures var r := Decide(s, Some(decision.projection), ManualResolution(id, RetryAction, Some(resume)));
            && r.Ok? && Idle(r.value.projection, Running) && SamePlace(decision.projection, r.value.projection)
            && r.value.projection.currentAttempt == decision.projection.currentAttempt
  {
    DecideIsSound(s, decision, ManualResolution(id, RetryAction, Some(resume)));
  }

  // Step `k` runs, its outcome is lost, and it is retried by hand.
  lemma RetryStep(s: Instance, id: InputId, k: nat)
    returns (before: seq<LinearSagaInput>, inputs: seq<LinearSagaInput>, a: SagaDecision, b: SagaDecision)
    requires ValidDefinition(s.definition) && k < |s.definition.steps|
    ensures LostAndRetried(inputs, k) && Live(s, inputs) == Ok(Some(b))
    ensures before <= inputs && |before| == k + 1 && Live(s, before) == Ok(Some(a))
    ensures Idle(a.projection, Running) && a.projection.nextStepIndex == k && Again(a.projection, b.projection)
  {
    before := SuccessRun(id, k);
    a := ReachStep(s, id, k);
    RunsStayConsistent(s, before, a);
    LostDecision(s, a, id, k);
    var lost := Extended(s, before, a, Lost(id, k));
    var middle := before + [Lost(id, k)];
    RunsStayConsistent(s, middle, lost);
    FreshNthId(lost.projection.issuedActionIds, k + 1);
    RetryByHandDecision(s, lost, id, NthId(k + 1));
    b := Extended(s, middle, lost, ManualResolution(id, RetryAction, Some(NthId(k + 1))));
    inputs := middle + [ManualResolution(id, RetryAction, Some(NthId(k + 1)))];
  }

  lemma RunPlansStep(s: Instance, run: seq<LinearSagaInput>, decision: SagaDecision, k: nat)
    requires Live(s, run) == Ok(Some(decision)) && Idle(decision.projection, Running) && decision.projection.nextStepIndex == k
    ensures k < |s.definition.steps| && decision.nextAction.Some?
    ensures decision.nextAction.value.stepId == s.definition.steps[k].stepId
  {
    RunsStayConsistent(s, run, decision);
    RunningPlansStep(s, decision);
  }

  lemma RetryStepRepeats(s: Instance, id: InputId, k: nat) returns (run: seq<LinearSagaInput>, a: SagaDecision, b: SagaDecision)
    requires ValidDefinition(s.definition) && k < |s.definition.steps|
    ensures LostAndRetried(run, k) && RepeatsKey(s, run, k + 1, a, b)
    ensures b.nextAction.Some? && b.nextAction.value.stepId == s.definition.steps[k].stepId
  {
    var before;
    before, run, a, b := RetryStep(s, id, k);
    PlaceRepeats(s, before, run, k + 1, a, b);
    RunPlansStep(s, run, b, k);
  }

  lemma NumberedKeepsLoss(run: seq<LinearSagaInput>, k: nat)
    requires LostAndRetried(run, k) && |run| <= ID_LIMIT
    ensures LostAndRetried(Numbered(run), k)
  {
    assert Numbered(run)[k + 1] == WithId(run[k + 1], NthInput(k + 1)) && Numbered(run)[k + 2] == WithId(run[k + 2], NthInput(k + 2));
  }

  // Of every valid definition, every step can be retried by hand under the effect
  // key it already ran under.
  lemma ManualRetryRepeatsKey(s: Instance, k: nat) returns (inputs: seq<LinearSagaInput>, a: SagaDecision, b: SagaDecision)
    requires ValidDefinition(s.definition) && k < |s.definition.steps|
    ensures Recorded(s, inputs, b) && LostAndRetried(inputs, k) && RepeatsKey(s, inputs, k + 1, a, b)
    ensures b.nextAction.Some? && b.nextAction.value.stepId == s.definition.steps[k].stepId
  {
    var run;
    run, a, b := RetryStepRepeats(s, NthInput(0), k);
    inputs := RepeatUnderNumbers(s, run, k + 1, a, b);
    NumberedKeepsLoss(run, k);
  }

  lemma RepeatUnderNumbers(s: Instance, run: seq<LinearSagaInput>, m: nat, a: SagaDecision, b: SagaDecision) returns (inputs: seq<LinearSagaInput>)
    requires RepeatsKey(s, run, m, a, b) && |run| <= ID_LIMIT
    ensures Recorded(s, inputs, b) && RepeatsKey(s, inputs, m, a, b) && inputs == Numbered(run)
  {
    inputs := Numbered(run);
    NumberedIsRecorded(s, run, b);
    NumberedPrefix(run, m);
    NumberedIsRecorded(s, run[..m], a);
  }

  // --------------------------------------------------------------------- undo by hand

  lemma UndoByHandDecision(s: Instance, decision: SagaDecision, id: InputId, resume: ActionId)
    requires Consistent(s, decision) && Idle(decision.projection, Escalated) && decision.projection.nextStepIndex < |s.definition.steps|
    requires decision.projection.compensableStepIndices != [] && resume !in decision.projection.issuedActionIds
    ensures var r := Decide(s, Some(decision.projection), ManualResolution(id, Compensate, Some(resume)));
            && r.Ok? && Idle(r.value.projection, Compensating) && SamePlace(decision.projection, r.value.projection)
            && r.value.projection.currentAttempt == 0
  {
    DecideIsSound(s, decision, ManualResolution(id, Compensate, Some(resume)));
  }

  // A compensation given up at once begins again by hand.
  lemma UndoneAgain(s: Instance, inputs: seq<LinearSagaInput>, decision: SagaDecision, id: InputId, n: nat, stack: seq<nat>, m: nat)
    returns (more: seq<LinearSagaInput>, next: SagaDecision)
    requires GivenUp(s, inputs, decision, n, stack, 0, m) && stack != [] && m + 1 < ID_LIMIT
    ensures more == inputs + [ManualResolution(id, Compensate, Some(NthId(m + 1)))] && Live(s, more) == Ok(Some(next))
    ensures Idle(next.projection, Compensating) && SamePlace(decision.projection, next.projection) && next.projection.currentAttempt == 0
  {
    RunsStayConsistent(s, inputs, decision);
    FreshNthId(decision.projection.issuedActionIds, m + 1);
    UndoByHandDecision(s, decision, id, NthId(m + 1));
    more := inputs + [ManualResolution(id, Compensate, Some(NthId(m + 1)))];
    next := Extended(s, inputs, decision, ManualResolution(id, Compensate, Some(NthId(m + 1))));
  }

  lemma ReachUndoing(s: Instance, id: InputId, i: nat) returns (before: seq<LinearSagaInput>, a: SagaDecision, stack: seq<nat>, m: nat)
    requires ValidDefinition(s.definition) && i + 1 < |s.definition.steps| && s.definition.steps[i].compensation.Some?
    ensures Undoing(s, before, a, i + 1, stack, 0, m) && m == i + 2 && stack != [] && ManualFree(before)
  {
    before, stack, m := FailRun(id, i + 1), CompensableBelow(s.definition, i) + [i], i + 2;
    a := ReachCompensationOf(s, id, i);
  }

  lemma RepeatByHand(s: Instance, id: InputId, i: nat) returns (inputs: seq<LinearSagaInput>, m: nat, a: SagaDecision, b: SagaDecision)
    requires ValidDefinition(s.definition) && i + 1 < |s.definition.steps| && s.definition.steps[i].compensation.Some?
    ensures |inputs| <= ID_LIMIT && RepeatsKey(s, inputs, m, a, b) && Without(inputs, RESUMING)
  {
    var before, stack, last;
    before, a, stack, last := ReachUndoing(s, id, i);
    var lost, escalated := UndoGivenUp(s, before, a, id, i + 1, stack, 0, last);
    inputs, b := UndoneAgain(s, lost, escalated, id, i + 1, stack, last);
    m := last + 1;
    PlaceRepeats(s, before, inputs, m, a, b);
    ManualFreeIsWithout(before, Abandon(id, last), ManualResolution(id, Compensate, Some(NthId(m))), RESUMING);
    assert inputs == before + [Abandon(id, last), ManualResolution(id, Compensate, Some(NthId(m)))];
  }

  lemma ManualFreeIsWithout(inputs: seq<LinearSagaInput>, one: LinearSagaInput, two: LinearSagaInput, resolutions: set<ManualReviewResolution>)
    requires ManualFree(inputs) && !IsResolution(one, resolutions) && !IsResolution(two, resolutions)
    ensures Without(inputs + [one, two], resolutions)
  {
  }

  // ------------------------------------------------------------------------ theorem

  // Step `i` can repeat a key when a case may be sent to compensation by hand.
  ghost predicate RepeatsByHandAt(d: LinearSagaDefinition, i: nat) {
    i < |d.steps| && (RetriedByItself(d.steps[i]) || (i + 1 < |d.steps| && d.steps[i].compensation.Some?))
  }

  lemma HandCauseRepeats(s: Instance, i: nat)
    requires ValidDefinition(s.definition) && RepeatsByHandAt(s.definition, i)
    ensures SomeLogRepeatsKey(s, RESUMING)
  {
    if RepeatsAt(s.definition, i) {
      CauseRepeats(s, i, RESUMING);
    } else {
      var inputs, m, a, b := RepeatByHand(s, NthInput(0), i);
      RepeatIsRecorded(s, inputs, m, a, b, RESUMING);
    }
  }

  // What a saga undoes is a compensation before the last step.
  lemma UndoesEarlierStep(s: Instance, decision: SagaDecision)
    requires Consistent(s, decision) && decision.projection.status == Compensating
    ensures decision.projection.compensableStepIndices != []
    ensures RepeatsByHandAt(s.definition, Top(decision.projection.compensableStepIndices))
  {
  }

  // Whoever resolves by anything but a retry, an accepted log plans two actions
  // under one effect key exactly when some step is itself a timer action that may
  // wait for a retry or some step before the last has a compensation at all.
  lemma KeysRepeatByHandIff(s: Instance)
    requires ValidDefinition(s.definition)
    ensures SomeLogRepeatsKey(s, RESUMING) <==> exists i: nat :: RepeatsByHandAt(s.definition, i)
  {
    if i: nat :| RepeatsByHandAt(s.definition, i) {
      HandCauseRepeats(s, i);
    } else {
      forall i: nat ensures !RepeatsAt(s.definition, i) {
        assert !RepeatsByHandAt(s.definition, i);
      }
      forall inputs: seq<LinearSagaInput>, m: nat, a: SagaDecision, b: SagaDecision | Without(inputs, RESUMING)
        ensures !RepeatsKey(s, inputs, m, a, b)
      {
        if RepeatsKey(s, inputs, m, a, b) {
          RunsStayConsistent(s, inputs, b);
          if b.projection.status == Compensating {
            UndoesEarlierStep(s, b);
          }
          RunningIsManualFree(s, inputs, b);
          KeysNeverRepeat(s, inputs, m, a, b);
        }
      }
    }
  }
}
