// Last-in-first-out compensation over whole runs of the linear engine.
module LinearCompensation {
  import opened Wrappers
  import opened Domain
  import opened SagaDefinition
  import opened LinearEngine
  import opened LinearInvariants
  import opened LinearMoves

  // What one accepted input says about the undo stack, read from the observed
  // result and the phase in which it was observed.
  datatype StackOp = Push(step: nat) | Pop

  // The steps still to undo, and those undone so far in the order of undoing.
  datatype Ledger = Ledger(stack: seq<nat>, undone: seq<nat>)

  ghost function OpsForResult(d: LinearSagaDefinition, p: LinearSagaProjection, result: ActionResult): (ops: seq<StackOp>)
    ensures |ops| <= 1
  {
    if result != Succeeded then []
    else if p.status == Compensating then [Pop]
    else if p.status == Running && p.nextStepIndex < |d.steps| && d.steps[p.nextStepIndex].compensation.Some?
    then [Push(p.nextStepIndex)]
    else []
  }

  ghost function OpsFor(s: Instance, prior: Option<SagaDecision>, input: LinearSagaInput): (ops: seq<StackOp>)
    ensures |ops| <= 1
  {
    if prior.None? || !input.ActionResultInput? then []
    else OpsForResult(s.definition, prior.value.projection, input.observation.result)
  }

  ghost function OpsOf(s: Instance, inputs: seq<LinearSagaInput>): seq<StackOp> {
    if inputs == [] || Live(s, inputs).Err? then []
    else
      var before := inputs[..|inputs| - 1];
      OpsOf(s, before) + OpsFor(s, Live(s, before).value, inputs[|inputs| - 1])
  }

  ghost function Post(ledger: Ledger, op: StackOp): Ledger {
    match op
    case Push(i) => ledger.(stack := ledger.stack + [i])
    case Pop =>
      if ledger.stack == [] then ledger
      else
        var n := |ledger.stack| - 1;
        Ledger(ledger.stack[..n], ledger.undone + [ledger.stack[n]])
  }

  ghost function LedgerOf(ops: seq<StackOp>): Ledger {
    if ops == [] then Ledger([], []) else Post(LedgerOf(ops[..|ops| - 1]), ops[|ops| - 1])
  }

  // Compensable steps before `n`, in order.
  ghost function CompensableBelow(d: LinearSagaDefinition, n: nat): seq<nat>
    requires n <= |d.steps|
  {
    if n == 0 then []
    else if d.steps[n - 1].compensation.Some? then CompensableBelow(d, n - 1) + [n - 1]
    else CompensableBelow(d, n - 1)
  }

  ghost function Reversed(items: seq<nat>): (r: seq<nat>)
    ensures |r| == |items|
  {
    if items == [] then [] else [items[|items| - 1]] + Reversed(items[..|items| - 1])
  }

  predicate ManualFree(inputs: seq<LinearSagaInput>) {
    forall i :: 0 <= i < |inputs| ==> !inputs[i].ManualResolution?
  }

  ghost function PostAll(ledger: Ledger, ops: seq<StackOp>): Ledger {
    if ops == [] then ledger else Post(ledger, ops[0])
  }

  // The stack operation a move performs.
  ghost function OpsOfMove(d: LinearSagaDefinition, p: LinearSagaProjection, move: Move): seq<StackOp>
    requires p.nextStepIndex < |d.steps|
  {
    if (move.Advance? || move.Finish?) && d.steps[p.nextStepIndex].compensation.Some? then [Push(p.nextStepIndex)]
    else if move.UndoNext? || move.UndoLast? then [Pop]
    else []
  }

  lemma MoveMovesStack(d: LinearSagaDefinition, p: LinearSagaProjection, q: LinearSagaProjection, move: Move)
    requires Took(d, p, q, move)
    ensures Moves(d, p, q, OpsOfMove(d, p, move))
  {
  }

  // How one accepted input may move the stack and the step index.
  ghost predicate Moves(d: LinearSagaDefinition, p: LinearSagaProjection, q: LinearSagaProjection, ops: seq<StackOp>) {
    && |ops| <= 1
    && q.compensableStepIndices == PostAll(Ledger(p.compensableStepIndices, []), ops).stack
    && p.nextStepIndex <= q.nextStepIndex <= |d.steps|
    && (if ops != [] && ops[0].Push?
        then && p.status == Running && ops[0].step == p.nextStepIndex
             && CompensableBelow(d, q.nextStepIndex) == CompensableBelow(d, p.nextStepIndex) + [ops[0].step]
        else CompensableBelow(d, q.nextStepIndex) == CompensableBelow(d, p.nextStepIndex))
    && (ops != [] && ops[0].Pop? ==> p.status == Compensating && p.compensableStepIndices != [])
  }

  lemma StepMoves(s: Instance, decision: SagaDecision, input: LinearSagaInput, after: SagaDecision)
    requires Consistent(s, decision)
    requires Decide(s, Some(decision.projection), input) == Ok(after)
    ensures Moves(s.definition, decision.projection, after.projection, OpsFor(s, Some(decision), input))
    ensures !input.ManualResolution? && decision.projection.status != Running ==> after.projection.status != Running
  {
    var move := EveryInputIsAMove(s, decision, input, after);
    MoveMovesStack(s.definition, decision.projection, after.projection, move);
  }

  // The ledger accounts for every compensable step before the current one.
  ghost predicate Accounts(d: LinearSagaDefinition, p: LinearSagaProjection, ledger: Ledger) {
    && p.nextStepIndex <= |d.steps|
    && p.compensableStepIndices == ledger.stack
    && multiset(CompensableBelow(d, p.nextStepIndex)) == multiset(ledger.stack) + multiset(ledger.undone)
  }

  // The ledger undoes strictly backwards, only after the last push.
  ghost predicate Backwards(d: LinearSagaDefinition, p: LinearSagaProjection, ledger: Ledger) {
    && p.nextStepIndex <= |d.steps|
    && (p.status == Running ==> ledger.undone == [])
    && CompensableBelow(d, p.nextStepIndex) == ledger.stack + Reversed(ledger.undone)
  }

  lemma MovesKeepAccounts(d: LinearSagaDefinition, p: LinearSagaProjection, q: LinearSagaProjection,
                          ops: seq<StackOp>, ledger: Ledger)
    requires Moves(d, p, q, ops) && Accounts(d, p, ledger)
    ensures Accounts(d, q, PostAll(ledger, ops))
  {
    if ops != [] && ops[0].Pop? {
      var n := |ledger.stack| - 1;
      assert ledger.stack == ledger.stack[..n] + [ledger.stack[n]];
    }
  }

  lemma ReversedSnoc(items: seq<nat>, last: nat)
    ensures Reversed(items + [last]) == [last] + Reversed(items)
  {
    assert (items + [last])[..|items|] == items;
  }

  lemma MoveLast(stack: seq<nat>, rest: seq<nat>)
    requires stack != []
    ensures stack + rest == stack[..|stack| - 1] + ([stack[|stack| - 1]] + rest)
  {
  }

  lemma PopKeepsBackwards(d: LinearSagaDefinition, n: nat, ledger: Ledger)
    requires n <= |d.steps| && CompensableBelow(d, n) == ledger.stack + Reversed(ledger.undone) && ledger.stack != []
    ensures CompensableBelow(d, n) == Post(ledger, Pop).stack + Reversed(Post(ledger, Pop).undone)
  {
    ReversedSnoc(ledger.undone, ledger.stack[|ledger.stack| - 1]);
    MoveLast(ledger.stack, Reversed(ledger.undone));
  }

  lemma PushKeepsBackwards(d: LinearSagaDefinition, n: nat, m: nat, ledger: Ledger, step: nat)
    requires n <= |d.steps| && m <= |d.steps| && CompensableBelow(d, m) == CompensableBelow(d, n) + [step]
    requires CompensableBelow(d, n) == ledger.stack + Reversed(ledger.undone) && ledger.undone == []
    ensures CompensableBelow(d, m) == Post(ledger, Push(step)).stack + Reversed(Post(ledger, Push(step)).undone)
  {
    assert Reversed(ledger.undone) == [];
    assert ledger.stack + [] == ledger.stack && (ledger.stack + [step]) + [] == ledger.stack + [step];
  }

  lemma MovesKeepBackwards(d: LinearSagaDefinition, p: LinearSagaProjection, q: LinearSagaProjection,
                           ops: seq<StackOp>, ledger: Ledger)
    requires Moves(d, p, q, ops) && Accounts(d, p, ledger) && Backwards(d, p, ledger)
    requires p.status != Running ==> q.status != Running
    ensures Backwards(d, q, PostAll(ledger, ops))
  {
    if ops != [] {
      match ops[0]
      case Pop => PopKeepsBackwards(d, p.nextStepIndex, ledger);
      case Push(step) => PushKeepsBackwards(d, p.nextStepIndex, q.nextStepIndex, ledger, step);
    }
  }

  lemma LedgerExtends(all: seq<StackOp>, ops: seq<StackOp>)
    requires |ops| <= 1
    ensures LedgerOf(all + ops) == PostAll(LedgerOf(all), ops)
  {
    if ops == [] {
      assert all + ops == all;
    } else {
      assert (all + ops)[..|all|] == all;
    }
  }

  lemma OpsOfLast(s: Instance, inputs: seq<LinearSagaInput>, decision: SagaDecision, prior: Option<SagaDecision>)
    requires Live(s, inputs) == Ok(Some(decision)) && inputs != []
    requires Live(s, inputs[..|inputs| - 1]) == Ok(prior)
    ensures LedgerOf(OpsOf(s, inputs))
         == PostAll(LedgerOf(OpsOf(s, inputs[..|inputs| - 1])), OpsFor(s, prior, inputs[|inputs| - 1]))
  {
    LedgerExtends(OpsOf(s, inputs[..|inputs| - 1]), OpsFor(s, prior, inputs[|inputs| - 1]));
  }

  lemma StartsAccounted(s: Instance, actionId: ActionId, decision: SagaDecision)
    requires StartSaga(s, actionId) == Ok(decision)
    ensures Accounts(s.definition, decision.projection, Ledger([], []))
    ensures Backwards(s.definition, decision.projection, Ledger([], []))
  {
  }

  // The recorded undo stack is what the observed successes leave behind: every
  // forward success with a declared compensation pushed, every compensation
  // success popped. Each such step is on the stack or was undone, once.
  lemma {:induction false} StackIsPushesLessPops(s: Instance, inputs: seq<LinearSagaInput>, decision: SagaDecision)
    requires Live(s, inputs) == Ok(Some(decision))
    ensures Accounts(s.definition, decision.projection, LedgerOf(OpsOf(s, inputs)))
  {
    var prior := LastStep(s, inputs, decision);
    var before, input := inputs[..|inputs| - 1], inputs[|inputs| - 1];
    OpsOfLast(s, inputs, decision, prior);
    if prior.None? {
      StartsAccounted(s, input.startActionId, decision);
    } else {
      StackIsPushesLessPops(s, before, prior.value);
      RunsStayConsistent(s, before, prior.value);
      StepMoves(s, prior.value, input, decision);
      MovesKeepAccounts(s.definition, prior.value.projection, decision.projection,
                        OpsFor(s, prior, input), LedgerOf(OpsOf(s, before)));
    }
  }

  // Without manual resolutions the compensable steps are undone strictly from
  // the latest backwards, and none is pushed again once undoing has begun.
  lemma {:induction false} UndoneInReverse(s: Instance, inputs: seq<LinearSagaInput>, decision: SagaDecision)
    requires Live(s, inputs) == Ok(Some(decision)) && ManualFree(inputs)
    ensures Backwards(s.definition, decision.projection, LedgerOf(OpsOf(s, inputs)))
  {
    var prior := LastStep(s, inputs, decision);
    var before, input := inputs[..|inputs| - 1], inputs[|inputs| - 1];
    OpsOfLast(s, inputs, decision, prior);
    if prior.None? {
      StartsAccounted(s, input.startActionId, decision);
    } else {
      UndoneInReverse(s, before, prior.value);
      RunsStayConsistent(s, before, prior.value);
      StackIsPushesLessPops(s, before, prior.value);
      StepMoves(s, prior.value, input, decision);
      MovesKeepBackwards(s.definition, prior.value.projection, decision.projection,
                         OpsFor(s, prior, input), LedgerOf(OpsOf(s, before)));
    }
  }

  // A manual-free run that ends compensated has undone every completed step
  // that declares a compensation, exactly once, in exact reverse order.
  lemma CompensatedMeansAllUndoneInReverse(s: Instance, inputs: seq<LinearSagaInput>, decision: SagaDecision)
    requires Live(s, inputs) == Ok(Some(decision)) && ManualFree(inputs)
    requires decision.projection.status == Compensated
    ensures decision.projection.nextStepIndex <= |s.definition.steps|
    ensures CompensableBelow(s.definition, decision.projection.nextStepIndex)
         == Reversed(LedgerOf(OpsOf(s, inputs)).undone)
  {
    RunsStayConsistent(s, inputs, decision);
    StackIsPushesLessPops(s, inputs, decision);
    UndoneInReverse(s, inputs, decision);
    EmptyStackMeansAllUndone(s.definition, decision.projection, LedgerOf(OpsOf(s, inputs)));
  }

  lemma EmptyStackMeansAllUndone(d: LinearSagaDefinition, p: LinearSagaProjection, ledger: Ledger)
    requires Backwards(d, p, ledger) && ledger.stack == []
    ensures CompensableBelow(d, p.nextStepIndex) == Reversed(ledger.undone)
  {
    assert [] + Reversed(ledger.undone) == Reversed(ledger.undone);
  }

  // The action runs the compensation declared by the given step.
  ghost predicate Compensates(action: ProcessAction, step: StepPlan) {
    && step.compensation.Some?
    && action.stepId == step.stepId
    && action.kind == step.compensation.value.actionKind
    && action.payloadDigest == step.compensation.value.payloadDigest
  }

  // The last entry exceeds every other.
  ghost predicate TopIsLatest(stack: seq<nat>) {
    stack != [] && forall i :: 0 <= i < |stack| - 1 ==> stack[i] < Top(stack)
  }

  lemma WorkTargetsTop(s: Instance, decision: SagaDecision)
    requires Consistent(s, decision) && decision.projection.status == Compensating
    ensures var stack := decision.projection.compensableStepIndices;
            && TopIsLatest(stack)
            && Top(stack) < decision.projection.nextStepIndex < |s.definition.steps|
            && decision.nextAction.Some?
            && Compensates(decision.nextAction.value, s.definition.steps[Top(stack)])
  {
  }

  // While compensating, the planned action is the declared compensation of the
  // latest completed step not yet undone, and never a timer.
  lemma CompensationTargetsLatestStep(s: Instance, inputs: seq<LinearSagaInput>, decision: SagaDecision) returns (stack: seq<nat>)
    requires Live(s, inputs) == Ok(Some(decision)) && decision.projection.status == Compensating
    ensures stack == LedgerOf(OpsOf(s, inputs)).stack && TopIsLatest(stack)
    ensures Top(stack) < decision.projection.nextStepIndex < |s.definition.steps|
    ensures decision.nextAction.Some?
    ensures Compensates(decision.nextAction.value, s.definition.steps[Top(stack)])
  {
    RunsStayConsistent(s, inputs, decision);
    StackIsPushesLessPops(s, inputs, decision);
    WorkTargetsTop(s, decision);
    stack := decision.projection.compensableStepIndices;
  }
}
