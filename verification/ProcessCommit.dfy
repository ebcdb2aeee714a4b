// One atomic process commit and its receipt
// (crates/penelope-ports/src/implementation.rs).
module ProcessCommit {
  import opened Wrappers
  import opened Domain
  import opened OutcomeLogs

  const MAX_OUTCOMES_PER_ATOMIC_COMMIT: nat := 128
  const MAX_ACTIONS_PER_ATOMIC_COMMIT: nat := 128

  datatype AtomicProcessCommit = AtomicProcessCommit(
    expectedSequence: u64,
    input: Option<ProcessInput>,
    canonicalSourceEventId: Option<CanonicalEventId>,
    outcomes: seq<ProcessOutcome>,
    actions: seq<ProcessAction>)

  datatype CommitError =
    | EmptyOutcomes | OutcomeLimitExceeded | OutcomeScopeMismatch | OutcomeNotContiguous | OutcomeRepeated | CommitOverflow
    | ActionLimitExceeded | ActionScopeMismatch | ActionRepeated | EffectKeyRepeated
    | InputScopeMismatch | CanonicalSourceWithoutInput | CanonicalSourceWithWrongInputKind | InputNotCausallyRecorded

  // Field by field, the coordinates that vary within one scope first.
  predicate SameEffectKey(a: ProcessAction, b: ProcessAction) {
    && a.stepId == b.stepId
    && a.attempt == b.attempt
    && a.kind == b.kind
    && a.payloadDigest == b.payloadDigest
    && a.scope.tenantId == b.scope.tenantId
    && a.scope.processId == b.scope.processId
    && a.scope.definitionId == b.scope.definitionId
    && a.scope.definitionVersion == b.scope.definitionVersion
    && a.scope.definitionDigest == b.scope.definitionDigest
  }

  lemma SameEffectKeyIsKeyEquality(a: ProcessAction, b: ProcessAction)
    ensures SameEffectKey(a, b) <==> EffectKeyOf(a) == EffectKeyOf(b)
  {
    assert a.scope == b.scope <==>
      && a.scope.tenantId == b.scope.tenantId && a.scope.processId == b.scope.processId
      && a.scope.definitionId == b.scope.definitionId && a.scope.definitionVersion == b.scope.definitionVersion
      && a.scope.definitionDigest == b.scope.definitionDigest;
  }

  ghost function OutcomeFault(c: AtomicProcessCommit, i: nat): Option<CommitError>
    requires i < |c.outcomes|
  {
    if c.outcomes[i].scope != c.outcomes[0].scope then Some(OutcomeScopeMismatch)
    else if c.outcomes[i].sequence != c.expectedSequence + i then Some(OutcomeNotContiguous)
    else if exists j :: i < j < |c.outcomes| && c.outcomes[j].fact.outcomeId == c.outcomes[i].fact.outcomeId then Some(OutcomeRepeated)
    else if c.expectedSequence + i == U64_MAX then Some(CommitOverflow)
    else None
  }

  ghost function FirstOutcomeFault(c: AtomicProcessCommit, n: nat): (fault: Option<CommitError>)
    requires n <= |c.outcomes|
    ensures fault.None? <==> forall i :: 0 <= i < n ==> OutcomeFault(c, i).None?
  {
    if n == 0 then None
    else
      var earlier := FirstOutcomeFault(c, n - 1);
      if earlier.Some? then earlier else OutcomeFault(c, n - 1)
  }

  ghost function ActionFault(c: AtomicProcessCommit, i: nat): Option<CommitError>
    requires c.outcomes != [] && i < |c.actions|
  {
    if c.actions[i].scope != c.outcomes[0].scope then Some(ActionScopeMismatch)
    else if exists j :: i < j < |c.actions| && c.actions[j].actionId == c.actions[i].actionId then Some(ActionRepeated)
    else if exists j :: i < j < |c.actions| && SameEffectKey(c.actions[i], c.actions[j]) then Some(EffectKeyRepeated)
    else None
  }

  ghost function FirstActionFault(c: AtomicProcessCommit, n: nat): (fault: Option<CommitError>)
    requires c.outcomes != [] && n <= |c.actions|
    ensures fault.None? <==> forall i :: 0 <= i < n ==> ActionFault(c, i).None?
  {
    if n == 0 then None
    else
      var earlier := FirstActionFault(c, n - 1);
      if earlier.Some? then earlier else ActionFault(c, n - 1)
  }

  predicate CausedBy(outcomes: seq<ProcessOutcome>, inputId: InputId) {
    exists i :: 0 <= i < |outcomes| && outcomes[i].fact.causationId == InputCause(inputId)
  }

  ghost function InputFault(c: AtomicProcessCommit): Option<CommitError>
    requires c.outcomes != []
  {
    var scope := c.outcomes[0].scope;
    if c.input.Some? && (c.input.value.tenantId != scope.tenantId || c.input.value.processId != scope.processId)
    then Some(InputScopeMismatch)
    else if c.canonicalSourceEventId.Some? && c.input.None? then Some(CanonicalSourceWithoutInput)
    else if c.canonicalSourceEventId.Some? && c.input.value.kind != CanonicalEventInput then Some(CanonicalSourceWithWrongInputKind)
    else if c.input.Some? && !CausedBy(c.outcomes, c.input.value.inputId) then Some(InputNotCausallyRecorded)
    else None
  }

  // The first violation in the order the source checks.
  ghost function CommitFault(c: AtomicProcessCommit): Option<CommitError> {
    if c.outcomes == [] then Some(EmptyOutcomes)
    else if |c.outcomes| > MAX_OUTCOMES_PER_ATOMIC_COMMIT then Some(OutcomeLimitExceeded)
    else
      var outcomes := FirstOutcomeFault(c, |c.outcomes|);
      if outcomes.Some? then outcomes
      else if |c.actions| > MAX_ACTIONS_PER_ATOMIC_COMMIT then Some(ActionLimitExceeded)
      else
        var actions := FirstActionFault(c, |c.actions|);
        if actions.Some? then actions else InputFault(c)
  }

  // ------------------------------------------------------------ what an error says

  // A later outcome has the identity of outcome `i`.
  predicate RecursLater(c: AtomicProcessCommit, i: nat)
    requires i < |c.outcomes|
  {
    exists j :: i < j < |c.outcomes| && c.outcomes[j].fact.outcomeId == c.outcomes[i].fact.outcomeId
  }

  // What this error says of outcome `i`.
  predicate OutcomeBlames(c: AtomicProcessCommit, i: nat, e: CommitError)
    requires i < |c.outcomes|
  {
    var o := c.outcomes[i];
    match e
    case OutcomeScopeMismatch => o.scope != c.outcomes[0].scope
    case OutcomeNotContiguous => o.scope == c.outcomes[0].scope && o.sequence != c.expectedSequence + i
    case OutcomeRepeated => o.scope == c.outcomes[0].scope && o.sequence == c.expectedSequence + i && RecursLater(c, i)
    case CommitOverflow =>
      o.scope == c.outcomes[0].scope && o.sequence == c.expectedSequence + i && !RecursLater(c, i) && o.sequence == U64_MAX
    case _ => false
  }

  predicate OutcomeIsFine(c: AtomicProcessCommit, i: nat)
    requires i < |c.outcomes|
  {
    var o := c.outcomes[i];
    o.scope == c.outcomes[0].scope && o.sequence == c.expectedSequence + i && !RecursLater(c, i) && o.sequence < U64_MAX
  }

  // A later action has the identity, or the effect, of action `i`.
  predicate ActionRecurs(c: AtomicProcessCommit, i: nat)
    requires i < |c.actions|
  {
    exists j :: i < j < |c.actions| && c.actions[j].actionId == c.actions[i].actionId
  }

  predicate EffectRecurs(c: AtomicProcessCommit, i: nat)
    requires i < |c.actions|
  {
    exists j :: i < j < |c.actions| && EffectKeyOf(c.actions[i]) == EffectKeyOf(c.actions[j])
  }

  // What this error says of action `i`.
  predicate ActionBlames(c: AtomicProcessCommit, i: nat, e: CommitError)
    requires c.outcomes != [] && i < |c.actions|
  {
    var a := c.actions[i];
    match e
    case ActionScopeMismatch => a.scope != c.outcomes[0].scope
    case ActionRepeated => a.scope == c.outcomes[0].scope && ActionRecurs(c, i)
    case EffectKeyRepeated => a.scope == c.outcomes[0].scope && !ActionRecurs(c, i) && EffectRecurs(c, i)
    case _ => false
  }

  predicate ActionIsFine(c: AtomicProcessCommit, i: nat)
    requires c.outcomes != [] && i < |c.actions|
  {
    c.actions[i].scope == c.outcomes[0].scope && !ActionRecurs(c, i) && !EffectRecurs(c, i)
  }

  lemma OutcomeFaultSays(c: AtomicProcessCommit, i: nat, e: CommitError)
    requires i < |c.outcomes|
    ensures OutcomeFault(c, i) == Some(e) <==> OutcomeBlames(c, i, e)
    ensures OutcomeFault(c, i).None? <==> OutcomeIsFine(c, i)
  {
  }

  lemma ActionFaultSays(c: AtomicProcessCommit, i: nat, e: CommitError)
    requires c.outcomes != [] && i < |c.actions|
    ensures ActionFault(c, i) == Some(e) <==> ActionBlames(c, i, e)
    ensures ActionFault(c, i).None? <==> ActionIsFine(c, i)
  {
    forall j | i < j < |c.actions| ensures SameEffectKey(c.actions[i], c.actions[j]) <==> EffectKeyOf(c.actions[i]) == EffectKeyOf(c.actions[j]) {
      SameEffectKeyIsKeyEquality(c.actions[i], c.actions[j]);
    }
  }

  predicate FirstOutcomeBlamed(c: AtomicProcessCommit, i: nat, e: CommitError)
    requires i < |c.outcomes|
  {
    (forall j :: 0 <= j < i ==> OutcomeIsFine(c, j)) && OutcomeBlames(c, i, e)
  }

  predicate FirstActionBlamed(c: AtomicProcessCommit, i: nat, e: CommitError)
    requires c.outcomes != [] && i < |c.actions|
  {
    (forall j :: 0 <= j < i ==> ActionIsFine(c, j)) && ActionBlames(c, i, e)
  }

  lemma {:induction false} FirstOutcomeFaultSays(c: AtomicProcessCommit, n: nat, e: CommitError)
    requires n <= |c.outcomes|
    ensures FirstOutcomeFault(c, n) == Some(e) <==> exists i :: 0 <= i < n && FirstOutcomeBlamed(c, i, e)
    ensures FirstOutcomeFault(c, n).None? <==> forall i :: 0 <= i < n ==> OutcomeIsFine(c, i)
  {
    if n > 0 {
      FirstOutcomeFaultSays(c, n - 1, e);
      OutcomeFaultSays(c, n - 1, e);
      if FirstOutcomeFault(c, n - 1).None? {
        assert FirstOutcomeBlamed(c, n - 1, e) <==> OutcomeBlames(c, n - 1, e);
        assert forall i :: 0 <= i < n - 1 ==> !FirstOutcomeBlamed(c, i, e);
      } else {
        assert !FirstOutcomeBlamed(c, n - 1, e);
      }
    }
  }

  lemma {:induction false} FirstActionFaultSays(c: AtomicProcessCommit, n: nat, e: CommitError)
    requires c.outcomes != [] && n <= |c.actions|
    ensures FirstActionFault(c, n) == Some(e) <==> exists i :: 0 <= i < n && FirstActionBlamed(c, i, e)
    ensures FirstActionFault(c, n).None? <==> forall i :: 0 <= i < n ==> ActionIsFine(c, i)
  {
    if n > 0 {
      FirstActionFaultSays(c, n - 1, e);
      ActionFaultSays(c, n - 1, e);
      if FirstActionFault(c, n - 1).None? {
        assert FirstActionBlamed(c, n - 1, e) <==> ActionBlames(c, n - 1, e);
        assert forall i :: 0 <= i < n - 1 ==> !FirstActionBlamed(c, i, e);
      } else {
        assert !FirstActionBlamed(c, n - 1, e);
      }
    }
  }

  predicate OutcomesAreFine(c: AtomicProcessCommit) {
    1 <= |c.outcomes| <= 128 && forall i :: 0 <= i < |c.outcomes| ==> OutcomeIsFine(c, i)
  }

  predicate ActionsAreFine(c: AtomicProcessCommit) {
    OutcomesAreFine(c) && |c.actions| <= 128 && forall i :: 0 <= i < |c.actions| ==> ActionIsFine(c, i)
  }

  predicate InputIsOwned(c: AtomicProcessCommit)
    requires c.outcomes != []
  {
    c.input.Some? ==> c.input.value.tenantId == c.outcomes[0].scope.tenantId && c.input.value.processId == c.outcomes[0].scope.processId
  }

  predicate SourceIsCanonical(c: AtomicProcessCommit) {
    c.canonicalSourceEventId.Some? ==> c.input.Some? && c.input.value.kind == CanonicalEventInput
  }

  // What each error of validation means, in the order they take precedence.
  predicate CommitBlames(c: AtomicProcessCommit, e: CommitError) {
    match e
    case EmptyOutcomes => c.outcomes == []
    case OutcomeLimitExceeded => |c.outcomes| > 128
    case ActionLimitExceeded => OutcomesAreFine(c) && |c.actions| > 128
    case InputScopeMismatch => ActionsAreFine(c) && !InputIsOwned(c)
    case CanonicalSourceWithoutInput => ActionsAreFine(c) && c.canonicalSourceEventId.Some? && c.input.None?
    case CanonicalSourceWithWrongInputKind =>
      ActionsAreFine(c) && InputIsOwned(c) && c.canonicalSourceEventId.Some? && c.input.Some? && c.input.value.kind != CanonicalEventInput
    case InputNotCausallyRecorded =>
      && ActionsAreFine(c) && InputIsOwned(c) && SourceIsCanonical(c) && c.input.Some?
      && forall i :: 0 <= i < |c.outcomes| ==> c.outcomes[i].fact.causationId != InputCause(c.input.value.inputId)
    case _ =>
      || (1 <= |c.outcomes| <= 128 && SomeOutcomeBlamed(c, e))
      || (OutcomesAreFine(c) && |c.actions| <= 128 && SomeActionBlamed(c, e))
  }

  predicate SomeOutcomeBlamed(c: AtomicProcessCommit, e: CommitError) {
    exists i :: 0 <= i < |c.outcomes| && FirstOutcomeBlamed(c, i, e)
  }

  predicate SomeActionBlamed(c: AtomicProcessCommit, e: CommitError)
    requires c.outcomes != []
  {
    exists i :: 0 <= i < |c.actions| && FirstActionBlamed(c, i, e)
  }

  lemma FineOutcomesAreNotBlamed(c: AtomicProcessCommit, e: CommitError)
    requires OutcomesAreFine(c)
    ensures !SomeOutcomeBlamed(c, e) && FirstOutcomeFault(c, |c.outcomes|).None?
  {
    FirstOutcomeFaultSays(c, |c.outcomes|, e);
    forall i | 0 <= i < |c.outcomes| ensures !FirstOutcomeBlamed(c, i, e) {
      assert OutcomeIsFine(c, i);
    }
  }

  lemma FineActionsAreNotBlamed(c: AtomicProcessCommit, e: CommitError)
    requires ActionsAreFine(c)
    ensures !SomeActionBlamed(c, e) && FirstActionFault(c, |c.actions|).None?
  {
    FirstActionFaultSays(c, |c.actions|, e);
    forall i | 0 <= i < |c.actions| ensures !FirstActionBlamed(c, i, e) {
      assert ActionIsFine(c, i);
    }
  }

  lemma InputFaultSays(c: AtomicProcessCommit, e: CommitError)
    requires ActionsAreFine(c)
    ensures InputFault(c) == Some(e) <==> CommitBlames(c, e)
  {
    FineOutcomesAreNotBlamed(c, e);
    FineActionsAreNotBlamed(c, e);
  }

  // Validation reports an error exactly when the commit is to blame for it.
  lemma CommitFaultSays(c: AtomicProcessCommit, e: CommitError)
    ensures CommitFault(c) == Some(e) <==> CommitBlames(c, e)
  {
    FirstOutcomeFaultSays(c, |c.outcomes|, e);
    if OutcomesAreFine(c) {
      FineOutcomesAreNotBlamed(c, e);
      FirstActionFaultSays(c, |c.actions|, e);
      if ActionsAreFine(c) {
        FineActionsAreNotBlamed(c, e);
        InputFaultSays(c, e);
      }
    }
  }

  lemma {:induction false} OutcomeFaultStands(c: AtomicProcessCommit, i: nat, n: nat)
    requires i < n <= |c.outcomes| && FirstOutcomeFault(c, i).None? && OutcomeFault(c, i).Some?
    ensures FirstOutcomeFault(c, n) == OutcomeFault(c, i)
  {
    if i < n - 1 {
      OutcomeFaultStands(c, i, n - 1);
    }
  }

  lemma {:induction false} ActionFaultStands(c: AtomicProcessCommit, i: nat, n: nat)
    requires c.outcomes != [] && i < n <= |c.actions| && FirstActionFault(c, i).None? && ActionFault(c, i).Some?
    ensures FirstActionFault(c, n) == ActionFault(c, i)
  {
    if i < n - 1 {
      ActionFaultStands(c, i, n - 1);
    }
  }

  method ValidateOutcomes(c: AtomicProcessCommit) returns (fault: Option<CommitError>)
    requires c.outcomes != []
    ensures fault == FirstOutcomeFault(c, |c.outcomes|)
  {
    var scope := c.outcomes[0].scope;
    var expected: u64 := c.expectedSequence;
    for i := 0 to |c.outcomes|
      invariant expected == c.expectedSequence + i
      invariant FirstOutcomeFault(c, i).None?
    {
      fault := None;
      if c.outcomes[i].scope != scope {
        fault := Some(OutcomeScopeMismatch);
      } else if c.outcomes[i].sequence != expected {
        fault := Some(OutcomeNotContiguous);
      } else if exists j :: i < j < |c.outcomes| && c.outcomes[j].fact.outcomeId == c.outcomes[i].fact.outcomeId {
        fault := Some(OutcomeRepeated);
      } else if expected == U64_MAX {
        fault := Some(CommitOverflow);
      }
      assert fault == OutcomeFault(c, i);
      if fault.Some? {
        OutcomeFaultStands(c, i, |c.outcomes|);
        return;
      }
      expected := expected + 1;
    }
    return None;
  }

  method ValidateActions(c: AtomicProcessCommit) returns (fault: Option<CommitError>)
    requires c.outcomes != []
    ensures fault == FirstActionFault(c, |c.actions|)
  {
    for i := 0 to |c.actions|
      invariant FirstActionFault(c, i).None?
    {
      fault := None;
      if c.actions[i].scope != c.outcomes[0].scope {
        fault := Some(ActionScopeMismatch);
      } else if exists j :: i < j < |c.actions| && c.actions[j].actionId == c.actions[i].actionId {
        fault := Some(ActionRepeated);
      } else if exists j :: i < j < |c.actions| && SameEffectKey(c.actions[i], c.actions[j]) {
        fault := Some(EffectKeyRepeated);
      }
      assert fault == ActionFault(c, i);
      if fault.Some? {
        ActionFaultStands(c, i, |c.actions|);
        return;
      }
    }
    return None;
  }

  method ValidateCommit(c: AtomicProcessCommit) returns (fault: Option<CommitError>)
    ensures fault == CommitFault(c)
  {
    if c.outcomes == [] {
      return Some(EmptyOutcomes);
    }
    if |c.outcomes| > MAX_OUTCOMES_PER_ATOMIC_COMMIT {
      return Some(OutcomeLimitExceeded);
    }
    fault := ValidateOutcomes(c);
    if fault.Some? {
      return;
    }
    if |c.actions| > MAX_ACTIONS_PER_ATOMIC_COMMIT {
      return Some(ActionLimitExceeded);
    }
    fault := ValidateActions(c);
    if fault.Some? {
      return;
    }
    var scope := c.outcomes[0].scope;
    if c.input.Some? {
      if c.input.value.tenantId != scope.tenantId || c.input.value.processId != scope.processId {
        return Some(InputScopeMismatch);
      }
    }
    if c.canonicalSourceEventId.Some? {
      if c.input.None? {
        return Some(CanonicalSourceWithoutInput);
      }
      if c.input.value.kind != CanonicalEventInput {
        return Some(CanonicalSourceWithWrongInputKind);
      }
    }
    if c.input.Some? && !CausedBy(c.outcomes, c.input.value.inputId) {
      return Some(InputNotCausallyRecorded);
    }
    return None;
  }

  // ------------------------------------------------------- what acceptance means

  ghost predicate DistinctActions(actions: seq<ProcessAction>) {
    forall i, j :: 0 <= i < j < |actions| ==>
      actions[i].actionId != actions[j].actionId && EffectKeyOf(actions[i]) != EffectKeyOf(actions[j])
  }

  // Outcomes of one scope numbered from the expected sequence with distinct
  // identities, and with a representable successor.
  ghost predicate OutcomesInOrder(c: AtomicProcessCommit)
    requires c.outcomes != []
  {
    && Numbered(c.outcomes[0].scope, c.expectedSequence, c.outcomes)
    && DistinctOutcomeIds(c.outcomes)
    && c.expectedSequence + |c.outcomes| <= U64_MAX
  }

  ghost predicate ActionsInScope(c: AtomicProcessCommit)
    requires c.outcomes != []
  {
    && (forall i :: 0 <= i < |c.actions| ==> c.actions[i].scope == c.outcomes[0].scope)
    && DistinctActions(c.actions)
  }

  lemma OutcomesAcceptedIff(c: AtomicProcessCommit)
    requires c.outcomes != []
    ensures FirstOutcomeFault(c, |c.outcomes|).None? <==> OutcomesInOrder(c)
  {
    var n := |c.outcomes|;
    if FirstOutcomeFault(c, n).None? {
      forall i | 0 <= i < n
        ensures c.outcomes[i].scope == c.outcomes[0].scope && c.outcomes[i].sequence == c.expectedSequence + i
      {
        assert OutcomeFault(c, i).None?;
      }
      forall i, j | 0 <= i < j < n ensures c.outcomes[i].fact.outcomeId != c.outcomes[j].fact.outcomeId {
        assert OutcomeFault(c, i).None?;
      }
      assert OutcomeFault(c, n - 1).None? && c.outcomes[n - 1].sequence <= U64_MAX;
    } else {
      var i :| 0 <= i < n && OutcomeFault(c, i).Some?;
    }
  }

  lemma ActionsAcceptedIff(c: AtomicProcessCommit)
    requires c.outcomes != []
    ensures FirstActionFault(c, |c.actions|).None? <==> ActionsInScope(c)
  {
    var n := |c.actions|;
    forall i, j | 0 <= i < j < n ensures SameEffectKey(c.actions[i], c.actions[j]) <==> EffectKeyOf(c.actions[i]) == EffectKeyOf(c.actions[j]) {
      SameEffectKeyIsKeyEquality(c.actions[i], c.actions[j]);
    }
    if FirstActionFault(c, n).None? {
      forall i, j | 0 <= i < j < n
        ensures c.actions[i].actionId != c.actions[j].actionId && EffectKeyOf(c.actions[i]) != EffectKeyOf(c.actions[j])
      {
        assert ActionFault(c, i).None?;
      }
      forall i | 0 <= i < n ensures c.actions[i].scope == c.outcomes[0].scope {
        assert ActionFault(c, i).None?;
      }
    } else {
      var i :| 0 <= i < n && ActionFault(c, i).Some?;
    }
  }

  // A commit is accepted exactly when its outcomes are in order, its actions are
  // in scope and pairwise distinct by identity and by effect, and its input, if
  // any, belongs to the process and caused some outcome.
  lemma CommitAcceptedIff(c: AtomicProcessCommit)
    ensures CommitFault(c).None? <==>
              && 1 <= |c.outcomes| <= MAX_OUTCOMES_PER_ATOMIC_COMMIT && OutcomesInOrder(c)
              && |c.actions| <= MAX_ACTIONS_PER_ATOMIC_COMMIT && ActionsInScope(c)
              && (c.input.Some? ==>
                    && c.input.value.tenantId == c.outcomes[0].scope.tenantId && c.input.value.processId == c.outcomes[0].scope.processId
                    && exists i :: 0 <= i < |c.outcomes| && c.outcomes[i].fact.causationId == InputCause(c.input.value.inputId))
              && (c.canonicalSourceEventId.Some? ==> c.input.Some? && c.input.value.kind == CanonicalEventInput)
  {
    if c.outcomes != [] {
      OutcomesAcceptedIff(c);
      ActionsAcceptedIff(c);
    }
  }

  // Appending an accepted commit at the expected sequence to the log it was
  // made for succeeds exactly when its identities are new and the log has room.
  lemma AcceptedCommitAppendsIff(log: seq<ProcessOutcome>, c: AtomicProcessCommit)
    requires CommitFault(c).None? && c.expectedSequence == |log| && WellFormed(c.outcomes[0].scope, log)
    ensures AppendFault(c.outcomes[0].scope, log, c.outcomes).None?
       <==> IdsOf(log) !! IdsOf(c.outcomes) && |log| + |c.outcomes| <= MAX_OUTCOMES_PER_REPLAY_LOG
  {
    CommitAcceptedIff(c);
    AppendsIffWellFormed(c.outcomes[0].scope, log, c.outcomes);
    if IdsOf(log) !! IdsOf(c.outcomes) {
      ApartJoins(log, c.outcomes);
    } else {
      SharedRepeats(log, c.outcomes);
    }
  }

  lemma ApartJoins(log: seq<ProcessOutcome>, batch: seq<ProcessOutcome>)
    requires DistinctOutcomeIds(log) && DistinctOutcomeIds(batch) && IdsOf(log) !! IdsOf(batch)
    ensures DistinctOutcomeIds(log + batch)
  {
    var all := log + batch;
    forall i, j | 0 <= i < j < |all| ensures all[i].fact.outcomeId != all[j].fact.outcomeId {
      if i < |log| <= j {
        assert all[i] in log && all[j] in batch;
        assert all[i].fact.outcomeId in IdsOf(log) && all[j].fact.outcomeId in IdsOf(batch);
      } else if i >= |log| {
        assert batch[i - |log|].fact.outcomeId != batch[j - |log|].fact.outcomeId;
      }
    }
  }

  lemma SharedRepeats(log: seq<ProcessOutcome>, batch: seq<ProcessOutcome>)
    requires !(IdsOf(log) !! IdsOf(batch))
    ensures !DistinctOutcomeIds(log + batch)
  {
    var x :| x in IdsOf(log) && x in IdsOf(batch);
    var o :| o in log && o.fact.outcomeId == x;
    var q :| q in batch && q.fact.outcomeId == x;
    var i :| 0 <= i < |log| && log[i] == o;
    var j :| 0 <= j < |batch| && batch[j] == q;
    assert (log + batch)[i].fact.outcomeId == (log + batch)[|log| + j].fact.outcomeId;
  }

  // ------------------------------------------------------------------------ receipts

  datatype AtomicProcessCommitReceipt = AtomicProcessCommitReceipt(committedThroughSequence: u64, duplicateInput: bool)

  datatype ReceiptError = InvalidCommit | ReceiptSequenceMismatch | DuplicateInputWithoutInput

  ghost function ReceiptFault(receipt: AtomicProcessCommitReceipt, c: AtomicProcessCommit): Option<ReceiptError> {
    if CommitFault(c).Some? then Some(InvalidCommit)
    else if c.expectedSequence + (|c.outcomes| - 1) != receipt.committedThroughSequence then Some(ReceiptSequenceMismatch)
    else if receipt.duplicateInput && c.input.None? then Some(DuplicateInputWithoutInput)
    else None
  }

  // A receipt matches exactly when it names the last outcome's own sequence.
  lemma ReceiptNamesLastOutcome(receipt: AtomicProcessCommitReceipt, c: AtomicProcessCommit)
    requires CommitFault(c).None?
    ensures ReceiptFault(receipt, c).None?
       <==> && receipt.committedThroughSequence == c.outcomes[|c.outcomes| - 1].sequence
            && (receipt.duplicateInput ==> c.input.Some?)
  {
    CommitAcceptedIff(c);
  }
}
