// Typed records of crates/penelope-domain: bounded integers, identifiers,
// digests, and the scope, action, outcome and input records built from them.
module Domain {
  import opened Wrappers

  const U16_MAX: int := 0xFFFF
  const U32_MAX: int := 0xFFFF_FFFF
  const U64_MAX: int := 0xFFFF_FFFF_FFFF_FFFF

  newtype byte = x: int | 0 <= x < 0x100
  type u16 = x: int | 0 <= x <= U16_MAX
  type u32 = x: int | 0 <= x <= U32_MAX
  type NonZeroU16 = x: int | 1 <= x <= U16_MAX witness 1
  type u64 = x: int | 0 <= x <= U64_MAX
  type NonZeroU32 = x: int | 1 <= x <= U32_MAX witness 1
  type NonZeroU64 = x: int | 1 <= x <= U64_MAX witness 1

  const MAX_IDENTIFIER_LENGTH: nat := 128
  const MAX_DEFINITION_STEPS: nat := 128
  const MAX_ACTION_ATTEMPTS_PER_STEP: nat := 64

  // Identifier text. Every identifier constructor of the source bounds it.
  type Text = t: seq<byte> | |t| <= MAX_IDENTIFIER_LENGTH witness []

  datatype TenantId = TenantId(text: Text)
  datatype ProcessId = ProcessId(text: Text)
  datatype DefinitionId = DefinitionId(text: Text)
  datatype DefinitionVersion = DefinitionVersion(text: Text)
  datatype StepId = StepId(text: Text)
  datatype InputId = InputId(text: Text)
  datatype OutcomeId = OutcomeId(text: Text)
  datatype ActionId = ActionId(text: Text)
  datatype PrincipalId = PrincipalId(text: Text)
  datatype CanonicalEventId = CanonicalEventId(text: Text)

  const DIGEST_LENGTH: nat := 32

  type ContentDigest = d: seq<byte> | |d| == DIGEST_LENGTH witness seq(32, _ => 0)

  type LogicalTime = u64

  datatype ProcessInputKind = CanonicalEventInput | TimerFiredInput | ManualResolutionInput | TaskEffectResultInput

  datatype ProcessOutcomeKind =
    | ProcessStarted | InputAccepted | ActionPlanned | ActionAttempted | CommandCommitted
    | ActionSucceeded | ActionFailed | ActionOutcomeUnknown | RetryScheduled | TimerFired
    | CompensationPlanned | ReviewOpened | ManualResolutionApplied | ProcessCompleted
    | ProcessCancelled | ProcessCompensated | ProcessEscalated

  datatype ProcessActionKind = CanonicalCommand | Timer | ExternalEffect | ManualReview

  datatype CausationId = InputCause(input: InputId) | ActionCause(action: ActionId)

  datatype OutcomeActor = System | Principal(principal: PrincipalId)

  // Immutable identity and pinned definition of one process.
  datatype ProcessScope = ProcessScope(
    tenantId: TenantId,
    processId: ProcessId,
    definitionId: DefinitionId,
    definitionVersion: DefinitionVersion,
    definitionDigest: ContentDigest)

  // The five scope coordinates of the source's record are held as one scope.
  datatype ProcessAction = ProcessAction(
    scope: ProcessScope,
    actionId: ActionId,
    stepId: StepId,
    attempt: u32,
    kind: ProcessActionKind,
    payloadDigest: ContentDigest)

  // Semantic idempotency key of one effect attempt: everything but the action identity.
  datatype EffectKey = EffectKey(
    scope: ProcessScope,
    stepId: StepId,
    attempt: u32,
    kind: ProcessActionKind,
    payloadDigest: ContentDigest)

  function EffectKeyOf(action: ProcessAction): EffectKey {
    EffectKey(action.scope, action.stepId, action.attempt, action.kind, action.payloadDigest)
  }

  datatype ProcessOutcomeFact = ProcessOutcomeFact(
    outcomeId: OutcomeId,
    causationId: CausationId,
    actor: OutcomeActor,
    occurredAt: LogicalTime,
    kind: ProcessOutcomeKind,
    payloadDigest: ContentDigest)

  datatype ProcessOutcome = ProcessOutcome(scope: ProcessScope, sequence: u64, fact: ProcessOutcomeFact)

  datatype ProcessInput = ProcessInput(
    tenantId: TenantId,
    processId: ProcessId,
    inputId: InputId,
    kind: ProcessInputKind,
    payloadDigest: ContentDigest)

  datatype TimerSchedule = TimerSchedule(action: ProcessAction, dueAt: LogicalTime)

  // No two positions of the sequence hold the same value.
  ghost predicate Distinct<T>(s: seq<T>) {
    forall i, j :: 0 <= i < j < |s| ==> s[i] != s[j]
  }

  lemma {:induction false} DistinctFits<T>(s: seq<T>, universe: set<T>)
    requires Distinct(s) && forall i :: 0 <= i < |s| ==> s[i] in universe
    ensures |s| <= |universe|
  {
    if s != [] {
      var m := |s| - 1;
      forall i, j | 0 <= i < j < m ensures s[..m][i] != s[..m][j] {
      }
      DistinctFits(s[..m], universe - {s[m]});
    }
  }
}
