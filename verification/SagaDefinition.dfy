// Linear saga definitions: retry timing and definition validation
// (crates/penelope-executor/src/engine.rs).
module SagaDefinition {
  import opened Wrappers
  import opened Domain
  import opened TextOrder

  datatype RetryJitter = RetryJitter(maxJitterMillis: NonZeroU64)

  datatype RetryJitterSeed = RetryJitterSeed(digest: ContentDigest)

  datatype RetryBackoff = RetryBackoff(
    baseDelayMillis: NonZeroU64,
    maxDelayMillis: NonZeroU64,
    jitter: Option<RetryJitter>)

  datatype RetryPolicy = RetryPolicy(maxAttempts: NonZeroU32, backoff: Option<RetryBackoff>)

  datatype CompensationPlan = CompensationPlan(
    actionKind: ProcessActionKind,
    payloadDigest: ContentDigest,
    retryPolicy: RetryPolicy)

  datatype StepPlan = StepPlan(
    stepId: StepId,
    actionKind: ProcessActionKind,
    payloadDigest: ContentDigest,
    retryPolicy: RetryPolicy,
    compensation: Option<CompensationPlan>)

  datatype LinearSagaDefinition = LinearSagaDefinition(
    definitionId: DefinitionId,
    definitionVersion: DefinitionVersion,
    definitionDigest: ContentDigest,
    steps: seq<StepPlan>)

  datatype EngineError =
    | OutcomeInputCausationMismatch | OutcomeScopeMismatch | OutcomeSequenceOverflow
    | OutcomeKindPlanMismatch | RetryDueTimeOverflow | EmptyDefinition
    | DefinitionStepLimitExceeded | DuplicateStepId | RetryAttemptLimitExceeded
    | InvalidProjection | TerminalProjection | AttemptOverflow | UnexpectedAction
    | MissingNextAction | ReusedActionId | MissingStart | DuplicateStart | DuplicateInput
    | InvalidEventSequence | EventSequenceOverflow | DefinitionMismatch | MissingProjection
    | StartWithProjection | RetryTimerRequired | RetryTimerNotConfigured
    | RetryTimerNotRequired | RetryTimerRequiresRetryableFailure | RetryTimerMustFire
    | UnexpectedRetryTimer | RetryTimerFiredEarly | ManualResolutionRequiresEscalation

  // ---------------------------------------------------------------- retry timing

  // The mixing of seed and ordinal is left arbitrary; only its determinism and
  // the final remainder matter here.
  const JITTER_MIX: (ContentDigest, u32) -> u64

  function DeterministicJitter(policy: RetryJitter, seed: RetryJitterSeed, ordinal: u32): (jitter: u64)
    ensures 0 <= jitter < policy.maxJitterMillis
  {
    JITTER_MIX(seed.digest, ordinal) % policy.maxJitterMillis
  }

  // The base doubled `n` times, over unbounded integers.
  function Doubled(base: nat, n: nat): (r: nat)
    ensures r >= base
  {
    if n == 0 then base else 2 * Doubled(base, n - 1)
  }

  // `u64::checked_shl`: refused only for shifts of 64 or more; below that the
  // high bits are dropped without notice.
  function CheckedShl(x: u64, shift: u32): Option<u64> {
    if shift >= 64 then None else Some(Doubled(x, shift) % (U64_MAX + 1))
  }

  function CappedDelay(backoff: RetryBackoff, ordinal: u32): (delay: u64)
    ensures delay <= backoff.maxDelayMillis
  {
    var shifted := CheckedShl(backoff.baseDelayMillis, ordinal);
    var uncapped := if shifted.Some? then shifted.value else U64_MAX;
    if uncapped <= backoff.maxDelayMillis then uncapped else backoff.maxDelayMillis
  }

  function JitterOf(backoff: RetryBackoff, seed: RetryJitterSeed, ordinal: u32): (jitter: u64)
    ensures jitter == 0 || (backoff.jitter.Some? && jitter < backoff.jitter.value.maxJitterMillis)
  {
    match backoff.jitter
    case None => 0
    case Some(policy) => DeterministicJitter(policy, seed, ordinal)
  }

  function RetryDueAt(policy: RetryPolicy, now: LogicalTime, ordinal: u32, seed: RetryJitterSeed)
    : Result<Option<LogicalTime>, EngineError>
  {
    match policy.backoff
    case None => Ok(None)
    case Some(backoff) =>
      var delay := CappedDelay(backoff, ordinal);
      var jitter := JitterOf(backoff, seed, ordinal);
      if now + delay > U64_MAX then Err(RetryDueTimeOverflow)
      else if now + delay + jitter > U64_MAX then Err(RetryDueTimeOverflow)
      else Ok(Some(now + delay + jitter))
  }

  // The documented delay: the base doubled once per earlier retry, then capped.
  function DocumentedDelay(backoff: RetryBackoff, ordinal: nat): nat {
    var doubled := Doubled(backoff.baseDelayMillis, ordinal);
    if doubled <= backoff.maxDelayMillis then doubled else backoff.maxDelayMillis
  }

  lemma {:induction false} DoubledAdd(base: nat, m: nat, n: nat)
    ensures Doubled(base, m + n) == Doubled(Doubled(base, m), n)
    decreases n
  {
    if n > 0 {
      DoubledAdd(base, m, n - 1);
    }
  }

  lemma {:induction false} DoubledMonotone(a: nat, b: nat, n: nat)
    requires a <= b
    ensures Doubled(a, n) <= Doubled(b, n)
  {
    if n > 0 {
      DoubledMonotone(a, b, n - 1);
    }
  }

  lemma FourDoublings(base: nat)
    ensures Doubled(base, 4) == 16 * base
  {
    assert Doubled(base, 1) == 2 * base;
    assert Doubled(base, 2) == 4 * base;
    assert Doubled(base, 3) == 8 * base;
  }

  lemma SixteenDoublings(base: nat)
    ensures Doubled(base, 16) == 0x1_0000 * base
  {
    FourDoublings(base);
    DoubledAdd(base, 4, 4);
    FourDoublings(16 * base);
    DoubledAdd(base, 8, 4);
    FourDoublings(256 * base);
    DoubledAdd(base, 12, 4);
    FourDoublings(4096 * base);
  }

  lemma SixtyFourDoublings()
    ensures Doubled(1, 64) == Doubled(4, 62) == U64_MAX + 1
  {
    SixteenDoublings(1);
    DoubledAdd(1, 16, 16);
    SixteenDoublings(0x1_0000);
    DoubledAdd(1, 32, 16);
    SixteenDoublings(0x1_0000_0000);
    DoubledAdd(1, 48, 16);
    SixteenDoublings(0x1_0000_0000_0000);
    DoubledAdd(1, 2, 62);
    assert Doubled(1, 2) == 4;
  }

  lemma SixtyFourDoublingsOverflow(base: NonZeroU64, n: nat)
    requires n >= 64
    ensures Doubled(base, n) > U64_MAX
  {
    SixtyFourDoublings();
    DoubledMonotone(1, base, 64);
    DoubledAdd(base, 64, n - 64);
  }

  // The implemented delay is the documented one exactly when the shift loses no
  // bits, is refused outright, or leaves a remainder that the cap hides.
  lemma DelayIsDocumentedIff(backoff: RetryBackoff, ordinal: u32)
    ensures CappedDelay(backoff, ordinal) == DocumentedDelay(backoff, ordinal)
       <==> (|| ordinal >= 64
             || Doubled(backoff.baseDelayMillis, ordinal) <= U64_MAX
             || Doubled(backoff.baseDelayMillis, ordinal) % (U64_MAX + 1) >= backoff.maxDelayMillis)
  {
    if ordinal >= 64 {
      SixtyFourDoublingsOverflow(backoff.baseDelayMillis, ordinal);
    }
  }

  // Base 4 at ordinal 62 shifts every set bit out: the retry is due at once,
  // whatever the cap, where the documentation promises the capped delay.
  lemma ShiftedOutDelayIsZero(cap: NonZeroU64)
    requires 4 <= cap
    ensures CappedDelay(RetryBackoff(4, cap, None), 62) == 0
    ensures DocumentedDelay(RetryBackoff(4, cap, None), 62) == cap
  {
    SixtyFourDoublings();
  }

  // Doubling never shortens a delay as long as the later shift loses no bits,
  // and below the cap each further retry doubles it exactly.
  lemma DelayGrows(backoff: RetryBackoff, m: u32, n: u32)
    requires m <= n
    requires Doubled(backoff.baseDelayMillis, n) <= U64_MAX
    ensures CappedDelay(backoff, m) <= CappedDelay(backoff, n)
    ensures CappedDelay(backoff, n) < backoff.maxDelayMillis ==>
              CappedDelay(backoff, n) == Doubled(CappedDelay(backoff, m), n - m)
  {
    DoubledAdd(backoff.baseDelayMillis, m, n - m);
    DelayIsDocumentedIff(backoff, m);
    DelayIsDocumentedIff(backoff, n);
  }

  // While the doubled base is representable, a retry is due at the observation
  // plus the documented delay plus a jitter below its bound, and is refused
  // exactly when that sum leaves the time range.
  lemma RetryDueAtIsBounded(policy: RetryPolicy, now: LogicalTime, ordinal: u32, seed: RetryJitterSeed) returns (jitter: u64)
    requires policy.backoff.Some? && Doubled(policy.backoff.value.baseDelayMillis, ordinal) <= U64_MAX
    ensures var backoff := policy.backoff.value;
            var due := now + DocumentedDelay(backoff, ordinal) + jitter;
            && (if backoff.jitter.Some? then jitter < backoff.jitter.value.maxJitterMillis else jitter == 0)
            && (backoff.jitter.Some? ==> jitter == JITTER_MIX(seed.digest, ordinal) % backoff.jitter.value.maxJitterMillis)
            && RetryDueAt(policy, now, ordinal, seed) == if due <= U64_MAX then Ok(Some(due)) else Err(RetryDueTimeOverflow)
  {
    jitter := JitterOf(policy.backoff.value, seed, ordinal);
    DelayIsDocumentedIff(policy.backoff.value, ordinal);
  }

  // --------------------------------------------------------- definition validity

  predicate UniqueStepIds(steps: seq<StepPlan>) {
    forall i, j :: 0 <= i < j < |steps| ==> steps[i].stepId != steps[j].stepId
  }

  predicate WithinAttemptLimit(step: StepPlan) {
    && step.retryPolicy.maxAttempts <= MAX_ACTION_ATTEMPTS_PER_STEP
    && (step.compensation.Some? ==>
          step.compensation.value.retryPolicy.maxAttempts <= MAX_ACTION_ATTEMPTS_PER_STEP)
  }

  predicate ValidDefinition(d: LinearSagaDefinition) {
    && 1 <= |d.steps| <= MAX_DEFINITION_STEPS
    && UniqueStepIds(d.steps)
    && forall i :: 0 <= i < |d.steps| ==> WithinAttemptLimit(d.steps[i])
  }

  // What validation reports, in the order the source checks.
  function ValidationOf(d: LinearSagaDefinition): (r: Result<(), EngineError>)
    ensures r.Ok? <==> ValidDefinition(d)
    ensures r.Err? ==> r.error in {EmptyDefinition, DefinitionStepLimitExceeded, DuplicateStepId, RetryAttemptLimitExceeded}
  {
    if |d.steps| == 0 then Err(EmptyDefinition)
    else if |d.steps| > MAX_DEFINITION_STEPS then Err(DefinitionStepLimitExceeded)
    else if !UniqueStepIds(d.steps) then Err(DuplicateStepId)
    else if exists i :: 0 <= i < |d.steps| && !WithinAttemptLimit(d.steps[i]) then Err(RetryAttemptLimitExceeded)
    else Ok(())
  }

  // What each error of validation means, in the order they take precedence.
  predicate DefinitionBlames(d: LinearSagaDefinition, e: EngineError) {
    match e
    case EmptyDefinition => d.steps == []
    case DefinitionStepLimitExceeded => |d.steps| > 128
    case DuplicateStepId =>
      1 <= |d.steps| <= 128 && exists i, j :: 0 <= i < j < |d.steps| && d.steps[i].stepId == d.steps[j].stepId
    case RetryAttemptLimitExceeded =>
      && 1 <= |d.steps| <= 128 && UniqueStepIds(d.steps)
      && exists i :: 0 <= i < |d.steps|
           && (d.steps[i].retryPolicy.maxAttempts > 64
               || (d.steps[i].compensation.Some? && d.steps[i].compensation.value.retryPolicy.maxAttempts > 64))
    case _ => false
  }

  // Validation reports an error exactly when the definition is to blame for it.
  lemma ValidationSays(d: LinearSagaDefinition, e: EngineError)
    ensures ValidationOf(d) == Err(e) <==> DefinitionBlames(d, e)
  {
  }

  function TextOf(id: StepId): seq<byte> {
    id.text
  }

  // The scratch path for 17 to 128 steps: strict descent proves uniqueness
  // without sorting; otherwise sort and compare neighbours.
  method LargeLinearStepsHaveDuplicateIds(steps: seq<StepPlan>) returns (r: Result<bool, EngineError>)
    ensures |steps| == 0 ==> r == Err(EmptyDefinition)
    ensures |steps| > MAX_DEFINITION_STEPS ==> r == Err(DefinitionStepLimitExceeded)
    ensures 1 <= |steps| <= MAX_DEFINITION_STEPS ==> r.Ok? && (r.value <==> !UniqueStepIds(steps))
  {
    if |steps| == 0 {
      return Err(EmptyDefinition);
    }
    if |steps| > MAX_DEFINITION_STEPS {
      return Err(DefinitionStepLimitExceeded);
    }
    var ids := new StepId[MAX_DEFINITION_STEPS](_ => steps[0].stepId);
    var n := |steps|;
    for i := 0 to n
      invariant forall k :: 0 <= k < i ==> ids[k] == steps[k].stepId
    {
      ids[i] := steps[i].stepId;
    }
    var descending := true;
    var i := 1;
    while descending && i < n
      invariant 1 <= i <= n
      invariant descending ==> forall k :: 1 <= k < i ==> Less(ids[k].text, ids[k - 1].text)
    {
      descending := Less(ids[i].text, ids[i - 1].text);
      i := i + 1;
    }
    if descending {
      StrictDescentIsUnique(steps);
      return Ok(false);
    }
    ghost var before := ids[..n];
    SortUnstableBy(ids, n, TextOf);
    NeighboursDecideDuplicates(steps, before, ids[..n]);
    var duplicate := HasEqualNeighbours(ids, n);
    return Ok(duplicate);
  }

  ghost predicate EqualNeighbours<T>(s: seq<T>) {
    exists k :: 1 <= k < |s| && s[k - 1] == s[k]
  }

  method HasEqualNeighbours(ids: array<StepId>, n: nat) returns (equal: bool)
    requires n <= ids.Length
    ensures equal <==> EqualNeighbours(ids[..n])
  {
    equal := false;
    var i := 1;
    while !equal && i < n
      invariant i >= 1
      invariant equal <==> exists k :: 1 <= k < i && k < n && ids[..n][k - 1] == ids[..n][k]
    {
      equal := ids[i - 1] == ids[i];
      assert equal <==> ids[..n][i - 1] == ids[..n][i];
      i := i + 1;
    }
  }

  lemma StrictDescentIsUnique(steps: seq<StepPlan>)
    requires forall k :: 1 <= k < |steps| ==> Less(steps[k].stepId.text, steps[k - 1].stepId.text)
    ensures UniqueStepIds(steps)
  {
    forall i, j | 0 <= i < j < |steps| ensures steps[i].stepId != steps[j].stepId {
      DescentIsTransitive(steps, i, j);
      LessIrreflexive(steps[i].stepId.text);
    }
  }

  lemma {:induction false} DescentIsTransitive(steps: seq<StepPlan>, i: nat, j: nat)
    requires forall k :: 1 <= k < |steps| ==> Less(steps[k].stepId.text, steps[k - 1].stepId.text)
    requires i < j < |steps|
    ensures Less(steps[j].stepId.text, steps[i].stepId.text)
    decreases j
  {
    if i + 1 < j {
      DescentIsTransitive(steps, i, j - 1);
      LessTransitive(steps[j].stepId.text, steps[j - 1].stepId.text, steps[i].stepId.text);
    }
  }

  lemma NeighboursDecideDuplicates(steps: seq<StepPlan>, ids: seq<StepId>, sorted: seq<StepId>)
    requires |ids| == |steps| == |sorted|
    requires forall k :: 0 <= k < |ids| ==> ids[k] == steps[k].stepId
    requires multiset(sorted) == multiset(ids) && SortedBy(sorted, TextOf)
    ensures EqualNeighbours(sorted) <==> !UniqueStepIds(steps)
  {
    RepeatsAreCounted(ids);
    RepeatsAreCounted(sorted);
    if exists i, j :: 0 <= i < j < |sorted| && sorted[i] == sorted[j] {
      var i, j :| 0 <= i < j < |sorted| && sorted[i] == sorted[j];
      EqualKeysAreAdjacent(sorted, TextOf, i, j);
      assert sorted[(i + 1) - 1] == sorted[i + 1];
    }
    if !Distinct(ids) {
      var i, j :| 0 <= i < j < |ids| && ids[i] == ids[j];
      assert steps[i].stepId == steps[j].stepId;
    } else {
      forall i, j | 0 <= i < j < |steps| ensures steps[i].stepId != steps[j].stepId {
        assert ids[i] != ids[j];
      }
    }
  }

  lemma RepeatCountsTwice<T>(s: seq<T>, i: nat, j: nat)
    requires i < j < |s| && s[i] == s[j]
    ensures multiset(s)[s[i]] >= 2
  {
    assert s == s[..i] + [s[i]] + s[i + 1..j] + [s[j]] + s[j + 1..];
  }

  lemma SingleCountsOne<T>(s: seq<T>, i: nat)
    requires Distinct(s) && i < |s|
    ensures multiset(s)[s[i]] == 1
  {
    assert s == s[..i] + [s[i]] + s[i + 1..];
    assert s[i] !in s[..i] && s[i] !in s[i + 1..];
  }

  // Distinctness is a property of the multiset of elements alone.
  lemma RepeatsAreCounted<T>(s: seq<T>)
    ensures Distinct(s) <==> forall x :: x in multiset(s) ==> multiset(s)[x] == 1
  {
    if Distinct(s) {
      forall x | x in multiset(s) ensures multiset(s)[x] == 1 {
        var i :| 0 <= i < |s| && s[i] == x;
        SingleCountsOne(s, i);
      }
    } else {
      var i, j :| 0 <= i < j < |s| && s[i] == s[j];
      RepeatCountsTwice(s, i, j);
    }
  }

  // The imperative validator: pairwise scan up to 16 steps, scratch sort above.
  method Validate(d: LinearSagaDefinition) returns (r: Result<(), EngineError>)
    ensures r == ValidationOf(d)
  {
    var n := |d.steps|;
    var duplicate := false;
    if n == 0 {
      return Err(EmptyDefinition);
    } else if n <= 16 {
      var i := 0;
      while !duplicate && i < n
        invariant 0 <= i <= n
        invariant !duplicate ==> forall a, b :: 0 <= a < i && a < b < n ==> d.steps[a].stepId != d.steps[b].stepId
        invariant duplicate ==> !UniqueStepIds(d.steps)
      {
        var j := i + 1;
        while !duplicate && j < n
          invariant i + 1 <= j <= n
          invariant !duplicate ==> forall b :: i < b < j ==> d.steps[i].stepId != d.steps[b].stepId
          invariant duplicate ==> !UniqueStepIds(d.steps)
        {
          duplicate := d.steps[i].stepId == d.steps[j].stepId;
          j := j + 1;
        }
        i := i + 1;
      }
    } else if n <= MAX_DEFINITION_STEPS {
      var large := LargeLinearStepsHaveDuplicateIds(d.steps);
      duplicate := large.value;
    } else {
      return Err(DefinitionStepLimitExceeded);
    }
    if duplicate {
      return Err(DuplicateStepId);
    }
    for i := 0 to n
      invariant forall k :: 0 <= k < i ==> WithinAttemptLimit(d.steps[k])
    {
      if !WithinAttemptLimit(d.steps[i]) {
        return Err(RetryAttemptLimitExceeded);
      }
    }
    return Ok(());
  }
}
