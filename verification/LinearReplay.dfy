// Replay of the ordered event log, and its agreement with live decisions.
module LinearReplay {
  import opened Wrappers
  import opened Domain
  import opened SagaDefinition
  import opened Identifiers
  import opened LinearEngine

  function InputIds(events: seq<LinearSagaEvent>): set<InputId> {
    set e | e in events :: e.inputId
  }

  // One event applied to the decision replayed so far.
  function ReplayStep(s: Instance, prior: Option<SagaDecision>, event: LinearSagaEvent): Decided {
    match event
    case Started(_, definitionId, definitionVersion, definitionDigest, actionId) =>
      var d := s.definition;
      if prior.Some? then Err(DuplicateStart)
      else if definitionId != d.definitionId || definitionVersion != d.definitionVersion || definitionDigest != d.definitionDigest
      then Err(DefinitionMismatch)
      else StartSaga(s, actionId)
    case ActionResultObserved(_, observation, next) =>
      if prior.None? then Err(MissingStart)
      else ApplyActionResult(s, prior.value.projection, observation, next)
    case RetryTimerScheduled(_, request) =>
      if prior.None? then Err(MissingStart)
      else ScheduleRetryTimer(s, prior.value.projection, request)
    case RetryTimerFired(_, timer, firedAt, retry) =>
      if prior.None? then Err(MissingStart)
      else FireRetryTimer(s, prior.value.projection, timer, firedAt, retry)
    case ManualResolutionApplied(_, resolution, resume) =>
      if prior.None? then Err(MissingStart)
      else ApplyManualResolution(s, prior.value.projection, resolution, resume)
  }

  // The first failure along the log, or the decision after its last event.
  ghost function Replayed(s: Instance, events: seq<LinearSagaEvent>): Result<Option<SagaDecision>, EngineError> {
    if events == [] then Ok(None)
    else
      var before, event := events[..|events| - 1], events[|events| - 1];
      var prior :- Replayed(s, before);
      if event.inputId in InputIds(before) then Err(EngineError.DuplicateInput)
      else
        var decision :- ReplayStep(s, prior, event);
        Ok(Some(decision))
  }

  ghost function ReplayResult(s: Instance, events: seq<LinearSagaEvent>): Decided {
    var last :- Replayed(s, events);
    if last.None? then Err(MissingStart) else Ok(last.value)
  }

  lemma {:induction false} FirstFailureStands(s: Instance, events: seq<LinearSagaEvent>, n: nat)
    requires n <= |events| && Replayed(s, events[..n]).Err?
    ensures Replayed(s, events) == Replayed(s, events[..n])
  {
    if n < |events| {
      assert events[..|events| - 1][..n] == events[..n];
      FirstFailureStands(s, events[..|events| - 1], n);
    } else {
      assert events[..n] == events;
    }
  }

  lemma InputIdsGrow(events: seq<LinearSagaEvent>, i: nat)
    requires i < |events|
    ensures InputIds(events[..i + 1]) == InputIds(events[..i]) + {events[i].inputId}
  {
    assert events[..i + 1] == events[..i] + [events[i]];
  }

  lemma ReplayedNext(s: Instance, events: seq<LinearSagaEvent>, i: nat, prior: Option<SagaDecision>)
    requires i < |events| && Replayed(s, events[..i]) == Ok(prior)
    ensures Replayed(s, events[..i + 1])
         == if events[i].inputId in InputIds(events[..i]) then Err(EngineError.DuplicateInput)
            else match ReplayStep(s, prior, events[i])
                 case Ok(decision) => Ok(Some(decision))
                 case Err(e) => Err(e)
  {
    assert events[..i + 1][..i] == events[..i];
  }

  // How the fold over the first i + 1 events follows from the first i.
  lemma ReplayAdvances(s: Instance, events: seq<LinearSagaEvent>, i: nat, prior: Option<SagaDecision>)
    requires i < |events| && Replayed(s, events[..i]) == Ok(prior)
    ensures events[i].inputId in InputIds(events[..i]) ==>
              Replayed(s, events) == Err(EngineError.DuplicateInput)
    ensures events[i].inputId !in InputIds(events[..i]) ==>
              match ReplayStep(s, prior, events[i])
              case Ok(decision) => Replayed(s, events[..i + 1]) == Ok(Some(decision))
              case Err(e) => Replayed(s, events) == Err(e)
  {
    ReplayedNext(s, events, i, prior);
    if Replayed(s, events[..i + 1]).Err? {
      FirstFailureStands(s, events, i + 1);
    }
  }

  method Replay(s: Instance, events: seq<LinearSagaEvent>) returns (r: Decided)
    ensures r == ReplayResult(s, events)
  {
    var decision: Option<SagaDecision> := None;
    var accepted: set<InputId> := {};
    for i := 0 to |events|
      invariant Replayed(s, events[..i]) == Ok(decision)
      invariant accepted == InputIds(events[..i])
    {
      InputIdsGrow(events, i);
      ReplayAdvances(s, events, i, decision);
      if events[i].inputId in accepted {
        return Err(EngineError.DuplicateInput);
      }
      accepted := accepted + {events[i].inputId};
      var step := ReplayStep(s, decision, events[i]);
      if step.Err? {
        return Err(step.error);
      }
      decision := Some(step.value);
    }
    assert events[..|events|] == events;
    return if decision.None? then Err(MissingStart) else Ok(decision.value);
  }

  // ------------------------------------------------------------ sequenced replay

  ghost function EventsOf(envelopes: seq<LinearSagaEventEnvelope>): seq<LinearSagaEvent> {
    seq(|envelopes|, i requires 0 <= i < |envelopes| => envelopes[i].event)
  }

  ghost predicate Sequenced(envelopes: seq<LinearSagaEventEnvelope>) {
    forall i :: 0 <= i < |envelopes| ==> envelopes[i].sequence == i
  }

  // Accepts exactly the logs numbered 0, 1, 2, ... whose events replay, and
  // reports numbering faults before any event is interpreted. The successor of
  // the last sequence must itself be representable.
  method ReplayOrdered(s: Instance, envelopes: seq<LinearSagaEventEnvelope>) returns (r: Decided)
    ensures Sequenced(envelopes) && |envelopes| <= U64_MAX ==> r == ReplayResult(s, EventsOf(envelopes))
    ensures !Sequenced(envelopes) && |envelopes| <= U64_MAX ==> r == Err(InvalidEventSequence)
    ensures |envelopes| > U64_MAX ==> r.Err?
  {
    var expected: u64 := 0;
    var events: seq<LinearSagaEvent> := [];
    for i := 0 to |envelopes|
      invariant expected == i
      invariant Sequenced(envelopes[..i])
      invariant events == EventsOf(envelopes[..i])
    {
      if envelopes[i].sequence != expected {
        return Err(InvalidEventSequence);
      }
      if expected == U64_MAX {
        return Err(EventSequenceOverflow);
      }
      expected := expected + 1;
      events := events + [envelopes[i].event];
    }
    assert envelopes[..|envelopes|] == envelopes;
    r := Replay(s, events);
  }

  // ---------------------------------------------------------------- replay = live

  ghost function ToEvents(d: LinearSagaDefinition, inputs: seq<LinearSagaInput>): seq<LinearSagaEvent> {
    seq(|inputs|, i requires 0 <= i < |inputs| => ToEvent(d, inputs[i]))
  }

  ghost predicate DistinctInputIds(inputs: seq<LinearSagaInput>) {
    forall i, j :: 0 <= i < j < |inputs| ==> inputs[i].inputId != inputs[j].inputId
  }

  // A missing or a second start carries another name in a log than live.
  function AsReplayError(e: EngineError): EngineError {
    match e
    case StartWithProjection => DuplicateStart
    case MissingProjection => MissingStart
    case other => other
  }

  ghost function AsReplay<T>(r: Result<T, EngineError>): Result<T, EngineError> {
    match r
    case Ok(v) => Ok(v)
    case Err(e) => Err(AsReplayError(e))
  }

  // Apart from a misplaced start, no transition names these two failures.
  predicate StartFault<T>(r: Result<T, EngineError>) {
    r.Err? && (r.error == StartWithProjection || r.error == MissingProjection)
  }

  lemma ForwardHasNoStartFault(s: Instance, p: LinearSagaProjection, result: ActionResult, next: Option<ActionId>)
    ensures !StartFault(ApplyForwardResult(s, p, result, next))
    ensures !StartFault(BeginCompensation(s, p, next))
  {
  }

  lemma CompensationHasNoStartFault(s: Instance, p: LinearSagaProjection, result: ActionResult, next: Option<ActionId>)
    ensures !StartFault(ApplyCompensationResult(s, p, result, next))
  {
  }

  lemma ResultHasNoStartFault(s: Instance, p: LinearSagaProjection, observation: ActionResultObservation, next: Option<ActionId>)
    ensures !StartFault(ApplyActionResult(s, p, observation, next))
  {
    ForwardHasNoStartFault(s, p, observation.result, next);
    CompensationHasNoStartFault(s, p, observation.result, next);
  }

  lemma ScheduleHasNoStartFault(s: Instance, p: LinearSagaProjection, request: RetryTimerScheduleRequest)
    ensures !StartFault(ScheduleRetryTimer(s, p, request))
  {
    ForwardHasNoStartFault(s, p, request.observation.result, request.nextActionId);
  }

  lemma FiringHasNoStartFault(s: Instance, p: LinearSagaProjection, timer: ActionId, firedAt: LogicalTime, retry: ActionId)
    ensures !StartFault(FireRetryTimer(s, p, timer, firedAt, retry))
  {
  }

  lemma ManualHasNoStartFault(s: Instance, p: LinearSagaProjection, resolution: ManualReviewResolution, resume: Option<ActionId>)
    ensures !StartFault(ApplyManualResolution(s, p, resolution, resume))
  {
  }

  lemma StartHasNoStartFault(s: Instance, actionId: ActionId)
    ensures !StartFault(StartSaga(s, actionId))
  {
  }

  lemma DecideIsReplayStep(s: Instance, prior: Option<SagaDecision>, input: LinearSagaInput)
    ensures ReplayStep(s, prior, ToEvent(s.definition, input)) == AsReplay(Decide(s, ProjectionOf(prior), input))
  {
    match input
    case Start(_, actionId) =>
      StartHasNoStartFault(s, actionId);
    case ActionResultInput(_, observation, next) =>
      if prior.Some? { ResultHasNoStartFault(s, prior.value.projection, observation, next); }
    case RetryTimerScheduledInput(_, request) =>
      if prior.Some? { ScheduleHasNoStartFault(s, prior.value.projection, request); }
    case RetryTimerFiredInput(_, timer, firedAt, retry) =>
      if prior.Some? { FiringHasNoStartFault(s, prior.value.projection, timer, firedAt, retry); }
    case ManualResolution(_, resolution, resume) =>
      if prior.Some? { ManualHasNoStartFault(s, prior.value.projection, resolution, resume); }
  }

  // Folding `Decide` over distinct inputs and replaying their events succeed
  // together, with the same decision and corresponding failures.
  lemma {:induction false} ReplayEqualsLive(s: Instance, inputs: seq<LinearSagaInput>)
    requires DistinctInputIds(inputs)
    ensures Replayed(s, ToEvents(s.definition, inputs)) == AsReplay(Live(s, inputs))
  {
    if inputs != [] {
      var before, input := inputs[..|inputs| - 1], inputs[|inputs| - 1];
      var events := ToEvents(s.definition, inputs);
      ReplayEqualsLive(s, before);
      assert events[..|events| - 1] == ToEvents(s.definition, before);
      if Live(s, before).Ok? {
        forall e | e in ToEvents(s.definition, before) ensures e.inputId != input.inputId {
          var i :| 0 <= i < |before| && e == ToEvent(s.definition, before[i]);
          assert inputs[i].inputId != inputs[|before|].inputId;
        }
        DecideIsReplayStep(s, Live(s, before).value, input);
      }
    }
  }

  lemma PrefixReplays(s: Instance, events: seq<LinearSagaEvent>, n: nat)
    requires Replayed(s, events).Ok? && n <= |events|
    ensures Replayed(s, events[..n]).Ok?
  {
    if Replayed(s, events[..n]).Err? {
      FirstFailureStands(s, events, n);
    }
  }

  // Each event of an accepted log is new and applies to the decision before it.
  lemma EventApplies(s: Instance, events: seq<LinearSagaEvent>, i: nat) returns (prior: Option<SagaDecision>)
    requires Replayed(s, events).Ok? && i < |events|
    ensures events[i].inputId !in InputIds(events[..i])
    ensures Replayed(s, events[..i]) == Ok(prior) && ReplayStep(s, prior, events[i]).Ok?
  {
    PrefixReplays(s, events, i);
    PrefixReplays(s, events, i + 1);
    prior := Replayed(s, events[..i]).value;
    ReplayedNext(s, events, i, prior);
  }

  lemma NewIdDiffers(events: seq<LinearSagaEvent>, i: nat, j: nat)
    requires i < j < |events| && events[j].inputId !in InputIds(events[..j])
    ensures events[i].inputId != events[j].inputId
  {
    assert events[..j][i] in events[..j];
  }

  // A repeated input identity is always refused, and nothing after it runs.
  lemma AcceptedLogsHaveDistinctInputs(s: Instance, events: seq<LinearSagaEvent>)
    requires Replayed(s, events).Ok?
    ensures forall i, j :: 0 <= i < j < |events| ==> events[i].inputId != events[j].inputId
  {
    forall i, j | 0 <= i < j < |events| ensures events[i].inputId != events[j].inputId {
      var prior := EventApplies(s, events, j);
      NewIdDiffers(events, i, j);
    }
  }

  // The input an event records.
  ghost function FromEvent(event: LinearSagaEvent): LinearSagaInput {
    match event
    case Started(inputId, _, _, _, actionId) => Start(inputId, actionId)
    case ActionResultObserved(inputId, observation, next) => ActionResultInput(inputId, observation, next)
    case RetryTimerScheduled(inputId, request) => RetryTimerScheduledInput(inputId, request)
    case RetryTimerFired(inputId, timer, firedAt, retry) => RetryTimerFiredInput(inputId, timer, firedAt, retry)
    case ManualResolutionApplied(inputId, resolution, resume) => ManualResolution(inputId, resolution, resume)
  }

  ghost function FromEvents(events: seq<LinearSagaEvent>): seq<LinearSagaInput> {
    seq(|events|, i requires 0 <= i < |events| => FromEvent(events[i]))
  }

  lemma AcceptedEventRecordsItsInput(s: Instance, prior: Option<SagaDecision>, event: LinearSagaEvent)
    requires ReplayStep(s, prior, event).Ok?
    ensures ToEvent(s.definition, FromEvent(event)) == event
    ensures Decide(s, ProjectionOf(prior), FromEvent(event)) == ReplayStep(s, prior, event)
  {
  }

  lemma FromEventsPrefix(events: seq<LinearSagaEvent>, n: nat)
    requires n <= |events|
    ensures FromEvents(events)[..n] == FromEvents(events[..n])
  {
  }

  lemma {:induction false} AcceptedLogsRunLive(s: Instance, events: seq<LinearSagaEvent>)
    requires Replayed(s, events).Ok?
    ensures Live(s, FromEvents(events)) == Replayed(s, events)
  {
    if events != [] {
      var n := |events| - 1;
      PrefixReplays(s, events, n);
      AcceptedLogsRunLive(s, events[..n]);
      AcceptedEventRecordsItsInput(s, Replayed(s, events[..n]).value, events[n]);
      FromEventsPrefix(events, n);
    }
  }

  lemma AcceptedLogsRecordTheirInputs(s: Instance, events: seq<LinearSagaEvent>)
    requires Replayed(s, events).Ok?
    ensures ToEvents(s.definition, FromEvents(events)) == events
  {
    forall i | 0 <= i < |events| ensures ToEvents(s.definition, FromEvents(events))[i] == events[i] {
      var prior := EventApplies(s, events, i);
      AcceptedEventRecordsItsInput(s, prior, events[i]);
    }
  }

  // Every accepted log is the record of a live run of distinct inputs that
  // reaches the same decision, so facts about runs are facts about logs.
  lemma AcceptedLogsAreRuns(s: Instance, events: seq<LinearSagaEvent>)
    requires Replayed(s, events).Ok?
    ensures Live(s, FromEvents(events)) == Replayed(s, events)
    ensures ToEvents(s.definition, FromEvents(events)) == events
    ensures DistinctInputIds(FromEvents(events))
  {
    AcceptedLogsRunLive(s, events);
    AcceptedLogsRecordTheirInputs(s, events);
    AcceptedLogsHaveDistinctInputs(s, events);
  }

  // Accepted logs are closed under prefixes, and one more event is one more
  // step from the decision replayed before it.
  lemma ReplayIsIncremental(s: Instance, events: seq<LinearSagaEvent>, event: LinearSagaEvent)
    ensures Replayed(s, events + [event]).Ok?
       <==> && Replayed(s, events).Ok?
            && event.inputId !in InputIds(events)
            && ReplayStep(s, Replayed(s, events).value, event).Ok?
    ensures Replayed(s, events + [event]).Ok? ==>
              ReplayResult(s, events + [event]) == ReplayStep(s, Replayed(s, events).value, event)
  {
    assert (events + [event])[..|events|] == events;
  }

  // ------------------------------------------------------------------ recorded runs

  // A live run that a log can hold: no input identity occurs twice.
  ghost predicate Recorded(s: Instance, inputs: seq<LinearSagaInput>, decision: SagaDecision) {
    Live(s, inputs) == Ok(Some(decision)) && DistinctInputIds(inputs)
  }

  // These are exactly the runs whose log replays to the same decision.
  lemma RecordedIff(s: Instance, inputs: seq<LinearSagaInput>, decision: SagaDecision)
    ensures Recorded(s, inputs, decision) <==> ReplayResult(s, ToEvents(s.definition, inputs)) == Ok(decision)
  {
    var events := ToEvents(s.definition, inputs);
    if Replayed(s, events).Ok? {
      AcceptedLogsHaveDistinctInputs(s, events);
      forall i, j | 0 <= i < j < |inputs| ensures inputs[i].inputId != inputs[j].inputId {
        assert events[i].inputId != events[j].inputId;
      }
    }
    if DistinctInputIds(inputs) {
      ReplayEqualsLive(s, inputs);
    }
  }

  function WithId(input: LinearSagaInput, id: InputId): LinearSagaInput {
    match input
    case Start(_, actionId) => Start(id, actionId)
    case ActionResultInput(_, observation, next) => ActionResultInput(id, observation, next)
    case RetryTimerScheduledInput(_, request) => RetryTimerScheduledInput(id, request)
    case RetryTimerFiredInput(_, timer, firedAt, retry) => RetryTimerFiredInput(id, timer, firedAt, retry)
    case ManualResolution(_, resolution, resume) => ManualResolution(id, resolution, resume)
  }

  function WithIds(inputs: seq<LinearSagaInput>, ids: seq<InputId>): (named: seq<LinearSagaInput>)
    requires |ids| == |inputs|
    ensures |named| == |inputs|
  {
    seq(|inputs|, i requires 0 <= i < |inputs| => WithId(inputs[i], ids[i]))
  }

  lemma DecideIgnoresIds(s: Instance, p: Option<LinearSagaProjection>, input: LinearSagaInput, id: InputId)
    ensures Decide(s, p, WithId(input, id)) == Decide(s, p, input)
  {
  }

  lemma NamedPrefix(inputs: seq<LinearSagaInput>, ids: seq<InputId>, n: nat)
    requires |ids| == |inputs| && n <= |inputs|
    ensures WithIds(inputs, ids)[..n] == WithIds(inputs[..n], ids[..n])
  {
  }

  // Live decisions do not depend on input identities.
  lemma {:induction false} LiveIgnoresIds(s: Instance, inputs: seq<LinearSagaInput>, ids: seq<InputId>)
    requires |ids| == |inputs|
    ensures Live(s, WithIds(inputs, ids)) == Live(s, inputs)
  {
    if inputs != [] {
      var n := |inputs| - 1;
      LiveIgnoresIds(s, inputs[..n], ids[..n]);
      NamedPrefix(inputs, ids, n);
      if Live(s, inputs[..n]).Ok? {
        DecideIgnoresIds(s, ProjectionOf(Live(s, inputs[..n]).value), inputs[n], ids[n]);
      }
    }
  }

  lemma NamedApart(inputs: seq<LinearSagaInput>, ids: seq<InputId>)
    requires |ids| == |inputs| && Distinct(ids)
    ensures DistinctInputIds(WithIds(inputs, ids))
  {
    var named := WithIds(inputs, ids);
    forall i, j | 0 <= i < j < |inputs| ensures named[i].inputId != named[j].inputId {
      assert named[i].inputId == ids[i] && named[j].inputId == ids[j];
    }
  }

  // So any live run can be recorded under any identities that differ.
  lemma RecordedAs(s: Instance, inputs: seq<LinearSagaInput>, decision: SagaDecision, ids: seq<InputId>)
    requires Live(s, inputs) == Ok(Some(decision)) && |ids| == |inputs| && Distinct(ids)
    ensures Recorded(s, WithIds(inputs, ids), decision)
  {
    LiveIgnoresIds(s, inputs, ids);
    NamedApart(inputs, ids);
  }

  // The run under numbered identities.
  function Numbered(inputs: seq<LinearSagaInput>): (numbered: seq<LinearSagaInput>)
    requires |inputs| <= ID_LIMIT
    ensures |numbered| == |inputs|
  {
    WithIds(inputs, NthInputs(|inputs|))
  }

  lemma NumberedIsRecorded(s: Instance, inputs: seq<LinearSagaInput>, decision: SagaDecision)
    requires Live(s, inputs) == Ok(Some(decision)) && |inputs| <= ID_LIMIT
    ensures Recorded(s, Numbered(inputs), decision)
  {
    NthInputsAreDistinct(|inputs|);
    RecordedAs(s, inputs, decision, NthInputs(|inputs|));
  }

  lemma NumberedPrefix(inputs: seq<LinearSagaInput>, n: nat)
    requires n <= |inputs| <= ID_LIMIT
    ensures Numbered(inputs)[..n] == Numbered(inputs[..n])
  {
  }
}
