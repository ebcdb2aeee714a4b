// Replay of graph event logs, and its agreement with live decisions
// (crates/penelope-executor/src/graph.rs).
module GraphReplay {
  import opened Wrappers
  import opened Domain
  import opened GraphDefinition
  import opened GraphEngine
  import L = LinearEngine

  type Projected = Result<GraphSagaProjection, GraphEngineError>

  function InputIds(events: seq<GraphSagaEvent>): set<InputId> {
    set e | e in events :: e.inputId
  }

  function InputOf(event: GraphSagaEvent): GraphSagaInput {
    match event
    case Started(inputId, actionId) => Start(inputId, actionId)
    case Observed(inputId, observation, next) => Observe(inputId, observation, next)
  }

  // One event applied to the projection replayed so far.
  function ReplayStepGiven(verdict: Result<(), GraphDefinitionError>, g: Instance, prior: Option<GraphSagaProjection>,
                           event: GraphSagaEvent): Projected
  {
    if prior.None? && event.Started? then
      var decision :- StartGiven(verdict, g, InputOf(event));
      Ok(decision.projection)
    else if prior.Some? && event.Observed? then
      var decision :- ApplyGiven(verdict, g, prior.value, InputOf(event));
      Ok(decision.projection)
    else Err(AlreadyStarted)
  }

  ghost function Replayed(g: Instance, events: seq<GraphSagaEvent>): Result<Option<GraphSagaProjection>, GraphEngineError> {
    if events == [] then Ok(None)
    else
      var before, event := events[..|events| - 1], events[|events| - 1];
      var prior :- Replayed(g, before);
      if event.inputId in InputIds(before) then Err(DuplicateInput)
      else
        var projection :- ReplayStepGiven(Verdict(g.definition), g, prior, event);
        Ok(Some(projection))
  }

  ghost function ReplayResult(g: Instance, events: seq<GraphSagaEvent>): Projected {
    if |events| > MAX_GRAPH_REPLAY_EVENTS then Err(ReplayLimitExceeded)
    else
      var last :- Replayed(g, events);
      if last.None? then Err(NotRunning) else Ok(last.value)
  }

  lemma {:induction false} FirstFailureStands(g: Instance, events: seq<GraphSagaEvent>, n: nat)
    requires n <= |events| && Replayed(g, events[..n]).Err?
    ensures Replayed(g, events) == Replayed(g, events[..n])
  {
    if n < |events| {
      assert events[..|events| - 1][..n] == events[..n];
      FirstFailureStands(g, events[..|events| - 1], n);
    } else {
      assert events[..n] == events;
    }
  }

  lemma InputIdsGrow(events: seq<GraphSagaEvent>, i: nat)
    requires i < |events|
    ensures InputIds(events[..i + 1]) == InputIds(events[..i]) + {events[i].inputId}
  {
    assert events[..i + 1] == events[..i] + [events[i]];
  }

  lemma ReplayedNext(g: Instance, events: seq<GraphSagaEvent>, i: nat, prior: Option<GraphSagaProjection>)
    requires i < |events| && Replayed(g, events[..i]) == Ok(prior)
    ensures Replayed(g, events[..i + 1])
         == if events[i].inputId in InputIds(events[..i]) then Err(DuplicateInput)
            else match ReplayStepGiven(Verdict(g.definition), g, prior, events[i])
                 case Ok(projection) => Ok(Some(projection))
                 case Err(e) => Err(e)
  {
    assert events[..i + 1][..i] == events[..i];
  }

  method ReplayGraph(g: Instance, events: seq<GraphSagaEvent>) returns (r: Projected)
    ensures r == ReplayResult(g, events)
  {
    if |events| > MAX_GRAPH_REPLAY_EVENTS {
      return Err(ReplayLimitExceeded);
    }
    var verdict := Validate(g.definition);
    var projection: Option<GraphSagaProjection> := None;
    var accepted: set<InputId> := {};
    for i := 0 to |events|
      invariant Replayed(g, events[..i]) == Ok(projection)
      invariant accepted == InputIds(events[..i])
    {
      InputIdsGrow(events, i);
      ReplayedNext(g, events, i, projection);
      if Replayed(g, events[..i + 1]).Err? {
        FirstFailureStands(g, events, i + 1);
      }
      if events[i].inputId in accepted {
        return Err(DuplicateInput);
      }
      accepted := accepted + {events[i].inputId};
      var step := ReplayStepGiven(verdict, g, projection, events[i]);
      if step.Err? {
        return Err(step.error);
      }
      projection := Some(step.value);
    }
    assert events[..|events|] == events;
    return if projection.None? then Err(NotRunning) else Ok(projection.value);
  }

  ghost function Unwrapped(envelopes: seq<GraphSagaEventEnvelope>): seq<GraphSagaEvent> {
    seq(|envelopes|, i requires 0 <= i < |envelopes| => envelopes[i].event)
  }

  ghost predicate Sequenced(envelopes: seq<GraphSagaEventEnvelope>) {
    forall i :: 0 <= i < |envelopes| ==> envelopes[i].sequence == i
  }

  // The bound is checked first, then the numbering, then the events.
  method ReplayGraphOrdered(g: Instance, envelopes: seq<GraphSagaEventEnvelope>) returns (r: Projected)
    ensures |envelopes| > MAX_GRAPH_REPLAY_EVENTS ==> r == Err(ReplayLimitExceeded)
    ensures |envelopes| <= MAX_GRAPH_REPLAY_EVENTS && !Sequenced(envelopes) ==> r == Err(SequenceMismatch)
    ensures |envelopes| <= MAX_GRAPH_REPLAY_EVENTS && Sequenced(envelopes) ==> r == ReplayResult(g, Unwrapped(envelopes))
  {
    if |envelopes| > MAX_GRAPH_REPLAY_EVENTS {
      return Err(ReplayLimitExceeded);
    }
    var events: seq<GraphSagaEvent> := [];
    for i := 0 to |envelopes|
      invariant Sequenced(envelopes[..i])
      invariant events == Unwrapped(envelopes[..i])
    {
      if envelopes[i].sequence != i {
        return Err(SequenceMismatch);
      }
      events := events + [envelopes[i].event];
    }
    assert envelopes[..|envelopes|] == envelopes;
    r := ReplayGraph(g, events);
  }

  // ---------------------------------------------------------------- replay = live

  ghost function EventsOf(inputs: seq<GraphSagaInput>): seq<GraphSagaEvent> {
    seq(|inputs|, i requires 0 <= i < |inputs| => EventOf(inputs[i]))
  }

  ghost predicate DistinctInputIds(inputs: seq<GraphSagaInput>) {
    forall i, j :: 0 <= i < j < |inputs| ==> inputs[i].inputId != inputs[j].inputId
  }

  function ProjectionOf(decision: Option<GraphSagaDecision>): Option<GraphSagaProjection> {
    match decision
    case None => None
    case Some(d) => Some(d.projection)
  }

  // A start after the first input, or no start at the first.
  predicate Misplaced(inputs: seq<GraphSagaInput>, n: nat)
    requires n < |inputs|
  {
    inputs[n].Start? <==> n > 0
  }

  // The live run takes everything up to a misplaced input.
  ghost predicate StopsAt(g: Instance, inputs: seq<GraphSagaInput>, n: nat)
    requires n < |inputs|
  {
    Live(g, inputs[..n]).Ok? && Misplaced(inputs, n)
  }

  ghost predicate StopsMisplaced(g: Instance, inputs: seq<GraphSagaInput>) {
    exists n: nat :: n < |inputs| && StopsAt(g, inputs, n)
  }

  // Replay gives every misplaced input one name; other failures keep theirs.
  ghost function AsReplay(g: Instance, inputs: seq<GraphSagaInput>): Result<Option<GraphSagaProjection>, GraphEngineError> {
    match Live(g, inputs)
    case Ok(decision) => Ok(ProjectionOf(decision))
    case Err(e) => Err(if StopsMisplaced(g, inputs) then AlreadyStarted else e)
  }

  lemma LiveNext(g: Instance, inputs: seq<GraphSagaInput>, n: nat, prior: Option<GraphSagaDecision>)
    requires n < |inputs| && Live(g, inputs[..n]) == Ok(prior)
    ensures Live(g, inputs[..n + 1])
         == match Decide(g, prior, inputs[n]) case Ok(d) => Ok(Some(d)) case Err(e) => Err(e)
    ensures prior.Some? <==> n > 0
  {
    assert inputs[..n + 1][..n] == inputs[..n];
  }

  lemma {:induction false} LiveFailureStands(g: Instance, inputs: seq<GraphSagaInput>, n: nat)
    requires n <= |inputs| && Live(g, inputs[..n]).Err?
    ensures Live(g, inputs) == Live(g, inputs[..n])
  {
    if n < |inputs| {
      assert inputs[..|inputs| - 1][..n] == inputs[..n];
      LiveFailureStands(g, inputs[..|inputs| - 1], n);
    } else {
      assert inputs[..n] == inputs;
    }
  }

  // What the live run calls the misplaced input it stops at.
  lemma MisplacedIsNamed(g: Instance, inputs: seq<GraphSagaInput>, n: nat)
    requires n < |inputs| && StopsAt(g, inputs, n)
    ensures Live(g, inputs)
         == Err(if Verdict(g.definition).Err? then InvalidDefinition(Verdict(g.definition).error)
                else if n == 0 then AlreadyStarted else NotRunning)
  {
    LiveNext(g, inputs, n, Live(g, inputs[..n]).value);
    LiveFailureStands(g, inputs, n + 1);
  }

  lemma StopsAtInPrefix(g: Instance, inputs: seq<GraphSagaInput>, m: nat, n: nat)
    requires n < m <= |inputs|
    ensures StopsAt(g, inputs[..m], n) <==> StopsAt(g, inputs, n)
  {
    assert inputs[..m][..n] == inputs[..n];
  }

  lemma NoneStopsBefore(g: Instance, before: seq<GraphSagaInput>)
    requires Live(g, before).Ok?
    ensures !StopsMisplaced(g, before)
  {
    if StopsMisplaced(g, before) {
      var n: nat :| n < |before| && StopsAt(g, before, n);
      MisplacedIsNamed(g, before, n);
    }
  }

  lemma StopsLater(g: Instance, inputs: seq<GraphSagaInput>, m: nat)
    requires m <= |inputs| && StopsMisplaced(g, inputs[..m])
    ensures StopsMisplaced(g, inputs)
  {
    var n: nat :| n < m && StopsAt(g, inputs[..m], n);
    StopsAtInPrefix(g, inputs, m, n);
  }

  lemma StopsEarlier(g: Instance, inputs: seq<GraphSagaInput>, last: nat)
    requires |inputs| == last + 1 && StopsMisplaced(g, inputs)
    ensures StopsMisplaced(g, inputs[..last]) || StopsAt(g, inputs, last)
  {
    if !StopsAt(g, inputs, last) {
      var n: nat :| n < |inputs| && StopsAt(g, inputs, n);
      if n == last {
        assert false;
      }
      StopsAtInPrefix(g, inputs, last, n);
    }
  }

  lemma StopsInPrefix(g: Instance, inputs: seq<GraphSagaInput>, last: nat)
    requires |inputs| == last + 1
    ensures StopsMisplaced(g, inputs) <==> StopsMisplaced(g, inputs[..last]) || StopsAt(g, inputs, last)
  {
    if StopsMisplaced(g, inputs[..last]) {
      StopsLater(g, inputs, last);
    } else if StopsMisplaced(g, inputs) {
      StopsEarlier(g, inputs, last);
    }
  }

  lemma StepAgrees(g: Instance, prior: Option<GraphSagaDecision>, input: GraphSagaInput)
    ensures ReplayStepGiven(Verdict(g.definition), g, ProjectionOf(prior), EventOf(input))
         == if input.Start? <==> prior.Some? then Err(AlreadyStarted)
            else match Decide(g, prior, input) case Ok(d) => Ok(d.projection) case Err(e) => Err(e)
  {
    assert InputOf(EventOf(input)) == input;
  }

  lemma LastEventIsNew(inputs: seq<GraphSagaInput>)
    requires inputs != [] && DistinctInputIds(inputs)
    ensures EventsOf(inputs)[..|inputs| - 1] == EventsOf(inputs[..|inputs| - 1])
    ensures inputs[|inputs| - 1].inputId !in InputIds(EventsOf(inputs[..|inputs| - 1]))
  {
    var before := inputs[..|inputs| - 1];
    forall e | e in EventsOf(before) ensures e.inputId != inputs[|before|].inputId {
      var i :| 0 <= i < |before| && e == EventOf(before[i]);
      assert inputs[i].inputId != inputs[|before|].inputId;
    }
  }

  // Replaying the events of distinct inputs gives what live execution gives: the
  // same projection, or the same failure, save that every misplaced input is
  // called a second start.
  lemma {:induction false} ReplayEqualsLive(g: Instance, inputs: seq<GraphSagaInput>)
    requires DistinctInputIds(inputs)
    ensures Replayed(g, EventsOf(inputs)) == AsReplay(g, inputs)
  {
    if inputs != [] {
      var before, input := inputs[..|inputs| - 1], inputs[|inputs| - 1];
      ReplayEqualsLive(g, before);
      LastEventIsNew(inputs);
      StopsInPrefix(g, inputs, |before|);
      assert inputs[..|inputs|] == inputs;
      if Live(g, before).Ok? {
        NoneStopsBefore(g, before);
        var prior := Live(g, before).value;
        LiveNext(g, inputs, |before|, prior);
        StepAgrees(g, prior, input);
        ReplayedNext(g, EventsOf(inputs), |before|, ProjectionOf(prior));
        assert EventsOf(inputs)[..|inputs|] == EventsOf(inputs);
      }
    }
  }

  lemma FollowHasNoLimit(d: ProcessGraphDefinition, p: GraphSagaProjection, edge: GraphTransition, input: GraphSagaInput)
    requires input.Observe?
    ensures Follow(d.steps, d.maxStepVisits, p, edge, input) != Err(ReplayLimitExceeded)
  {
  }

  lemma ApplyHasNoLimit(verdict: Result<(), GraphDefinitionError>, g: Instance, p: GraphSagaProjection, input: GraphSagaInput)
    ensures ApplyGiven(verdict, g, p, input) != Err(ReplayLimitExceeded)
  {
    if input.Observe? && p.currentStepId.Some? {
      var edge := FindEdge(g.definition.transitions, p.currentStepId.value, TransitionOutcome(input.observation.result));
      if edge.Some? {
        FollowHasNoLimit(g.definition, p, edge.value, input);
      }
    }
  }

  lemma StartHasNoLimit(verdict: Result<(), GraphDefinitionError>, g: Instance, input: GraphSagaInput)
    ensures StartGiven(verdict, g, input) != Err(ReplayLimitExceeded)
  {
  }

  lemma DecideHasNoLimit(g: Instance, prior: Option<GraphSagaDecision>, input: GraphSagaInput)
    ensures Decide(g, prior, input) != Err(ReplayLimitExceeded)
  {
    match prior
    case None => StartHasNoLimit(Verdict(g.definition), g, input);
    case Some(decision) => ApplyHasNoLimit(Verdict(g.definition), g, decision.projection, input);
  }

  lemma {:induction false} LiveHasNoLimit(g: Instance, inputs: seq<GraphSagaInput>)
    ensures Live(g, inputs) != Err(ReplayLimitExceeded)
  {
    if inputs != [] {
      var before := inputs[..|inputs| - 1];
      LiveHasNoLimit(g, before);
      if Live(g, before).Ok? {
        DecideHasNoLimit(g, Live(g, before).value, inputs[|inputs| - 1]);
      }
    }
  }

  // The replay has the run's projection, or its failure.
  predicate SameResult(run: Result<Option<GraphSagaProjection>, GraphEngineError>, replayed: Projected) {
    match run
    case Ok(Some(p)) => replayed == Ok(p)
    case Ok(None) => false
    case Err(e) => replayed == Err(e)
  }

  // Replaying the events of distinct inputs gives the live result exactly when
  // there are events to replay and no more than the replay accepts.
  lemma ReplayAgreesIff(g: Instance, inputs: seq<GraphSagaInput>)
    requires DistinctInputIds(inputs)
    ensures SameResult(AsReplay(g, inputs), ReplayResult(g, EventsOf(inputs))) <==> 1 <= |inputs| <= MAX_GRAPH_REPLAY_EVENTS
  {
    ReplayEqualsLive(g, inputs);
    LiveHasNoLimit(g, inputs);
    if inputs != [] && Live(g, inputs).Ok? {
      LiveIsDecided(g, inputs);
    }
  }

  lemma LiveIsDecided(g: Instance, inputs: seq<GraphSagaInput>)
    requires inputs != [] && Live(g, inputs).Ok?
    ensures Live(g, inputs).value.Some?
  {
  }

  ghost predicate DistinctEventIds(events: seq<GraphSagaEvent>) {
    forall i, j :: 0 <= i < j < |events| ==> events[i].inputId != events[j].inputId
  }

  lemma PrefixReplays(g: Instance, events: seq<GraphSagaEvent>, n: nat)
    requires Replayed(g, events).Ok? && n <= |events|
    ensures Replayed(g, events[..n]).Ok?
  {
    if Replayed(g, events[..n]).Err? {
      FirstFailureStands(g, events, n);
    }
  }

  lemma NewIdDiffers(events: seq<GraphSagaEvent>, i: nat, j: nat)
    requires i < j < |events| && events[j].inputId !in InputIds(events[..j])
    ensures events[i].inputId != events[j].inputId
  {
    assert events[..j][i] in events[..j];
  }

  lemma EventIsNew(g: Instance, events: seq<GraphSagaEvent>, j: nat)
    requires Replayed(g, events).Ok? && j < |events|
    ensures events[j].inputId !in InputIds(events[..j])
  {
    PrefixReplays(g, events, j);
    PrefixReplays(g, events, j + 1);
    ReplayedNext(g, events, j, Replayed(g, events[..j]).value);
  }

  lemma AcceptedEventsAreDistinct(g: Instance, events: seq<GraphSagaEvent>)
    requires Replayed(g, events).Ok?
    ensures DistinctEventIds(events)
  {
    forall i, j | 0 <= i < j < |events| ensures events[i].inputId != events[j].inputId {
      EventIsNew(g, events, j);
      NewIdDiffers(events, i, j);
    }
  }

  lemma InputsOf(events: seq<GraphSagaEvent>) returns (inputs: seq<GraphSagaInput>)
    requires DistinctEventIds(events)
    ensures EventsOf(inputs) == events && DistinctInputIds(inputs)
  {
    inputs := seq(|events|, i requires 0 <= i < |events| => InputOf(events[i]));
    forall i, j | 0 <= i < j < |inputs| ensures inputs[i].inputId != inputs[j].inputId {
      assert events[i].inputId != events[j].inputId;
    }
  }

  // An accepted graph log replays a bounded walk: at most one event per visit
  // besides the start, so never more than the definition's visit bound plus one.
  lemma AcceptedGraphLogsAreBounded(g: Instance, events: seq<GraphSagaEvent>, p: GraphSagaProjection) returns (visited: seq<StepId>)
    requires ReplayResult(g, events) == Ok(p)
    ensures |events| <= 1 + p.stepVisits <= 1 + g.definition.maxStepVisits
    ensures |visited| == p.stepVisits && IsPath(g.definition, visited) && visited[0] == g.definition.entryStepId
    ensures p.currentStepId.Some? ==> p.currentStepId.value == visited[|visited| - 1]
  {
    AcceptedEventsAreDistinct(g, events);
    var inputs := InputsOf(events);
    ReplayEqualsLive(g, inputs);
    var decision := Live(g, inputs).value.value;
    visited := RunsAreWalks(g, inputs, decision);
    WalkIsPath(g, inputs, visited, p.issuedActionIds);
  }

  // -------------------------------------------------------- edge order is immaterial

  lemma ReplayStepPermutes(g: Instance, edges: seq<GraphTransition>, prior: Option<GraphSagaProjection>, event: GraphSagaEvent)
    requires multiset(edges) == multiset(g.definition.transitions) && UniqueKeys(g.definition.transitions)
    ensures ReplayStepGiven(Ok(()), WithEdges(g, edges), prior, event) == ReplayStepGiven(Ok(()), g, prior, event)
  {
    if prior.Some? {
      ApplyPermutes(Ok(()), g, WithEdges(g, edges), prior.value, InputOf(event));
    }
  }

  lemma {:induction false} ReplayedPermutes(g: Instance, edges: seq<GraphTransition>, events: seq<GraphSagaEvent>)
    requires multiset(edges) == multiset(g.definition.transitions) && UniqueKeys(g.definition.transitions)
    requires Verdict(g.definition) == Verdict(WithEdges(g, edges).definition) == Ok(())
    ensures Replayed(WithEdges(g, edges), events) == Replayed(g, events)
  {
    if events != [] {
      var before := events[..|events| - 1];
      ReplayedPermutes(g, edges, before);
      if Replayed(g, before).Ok? {
        ReplayStepPermutes(g, edges, Replayed(g, before).value, events[|events| - 1]);
      }
    }
  }

  // A log replays to the same result in whatever order a valid graph lists its edges.
  lemma EdgeOrderKeepsReplay(g: Instance, edges: seq<GraphTransition>, events: seq<GraphSagaEvent>)
    requires ValidGraph(g.definition) && multiset(edges) == multiset(g.definition.transitions)
    ensures ReplayResult(WithEdges(g, edges), events) == ReplayResult(g, events)
  {
    VerdictPermutes(g, edges);
    ReplayedPermutes(g, edges, events);
  }
}
