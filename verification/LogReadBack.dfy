// What every outcome of a committed run says about the input it records
// (crates/penelope-executor/src/engine.rs and graph_outcomes.rs).
module LogReadBack {
  import opened Wrappers
  import opened Domain
  import opened SagaDefinition
  import opened OutcomeLogs
  import opened ProcessCommit
  import opened SagaOutcomes
  import opened EndToEnd
  import opened CommitChains
  import L = LinearEngine
  import LI = LinearInvariants
  import G = GraphEngine

  // -------------------------------------------------------------- what a kind says

  predicate ReportsResult(input: L.LinearSagaInput, result: L.ActionResult) {
    input.ActionResultInput? && input.observation.result == result
  }

  // The second outcome of a batch tells which input it records.
  predicate RecordedBy(input: L.LinearSagaInput, kind: ProcessOutcomeKind) {
    match kind
    case ProcessStarted => input.Start?
    case ActionSucceeded => ReportsResult(input, L.Succeeded)
    case ActionFailed =>
      ReportsResult(input, L.RetryableFailure) || ReportsResult(input, L.TerminalFailure) || input.RetryTimerScheduledInput?
    case ActionOutcomeUnknown => ReportsResult(input, L.Unknown)
    case TimerFired => input.RetryTimerFiredInput?
    case ManualResolutionApplied => input.ManualResolution?
    case _ => false
  }

  predicate GraphRecordedBy(input: G.GraphSagaInput, kind: ProcessOutcomeKind) {
    match kind
    case ProcessStarted => input.Start?
    case ActionSucceeded => input.Observe? && input.observation.result == L.Succeeded
    case ActionFailed =>
      input.Observe? && (input.observation.result == L.RetryableFailure || input.observation.result == L.TerminalFailure)
    case ActionOutcomeUnknown => input.Observe? && input.observation.result == L.Unknown
    case _ => false
  }

  // The last outcome of a batch tells what the run has come to.
  predicate Shows(status: L.SagaStatus, kind: ProcessOutcomeKind) {
    match status
    case Running => kind == ActionPlanned
    case Compensating => kind == CompensationPlanned
    case Completed => kind == ProcessCompleted
    case Cancelled => kind == ProcessCancelled
    case Compensated => kind == ProcessCompensated
    case Escalated => kind == ProcessEscalated
  }

  // The kinds of one batch: accepted, what was observed, whether a retry waits, and
  // what the run has come to.
  predicate Reads(input: L.LinearSagaInput, decision: L.SagaDecision, kinds: seq<ProcessOutcomeKind>) {
    && |kinds| == (if decision.projection.retryDueAt.Some? then 4 else 3)
    && kinds[0] == InputAccepted && RecordedBy(input, kinds[1])
    && (decision.projection.retryDueAt.Some? ==> kinds[2] == ProcessOutcomeKind.RetryScheduled)
    && Shows(decision.projection.status, kinds[|kinds| - 1])
  }

  predicate GraphReads(input: G.GraphSagaInput, decision: G.GraphSagaDecision, kinds: seq<ProcessOutcomeKind>) {
    && |kinds| == 3 && kinds[0] == InputAccepted && GraphRecordedBy(input, kinds[1])
    && Shows(decision.projection.status, kinds[2])
  }

  // ------------------------------------------------------------- the plan reads so

  lemma TwoRecordOne(input: L.LinearSagaInput, a: ProcessOutcomeKind, b: ProcessOutcomeKind)
    requires RecordedBy(input, a) && RecordedBy(input, b)
    ensures a == b
  {
  }

  lemma ObservedReads(d: LinearSagaDefinition, input: L.LinearSagaInput)
    ensures var observed := LinearObservedKinds(L.ToEvent(d, input));
      |observed| == 2 && observed[0] == InputAccepted && RecordedBy(input, observed[1])
  {
  }

  lemma PlannedReads(s: L.Instance, decision: L.SagaDecision)
    requires LI.Consistent(s, decision)
    ensures var planned := LinearPlannedKinds(decision);
      && |planned| == (if decision.projection.retryDueAt.Some? then 2 else 1)
      && (decision.projection.retryDueAt.Some? ==> planned[0] == ProcessOutcomeKind.RetryScheduled)
      && Shows(decision.projection.status, planned[|planned| - 1])
  {
  }

  lemma SameReading(input: L.LinearSagaInput, decision: L.SagaDecision, a: seq<ProcessOutcomeKind>, b: seq<ProcessOutcomeKind>)
    requires Reads(input, decision, a) && Reads(input, decision, b)
    ensures a == b
  {
    TwoRecordOne(input, a[1], b[1]);
  }

  // The plan of a decision is the one sequence of kinds that reads so.
  lemma PlanReadsIff(s: L.Instance, input: L.LinearSagaInput, decision: L.SagaDecision, kinds: seq<ProcessOutcomeKind>)
    requires LI.Consistent(s, decision)
    ensures kinds == LinearObservedKinds(L.ToEvent(s.definition, input)) + LinearPlannedKinds(decision) <==> Reads(input, decision, kinds)
  {
    var plan := LinearObservedKinds(L.ToEvent(s.definition, input)) + LinearPlannedKinds(decision);
    ObservedReads(s.definition, input);
    PlannedReads(s, decision);
    assert Reads(input, decision, plan);
    if Reads(input, decision, kinds) {
      SameReading(input, decision, kinds, plan);
    }
  }

  function FactKinds(facts: seq<ProcessOutcomeFact>): (kinds: seq<ProcessOutcomeKind>)
    ensures |kinds| == |facts|
  {
    seq(|facts|, i requires 0 <= i < |facts| => facts[i].kind)
  }

  function KindsOf(outcomes: seq<ProcessOutcome>): (kinds: seq<ProcessOutcomeKind>)
    ensures |kinds| == |outcomes|
  {
    seq(|outcomes|, i requires 0 <= i < |outcomes| => outcomes[i].fact.kind)
  }

  lemma KindsAreIff(facts: seq<ProcessOutcomeFact>, kinds: seq<ProcessOutcomeKind>)
    ensures KindsAre(facts, kinds) <==> FactKinds(facts) == kinds
  {
    if KindsAre(facts, kinds) {
      forall i | 0 <= i < |facts| ensures FactKinds(facts)[i] == kinds[i] {
      }
    }
    if FactKinds(facts) == kinds {
      forall i | 0 <= i < |facts| ensures facts[i].kind == kinds[i] {
        assert FactKinds(facts)[i] == kinds[i];
      }
    }
  }

  // Only the first fact is an accepted input, so only its cause is bound.
  lemma BoundIff(facts: seq<ProcessOutcomeFact>, inputId: InputId)
    requires |facts| >= 1 && facts[0].kind == InputAccepted
    requires forall i :: 1 <= i < |facts| ==> facts[i].kind != InputAccepted
    ensures BoundTo(facts, inputId) <==> facts[0].causationId == InputCause(inputId)
  {
  }

  lemma ReadingAcceptsOnce(input: L.LinearSagaInput, decision: L.SagaDecision, facts: seq<ProcessOutcomeFact>)
    requires Reads(input, decision, FactKinds(facts))
    ensures facts[0].kind == InputAccepted && forall i :: 1 <= i < |facts| ==> facts[i].kind != InputAccepted
  {
    forall i | 0 <= i < |facts| ensures facts[i].kind == FactKinds(facts)[i] {
    }
  }

  // The linear builder takes exactly the facts that read as the reachable decision
  // and its input, name the input as the cause of its acceptance, and fit.
  lemma LinearFactsAcceptedIff(s: L.Instance, inputs: seq<L.LinearSagaInput>, decision: L.SagaDecision, scope: ProcessScope,
                               first: u64, facts: seq<ProcessOutcomeFact>)
    requires L.Live(s, inputs) == Ok(Some(decision)) && inputs != []
    ensures var input := inputs[|inputs| - 1];
      BuildLinear(decision, L.ToEvent(s.definition, input), scope, first, facts).Ok? <==>
        && scope.definitionId == s.definition.definitionId && scope.definitionVersion == s.definition.definitionVersion
        && scope.definitionDigest == s.definition.definitionDigest
        && Reads(input, decision, FactKinds(facts)) && facts[0].causationId == InputCause(input.inputId)
        && first + (|facts| - 1) <= U64_MAX
  {
    var input := inputs[|inputs| - 1];
    LI.RunsStayConsistent(s, inputs, decision);
    PlanReadsIff(s, input, decision, FactKinds(facts));
    KindsAreIff(facts, LinearObservedKinds(L.ToEvent(s.definition, input)) + LinearPlannedKinds(decision));
    if Reads(input, decision, FactKinds(facts)) {
      ReadingAcceptsOnce(input, decision, facts);
      BoundIff(facts, input.inputId);
    }
  }

  // ----------------------------------------------------------------- counting kinds

  function CountOf(outcomes: seq<ProcessOutcome>, kind: ProcessOutcomeKind): nat {
    if outcomes == [] then 0
    else CountOf(outcomes[..|outcomes| - 1], kind) + (if outcomes[|outcomes| - 1].fact.kind == kind then 1 else 0)
  }

  lemma {:induction false} CountJoin(a: seq<ProcessOutcome>, b: seq<ProcessOutcome>, kind: ProcessOutcomeKind)
    ensures CountOf(a + b, kind) == CountOf(a, kind) + CountOf(b, kind)
  {
    if b == [] {
      assert a + b == a;
    } else {
      CountJoin(a, b[..|b| - 1], kind);
      assert (a + b)[..|a + b| - 1] == a + b[..|b| - 1];
    }
  }

  // Kinds that record what was observed.
  predicate IsObservation(kind: ProcessOutcomeKind) {
    || kind == ProcessStarted || kind == ActionSucceeded || kind == ActionFailed || kind == ActionOutcomeUnknown
    || kind == TimerFired || kind == ManualResolutionApplied
  }

  // A batch holds one observation, its second outcome.
  lemma ObservationCounts(outcomes: seq<ProcessOutcome>, kind: ProcessOutcomeKind)
    requires IsObservation(kind) && |outcomes| >= 2
    requires forall i :: 0 <= i < |outcomes| && i != 1 ==> !IsObservation(outcomes[i].fact.kind)
    ensures CountOf(outcomes, kind) == if outcomes[1].fact.kind == kind then 1 else 0
  {
    var front, rest := outcomes[..2], outcomes[2..];
    assert outcomes == front + rest;
    CountJoin(front, rest, kind);
    NoneCounted(rest, kind);
    assert front[..1][..0] == [] && front[..1] == [outcomes[0]];
    assert CountOf(front[..1], kind) == 0;
  }

  lemma {:induction false} NoneCounted(outcomes: seq<ProcessOutcome>, kind: ProcessOutcomeKind)
    requires forall i :: 0 <= i < |outcomes| ==> outcomes[i].fact.kind != kind
    ensures CountOf(outcomes, kind) == 0
  {
    if outcomes != [] {
      NoneCounted(outcomes[..|outcomes| - 1], kind);
    }
  }

  // How many inputs are recorded by this kind.
  function Recorders(inputs: seq<L.LinearSagaInput>, kind: ProcessOutcomeKind): nat {
    if inputs == [] then 0
    else Recorders(inputs[..|inputs| - 1], kind) + (if RecordedBy(inputs[|inputs| - 1], kind) then 1 else 0)
  }

  function GraphRecorders(inputs: seq<G.GraphSagaInput>, kind: ProcessOutcomeKind): nat {
    if inputs == [] then 0
    else GraphRecorders(inputs[..|inputs| - 1], kind) + (if GraphRecordedBy(inputs[|inputs| - 1], kind) then 1 else 0)
  }

  // -------------------------------------------------------------------- graph plans

  lemma GraphPlanReads(g: G.Instance, input: G.GraphSagaInput, decision: G.GraphSagaDecision, plan: seq<ProcessOutcomeKind>)
    requires G.Consistent(g, decision) && decision.event == G.EventOf(input)
    requires plan == GraphObservedKinds(decision.event) + GraphPlannedKinds(decision)
    ensures GraphReads(input, decision, plan)
  {
  }

  lemma SameGraphReading(input: G.GraphSagaInput, decision: G.GraphSagaDecision, a: seq<ProcessOutcomeKind>, b: seq<ProcessOutcomeKind>)
    requires GraphReads(input, decision, a) && GraphReads(input, decision, b)
    ensures a == b
  {
    assert a[0] == b[0] && a[1] == b[1] && a[2] == b[2];
  }

  lemma GraphPlanReadsIff(g: G.Instance, input: G.GraphSagaInput, decision: G.GraphSagaDecision, kinds: seq<ProcessOutcomeKind>)
    requires G.Consistent(g, decision) && decision.event == G.EventOf(input)
    ensures kinds == GraphObservedKinds(decision.event) + GraphPlannedKinds(decision) <==> GraphReads(input, decision, kinds)
  {
    var plan := GraphObservedKinds(decision.event) + GraphPlannedKinds(decision);
    GraphPlanReads(g, input, decision, plan);
    if GraphReads(input, decision, kinds) {
      SameGraphReading(input, decision, kinds, plan);
    }
  }

  lemma GraphReadingAcceptsOnce(input: G.GraphSagaInput, decision: G.GraphSagaDecision, facts: seq<ProcessOutcomeFact>)
    requires GraphReads(input, decision, FactKinds(facts))
    ensures facts[0].kind == InputAccepted && forall i :: 1 <= i < |facts| ==> facts[i].kind != InputAccepted
  {
    forall i | 0 <= i < |facts| ensures facts[i].kind == FactKinds(facts)[i] {
    }
  }

  // The same for the graph builder, which takes the instance's own scope only.
  lemma GraphFactsAcceptedIff(g: G.Instance, inputs: seq<G.GraphSagaInput>, decision: G.GraphSagaDecision, scope: ProcessScope,
                              first: u64, facts: seq<ProcessOutcomeFact>)
    requires G.Live(g, inputs) == Ok(Some(decision)) && inputs != []
    ensures var input := inputs[|inputs| - 1];
      BuildGraph(decision, scope, first, facts).Ok? <==>
        && scope == ProcessScope(g.tenantId, g.processId, g.definition.definitionId, g.definition.definitionVersion, g.definition.definitionDigest)
        && GraphReads(input, decision, FactKinds(facts)) && facts[0].causationId == InputCause(input.inputId)
        && first + (|facts| - 1) <= U64_MAX
  {
    var input := inputs[|inputs| - 1];
    GraphDecisionRecordsInput(g, inputs, decision);
    GraphPlanReadsIff(g, input, decision, FactKinds(facts));
    KindsAreIff(facts, GraphObservedKinds(decision.event) + GraphPlannedKinds(decision));
    if GraphReads(input, decision, FactKinds(facts)) {
      GraphReadingAcceptsOnce(input, decision, facts);
      BoundIff(facts, input.inputId);
    }
  }

  // ------------------------------------------------------------------- linear runs

  lemma BuiltKinds(kinds: seq<ProcessOutcomeKind>, inputId: InputId, scope: ProcessScope, first: u64, facts: seq<ProcessOutcomeFact>,
                   outcomes: seq<ProcessOutcome>)
    requires Build(kinds, inputId, scope, first, facts) == Ok(outcomes)
    ensures KindsOf(outcomes) == kinds
  {
  }

  lemma BatchReads(s: L.Instance, inputs: seq<L.LinearSagaInput>, facts: seq<ProcessOutcomeFact>, log: seq<ProcessOutcome>, outcomes: seq<ProcessOutcome>)
    returns (decision: L.SagaDecision)
    requires inputs != [] && BuiltAt(s, inputs, facts, log, outcomes)
    ensures L.Live(s, inputs) == Ok(Some(decision)) && Reads(inputs[|inputs| - 1], decision, KindsOf(outcomes))
  {
    decision := L.Live(s, inputs).value.value;
    var input := inputs[|inputs| - 1];
    var event := L.ToEvent(s.definition, input);
    LI.RunsStayConsistent(s, inputs, decision);
    BuiltKinds(LinearObservedKinds(event) + LinearPlannedKinds(decision), event.inputId, L.ScopeOf(s), |log|, facts, outcomes);
    PlanReadsIff(s, input, decision, KindsOf(outcomes));
  }

  // The k-th commit of a linear run reads as its k-th input and the decision on it.
  ghost predicate ReadsAt(s: L.Instance, inputs: seq<L.LinearSagaInput>, commits: seq<AtomicProcessCommit>, k: nat)
    requires k < |inputs| && k < |commits|
  {
    && L.Live(s, inputs[..k + 1]).Ok? && L.Live(s, inputs[..k + 1]).value.Some?
    && Reads(inputs[k], L.Live(s, inputs[..k + 1]).value.value, KindsOf(commits[k].outcomes))
  }

  ghost predicate AllRead(s: L.Instance, inputs: seq<L.LinearSagaInput>, commits: seq<AtomicProcessCommit>) {
    |commits| == |inputs| && forall k :: 0 <= k < |inputs| ==> ReadsAt(s, inputs, commits, k)
  }

  lemma ReadsAtPrefix(s: L.Instance, inputs: seq<L.LinearSagaInput>, commits: seq<AtomicProcessCommit>, c: AtomicProcessCommit, n: nat, k: nat)
    requires k < n <= |inputs| && |commits| == n && ReadsAt(s, inputs[..n], commits, k)
    ensures ReadsAt(s, inputs, commits + [c], k)
  {
    assert inputs[..n][..k + 1] == inputs[..k + 1];
  }

  lemma LastReadsAt(s: L.Instance, inputs: seq<L.LinearSagaInput>, prior: seq<AtomicProcessCommit>, c: AtomicProcessCommit,
                    decision: L.SagaDecision, k: nat)
    requires |inputs| == k + 1 && |prior| == k && L.Live(s, inputs) == Ok(Some(decision)) && Reads(inputs[k], decision, KindsOf(c.outcomes))
    ensures ReadsAt(s, inputs, prior + [c], k)
  {
    assert inputs[..k + 1] == inputs;
  }

  lemma OneMoreRead(s: L.Instance, inputs: seq<L.LinearSagaInput>, prior: seq<AtomicProcessCommit>, c: AtomicProcessCommit, decision: L.SagaDecision)
    requires inputs != [] && AllRead(s, inputs[..|inputs| - 1], prior)
    requires L.Live(s, inputs) == Ok(Some(decision)) && Reads(inputs[|inputs| - 1], decision, KindsOf(c.outcomes))
    ensures AllRead(s, inputs, prior + [c])
  {
    var n := |inputs| - 1;
    forall k | 0 <= k < |inputs| ensures ReadsAt(s, inputs, prior + [c], k) {
      if k < n {
        ReadsAtPrefix(s, inputs, prior, c, n, k);
      } else {
        LastReadsAt(s, inputs, prior, c, decision, k);
      }
    }
  }

  // Every batch of a committed linear run tells what its input observed and what
  // the run had then come to.
  lemma {:induction false} LinearLogReads(s: L.Instance, inputs: seq<L.LinearSagaInput>, facts: seq<seq<ProcessOutcomeFact>>, records: seq<ProcessInput>,
                                          commits: seq<AtomicProcessCommit>)
    requires |facts| == |inputs| && Records(LinearIds(inputs), records) && RunCommits(s, inputs, facts, records) == Ok(commits)
    ensures AllRead(s, inputs, commits)
  {
    if inputs != [] {
      var n := |inputs| - 1;
      var prior, c := LastCommit(s, inputs, facts, records);
      LinearLogReads(s, inputs[..n], facts[..n], records[..n], prior);
      var decision := BatchReads(s, inputs, facts[n], LogOf(prior), c.outcomes);
      OneMoreRead(s, inputs, prior, c, decision);
    }
  }

  lemma ReadingCounts(input: L.LinearSagaInput, decision: L.SagaDecision, outcomes: seq<ProcessOutcome>, kind: ProcessOutcomeKind)
    requires Reads(input, decision, KindsOf(outcomes)) && IsObservation(kind)
    ensures CountOf(outcomes, kind) == if RecordedBy(input, kind) then 1 else 0
  {
    forall i | 0 <= i < |outcomes| ensures KindsOf(outcomes)[i] == outcomes[i].fact.kind {
    }
    ObservationCounts(outcomes, kind);
    if RecordedBy(input, kind) {
      TwoRecordOne(input, kind, outcomes[1].fact.kind);
    }
  }

  lemma ReadLogCounts(s: L.Instance, inputs: seq<L.LinearSagaInput>, commits: seq<AtomicProcessCommit>, kind: ProcessOutcomeKind)
    requires AllRead(s, inputs, commits) && IsObservation(kind)
    ensures CountOf(LogOf(commits), kind) == Recorders(inputs, kind)
  {
    forall k | 0 <= k < |inputs| ensures CountOf(commits[k].outcomes, kind) == if RecordedBy(inputs[k], kind) then 1 else 0 {
      assert ReadsAt(s, inputs, commits, k);
      ReadingCounts(inputs[k], L.Live(s, inputs[..k + 1]).value.value, commits[k].outcomes, kind);
    }
    AllCount(inputs, commits, kind);
  }

  lemma {:induction false} AllCount(inputs: seq<L.LinearSagaInput>, commits: seq<AtomicProcessCommit>, kind: ProcessOutcomeKind)
    requires |commits| == |inputs|
    requires forall k :: 0 <= k < |inputs| ==> CountOf(commits[k].outcomes, kind) == if RecordedBy(inputs[k], kind) then 1 else 0
    ensures CountOf(LogOf(commits), kind) == Recorders(inputs, kind)
  {
    if inputs != [] {
      var n := |inputs| - 1;
      AllCount(inputs[..n], commits[..n], kind);
      CountJoin(LogOf(commits[..n]), commits[n].outcomes, kind);
    }
  }

  // The log holds as many outcomes of each observed kind as the run has inputs that
  // observed it: so many successes, so many failures, so many firings.
  lemma LinearLogCounts(s: L.Instance, inputs: seq<L.LinearSagaInput>, facts: seq<seq<ProcessOutcomeFact>>, records: seq<ProcessInput>,
                        commits: seq<AtomicProcessCommit>, kind: ProcessOutcomeKind)
    requires |facts| == |inputs| && Records(LinearIds(inputs), records) && RunCommits(s, inputs, facts, records) == Ok(commits)
    requires IsObservation(kind)
    ensures CountOf(LogOf(commits), kind) == Recorders(inputs, kind)
  {
    LinearLogReads(s, inputs, facts, records, commits);
    ReadLogCounts(s, inputs, commits, kind);
  }

  // -------------------------------------------------------------------- graph runs

  lemma LastGraphReads(g: G.Instance, inputs: seq<G.GraphSagaInput>, facts: seq<seq<ProcessOutcomeFact>>, records: seq<ProcessInput>,
                       prior: seq<AtomicProcessCommit>, c: AtomicProcessCommit) returns (decision: G.GraphSagaDecision)
    requires inputs != [] && |facts| == |inputs| == |records| && GraphRunCommits(g, inputs, facts, records) == Ok(prior + [c])
    requires GraphRunCommits(g, inputs[..|inputs| - 1], facts[..|inputs| - 1], records[..|inputs| - 1]) == Ok(prior)
    ensures G.Live(g, inputs) == Ok(Some(decision)) && GraphReads(inputs[|inputs| - 1], decision, KindsOf(c.outcomes))
  {
    var n := |inputs| - 1;
    decision := G.Live(g, inputs).value.value;
    var batch := BuildGraph(decision, G.ScopeOf(g), |LogOf(prior)|, facts[n]).value;
    assert (prior + [c])[|prior|] == c;
    GraphDecisionRecordsInput(g, inputs, decision);
    BuiltKinds(GraphObservedKinds(decision.event) + GraphPlannedKinds(decision), decision.event.inputId, G.ScopeOf(g), |LogOf(prior)|, facts[n], batch);
    GraphPlanReadsIff(g, inputs[n], decision, KindsOf(batch));
  }

  ghost predicate GraphReadsAt(g: G.Instance, inputs: seq<G.GraphSagaInput>, commits: seq<AtomicProcessCommit>, k: nat)
    requires k < |inputs| && k < |commits|
  {
    && G.Live(g, inputs[..k + 1]).Ok? && G.Live(g, inputs[..k + 1]).value.Some?
    && GraphReads(inputs[k], G.Live(g, inputs[..k + 1]).value.value, KindsOf(commits[k].outcomes))
  }

  ghost predicate AllGraphRead(g: G.Instance, inputs: seq<G.GraphSagaInput>, commits: seq<AtomicProcessCommit>) {
    |commits| == |inputs| && forall k :: 0 <= k < |inputs| ==> GraphReadsAt(g, inputs, commits, k)
  }

  lemma GraphReadsAtPrefix(g: G.Instance, inputs: seq<G.GraphSagaInput>, commits: seq<AtomicProcessCommit>, c: AtomicProcessCommit, n: nat, k: nat)
    requires k < n <= |inputs| && |commits| == n && GraphReadsAt(g, inputs[..n], commits, k)
    ensures GraphReadsAt(g, inputs, commits + [c], k)
  {
    assert inputs[..n][..k + 1] == inputs[..k + 1];
  }

  lemma LastGraphReadsAt(g: G.Instance, inputs: seq<G.GraphSagaInput>, prior: seq<AtomicProcessCommit>, c: AtomicProcessCommit,
                         decision: G.GraphSagaDecision, k: nat)
    requires |inputs| == k + 1 && |prior| == k && G.Live(g, inputs) == Ok(Some(decision)) && GraphReads(inputs[k], decision, KindsOf(c.outcomes))
    ensures GraphReadsAt(g, inputs, prior + [c], k)
  {
    assert inputs[..k + 1] == inputs;
  }

  lemma OneMoreGraphRead(g: G.Instance, inputs: seq<G.GraphSagaInput>, prior: seq<AtomicProcessCommit>, c: AtomicProcessCommit, decision: G.GraphSagaDecision)
    requires inputs != [] && AllGraphRead(g, inputs[..|inputs| - 1], prior)
    requires G.Live(g, inputs) == Ok(Some(decision)) && GraphReads(inputs[|inputs| - 1], decision, KindsOf(c.outcomes))
    ensures AllGraphRead(g, inputs, prior + [c])
  {
    var n := |inputs| - 1;
    forall k | 0 <= k < |inputs| ensures GraphReadsAt(g, inputs, prior + [c], k) {
      if k < n {
        GraphReadsAtPrefix(g, inputs, prior, c, n, k);
      } else {
        LastGraphReadsAt(g, inputs, prior, c, decision, k);
      }
    }
  }

  // Every batch of a committed graph run reads so too.
  lemma {:induction false} GraphLogReads(g: G.Instance, inputs: seq<G.GraphSagaInput>, facts: seq<seq<ProcessOutcomeFact>>, records: seq<ProcessInput>,
                                         commits: seq<AtomicProcessCommit>)
    requires |facts| == |inputs| && Records(GraphIds(inputs), records) && GraphRunCommits(g, inputs, facts, records) == Ok(commits)
    ensures AllGraphRead(g, inputs, commits)
  {
    if inputs != [] {
      var n := |inputs| - 1;
      var prior, c := LastGraphCommit(g, inputs, facts, records);
      GraphLogReads(g, inputs[..n], facts[..n], records[..n], prior);
      var decision := LastGraphReads(g, inputs, facts, records, prior, c);
      OneMoreGraphRead(g, inputs, prior, c, decision);
    }
  }

  lemma GraphReadingCounts(input: G.GraphSagaInput, decision: G.GraphSagaDecision, outcomes: seq<ProcessOutcome>, kind: ProcessOutcomeKind)
    requires GraphReads(input, decision, KindsOf(outcomes)) && IsObservation(kind)
    ensures CountOf(outcomes, kind) == if GraphRecordedBy(input, kind) then 1 else 0
  {
    forall i | 0 <= i < |outcomes| ensures KindsOf(outcomes)[i] == outcomes[i].fact.kind {
    }
    ObservationCounts(outcomes, kind);
  }

  lemma GraphReadLogCounts(g: G.Instance, inputs: seq<G.GraphSagaInput>, commits: seq<AtomicProcessCommit>, kind: ProcessOutcomeKind)
    requires AllGraphRead(g, inputs, commits) && IsObservation(kind)
    ensures CountOf(LogOf(commits), kind) == GraphRecorders(inputs, kind)
  {
    forall k | 0 <= k < |inputs| ensures CountOf(commits[k].outcomes, kind) == if GraphRecordedBy(inputs[k], kind) then 1 else 0 {
      assert GraphReadsAt(g, inputs, commits, k);
      GraphReadingCounts(inputs[k], G.Live(g, inputs[..k + 1]).value.value, commits[k].outcomes, kind);
    }
    AllGraphCount(inputs, commits, kind);
  }

  lemma {:induction false} AllGraphCount(inputs: seq<G.GraphSagaInput>, commits: seq<AtomicProcessCommit>, kind: ProcessOutcomeKind)
    requires |commits| == |inputs|
    requires forall k :: 0 <= k < |inputs| ==> CountOf(commits[k].outcomes, kind) == if GraphRecordedBy(inputs[k], kind) then 1 else 0
    ensures CountOf(LogOf(commits), kind) == GraphRecorders(inputs, kind)
  {
    if inputs != [] {
      var n := |inputs| - 1;
      AllGraphCount(inputs[..n], commits[..n], kind);
      CountJoin(LogOf(commits[..n]), commits[n].outcomes, kind);
    }
  }

  lemma GraphLogCounts(g: G.Instance, inputs: seq<G.GraphSagaInput>, facts: seq<seq<ProcessOutcomeFact>>, records: seq<ProcessInput>,
                       commits: seq<AtomicProcessCommit>, kind: ProcessOutcomeKind)
    requires |facts| == |inputs| && Records(GraphIds(inputs), records) && GraphRunCommits(g, inputs, facts, records) == Ok(commits)
    requires IsObservation(kind)
    ensures CountOf(LogOf(commits), kind) == GraphRecorders(inputs, kind)
  {
    GraphLogReads(g, inputs, facts, records, commits);
    GraphReadLogCounts(g, inputs, commits, kind);
  }
}
