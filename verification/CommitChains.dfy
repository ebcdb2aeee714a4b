// The commits of a whole run, one after the other: each is accepted, acknowledged
// and appended exactly when the run's outcomes and inputs allow it
// (crates/penelope-ports/src/implementation.rs).
module CommitChains {
  import opened Wrappers
  import opened Domain
  import opened SagaDefinition
  import opened OutcomeLogs
  import opened ProcessCommit
  import opened SagaOutcomes
  import opened EndToEnd
  import L = LinearEngine
  import LI = LinearInvariants
  import G = GraphEngine

  // ------------------------------------------------------------------ chains of commits

  // What the commits append, in order.
  ghost function LogOf(commits: seq<AtomicProcessCommit>): seq<ProcessOutcome> {
    if commits == [] then [] else LogOf(commits[..|commits| - 1]) + commits[|commits| - 1].outcomes
  }

  // The receipts that match the commit are those that name this sequence.
  ghost predicate ReceiptNames(c: AtomicProcessCommit, last: int) {
    forall receipt :: ReceiptFault(receipt, c).None? <==> receipt.committedThroughSequence == last
  }

  // The commit is accepted at the end of the log, its receipt names the log's new
  // last sequence, and the log takes its outcomes.
  ghost predicate InTurn(scope: ProcessScope, log: seq<ProcessOutcome>, c: AtomicProcessCommit) {
    && c.expectedSequence == |log|
    && CommitFault(c).None?
    && ReceiptNames(c, |log| + |c.outcomes| - 1)
    && AppendFault(scope, log, c.outcomes).None?
  }

  ghost predicate HasTurn(scope: ProcessScope, commits: seq<AtomicProcessCommit>, k: nat)
    requires k < |commits|
  {
    InTurn(scope, LogOf(commits[..k]), commits[k])
  }

  ghost predicate AllInTurn(scope: ProcessScope, commits: seq<AtomicProcessCommit>) {
    forall k :: 0 <= k < |commits| ==> HasTurn(scope, commits, k)
  }

  // What both engines guarantee of the commit built for one decision.
  ghost predicate Planned(scope: ProcessScope, log: seq<ProcessOutcome>, c: AtomicProcessCommit, record: ProcessInput, facts: seq<ProcessOutcomeFact>) {
    && |log| <= U64_MAX && IsBatch(scope, |log|, record.inputId, facts, c.outcomes)
    && c.expectedSequence == |log| && c.input == Some(record)
    && (CommitFault(c).None? <==> DistinctFactIds(facts) && |log| + |facts| <= U64_MAX && OwnedBy(record, scope))
  }

  ghost predicate AllPlanned(scope: ProcessScope, commits: seq<AtomicProcessCommit>, records: seq<ProcessInput>, facts: seq<seq<ProcessOutcomeFact>>) {
    && |commits| == |records| == |facts|
    && forall k :: 0 <= k < |commits| ==> Planned(scope, LogOf(commits[..k]), commits[k], records[k], facts[k])
  }

  ghost predicate AllOwned(records: seq<ProcessInput>, scope: ProcessScope) {
    forall k :: 0 <= k < |records| ==> OwnedBy(records[k], scope)
  }

  lemma BatchIdsAreFactIds(scope: ProcessScope, first: u64, inputId: InputId, facts: seq<ProcessOutcomeFact>, outcomes: seq<ProcessOutcome>)
    requires IsBatch(scope, first, inputId, facts, outcomes) && DistinctOutcomeIds(outcomes)
    ensures DistinctFactIds(facts)
  {
    forall i, j | 0 <= i < j < |facts| ensures facts[i].outcomeId != facts[j].outcomeId {
      assert outcomes[i].fact.outcomeId != outcomes[j].fact.outcomeId;
    }
  }

  lemma SuffixIsDistinct(log: seq<ProcessOutcome>, batch: seq<ProcessOutcome>)
    requires DistinctOutcomeIds(log + batch)
    ensures DistinctOutcomeIds(batch)
  {
    forall i, j | 0 <= i < j < |batch| ensures batch[i].fact.outcomeId != batch[j].fact.outcomeId {
      assert (log + batch)[|log| + i] == batch[i] && (log + batch)[|log| + j] == batch[j];
    }
  }

  lemma AcceptedIsReceipted(c: AtomicProcessCommit, first: u64)
    requires CommitFault(c).None? && c.input.Some? && c.expectedSequence == first
    ensures c.outcomes != [] && ReceiptNames(c, first + |c.outcomes| - 1)
  {
    CommitAcceptedIff(c);
  }

  // A planned commit has its turn exactly when the log stays well-formed with it
  // and its input belongs to the process.
  lemma InTurnIff(scope: ProcessScope, log: seq<ProcessOutcome>, c: AtomicProcessCommit, record: ProcessInput, facts: seq<ProcessOutcomeFact>)
    requires WellFormed(scope, log) && Planned(scope, log, c, record, facts)
    ensures InTurn(scope, log, c) <==> WellFormed(scope, log + c.outcomes) && OwnedBy(record, scope)
  {
    AppendsIffWellFormed(scope, log, c.outcomes);
    if WellFormed(scope, log + c.outcomes) && OwnedBy(record, scope) {
      SuffixIsDistinct(log, c.outcomes);
      BatchIdsAreFactIds(scope, |log|, record.inputId, facts, c.outcomes);
    }
    if CommitFault(c).None? {
      AcceptedIsReceipted(c, |log|);
    }
  }

  lemma PrefixOfPlanned(scope: ProcessScope, commits: seq<AtomicProcessCommit>, records: seq<ProcessInput>, facts: seq<seq<ProcessOutcomeFact>>)
    requires commits != [] && AllPlanned(scope, commits, records, facts)
    ensures var n := |commits| - 1;
      && AllPlanned(scope, commits[..n], records[..n], facts[..n])
      && Planned(scope, LogOf(commits[..n]), commits[n], records[n], facts[n])
  {
    var n := |commits| - 1;
    forall k | 0 <= k < n ensures Planned(scope, LogOf(commits[..n][..k]), commits[..n][k], records[..n][k], facts[..n][k]) {
      PlannedInPrefix(scope, commits, records, facts, n, k);
    }
  }

  lemma PlannedInPrefix(scope: ProcessScope, commits: seq<AtomicProcessCommit>, records: seq<ProcessInput>, facts: seq<seq<ProcessOutcomeFact>>, n: nat, k: nat)
    requires k < n <= |commits| && AllPlanned(scope, commits, records, facts)
    ensures Planned(scope, LogOf(commits[..n][..k]), commits[..n][k], records[..n][k], facts[..n][k])
  {
    assert commits[..n][..k] == commits[..k];
    assert Planned(scope, LogOf(commits[..k]), commits[k], records[k], facts[k]);
  }

  lemma TurnInPrefix(scope: ProcessScope, commits: seq<AtomicProcessCommit>, n: nat, k: nat)
    requires k < n <= |commits|
    ensures HasTurn(scope, commits[..n], k) <==> HasTurn(scope, commits, k)
  {
    assert commits[..n][..k] == commits[..k];
  }

  lemma TurnsSplit(scope: ProcessScope, commits: seq<AtomicProcessCommit>)
    requires commits != []
    ensures var n := |commits| - 1;
      AllInTurn(scope, commits) <==> AllInTurn(scope, commits[..n]) && InTurn(scope, LogOf(commits[..n]), commits[n])
  {
    var n := |commits| - 1;
    assert HasTurn(scope, commits, n) <==> InTurn(scope, LogOf(commits[..n]), commits[n]);
    forall k | 0 <= k < n ensures HasTurn(scope, commits[..n], k) <==> HasTurn(scope, commits, k) {
      TurnInPrefix(scope, commits, n, k);
    }
  }

  lemma OwnershipSplits(records: seq<ProcessInput>, scope: ProcessScope)
    requires records != []
    ensures var n := |records| - 1; AllOwned(records, scope) <==> AllOwned(records[..n], scope) && OwnedBy(records[n], scope)
  {
    var n := |records| - 1;
    forall k | 0 <= k < n ensures records[..n][k] == records[k] {
    }
    if AllOwned(records[..n], scope) && OwnedBy(records[n], scope) {
      forall k | 0 <= k < |records| ensures OwnedBy(records[k], scope) {
        assert k < n ==> OwnedBy(records[..n][k], scope);
      }
    }
  }

  // Planned commits all have their turn exactly when together they make one
  // well-formed log and every input belongs to the process.
  lemma {:induction false} AllInTurnIff(scope: ProcessScope, commits: seq<AtomicProcessCommit>, records: seq<ProcessInput>, facts: seq<seq<ProcessOutcomeFact>>)
    requires AllPlanned(scope, commits, records, facts)
    ensures AllInTurn(scope, commits) <==> WellFormed(scope, LogOf(commits)) && AllOwned(records, scope)
  {
    if commits != [] {
      var n := |commits| - 1;
      var log := LogOf(commits[..n]);
      PrefixOfPlanned(scope, commits, records, facts);
      AllInTurnIff(scope, commits[..n], records[..n], facts[..n]);
      TurnsSplit(scope, commits);
      OwnershipSplits(records, scope);
      if WellFormed(scope, LogOf(commits)) {
        WellFormedPrefix(scope, log + commits[n].outcomes, |log|);
        assert (log + commits[n].outcomes)[..|log|] == log;
      }
      if WellFormed(scope, log) {
        InTurnIff(scope, log, commits[n], records[n], facts[n]);
      }
    }
  }

  lemma {:induction false} PlannedIsNumbered(scope: ProcessScope, commits: seq<AtomicProcessCommit>, records: seq<ProcessInput>, facts: seq<seq<ProcessOutcomeFact>>)
    requires AllPlanned(scope, commits, records, facts)
    ensures Numbered(scope, 0, LogOf(commits))
  {
    if commits != [] {
      var n := |commits| - 1;
      PrefixOfPlanned(scope, commits, records, facts);
      PlannedIsNumbered(scope, commits[..n], records[..n], facts[..n]);
      NumberedJoin(scope, LogOf(commits[..n]), commits[n].outcomes);
    }
  }

  // --------------------------------------------------------------------- linear runs

  // The commit of each decision, built at the length reached so far.
  ghost function RunCommits(s: L.Instance, inputs: seq<L.LinearSagaInput>, facts: seq<seq<ProcessOutcomeFact>>, records: seq<ProcessInput>)
    : Result<seq<AtomicProcessCommit>, EngineError>
    requires |facts| == |inputs| == |records|
  {
    if inputs == [] then Ok([])
    else
      var n := |inputs| - 1;
      var prior :- RunCommits(s, inputs[..n], facts[..n], records[..n]);
      var decision :- L.Live(s, inputs);
      if |LogOf(prior)| > U64_MAX then Err(OutcomeSequenceOverflow)
      else
        var batch :- BuildLinear(decision.value, L.ToEvent(s.definition, inputs[n]), L.ScopeOf(s), |LogOf(prior)|, facts[n]);
        Ok(prior + [CommitOf(|LogOf(prior)|, records[n], batch, decision.value.nextAction)])
  }

  // Each commit carries the input it records.
  ghost predicate Records(ids: seq<InputId>, records: seq<ProcessInput>) {
    |ids| == |records| && forall k :: 0 <= k < |ids| ==> records[k].inputId == ids[k]
  }

  ghost function LinearIds(inputs: seq<L.LinearSagaInput>): (ids: seq<InputId>)
    ensures |ids| == |inputs|
  {
    seq(|inputs|, i requires 0 <= i < |inputs| => inputs[i].inputId)
  }

  lemma LogOfAppended(prior: seq<AtomicProcessCommit>, c: AtomicProcessCommit)
    ensures LogOf(prior + [c]) == LogOf(prior) + c.outcomes
  {
    assert (prior + [c])[..|prior|] == prior;
  }

  lemma EarlierIsPlanned(scope: ProcessScope, prior: seq<AtomicProcessCommit>, c: AtomicProcessCommit,
                         records: seq<ProcessInput>, facts: seq<seq<ProcessOutcomeFact>>, k: nat)
    requires k < |prior| < |records| && |records| == |facts|
    requires Planned(scope, LogOf(prior[..k]), prior[k], records[..|prior|][k], facts[..|prior|][k])
    ensures Planned(scope, LogOf((prior + [c])[..k]), (prior + [c])[k], records[k], facts[k])
  {
    assert (prior + [c])[..k] == prior[..k];
  }

  lemma AppendedIsPlanned(scope: ProcessScope, prior: seq<AtomicProcessCommit>, c: AtomicProcessCommit,
                          records: seq<ProcessInput>, facts: seq<seq<ProcessOutcomeFact>>)
    requires |records| == |facts| == |prior| + 1
    requires AllPlanned(scope, prior, records[..|prior|], facts[..|prior|])
    requires Planned(scope, LogOf(prior), c, records[|prior|], facts[|prior|])
    ensures AllPlanned(scope, prior + [c], records, facts)
  {
    var n, all := |prior|, prior + [c];
    forall k | 0 <= k < |all| ensures Planned(scope, LogOf(all[..k]), all[k], records[k], facts[k]) {
      if k < n {
        EarlierIsPlanned(scope, prior, c, records, facts, k);
      } else {
        assert all[..n] == prior;
      }
    }
  }

  // The batch built for the run's last decision at the end of this log.
  ghost predicate BuiltAt(s: L.Instance, inputs: seq<L.LinearSagaInput>, facts: seq<ProcessOutcomeFact>,
                          log: seq<ProcessOutcome>, outcomes: seq<ProcessOutcome>)
    requires inputs != []
  {
    && L.Live(s, inputs).Ok? && L.Live(s, inputs).value.Some? && |log| <= U64_MAX
    && BuildLinear(L.Live(s, inputs).value.value, L.ToEvent(s.definition, inputs[|inputs| - 1]), L.ScopeOf(s), |log|, facts) == Ok(outcomes)
  }

  // The last commit of a linear run.
  lemma LastCommit(s: L.Instance, inputs: seq<L.LinearSagaInput>, facts: seq<seq<ProcessOutcomeFact>>, records: seq<ProcessInput>)
    returns (prior: seq<AtomicProcessCommit>, c: AtomicProcessCommit)
    requires inputs != [] && |facts| == |inputs| && Records(LinearIds(inputs), records) && RunCommits(s, inputs, facts, records).Ok?
    ensures var n := |inputs| - 1;
      && RunCommits(s, inputs[..n], facts[..n], records[..n]) == Ok(prior) && Records(LinearIds(inputs[..n]), records[..n])
      && RunCommits(s, inputs, facts, records) == Ok(prior + [c])
      && Planned(L.ScopeOf(s), LogOf(prior), c, records[n], facts[n])
      && BuiltAt(s, inputs, facts[n], LogOf(prior), c.outcomes)
  {
    var n := |inputs| - 1;
    prior := RunCommits(s, inputs[..n], facts[..n], records[..n]).value;
    var decision := L.Live(s, inputs).value.value;
    var event := L.ToEvent(s.definition, inputs[n]);
    var batch := BuildLinear(decision, event, L.ScopeOf(s), |LogOf(prior)|, facts[n]).value;
    c := CommitOf(|LogOf(prior)|, records[n], batch, decision.nextAction);
    assert records[n].inputId == LinearIds(inputs)[n];
    forall k | 0 <= k < n ensures records[..n][k].inputId == LinearIds(inputs[..n])[k] {
      assert records[k].inputId == LinearIds(inputs)[k];
    }
    LinearBatchCommitsIff(s, inputs, decision, L.ScopeOf(s), |LogOf(prior)|, records[n], facts[n], batch);
  }

  lemma {:induction false} RunCommitsArePlanned(s: L.Instance, inputs: seq<L.LinearSagaInput>, facts: seq<seq<ProcessOutcomeFact>>, records: seq<ProcessInput>)
    requires |facts| == |inputs| && Records(LinearIds(inputs), records) && RunCommits(s, inputs, facts, records).Ok?
    ensures AllPlanned(L.ScopeOf(s), RunCommits(s, inputs, facts, records).value, records, facts)
  {
    if inputs != [] {
      var n := |inputs| - 1;
      var prior, c := LastCommit(s, inputs, facts, records);
      RunCommitsArePlanned(s, inputs[..n], facts[..n], records[..n]);
      AppendedIsPlanned(L.ScopeOf(s), prior, c, records, facts);
    }
  }

  // Every commit of a linear run is accepted at its turn, acknowledged by its last
  // sequence and taken in by the log exactly when outcome identities differ across
  // the whole run, the total fits the log and every input belongs to the process.
  lemma RunCommitsInTurnIff(s: L.Instance, inputs: seq<L.LinearSagaInput>, facts: seq<seq<ProcessOutcomeFact>>, records: seq<ProcessInput>)
    requires |facts| == |inputs| && Records(LinearIds(inputs), records) && RunCommits(s, inputs, facts, records).Ok?
    ensures var commits := RunCommits(s, inputs, facts, records).value;
      && |commits| == |inputs|
      && (AllInTurn(L.ScopeOf(s), commits) <==>
            DistinctOutcomeIds(LogOf(commits)) && |LogOf(commits)| <= MAX_OUTCOMES_PER_REPLAY_LOG && AllOwned(records, L.ScopeOf(s)))
  {
    RunCommitsArePlanned(s, inputs, facts, records);
    AllInTurnIff(L.ScopeOf(s), RunCommits(s, inputs, facts, records).value, records, facts);
    PlannedIsNumbered(L.ScopeOf(s), RunCommits(s, inputs, facts, records).value, records, facts);
  }

  lemma LogExtends(s: L.Instance, inputs: seq<L.LinearSagaInput>, facts: seq<seq<ProcessOutcomeFact>>,
                   log: seq<ProcessOutcome>, outcomes: seq<ProcessOutcome>)
    requires inputs != [] && |facts| == |inputs| && RunLog(s, inputs[..|inputs| - 1], facts[..|inputs| - 1]) == Ok(log)
    requires BuiltAt(s, inputs, facts[|inputs| - 1], log, outcomes)
    ensures RunLog(s, inputs, facts) == Ok(log + outcomes)
  {
  }

  // The commits append the run's log.
  lemma {:induction false} RunCommitsMakeTheLog(s: L.Instance, inputs: seq<L.LinearSagaInput>, facts: seq<seq<ProcessOutcomeFact>>, records: seq<ProcessInput>)
    requires |facts| == |inputs| && Records(LinearIds(inputs), records) && RunCommits(s, inputs, facts, records).Ok?
    ensures RunLog(s, inputs, facts) == Ok(LogOf(RunCommits(s, inputs, facts, records).value))
  {
    if inputs != [] {
      var n := |inputs| - 1;
      var prior, c := LastCommit(s, inputs, facts, records);
      RunCommitsMakeTheLog(s, inputs[..n], facts[..n], records[..n]);
      LogExtends(s, inputs, facts, LogOf(prior), c.outcomes);
      LogOfAppended(prior, c);
    }
  }

  // ---------------------------------------------------------------------- graph runs

  ghost function GraphIds(inputs: seq<G.GraphSagaInput>): (ids: seq<InputId>)
    ensures |ids| == |inputs|
  {
    seq(|inputs|, i requires 0 <= i < |inputs| => inputs[i].inputId)
  }

  datatype GraphRunError = GraphFault(fault: G.GraphEngineError) | OutcomeFault(outcome: EngineError)

  ghost function GraphRunCommits(g: G.Instance, inputs: seq<G.GraphSagaInput>, facts: seq<seq<ProcessOutcomeFact>>, records: seq<ProcessInput>)
    : Result<seq<AtomicProcessCommit>, GraphRunError>
    requires |facts| == |inputs| == |records|
  {
    if inputs == [] then Ok([])
    else
      var n := |inputs| - 1;
      var prior :- GraphRunCommits(g, inputs[..n], facts[..n], records[..n]);
      var live := G.Live(g, inputs);
      if live.Err? then Err(GraphFault(live.error))
      else if |LogOf(prior)| > U64_MAX then Err(OutcomeFault(OutcomeSequenceOverflow))
      else
        var batch := BuildGraph(live.value.value, G.ScopeOf(g), |LogOf(prior)|, facts[n]);
        if batch.Err? then Err(OutcomeFault(batch.error))
        else Ok(prior + [CommitOf(|LogOf(prior)|, records[n], batch.value, live.value.value.nextAction)])
  }

  lemma LastGraphCommit(g: G.Instance, inputs: seq<G.GraphSagaInput>, facts: seq<seq<ProcessOutcomeFact>>, records: seq<ProcessInput>)
    returns (prior: seq<AtomicProcessCommit>, c: AtomicProcessCommit)
    requires inputs != [] && |facts| == |inputs| && Records(GraphIds(inputs), records) && GraphRunCommits(g, inputs, facts, records).Ok?
    ensures var n := |inputs| - 1;
      && GraphRunCommits(g, inputs[..n], facts[..n], records[..n]) == Ok(prior) && Records(GraphIds(inputs[..n]), records[..n])
      && GraphRunCommits(g, inputs, facts, records) == Ok(prior + [c])
      && Planned(G.ScopeOf(g), LogOf(prior), c, records[n], facts[n]) && |c.outcomes| == 3
  {
    var n := |inputs| - 1;
    prior := GraphRunCommits(g, inputs[..n], facts[..n], records[..n]).value;
    var decision := G.Live(g, inputs).value.value;
    var batch := BuildGraph(decision, G.ScopeOf(g), |LogOf(prior)|, facts[n]).value;
    c := CommitOf(|LogOf(prior)|, records[n], batch, decision.nextAction);
    assert records[n].inputId == GraphIds(inputs)[n];
    forall k | 0 <= k < n ensures records[..n][k].inputId == GraphIds(inputs[..n])[k] {
      assert records[k].inputId == GraphIds(inputs)[k];
    }
    GraphBatchCommitsIff(g, inputs, decision, G.ScopeOf(g), |LogOf(prior)|, records[n], facts[n], batch);
    GraphDecisionRecordsInput(g, inputs, decision);
    GraphPlanIsShort(g, decision);
  }

  lemma {:induction false} GraphCommitsArePlanned(g: G.Instance, inputs: seq<G.GraphSagaInput>, facts: seq<seq<ProcessOutcomeFact>>, records: seq<ProcessInput>)
    requires |facts| == |inputs| && Records(GraphIds(inputs), records) && GraphRunCommits(g, inputs, facts, records).Ok?
    ensures AllPlanned(G.ScopeOf(g), GraphRunCommits(g, inputs, facts, records).value, records, facts)
    ensures |LogOf(GraphRunCommits(g, inputs, facts, records).value)| == 3 * |inputs|
  {
    if inputs != [] {
      var n := |inputs| - 1;
      var prior, c := LastGraphCommit(g, inputs, facts, records);
      GraphCommitsArePlanned(g, inputs[..n], facts[..n], records[..n]);
      AppendedIsPlanned(G.ScopeOf(g), prior, c, records, facts);
      LogOfAppended(prior, c);
    }
  }

  // The same for graph runs, which commit exactly three outcomes per input.
  lemma GraphCommitsInTurnIff(g: G.Instance, inputs: seq<G.GraphSagaInput>, facts: seq<seq<ProcessOutcomeFact>>, records: seq<ProcessInput>)
    requires |facts| == |inputs| && Records(GraphIds(inputs), records) && GraphRunCommits(g, inputs, facts, records).Ok?
    ensures var commits := GraphRunCommits(g, inputs, facts, records).value;
      && |commits| == |inputs| && |LogOf(commits)| == 3 * |inputs|
      && (AllInTurn(G.ScopeOf(g), commits) <==>
            DistinctOutcomeIds(LogOf(commits)) && 3 * |inputs| <= MAX_OUTCOMES_PER_REPLAY_LOG && AllOwned(records, G.ScopeOf(g)))
  {
    GraphCommitsArePlanned(g, inputs, facts, records);
    AllInTurnIff(G.ScopeOf(g), GraphRunCommits(g, inputs, facts, records).value, records, facts);
    PlannedIsNumbered(G.ScopeOf(g), GraphRunCommits(g, inputs, facts, records).value, records, facts);
  }
}
