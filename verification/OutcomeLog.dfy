// The bounded outcome accumulator: all-or-nothing append of ordered, singly
// scoped, uniquely identified outcomes (crates/penelope-ports/src/implementation.rs).
module OutcomeLogs {
  import opened Wrappers
  import opened Domain

  const MAX_OUTCOMES_PER_REPLAY_LOG: nat := 4096

  datatype OutcomeLogError = ScopeMismatch | NonContiguousSequence | DuplicateOutcomeId | LimitExceeded

  function IdsOf(outcomes: seq<ProcessOutcome>): set<OutcomeId> {
    set o | o in outcomes :: o.fact.outcomeId
  }

  ghost predicate DistinctOutcomeIds(outcomes: seq<ProcessOutcome>) {
    forall i, j :: 0 <= i < j < |outcomes| ==> outcomes[i].fact.outcomeId != outcomes[j].fact.outcomeId
  }

  // The outcomes carry the scope and are numbered from `first` on.
  ghost predicate Numbered(scope: ProcessScope, first: nat, outcomes: seq<ProcessOutcome>) {
    forall i :: 0 <= i < |outcomes| ==> outcomes[i].scope == scope && outcomes[i].sequence == first + i
  }

  // What every log holds: outcome i at sequence i, one scope, distinct
  // identities, within the replay bound.
  ghost predicate WellFormed(scope: ProcessScope, outcomes: seq<ProcessOutcome>) {
    && |outcomes| <= MAX_OUTCOMES_PER_REPLAY_LOG
    && Numbered(scope, 0, outcomes)
    && DistinctOutcomeIds(outcomes)
  }

  // Why entry `i` of a batch cannot follow `log`, if it cannot.
  ghost function EntryFault(scope: ProcessScope, log: seq<ProcessOutcome>, batch: seq<ProcessOutcome>, i: nat): Option<OutcomeLogError>
    requires i < |batch|
  {
    if batch[i].scope != scope then Some(ScopeMismatch)
    else if batch[i].sequence != |log| + i then Some(NonContiguousSequence)
    else if batch[i].fact.outcomeId in IdsOf(log) || batch[i].fact.outcomeId in IdsOf(batch[..i]) then Some(DuplicateOutcomeId)
    else None
  }

  ghost function FirstEntryFault(scope: ProcessScope, log: seq<ProcessOutcome>, batch: seq<ProcessOutcome>, n: nat)
    : (fault: Option<OutcomeLogError>)
    requires n <= |batch|
    ensures fault.None? <==> forall i :: 0 <= i < n ==> EntryFault(scope, log, batch, i).None?
  {
    if n == 0 then None
    else
      var earlier := FirstEntryFault(scope, log, batch, n - 1);
      if earlier.Some? then earlier else EntryFault(scope, log, batch, n - 1)
  }

  ghost function AppendFault(scope: ProcessScope, log: seq<ProcessOutcome>, batch: seq<ProcessOutcome>): Option<OutcomeLogError> {
    if |log| + |batch| > MAX_OUTCOMES_PER_REPLAY_LOG then Some(LimitExceeded)
    else FirstEntryFault(scope, log, batch, |batch|)
  }

  // Entry `i` can follow the log and the entries before it.
  ghost predicate EntryIsFine(scope: ProcessScope, log: seq<ProcessOutcome>, batch: seq<ProcessOutcome>, i: nat)
    requires i < |batch|
  {
    batch[i].scope == scope && batch[i].sequence == |log| + i && !IsRepeated(log, batch, i)
  }

  // Its identity occurs in the log or earlier in the batch.
  predicate IsRepeated(log: seq<ProcessOutcome>, batch: seq<ProcessOutcome>, i: nat)
    requires i < |batch|
  {
    || (exists k :: 0 <= k < |log| && log[k].fact.outcomeId == batch[i].fact.outcomeId)
    || (exists k :: 0 <= k < i && batch[k].fact.outcomeId == batch[i].fact.outcomeId)
  }

  // What this error says of entry `i`.
  ghost predicate EntryBlames(scope: ProcessScope, log: seq<ProcessOutcome>, batch: seq<ProcessOutcome>, i: nat, e: OutcomeLogError)
    requires i < |batch|
  {
    match e
    case ScopeMismatch => batch[i].scope != scope
    case NonContiguousSequence => batch[i].scope == scope && batch[i].sequence != |log| + i
    case DuplicateOutcomeId => batch[i].scope == scope && batch[i].sequence == |log| + i && IsRepeated(log, batch, i)
    case LimitExceeded => false
  }

  lemma EntryFaultSays(scope: ProcessScope, log: seq<ProcessOutcome>, batch: seq<ProcessOutcome>, i: nat, e: OutcomeLogError)
    requires i < |batch|
    ensures EntryFault(scope, log, batch, i) == Some(e) <==> EntryBlames(scope, log, batch, i, e)
    ensures EntryFault(scope, log, batch, i).None? <==> EntryIsFine(scope, log, batch, i)
  {
    RepeatIsListed(log, batch[i].fact.outcomeId);
    RepeatIsListed(batch[..i], batch[i].fact.outcomeId);
  }

  lemma RepeatIsListed(outcomes: seq<ProcessOutcome>, id: OutcomeId)
    ensures id in IdsOf(outcomes) <==> exists k :: 0 <= k < |outcomes| && outcomes[k].fact.outcomeId == id
  {
    if id in IdsOf(outcomes) {
      var o :| o in outcomes && o.fact.outcomeId == id;
      var k :| 0 <= k < |outcomes| && outcomes[k] == o;
    }
  }

  ghost predicate FirstBlamed(scope: ProcessScope, log: seq<ProcessOutcome>, batch: seq<ProcessOutcome>, i: nat, e: OutcomeLogError)
    requires i < |batch|
  {
    (forall j :: 0 <= j < i ==> EntryIsFine(scope, log, batch, j)) && EntryBlames(scope, log, batch, i, e)
  }

  lemma {:induction false} FirstEntryFaultSays(scope: ProcessScope, log: seq<ProcessOutcome>, batch: seq<ProcessOutcome>, n: nat, e: OutcomeLogError)
    requires n <= |batch|
    ensures FirstEntryFault(scope, log, batch, n) == Some(e) <==> exists i :: 0 <= i < n && FirstBlamed(scope, log, batch, i, e)
    ensures FirstEntryFault(scope, log, batch, n).None? <==> forall i :: 0 <= i < n ==> EntryIsFine(scope, log, batch, i)
  {
    if n > 0 {
      FirstEntryFaultSays(scope, log, batch, n - 1, e);
      EntryFaultSays(scope, log, batch, n - 1, e);
      if FirstEntryFault(scope, log, batch, n - 1).None? {
        assert FirstBlamed(scope, log, batch, n - 1, e) <==> EntryBlames(scope, log, batch, n - 1, e);
        assert forall i :: 0 <= i < n - 1 ==> !FirstBlamed(scope, log, batch, i, e);
      } else {
        assert !FirstBlamed(scope, log, batch, n - 1, e);
      }
    }
  }

  // Appending reports an error exactly when the first entry that cannot follow is
  // to blame for it, or the whole batch for being too long.
  lemma AppendFaultSays(scope: ProcessScope, log: seq<ProcessOutcome>, batch: seq<ProcessOutcome>, e: OutcomeLogError)
    ensures AppendFault(scope, log, batch) == Some(e) <==>
      if |log| + |batch| > 4096 then e == LimitExceeded
      else exists i :: 0 <= i < |batch| && FirstBlamed(scope, log, batch, i, e)
  {
    FirstEntryFaultSays(scope, log, batch, |batch|, e);
  }

  lemma {:induction false} EntryFaultStands(scope: ProcessScope, log: seq<ProcessOutcome>, batch: seq<ProcessOutcome>, i: nat, n: nat)
    requires i < n <= |batch|
    requires FirstEntryFault(scope, log, batch, i).None? && EntryFault(scope, log, batch, i).Some?
    ensures FirstEntryFault(scope, log, batch, n) == EntryFault(scope, log, batch, i)
  {
    if i < n - 1 {
      EntryFaultStands(scope, log, batch, i, n - 1);
    }
  }

  class OutcomeLog {
    const scope: ProcessScope
    var outcomes: seq<ProcessOutcome>
    var seenOutcomeIds: set<OutcomeId>

    ghost predicate Valid()
      reads this
    {
      WellFormed(scope, outcomes) && seenOutcomeIds == IdsOf(outcomes)
    }

    constructor (scope: ProcessScope)
      ensures Valid() && this.scope == scope && outcomes == []
    {
      this.scope := scope;
      outcomes := [];
      seenOutcomeIds := {};
    }

    // All or nothing: the whole batch follows the log, or nothing changes and
    // the first fault is reported. Sequences stay below 4096, so the source's
    // sequence-overflow branch cannot arise here.
    method Append(batch: seq<ProcessOutcome>) returns (fault: Option<OutcomeLogError>)
      requires Valid()
      modifies this`outcomes, this`seenOutcomeIds
      ensures Valid()
      ensures fault == AppendFault(scope, old(outcomes), batch)
      ensures outcomes == if fault.None? then old(outcomes) + batch else old(outcomes)
    {
      if |outcomes| + |batch| > MAX_OUTCOMES_PER_REPLAY_LOG {
        return Some(LimitExceeded);
      }
      var expected: u64 := |outcomes|;
      if |batch| == 1 {
        fault := AppendOne(batch[0], expected);
        assert batch == [batch[0]];
        return;
      }
      var newIds: set<OutcomeId> := {};
      for i := 0 to |batch|
        invariant expected == |outcomes| + i
        invariant newIds == IdsOf(batch[..i])
        invariant FirstEntryFault(scope, outcomes, batch, i).None?
      {
        var outcome := batch[i];
        if outcome.scope != scope {
          EntryFaultStands(scope, outcomes, batch, i, |batch|);
          return Some(ScopeMismatch);
        }
        if outcome.sequence != expected {
          EntryFaultStands(scope, outcomes, batch, i, |batch|);
          return Some(NonContiguousSequence);
        }
        if outcome.fact.outcomeId in seenOutcomeIds || outcome.fact.outcomeId in newIds {
          EntryFaultStands(scope, outcomes, batch, i, |batch|);
          return Some(DuplicateOutcomeId);
        }
        assert batch[..i + 1] == batch[..i] + [outcome];
        newIds := newIds + {outcome.fact.outcomeId};
        expected := expected + 1;
      }
      assert batch[..|batch|] == batch;
      AppendsIffWellFormed(scope, outcomes, batch);
      IdsOfJoin(outcomes, batch);
      outcomes := outcomes + batch;
      seenOutcomeIds := seenOutcomeIds + newIds;
      return None;
    }

    // The singleton path needs no temporary identity set.
    method AppendOne(outcome: ProcessOutcome, expected: u64) returns (fault: Option<OutcomeLogError>)
      requires Valid() && expected == |outcomes| < MAX_OUTCOMES_PER_REPLAY_LOG
      modifies this`outcomes, this`seenOutcomeIds
      ensures Valid()
      ensures fault == AppendFault(scope, old(outcomes), [outcome])
      ensures outcomes == if fault.None? then old(outcomes) + [outcome] else old(outcomes)
    {
      SingletonFault(scope, outcomes, outcome);
      if outcome.scope != scope {
        return Some(ScopeMismatch);
      }
      if outcome.sequence != expected {
        return Some(NonContiguousSequence);
      }
      if outcome.fact.outcomeId in seenOutcomeIds {
        return Some(DuplicateOutcomeId);
      }
      AppendsIffWellFormed(scope, outcomes, [outcome]);
      IdsOfJoin(outcomes, [outcome]);
      outcomes := outcomes + [outcome];
      seenOutcomeIds := seenOutcomeIds + {outcome.fact.outcomeId};
      return None;
    }
  }

  // Rebuilds a log from durable outcomes, accepting exactly the well-formed ones.
  method FromOrdered(scope: ProcessScope, outcomes: seq<ProcessOutcome>) returns (log: OutcomeLog, fault: Option<OutcomeLogError>)
    ensures fresh(log) && log.Valid() && log.scope == scope
    ensures fault == AppendFault(scope, [], outcomes)
    ensures fault.None? <==> WellFormed(scope, outcomes)
    ensures fault.None? ==> log.outcomes == outcomes
  {
    log := new OutcomeLog(scope);
    fault := log.Append(outcomes);
    AppendsIffWellFormed(scope, [], outcomes);
    assert [] + outcomes == outcomes;
  }

  lemma SingletonFault(scope: ProcessScope, log: seq<ProcessOutcome>, outcome: ProcessOutcome)
    requires |log| < MAX_OUTCOMES_PER_REPLAY_LOG
    ensures AppendFault(scope, log, [outcome]) == EntryFault(scope, log, [outcome], 0)
    ensures IdsOf([outcome][..0]) == {}
  {
    assert FirstEntryFault(scope, log, [outcome], 0).None?;
  }

  lemma IdsOfJoin(a: seq<ProcessOutcome>, b: seq<ProcessOutcome>)
    ensures IdsOf(a + b) == IdsOf(a) + IdsOf(b)
  {
  }

  // Appending to a well-formed log succeeds exactly when the result is again a
  // well-formed log.
  lemma AppendsIffWellFormed(scope: ProcessScope, log: seq<ProcessOutcome>, batch: seq<ProcessOutcome>)
    requires WellFormed(scope, log)
    ensures AppendFault(scope, log, batch).None? <==> WellFormed(scope, log + batch)
  {
    var all := log + batch;
    if AppendFault(scope, log, batch).None? {
      forall i, j | 0 <= i < j < |all| ensures all[i].fact.outcomeId != all[j].fact.outcomeId {
        if j >= |log| {
          assert EntryFault(scope, log, batch, j - |log|).None?;
          if i >= |log| {
            assert batch[..j - |log|][i - |log|] == all[i];
            assert all[i] in batch[..j - |log|];
          } else {
            assert log[i] in log;
          }
        }
      }
      forall i | 0 <= i < |all| ensures all[i].scope == scope && all[i].sequence == i {
        if i >= |log| {
          assert EntryFault(scope, log, batch, i - |log|).None?;
        }
      }
    }
    if WellFormed(scope, all) {
      forall i | 0 <= i < |batch| ensures EntryFault(scope, log, batch, i).None? {
        assert all[|log| + i] == batch[i];
        forall o | o in log ensures o.fact.outcomeId != batch[i].fact.outcomeId {
          var k :| 0 <= k < |log| && log[k] == o;
          assert all[k] == o;
        }
        forall o | o in batch[..i] ensures o.fact.outcomeId != batch[i].fact.outcomeId {
          var k :| 0 <= k < i && batch[k] == o;
          assert all[|log| + k] == o;
        }
      }
    }
  }

  // Appending two batches at once succeeds exactly when appending them one
  // after the other does, and leaves the same log.
  lemma AppendSplits(scope: ProcessScope, log: seq<ProcessOutcome>, a: seq<ProcessOutcome>, b: seq<ProcessOutcome>)
    requires WellFormed(scope, log)
    ensures AppendFault(scope, log, a + b).None?
       <==> AppendFault(scope, log, a).None? && AppendFault(scope, log + a, b).None?
    ensures (log + a) + b == log + (a + b)
  {
    AppendsIffWellFormed(scope, log, a + b);
    AppendsIffWellFormed(scope, log, a);
    assert (log + a) + b == log + (a + b);
    if WellFormed(scope, log + a) {
      AppendsIffWellFormed(scope, log + a, b);
    }
    if WellFormed(scope, log + (a + b)) {
      WellFormedPrefix(scope, log + (a + b), |log| + |a|);
      assert (log + (a + b))[..|log| + |a|] == log + a;
    }
  }

  lemma WellFormedPrefix(scope: ProcessScope, log: seq<ProcessOutcome>, n: nat)
    requires WellFormed(scope, log) && n <= |log|
    ensures WellFormed(scope, log[..n])
  {
  }
}
