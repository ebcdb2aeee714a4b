// Bounded replay pages and the logs they carry
// (crates/penelope-ports/src/implementation.rs).
module ReplayPages {
  import opened Wrappers
  import opened Domain
  import opened OutcomeLogs

  const MAX_OUTCOMES_PER_READ_PAGE: nat := 512

  datatype OutcomePageError = PageLimitExceeded | OutcomeScopeMismatch | PageNotContiguous | InvalidContinuation | SequenceOverflow

  datatype OutcomeReplayPage = OutcomeReplayPage(
    scope: ProcessScope,
    fromSequence: u64,
    outcomes: seq<ProcessOutcome>,
    nextSequence: Option<u64>)

  ghost function EntryFault(page: OutcomeReplayPage, i: nat): Option<OutcomePageError>
    requires i < |page.outcomes|
  {
    if page.outcomes[i].scope != page.scope then Some(OutcomeScopeMismatch)
    else if page.outcomes[i].sequence != page.fromSequence + i then Some(PageNotContiguous)
    else if page.fromSequence + i == U64_MAX then Some(SequenceOverflow)
    else None
  }

  ghost function FirstEntryFault(page: OutcomeReplayPage, n: nat): (fault: Option<OutcomePageError>)
    requires n <= |page.outcomes|
    ensures fault.None? <==> forall i :: 0 <= i < n ==> EntryFault(page, i).None?
  {
    if n == 0 then None
    else
      var earlier := FirstEntryFault(page, n - 1);
      if earlier.Some? then earlier else EntryFault(page, n - 1)
  }

  ghost function PageFault(page: OutcomeReplayPage): Option<OutcomePageError> {
    if |page.outcomes| > MAX_OUTCOMES_PER_READ_PAGE then Some(PageLimitExceeded)
    else
      var fault := FirstEntryFault(page, |page.outcomes|);
      if fault.Some? then fault
      else if page.outcomes == [] && page.nextSequence.Some? then Some(InvalidContinuation)
      else if page.nextSequence.Some? && page.nextSequence.value != page.fromSequence + |page.outcomes| then Some(InvalidContinuation)
      else None
  }

  // What this error says of outcome `i` of the page.
  predicate EntryBlames(page: OutcomeReplayPage, i: nat, e: OutcomePageError)
    requires i < |page.outcomes|
  {
    var o := page.outcomes[i];
    match e
    case OutcomeScopeMismatch => o.scope != page.scope
    case PageNotContiguous => o.scope == page.scope && o.sequence != page.fromSequence + i
    case SequenceOverflow => o.scope == page.scope && o.sequence == page.fromSequence + i == U64_MAX
    case _ => false
  }

  predicate EntryIsFine(page: OutcomeReplayPage, i: nat)
    requires i < |page.outcomes|
  {
    page.outcomes[i].scope == page.scope && page.outcomes[i].sequence == page.fromSequence + i < U64_MAX
  }

  predicate FirstBlamed(page: OutcomeReplayPage, i: nat, e: OutcomePageError)
    requires i < |page.outcomes|
  {
    (forall j :: 0 <= j < i ==> EntryIsFine(page, j)) && EntryBlames(page, i, e)
  }

  lemma EntryFaultSays(page: OutcomeReplayPage, i: nat, e: OutcomePageError)
    requires i < |page.outcomes|
    ensures EntryFault(page, i) == Some(e) <==> EntryBlames(page, i, e)
    ensures EntryFault(page, i).None? <==> EntryIsFine(page, i)
  {
    assert page.outcomes[i].sequence <= U64_MAX;
  }

  lemma {:induction false} FirstEntryFaultSays(page: OutcomeReplayPage, n: nat, e: OutcomePageError)
    requires n <= |page.outcomes|
    ensures FirstEntryFault(page, n) == Some(e) <==> exists i :: 0 <= i < n && FirstBlamed(page, i, e)
    ensures FirstEntryFault(page, n).None? <==> forall i :: 0 <= i < n ==> EntryIsFine(page, i)
  {
    if n > 0 {
      FirstEntryFaultSays(page, n - 1, e);
      EntryFaultSays(page, n - 1, e);
      if FirstEntryFault(page, n - 1).None? {
        assert FirstBlamed(page, n - 1, e) <==> EntryBlames(page, n - 1, e);
        assert forall i :: 0 <= i < n - 1 ==> !FirstBlamed(page, i, e);
      } else {
        assert !FirstBlamed(page, n - 1, e);
      }
    }
  }

  // A page is refused for its size, for the first outcome out of place, or for a
  // continuation that does not follow its last outcome.
  lemma PageFaultSays(page: OutcomeReplayPage, e: OutcomePageError)
    ensures PageFault(page) == Some(e) <==>
      if |page.outcomes| > 512 then e == PageLimitExceeded
      else if forall i :: 0 <= i < |page.outcomes| ==> EntryIsFine(page, i) then
        && e == InvalidContinuation && page.nextSequence.Some?
        && (page.outcomes == [] || page.nextSequence.value != page.fromSequence + |page.outcomes|)
      else exists i :: 0 <= i < |page.outcomes| && FirstBlamed(page, i, e)
  {
    FirstEntryFaultSays(page, |page.outcomes|, e);
  }

  lemma {:induction false} EntryFaultStands(page: OutcomeReplayPage, i: nat, n: nat)
    requires i < n <= |page.outcomes|
    requires FirstEntryFault(page, i).None? && EntryFault(page, i).Some?
    ensures FirstEntryFault(page, n) == EntryFault(page, i)
  {
    if i < n - 1 {
      EntryFaultStands(page, i, n - 1);
    }
  }

  method ValidatePage(page: OutcomeReplayPage) returns (fault: Option<OutcomePageError>)
    ensures fault == PageFault(page)
  {
    if |page.outcomes| > MAX_OUTCOMES_PER_READ_PAGE {
      return Some(PageLimitExceeded);
    }
    var expected: u64 := page.fromSequence;
    for i := 0 to |page.outcomes|
      invariant expected == page.fromSequence + i
      invariant FirstEntryFault(page, i).None?
    {
      if page.outcomes[i].scope != page.scope {
        EntryFaultStands(page, i, |page.outcomes|);
        return Some(OutcomeScopeMismatch);
      }
      if page.outcomes[i].sequence != expected {
        EntryFaultStands(page, i, |page.outcomes|);
        return Some(PageNotContiguous);
      }
      if expected == U64_MAX {
        EntryFaultStands(page, i, |page.outcomes|);
        return Some(SequenceOverflow);
      }
      expected := expected + 1;
    }
    if page.outcomes == [] && page.nextSequence.Some? {
      return Some(InvalidContinuation);
    }
    if page.nextSequence.Some? && page.nextSequence.value != expected {
      return Some(InvalidContinuation);
    }
    return None;
  }

  // What an accepted page holds, as one condition.
  lemma PageIsValidIff(page: OutcomeReplayPage)
    ensures PageFault(page).None? <==>
              && |page.outcomes| <= MAX_OUTCOMES_PER_READ_PAGE
              && Numbered(page.scope, page.fromSequence, page.outcomes)
              && (page.outcomes != [] ==> page.fromSequence + |page.outcomes| <= U64_MAX)
              && (page.nextSequence.Some? ==>
                    page.outcomes != [] && page.nextSequence.value == page.fromSequence + |page.outcomes|)
  {
    var n := |page.outcomes|;
    if FirstEntryFault(page, n).None? {
      forall i | 0 <= i < n ensures page.outcomes[i].scope == page.scope && page.outcomes[i].sequence == page.fromSequence + i {
        assert EntryFault(page, i).None?;
      }
      if n > 0 {
        assert EntryFault(page, n - 1).None?;
        assert page.outcomes[n - 1].sequence <= U64_MAX;
      }
    } else {
      var i :| 0 <= i < n && EntryFault(page, i).Some?;
    }
  }

  // -------------------------------------------------------------------- page chains

  // Each page continues where the one before it ends; the last ends the log.
  ghost predicate Chained(scope: ProcessScope, from: nat, pages: seq<OutcomeReplayPage>)
    decreases |pages|
  {
    && pages != []
    && pages[0].scope == scope && pages[0].fromSequence == from && PageFault(pages[0]).None?
    && (if |pages| == 1 then pages[0].nextSequence.None?
        else pages[0].nextSequence.Some? && Chained(scope, pages[0].nextSequence.value, pages[1..]))
  }

  ghost function Concatenated(pages: seq<OutcomeReplayPage>): seq<ProcessOutcome> {
    if pages == [] then [] else pages[0].outcomes + Concatenated(pages[1..])
  }

  // A chain of accepted pages carries one contiguous run of the scope's outcomes.
  lemma {:induction false} ChainIsNumbered(scope: ProcessScope, from: nat, pages: seq<OutcomeReplayPage>)
    requires Chained(scope, from, pages)
    ensures Numbered(scope, from, Concatenated(pages))
    decreases |pages|
  {
    PageIsValidIff(pages[0]);
    if |pages| > 1 {
      ChainIsNumbered(scope, pages[0].nextSequence.value, pages[1..]);
    } else {
      assert pages[1..] == [];
    }
  }

  // So a chain from sequence zero rebuilds a log exactly when its identities are
  // distinct and fit the replay bound.
  lemma ChainRebuildsLogIff(scope: ProcessScope, pages: seq<OutcomeReplayPage>)
    requires Chained(scope, 0, pages)
    ensures AppendFault(scope, [], Concatenated(pages)).None?
       <==> DistinctOutcomeIds(Concatenated(pages)) && |Concatenated(pages)| <= MAX_OUTCOMES_PER_REPLAY_LOG
  {
    ChainIsNumbered(scope, 0, pages);
    AppendsIffWellFormed(scope, [], Concatenated(pages));
    assert [] + Concatenated(pages) == Concatenated(pages);
  }

  // The log read page by page, `size` outcomes at a time.
  ghost function Cut(scope: ProcessScope, log: seq<ProcessOutcome>, from: nat, size: nat): (pages: seq<OutcomeReplayPage>)
    requires from <= |log| <= U64_MAX && size >= 1
    ensures pages != []
    decreases |log| - from
  {
    if |log| - from <= size then [OutcomeReplayPage(scope, from, log[from..], None)]
    else [OutcomeReplayPage(scope, from, log[from..from + size], Some(from + size))] + Cut(scope, log, from + size, size)
  }

  lemma FirstPageIsValid(scope: ProcessScope, log: seq<ProcessOutcome>, from: nat, size: nat)
    requires WellFormed(scope, log) && from <= |log| && 1 <= size <= MAX_OUTCOMES_PER_READ_PAGE
    ensures PageFault(Cut(scope, log, from, size)[0]).None?
  {
    PageIsValidIff(Cut(scope, log, from, size)[0]);
  }

  // Cutting a well-formed log into pages of any permitted size gives a chain of
  // valid pages that concatenates to the log.
  lemma CutIsChained(scope: ProcessScope, log: seq<ProcessOutcome>, from: nat, size: nat)
    requires WellFormed(scope, log) && from <= |log| && 1 <= size <= MAX_OUTCOMES_PER_READ_PAGE
    ensures Chained(scope, from, Cut(scope, log, from, size))
    ensures Concatenated(Cut(scope, log, from, size)) == log[from..]
  {
    PagesAreChained(scope, log, from, size, Cut(scope, log, from, size));
  }

  lemma {:induction false} PagesAreChained(scope: ProcessScope, log: seq<ProcessOutcome>, from: nat, size: nat, pages: seq<OutcomeReplayPage>)
    requires WellFormed(scope, log) && from <= |log| && 1 <= size <= MAX_OUTCOMES_PER_READ_PAGE
    requires pages == Cut(scope, log, from, size)
    ensures Chained(scope, from, pages) && Concatenated(pages) == log[from..]
    decreases |log| - from
  {
    if |log| - from > size {
      var page, rest := FirstPage(scope, log, from, size, pages);
      PagesAreChained(scope, log, from + size, size, rest);
      CutPrepends(scope, log, from, from + size, page, rest);
    } else {
      FirstPageIsValid(scope, log, from, size);
      OnePageChain(OutcomeReplayPage(scope, from, log[from..], None));
    }
  }

  lemma CutPrepends(scope: ProcessScope, log: seq<ProcessOutcome>, from: nat, to: nat, page: OutcomeReplayPage, rest: seq<OutcomeReplayPage>)
    requires from <= to <= |log| && PageFault(page).None? && page.scope == scope && page.fromSequence == from
    requires page.nextSequence == Some(to) && page.outcomes == log[from..to]
    requires Chained(scope, to, rest) && Concatenated(rest) == log[to..]
    ensures Chained(scope, from, [page] + rest) && Concatenated([page] + rest) == log[from..]
  {
    ChainPrepends(scope, page, rest);
    SliceSplits(log, from, to);
  }

  // The first page of a longer cut, and the pages after it.
  lemma FirstPage(scope: ProcessScope, log: seq<ProcessOutcome>, from: nat, size: nat, pages: seq<OutcomeReplayPage>)
    returns (page: OutcomeReplayPage, rest: seq<OutcomeReplayPage>)
    requires WellFormed(scope, log) && 1 <= size <= MAX_OUTCOMES_PER_READ_PAGE && from + size < |log|
    requires pages == Cut(scope, log, from, size)
    ensures pages == [page] + rest && rest == Cut(scope, log, from + size, size)
    ensures PageFault(page).None? && page.scope == scope && page.fromSequence == from
    ensures page.nextSequence == Some(from + size) && page.outcomes == log[from..from + size]
  {
    FirstPageIsValid(scope, log, from, size);
    page, rest := OutcomeReplayPage(scope, from, log[from..from + size], Some(from + size)), Cut(scope, log, from + size, size);
  }

  lemma SliceSplits(log: seq<ProcessOutcome>, from: nat, to: nat)
    requires from <= to <= |log|
    ensures log[from..] == log[from..to] + log[to..]
  {
  }

  lemma OnePageChain(page: OutcomeReplayPage)
    requires PageFault(page).None? && page.nextSequence.None?
    ensures Chained(page.scope, page.fromSequence, [page]) && Concatenated([page]) == page.outcomes
  {
    assert [page][1..] == [] && page.outcomes + [] == page.outcomes;
  }

  lemma ChainPrepends(scope: ProcessScope, page: OutcomeReplayPage, pages: seq<OutcomeReplayPage>)
    requires PageFault(page).None? && page.scope == scope && page.nextSequence.Some?
    requires Chained(scope, page.nextSequence.value, pages)
    ensures Chained(scope, page.fromSequence, [page] + pages)
    ensures Concatenated([page] + pages) == page.outcomes + Concatenated(pages)
  {
    assert ([page] + pages)[1..] == pages;
  }
}
