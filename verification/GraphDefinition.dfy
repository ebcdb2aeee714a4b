// Validation of bounded process graphs: references, edge keys and reachability
// (crates/penelope-executor/src/engine.rs).
module GraphDefinition {
  import opened Wrappers
  import opened Domain
  import opened TextOrder
  import opened SagaDefinition

  const MAX_GRAPH_TRANSITIONS: nat := 512

  datatype GraphTransitionOutcome = OnSucceeded | OnRetryableFailure | OnTerminalFailure

  datatype GraphTransition = GraphTransition(fromStep: StepId, on: GraphTransitionOutcome, toStep: Option<StepId>)

  datatype ProcessGraphDefinition = ProcessGraphDefinition(
    definitionId: DefinitionId,
    definitionVersion: DefinitionVersion,
    definitionDigest: ContentDigest,
    steps: seq<StepPlan>,
    entryStepId: StepId,
    transitions: seq<GraphTransition>,
    maxStepVisits: NonZeroU32)

  datatype GraphDefinitionError =
    | EmptySteps | StepLimitExceeded | TransitionLimitExceeded | DuplicateStep | UnknownEntryStep
    | UnknownSourceStep | UnknownDestinationStep | DuplicateTransition | MissingDestination | UnreachableStep

  // ---------------------------------------------------------------- specification

  predicate Declared(d: ProcessGraphDefinition, id: StepId) {
    exists i :: 0 <= i < |d.steps| && d.steps[i].stepId == id
  }

  predicate SameEdgeKey(a: GraphTransition, b: GraphTransition) {
    a.fromStep == b.fromStep && a.on == b.on
  }

  // What is wrong with edge `i`, given the edges before it.
  function EdgeFault(d: ProcessGraphDefinition, i: nat): Option<GraphDefinitionError>
    requires i < |d.transitions|
  {
    var edge := d.transitions[i];
    if !Declared(d, edge.fromStep) then Some(UnknownSourceStep)
    else if edge.toStep.Some? && !Declared(d, edge.toStep.value) then Some(UnknownDestinationStep)
    else if edge.toStep.None? && edge.on == OnRetryableFailure then Some(MissingDestination)
    else if exists j :: 0 <= j < i && SameEdgeKey(d.transitions[j], edge) then Some(DuplicateTransition)
    else None
  }

  // The fault of the first faulty edge among the first n.
  function FirstEdgeFault(d: ProcessGraphDefinition, n: nat): (fault: Option<GraphDefinitionError>)
    requires n <= |d.transitions|
    ensures fault.None? <==> forall i :: 0 <= i < n ==> EdgeFault(d, i).None?
  {
    if n == 0 then None
    else
      var earlier := FirstEdgeFault(d, n - 1);
      if earlier.Some? then earlier else EdgeFault(d, n - 1)
  }

  predicate Linked(d: ProcessGraphDefinition, a: StepId, b: StepId) {
    exists i :: 0 <= i < |d.transitions| && d.transitions[i].fromStep == a && d.transitions[i].toStep == Some(b)
  }

  // A walk along edges with a destination.
  ghost predicate IsPath(d: ProcessGraphDefinition, path: seq<StepId>) {
    && path != []
    && forall i :: 0 <= i < |path| - 1 ==> Linked(d, path[i], path[i + 1])
  }

  ghost predicate Reaches(d: ProcessGraphDefinition, a: StepId, b: StepId) {
    exists path :: IsPath(d, path) && path[0] == a && path[|path| - 1] == b
  }

  // Both ends of every edge are steps.
  predicate EndsDeclared(d: ProcessGraphDefinition) {
    && (forall i :: 0 <= i < |d.transitions| ==> Declared(d, d.transitions[i].fromStep))
    && (forall i :: 0 <= i < |d.transitions| && d.transitions[i].toStep.Some? ==> Declared(d, d.transitions[i].toStep.value))
  }

  // A retryable failure leads somewhere; any other outcome may end the process.
  predicate RetriesLead(edges: seq<GraphTransition>) {
    forall i :: 0 <= i < |edges| && edges[i].on == OnRetryableFailure ==> edges[i].toStep.Some?
  }

  // No two edges leave one step with one outcome.
  ghost predicate UniqueKeys(edges: seq<GraphTransition>) {
    forall i, j :: 0 <= i < j < |edges| ==> edges[i].fromStep != edges[j].fromStep || edges[i].on != edges[j].on
  }

  ghost predicate AllReached(d: ProcessGraphDefinition) {
    forall i :: 0 <= i < |d.steps| ==> Reaches(d, d.entryStepId, d.steps[i].stepId)
  }

  ghost predicate ValidGraph(d: ProcessGraphDefinition) {
    && 1 <= |d.steps| <= MAX_DEFINITION_STEPS
    && |d.transitions| <= MAX_GRAPH_TRANSITIONS
    && UniqueStepIds(d.steps) && Declared(d, d.entryStepId)
    && EndsDeclared(d) && RetriesLead(d.transitions) && UniqueKeys(d.transitions)
    && AllReached(d)
  }

  // No edge has a fault exactly when the edges are as a valid graph has them.
  lemma EdgesAreFineIff(d: ProcessGraphDefinition)
    ensures (forall i :: 0 <= i < |d.transitions| ==> EdgeFault(d, i).None?)
       <==> EndsDeclared(d) && RetriesLead(d.transitions) && UniqueKeys(d.transitions)
  {
    if forall i :: 0 <= i < |d.transitions| ==> EdgeFault(d, i).None? {
      forall i, j | 0 <= i < j < |d.transitions|
        ensures d.transitions[i].fromStep != d.transitions[j].fromStep || d.transitions[i].on != d.transitions[j].on
      {
        assert EdgeFault(d, j).None?;
      }
      forall i | 0 <= i < |d.transitions|
        ensures Declared(d, d.transitions[i].fromStep)
        ensures d.transitions[i].toStep.Some? ==> Declared(d, d.transitions[i].toStep.value)
        ensures d.transitions[i].on == OnRetryableFailure ==> d.transitions[i].toStep.Some?
      {
        assert EdgeFault(d, i).None?;
      }
    }
  }

  // The verdict of validation, with the error the source reports first.
  ghost function Verdict(d: ProcessGraphDefinition): (r: Result<(), GraphDefinitionError>)
    ensures r.Ok? <==> ValidGraph(d)
  {
    EdgesAreFineIff(d);
    if |d.steps| == 0 then Err(EmptySteps)
    else if |d.steps| > MAX_DEFINITION_STEPS then Err(StepLimitExceeded)
    else if |d.transitions| > MAX_GRAPH_TRANSITIONS then Err(TransitionLimitExceeded)
    else if !UniqueStepIds(d.steps) then Err(DuplicateStep)
    else if !Declared(d, d.entryStepId) then Err(UnknownEntryStep)
    else
      var fault := FirstEdgeFault(d, |d.transitions|);
      if fault.Some? then Err(fault.value)
      else if exists i :: 0 <= i < |d.steps| && !Reaches(d, d.entryStepId, d.steps[i].stepId) then Err(UnreachableStep)
      else Ok(())
  }

  // ------------------------------------------------------------- what an error says

  // Edge `i` repeats the step and outcome of an earlier edge.
  predicate RepeatsKey(d: ProcessGraphDefinition, i: nat)
    requires i < |d.transitions|
  {
    exists j :: 0 <= j < i && d.transitions[j].fromStep == d.transitions[i].fromStep && d.transitions[j].on == d.transitions[i].on
  }

  // What this error says of edge `i`.
  predicate EdgeBlames(d: ProcessGraphDefinition, i: nat, e: GraphDefinitionError)
    requires i < |d.transitions|
  {
    var edge := d.transitions[i];
    match e
    case UnknownSourceStep => !Declared(d, edge.fromStep)
    case UnknownDestinationStep => Declared(d, edge.fromStep) && edge.toStep.Some? && !Declared(d, edge.toStep.value)
    case MissingDestination => Declared(d, edge.fromStep) && edge.toStep.None? && edge.on == OnRetryableFailure
    case DuplicateTransition =>
      && Declared(d, edge.fromStep) && RepeatsKey(d, i)
      && (if edge.toStep.Some? then Declared(d, edge.toStep.value) else edge.on != OnRetryableFailure)
    case _ => false
  }

  // Edge `i` is as a valid graph may have it, given the edges before it.
  predicate EdgeIsFine(d: ProcessGraphDefinition, i: nat)
    requires i < |d.transitions|
  {
    var edge := d.transitions[i];
    && Declared(d, edge.fromStep) && !RepeatsKey(d, i)
    && (if edge.toStep.Some? then Declared(d, edge.toStep.value) else edge.on != OnRetryableFailure)
  }

  // Edge `i` is the first that is not fine, and this is what is wrong with it.
  predicate FirstBlamed(d: ProcessGraphDefinition, i: nat, e: GraphDefinitionError)
    requires i < |d.transitions|
  {
    (forall j :: 0 <= j < i ==> EdgeIsFine(d, j)) && EdgeBlames(d, i, e)
  }

  lemma EdgeFaultSays(d: ProcessGraphDefinition, i: nat, e: GraphDefinitionError)
    requires i < |d.transitions|
    ensures EdgeFault(d, i) == Some(e) <==> EdgeBlames(d, i, e)
    ensures EdgeFault(d, i).None? <==> EdgeIsFine(d, i)
  {
  }

  lemma {:induction false} FirstEdgeFaultSays(d: ProcessGraphDefinition, n: nat, e: GraphDefinitionError)
    requires n <= |d.transitions|
    ensures FirstEdgeFault(d, n) == Some(e) <==> exists i :: 0 <= i < n && FirstBlamed(d, i, e)
    ensures FirstEdgeFault(d, n).None? <==> forall i :: 0 <= i < n ==> EdgeIsFine(d, i)
  {
    if n > 0 {
      FirstEdgeFaultSays(d, n - 1, e);
      EdgeFaultSays(d, n - 1, e);
      var earlier := FirstEdgeFault(d, n - 1);
      if earlier.None? {
        assert FirstBlamed(d, n - 1, e) <==> EdgeBlames(d, n - 1, e);
        assert forall i :: 0 <= i < n - 1 ==> !FirstBlamed(d, i, e);
      } else {
        assert !FirstBlamed(d, n - 1, e);
      }
    }
  }

  ghost predicate HeadIsFine(d: ProcessGraphDefinition) {
    && 1 <= |d.steps| <= MAX_DEFINITION_STEPS && |d.transitions| <= MAX_GRAPH_TRANSITIONS
    && UniqueStepIds(d.steps) && Declared(d, d.entryStepId)
  }

  // What each error of validation means, in the order they take precedence.
  ghost predicate GraphBlames(d: ProcessGraphDefinition, e: GraphDefinitionError) {
    match e
    case EmptySteps => d.steps == []
    case StepLimitExceeded => |d.steps| > MAX_DEFINITION_STEPS
    case TransitionLimitExceeded => 1 <= |d.steps| <= MAX_DEFINITION_STEPS && |d.transitions| > MAX_GRAPH_TRANSITIONS
    case DuplicateStep =>
      && 1 <= |d.steps| <= MAX_DEFINITION_STEPS && |d.transitions| <= MAX_GRAPH_TRANSITIONS && !UniqueStepIds(d.steps)
    case UnknownEntryStep =>
      && 1 <= |d.steps| <= MAX_DEFINITION_STEPS && |d.transitions| <= MAX_GRAPH_TRANSITIONS && UniqueStepIds(d.steps)
      && !Declared(d, d.entryStepId)
    case UnreachableStep =>
      HeadIsFine(d) && EndsDeclared(d) && RetriesLead(d.transitions) && UniqueKeys(d.transitions) && !AllReached(d)
    case _ => HeadIsFine(d) && exists i :: 0 <= i < |d.transitions| && FirstBlamed(d, i, e)
  }

  // Validation reports an error exactly when the graph is to blame for it.
  lemma VerdictSays(d: ProcessGraphDefinition, e: GraphDefinitionError)
    ensures Verdict(d) == Err(e) <==> GraphBlames(d, e)
  {
    FirstEdgeFaultSays(d, |d.transitions|, e);
    EdgesAreFineIff(d);
    forall i | 0 <= i < |d.transitions| && FirstBlamed(d, i, e) ensures EdgeFault(d, i).Some? {
      EdgeFaultSays(d, i, e);
    }
  }

  // -------------------------------------------------------------- sorted step ids

  function Identity(t: Text): seq<byte> {
    t
  }

  // `ids` lists exactly the declared step identifiers, sorted and once each.
  ghost predicate Indexes(d: ProcessGraphDefinition, ids: seq<Text>) {
    && SortedBy(ids, Identity) && Distinct(ids)
    && |ids| == |d.steps|
    && (forall i :: 0 <= i < |d.steps| ==> d.steps[i].stepId.text in ids)
    && (forall k :: 0 <= k < |ids| ==> Declared(d, StepId(ids[k])))
  }

  ghost predicate Texts(steps: seq<StepPlan>, texts: seq<Text>) {
    |texts| == |steps| && forall i :: 0 <= i < |steps| ==> texts[i] == steps[i].stepId.text
  }

  lemma SortedTextsIndex(d: ProcessGraphDefinition, texts: seq<Text>, sorted: seq<Text>)
    requires Texts(d.steps, texts) && |sorted| == |texts|
    requires multiset(sorted) == multiset(texts) && SortedBy(sorted, Identity)
    ensures UniqueStepIds(d.steps) <==> Distinct(sorted)
    ensures Distinct(sorted) ==> Indexes(d, sorted)
  {
    RepeatsAreCounted(texts);
    RepeatsAreCounted(sorted);
    if Distinct(texts) {
      forall i, j | 0 <= i < j < |d.steps| ensures d.steps[i].stepId != d.steps[j].stepId {
        assert texts[i] != texts[j];
      }
    } else {
      var i, j :| 0 <= i < j < |texts| && texts[i] == texts[j];
      assert d.steps[i].stepId == StepId(texts[i]) == d.steps[j].stepId;
    }
    forall i | 0 <= i < |d.steps| ensures d.steps[i].stepId.text in sorted {
      assert texts[i] in multiset(sorted);
    }
    forall k | 0 <= k < |sorted| ensures Declared(d, StepId(sorted[k])) {
      assert sorted[k] in multiset(texts);
      var i :| 0 <= i < |texts| && texts[i] == sorted[k];
      assert d.steps[i].stepId == StepId(sorted[k]);
    }
  }

  method SortedStepIds(d: ProcessGraphDefinition) returns (ids: seq<Text>, duplicate: bool)
    ensures duplicate <==> !UniqueStepIds(d.steps)
    ensures !duplicate ==> Indexes(d, ids)
  {
    var n := |d.steps|;
    var texts := new Text[n](i requires 0 <= i < n => d.steps[i].stepId.text);
    ghost var before := texts[..n];
    SortUnstableBy(texts, n, Identity);
    ids := texts[..n];
    SortedTextsIndex(d, before, ids);
    duplicate := false;
    var i := 1;
    while !duplicate && i < n
      invariant i >= 1
      invariant duplicate <==> exists k :: 1 <= k < i && k < n && ids[k - 1] == ids[k]
    {
      duplicate := ids[i - 1] == ids[i];
      i := i + 1;
    }
    NeighboursDecideDistinct(ids);
  }

  lemma NeighboursDecideDistinct(ids: seq<Text>)
    requires SortedBy(ids, Identity)
    ensures Distinct(ids) <==> !exists k :: 1 <= k < |ids| && ids[k - 1] == ids[k]
  {
    if !Distinct(ids) {
      var a, b :| 0 <= a < b < |ids| && ids[a] == ids[b];
      EqualKeysAreAdjacent(ids, Identity, a, b);
      assert ids[(a + 1) - 1] == ids[a + 1];
    }
  }

  // ------------------------------------------------------------------ edge checks

  // Bit `on` of entry `k` is set iff an earlier edge leaves step `k` on `on`.
  // The source's three-bit masks are held as sets of outcomes.
  ghost predicate KeysSeen(d: ProcessGraphDefinition, ids: seq<Text>, keys: seq<set<GraphTransitionOutcome>>, n: nat)
    requires n <= |d.transitions| && |ids| <= |keys|
  {
    forall k :: 0 <= k < |ids| ==> keys[k] == OutcomesSeen(d, StepId(ids[k]), n)
  }

  ghost function OutcomesSeen(d: ProcessGraphDefinition, step: StepId, n: nat): set<GraphTransitionOutcome>
    requires n <= |d.transitions|
  {
    set j | 0 <= j < n && d.transitions[j].fromStep == step :: d.transitions[j].on
  }

  lemma NoKeysSeen(d: ProcessGraphDefinition, ids: seq<Text>, keys: seq<set<GraphTransitionOutcome>>)
    requires |ids| <= |keys| && forall k :: 0 <= k < |keys| ==> keys[k] == {}
    ensures KeysSeen(d, ids, keys, 0)
  {
  }

  lemma OutcomesSeenNext(d: ProcessGraphDefinition, step: StepId, n: nat)
    requires n < |d.transitions|
    ensures OutcomesSeen(d, step, n + 1)
         == OutcomesSeen(d, step, n) + (if d.transitions[n].fromStep == step then {d.transitions[n].on} else {})
  {
  }

  lemma KeysSeenGrows(d: ProcessGraphDefinition, ids: seq<Text>, keys: seq<set<GraphTransitionOutcome>>, n: nat, source: nat)
    requires n < |d.transitions| && |ids| <= |keys| && source < |ids| && Distinct(ids)
    requires KeysSeen(d, ids, keys, n)
    requires d.transitions[n].fromStep == StepId(ids[source])
    ensures KeysSeen(d, ids, keys[source := keys[source] + {d.transitions[n].on}], n + 1)
  {
    var after := keys[source := keys[source] + {d.transitions[n].on}];
    forall k | 0 <= k < |ids| ensures after[k] == OutcomesSeen(d, StepId(ids[k]), n + 1) {
      OutcomesSeenNext(d, StepId(ids[k]), n);
      assert k == source <==> ids[k] == ids[source];
    }
  }

  lemma SeenIsDuplicate(d: ProcessGraphDefinition, n: nat)
    requires n < |d.transitions|
    ensures d.transitions[n].on in OutcomesSeen(d, d.transitions[n].fromStep, n)
       <==> exists j :: 0 <= j < n && SameEdgeKey(d.transitions[j], d.transitions[n])
  {
  }

  // The fault of edge `i`, found through the sorted ids and the seen keys.
  method CheckTransition(d: ProcessGraphDefinition, ids: seq<Text>, keys: array<set<GraphTransitionOutcome>>, i: nat)
    returns (fault: Option<GraphDefinitionError>)
    requires Indexes(d, ids) && |ids| <= keys.Length
    requires i < |d.transitions| && KeysSeen(d, ids, keys[..], i)
    modifies keys
    ensures fault == EdgeFault(d, i)
    ensures fault.None? ==> KeysSeen(d, ids, keys[..], i + 1)
  {
    var edge := d.transitions[i];
    var source := BinarySearch(ids, edge.fromStep.text);
    DeclaredIffIndexed(d, ids, edge.fromStep);
    if source.None? {
      return Some(UnknownSourceStep);
    }
    if edge.toStep.Some? {
      var target := BinarySearch(ids, edge.toStep.value.text);
      DeclaredIffIndexed(d, ids, edge.toStep.value);
      if target.None? {
        return Some(UnknownDestinationStep);
      }
    } else if edge.on == OnRetryableFailure {
      return Some(MissingDestination);
    }
    SeenIsDuplicate(d, i);
    assert keys[..][source.value] == OutcomesSeen(d, edge.fromStep, i);
    if edge.on in keys[source.value] {
      return Some(DuplicateTransition);
    }
    KeysSeenGrows(d, ids, keys[..], i, source.value);
    keys[source.value] := keys[source.value] + {edge.on};
    return None;
  }

  lemma DeclaredIffIndexed(d: ProcessGraphDefinition, ids: seq<Text>, id: StepId)
    requires Indexes(d, ids)
    ensures Declared(d, id) <==> id.text in ids
  {
    if id.text in ids {
      var k :| 0 <= k < |ids| && ids[k] == id.text;
      assert Declared(d, StepId(ids[k]));
    }
  }

  method CheckTransitions(d: ProcessGraphDefinition, ids: seq<Text>) returns (fault: Option<GraphDefinitionError>)
    requires Indexes(d, ids) && |ids| <= MAX_DEFINITION_STEPS
    ensures fault == FirstEdgeFault(d, |d.transitions|)
  {
    var keys := new set<GraphTransitionOutcome>[MAX_DEFINITION_STEPS](_ => {});
    NoKeysSeen(d, ids, keys[..]);
    for i := 0 to |d.transitions|
      invariant FirstEdgeFault(d, i).None?
      invariant KeysSeen(d, ids, keys[..], i)
    {
      fault := CheckTransition(d, ids, keys, i);
      if fault.Some? {
        FaultStands(d, i, fault.value);
        return;
      }
    }
    fault := None;
  }

  lemma {:induction false} FaultStands(d: ProcessGraphDefinition, i: nat, fault: GraphDefinitionError)
    requires i < |d.transitions| && FirstEdgeFault(d, i).None? && EdgeFault(d, i) == Some(fault)
    ensures FirstEdgeFault(d, |d.transitions|) == Some(fault)
  {
    FaultStandsUpTo(d, i, fault, |d.transitions|);
  }

  lemma {:induction false} FaultStandsUpTo(d: ProcessGraphDefinition, i: nat, fault: GraphDefinitionError, n: nat)
    requires i < n <= |d.transitions| && FirstEdgeFault(d, i).None? && EdgeFault(d, i) == Some(fault)
    ensures FirstEdgeFault(d, n) == Some(fault)
  {
    if i < n - 1 {
      FaultStandsUpTo(d, i, fault, n - 1);
    }
  }

  // ----------------------------------------------------------------- reachability

  lemma EntryReachesItself(d: ProcessGraphDefinition)
    ensures Reaches(d, d.entryStepId, d.entryStepId)
  {
    var path := [d.entryStepId];
    assert IsPath(d, path) && path[0] == d.entryStepId == path[|path| - 1];
  }

  lemma ReachesFurther(d: ProcessGraphDefinition, a: StepId, b: StepId, c: StepId)
    requires Reaches(d, a, b) && Linked(d, b, c)
    ensures Reaches(d, a, c)
  {
    var path :| IsPath(d, path) && path[0] == a && path[|path| - 1] == b;
    var longer := path + [c];
    assert IsPath(d, longer) && longer[0] == a && longer[|longer| - 1] == c;
  }

  // A set of steps that contains the start of a path and is closed under links
  // contains its end.
  lemma {:induction false} ClosedSetHoldsPath(d: ProcessGraphDefinition, closed: set<StepId>, path: seq<StepId>)
    requires IsPath(d, path) && path[0] in closed
    requires forall a, b :: a in closed && Linked(d, a, b) ==> b in closed
    ensures path[|path| - 1] in closed
  {
    if |path| > 1 {
      var shorter := path[..|path| - 1];
      assert forall i :: 0 <= i < |shorter| - 1 ==> Linked(d, shorter[i], shorter[i + 1]);
      ClosedSetHoldsPath(d, closed, shorter);
      assert Linked(d, path[|path| - 2], path[|path| - 1]);
    }
  }

  // Every destination is a declared step.
  predicate TargetsIndexed(d: ProcessGraphDefinition, ids: seq<Text>) {
    forall e :: 0 <= e < |d.transitions| && d.transitions[e].toStep.Some? ==> d.transitions[e].toStep.value.text in ids
  }

  lemma CheckedTargetsAreIndexed(d: ProcessGraphDefinition, ids: seq<Text>)
    requires Indexes(d, ids)
    requires FirstEdgeFault(d, |d.transitions|).None?
    ensures TargetsIndexed(d, ids)
  {
    forall e | 0 <= e < |d.transitions| && d.transitions[e].toStep.Some? ensures d.transitions[e].toStep.value.text in ids {
      assert EdgeFault(d, e).None?;
      DeclaredIffIndexed(d, ids, d.transitions[e].toStep.value);
    }
  }

  // Steps marked and no longer pending have all their successors marked, up to
  // the first `scanned` edges of the step being expanded.
  ghost predicate Expanded(d: ProcessGraphDefinition, ids: seq<Text>, marks: seq<bool>, pending: seq<nat>,
                           current: int, scanned: nat)
    requires |ids| <= |marks| && scanned <= |d.transitions|
  {
    forall k, j, e :: 0 <= k < |ids| && 0 <= j < |ids| && 0 <= e < |d.transitions| && marks[k] && k !in pending
                      && d.transitions[e].fromStep == StepId(ids[k]) && d.transitions[e].toStep == Some(StepId(ids[j]))
                      && (k == current ==> e < scanned)
      ==> marks[j]
  }

  ghost predicate MarkedAreReached(d: ProcessGraphDefinition, ids: seq<Text>, marks: seq<bool>, pending: seq<nat>)
    requires |ids| <= |marks|
  {
    && (forall k :: 0 <= k < |ids| && marks[k] ==> Reaches(d, d.entryStepId, StepId(ids[k])))
    && (forall k :: k in pending ==> k < |ids| && marks[k])
  }

  // Exactly the steps some path from the entry reaches are marked.
  ghost predicate MarksReached(d: ProcessGraphDefinition, ids: seq<Text>, marks: seq<bool>) {
    |ids| <= |marks| && forall k :: 0 <= k < |ids| ==> (marks[k] <==> Reaches(d, d.entryStepId, StepId(ids[k])))
  }

  ghost function Unmarked(ids: seq<Text>, marks: seq<bool>): set<nat>
    requires |ids| <= |marks|
  {
    set k: nat | k < |ids| && !marks[k]
  }

  // The edge is not from the current step, ends the process, or leads to a marked
  // step.
  ghost predicate NeedsNothing(d: ProcessGraphDefinition, ids: seq<Text>, marks: seq<bool>, step: nat, e: nat)
    requires |ids| <= |marks| && step < |ids| && e < |d.transitions|
  {
    d.transitions[e].fromStep == StepId(ids[step]) ==>
      forall j :: 0 <= j < |ids| && d.transitions[e].toStep == Some(StepId(ids[j])) ==> marks[j]
  }

  lemma MarkedTargetNeedsNothing(d: ProcessGraphDefinition, ids: seq<Text>, marks: seq<bool>, step: nat, e: nat, next: nat)
    requires |ids| <= |marks| && step < |ids| && e < |d.transitions| && Distinct(ids)
    requires next < |ids| && marks[next] && d.transitions[e].toStep == Some(StepId(ids[next]))
    ensures NeedsNothing(d, ids, marks, step, e)
  {
  }

  lemma SkipEdge(d: ProcessGraphDefinition, ids: seq<Text>, marks: seq<bool>, pending: seq<nat>, step: nat, e: nat)
    requires Distinct(ids) && |ids| <= |marks| && step < |ids| && e < |d.transitions|
    requires Expanded(d, ids, marks, pending, step, e)
    requires NeedsNothing(d, ids, marks, step, e)
    ensures Expanded(d, ids, marks, pending, step, e + 1)
  {
  }

  lemma MarkEdge(d: ProcessGraphDefinition, ids: seq<Text>, marks: seq<bool>, pending: seq<nat>, step: nat, e: nat, next: nat)
    requires Distinct(ids) && |ids| <= |marks| && step < |ids| && e < |d.transitions| && next < |ids|
    requires Expanded(d, ids, marks, pending, step, e) && MarkedAreReached(d, ids, marks, pending)
    requires d.transitions[e].fromStep == StepId(ids[step]) && d.transitions[e].toStep == Some(StepId(ids[next]))
    requires marks[step] && !marks[next]
    ensures Expanded(d, ids, marks[next := true], pending + [next], step, e + 1)
    ensures MarkedAreReached(d, ids, marks[next := true], pending + [next])
    ensures Unmarked(ids, marks[next := true]) == Unmarked(ids, marks) - {next}
  {
    assert Linked(d, StepId(ids[step]), StepId(ids[next]));
    ReachesFurther(d, d.entryStepId, StepId(ids[step]), StepId(ids[next]));
    var after := marks[next := true];
    forall k, j, f | 0 <= k < |ids| && 0 <= j < |ids| && 0 <= f < |d.transitions| && after[k] && k !in pending + [next]
                     && d.transitions[f].fromStep == StepId(ids[k]) && d.transitions[f].toStep == Some(StepId(ids[j]))
                     && (k == step ==> f < e + 1)
      ensures after[j]
    {
      assert k !in pending && k != next;
      if k == step && f == e {
        assert ids[j] == ids[next];
      } else {
        assert marks[j];
      }
    }
  }

  // State of expanding one step, `e` edges into the scan.
  ghost predicate Expanding(d: ProcessGraphDefinition, ids: seq<Text>, before: seq<bool>, marks: seq<bool>,
                            queued: seq<nat>, pending: seq<nat>, step: nat, e: nat)
    requires |ids| <= |marks| == |before| && e <= |d.transitions| && step < |ids|
  {
    && marks[step]
    && MarkedAreReached(d, ids, marks, pending)
    && Expanded(d, ids, marks, pending, step, e)
    && (forall k :: 0 <= k < |ids| && before[k] ==> marks[k])
    && (if pending == queued then marks == before else Unmarked(ids, marks) < Unmarked(ids, before))
  }

  lemma ExpandingSkips(d: ProcessGraphDefinition, ids: seq<Text>, before: seq<bool>, marks: seq<bool>,
                       queued: seq<nat>, pending: seq<nat>, step: nat, e: nat)
    requires |ids| <= |marks| == |before| && e < |d.transitions| && step < |ids| && Distinct(ids)
    requires Expanding(d, ids, before, marks, queued, pending, step, e)
    requires NeedsNothing(d, ids, marks, step, e)
    ensures Expanding(d, ids, before, marks, queued, pending, step, e + 1)
  {
    SkipEdge(d, ids, marks, pending, step, e);
  }

  lemma ExpandingMarks(d: ProcessGraphDefinition, ids: seq<Text>, before: seq<bool>, marks: seq<bool>,
                       queued: seq<nat>, pending: seq<nat>, step: nat, e: nat, next: nat)
    requires |ids| <= |marks| == |before| && e < |d.transitions| && step < |ids| && next < |ids| && Distinct(ids)
    requires Expanding(d, ids, before, marks, queued, pending, step, e) && !marks[next] && |pending| >= |queued|
    requires d.transitions[e].fromStep == StepId(ids[step]) && d.transitions[e].toStep == Some(StepId(ids[next]))
    ensures Expanding(d, ids, before, marks[next := true], queued, pending + [next], step, e + 1)
  {
    MarkEdge(d, ids, marks, pending, step, e, next);
    assert next in Unmarked(ids, marks);
    assert |pending + [next]| > |queued|;
  }

  // Marks the unmarked successors of one popped step and queues them.
  method ExpandStep(d: ProcessGraphDefinition, ids: seq<Text>, reachable: array<bool>, queued: seq<nat>, step: nat)
    returns (pending: seq<nat>)
    requires SortedBy(ids, Identity) && Distinct(ids) && TargetsIndexed(d, ids)
    requires |ids| <= reachable.Length && step < |ids|
    requires Expanding(d, ids, reachable[..], reachable[..], queued, queued, step, 0)
    modifies reachable
    ensures Expanding(d, ids, old(reachable[..]), reachable[..], queued, pending, step, |d.transitions|)
  {
    pending := queued;
    for e := 0 to |d.transitions|
      invariant |pending| >= |queued|
      invariant Expanding(d, ids, old(reachable[..]), reachable[..], queued, pending, step, e)
    {
      var edge := d.transitions[e];
      ghost var marks := reachable[..];
      if edge.fromStep == StepId(ids[step]) && edge.toStep.Some? {
        var next := BinarySearch(ids, edge.toStep.value.text);
        assert edge.toStep == Some(StepId(ids[next.value]));
        if !reachable[next.value] {
          ExpandingMarks(d, ids, old(reachable[..]), marks, queued, pending, step, e, next.value);
          reachable[next.value] := true;
          assert reachable[..] == marks[next.value := true];
          pending := pending + [next.value];
        } else {
          MarkedTargetNeedsNothing(d, ids, marks, step, e, next.value);
          ExpandingSkips(d, ids, old(reachable[..]), marks, queued, pending, step, e);
        }
      } else {
        assert NeedsNothing(d, ids, marks, step, e);
        ExpandingSkips(d, ids, old(reachable[..]), marks, queued, pending, step, e);
      }
    }
  }

  // The worklist search: marks exactly the steps some path from the entry reaches.
  method MarkReachable(d: ProcessGraphDefinition, ids: seq<Text>, entry: nat) returns (reachable: array<bool>)
    requires Indexes(d, ids) && |ids| <= MAX_DEFINITION_STEPS
    requires TargetsIndexed(d, ids)
    requires entry < |ids| && d.entryStepId == StepId(ids[entry])
    ensures fresh(reachable) && reachable.Length == MAX_DEFINITION_STEPS
    ensures MarksReached(d, ids, reachable[..])
  {
    reachable := new bool[MAX_DEFINITION_STEPS](_ => false);
    reachable[entry] := true;
    var pending: seq<nat> := [entry];
    SearchStarts(d, ids, reachable[..], entry);
    while pending != []
      invariant Searching(d, ids, reachable[..], pending, entry)
      decreases Unmarked(ids, reachable[..]), |pending|
    {
      var step := pending[|pending| - 1];
      var rest := pending[..|pending| - 1];
      ghost var before := reachable[..];
      StepPopped(d, ids, before, pending, entry);
      pending := ExpandStep(d, ids, reachable, rest, step);
      StepExpanded(d, ids, before, reachable[..], rest, pending, step);
    }
    ClosureIsExact(d, ids, reachable[..], entry);
  }

  // The search between two steps.
  ghost predicate Searching(d: ProcessGraphDefinition, ids: seq<Text>, marks: seq<bool>, pending: seq<nat>, entry: nat) {
    && entry < |ids| <= |marks| && marks[entry]
    && MarkedAreReached(d, ids, marks, pending)
    && Expanded(d, ids, marks, pending, -1, 0)
  }

  lemma SearchStarts(d: ProcessGraphDefinition, ids: seq<Text>, marks: seq<bool>, entry: nat)
    requires entry < |ids| <= |marks| && d.entryStepId == StepId(ids[entry])
    requires forall k :: 0 <= k < |marks| ==> (marks[k] <==> k == entry)
    ensures Searching(d, ids, marks, [entry], entry)
  {
    EntryReachesItself(d);
  }

  lemma StepPopped(d: ProcessGraphDefinition, ids: seq<Text>, marks: seq<bool>, pending: seq<nat>, entry: nat)
    requires Searching(d, ids, marks, pending, entry) && pending != []
    ensures var step, rest := pending[|pending| - 1], pending[..|pending| - 1];
            step < |ids| && Expanding(d, ids, marks, marks, rest, rest, step, 0)
  {
    assert pending[|pending| - 1] in pending;
    PopStep(d, ids, marks, pending);
  }

  lemma StepExpanded(d: ProcessGraphDefinition, ids: seq<Text>, before: seq<bool>, marks: seq<bool>,
                     queued: seq<nat>, pending: seq<nat>, step: nat)
    requires |ids| <= |marks| == |before| && step < |ids|
    requires Expanding(d, ids, before, marks, queued, pending, step, |d.transitions|)
    ensures MarkedAreReached(d, ids, marks, pending) && Expanded(d, ids, marks, pending, -1, 0)
    ensures forall k :: 0 <= k < |ids| && before[k] ==> marks[k]
    ensures pending == queued ==> marks == before
    ensures pending != queued ==> Unmarked(ids, marks) < Unmarked(ids, before)
  {
  }

  lemma PopStep(d: ProcessGraphDefinition, ids: seq<Text>, marks: seq<bool>, pending: seq<nat>)
    requires |ids| <= |marks| && pending != []
    requires MarkedAreReached(d, ids, marks, pending) && Expanded(d, ids, marks, pending, -1, 0)
    ensures var step, rest := pending[|pending| - 1], pending[..|pending| - 1];
            MarkedAreReached(d, ids, marks, rest) && Expanded(d, ids, marks, rest, step, 0)
  {
    var step, rest := pending[|pending| - 1], pending[..|pending| - 1];
    assert pending == rest + [step];
    forall k | k in rest ensures k < |ids| && marks[k] {
      assert k in pending;
    }
  }

  lemma ClosureIsExact(d: ProcessGraphDefinition, ids: seq<Text>, marks: seq<bool>, entry: nat)
    requires Indexes(d, ids) && |ids| <= |marks|
    requires TargetsIndexed(d, ids)
    requires entry < |ids| && d.entryStepId == StepId(ids[entry]) && marks[entry]
    requires MarkedAreReached(d, ids, marks, []) && Expanded(d, ids, marks, [], -1, 0)
    ensures MarksReached(d, ids, marks)
  {
    var closed := set k | 0 <= k < |ids| && marks[k] :: StepId(ids[k]);
    forall a, b | a in closed && Linked(d, a, b) ensures b in closed {
      var e :| 0 <= e < |d.transitions| && d.transitions[e].fromStep == a && d.transitions[e].toStep == Some(b);
      var j :| 0 <= j < |ids| && ids[j] == b.text;
      assert marks[j];
    }
    forall k | 0 <= k < |ids| && Reaches(d, d.entryStepId, StepId(ids[k])) ensures marks[k] {
      var path :| IsPath(d, path) && path[0] == d.entryStepId && path[|path| - 1] == StepId(ids[k]);
      ClosedSetHoldsPath(d, closed, path);
      var j :| 0 <= j < |ids| && marks[j] && StepId(ids[j]) == StepId(ids[k]);
      assert j == k;
    }
  }

  method AllReachable(d: ProcessGraphDefinition, ids: seq<Text>, entry: nat) returns (all: bool)
    requires Indexes(d, ids) && |ids| <= MAX_DEFINITION_STEPS
    requires TargetsIndexed(d, ids)
    requires entry < |ids| && d.entryStepId == StepId(ids[entry])
    ensures all <==> forall i :: 0 <= i < |d.steps| ==> Reaches(d, d.entryStepId, d.steps[i].stepId)
  {
    var reachable := MarkReachable(d, ids, entry);
    var k := FirstUnmarked(reachable, |ids|);
    AllMarkedIff(d, ids, reachable[..], k);
    return k == |ids|;
  }

  method FirstUnmarked(marks: array<bool>, n: nat) returns (k: nat)
    requires n <= marks.Length
    ensures k <= n && (forall j :: 0 <= j < k ==> marks[..][j]) && (k < n ==> !marks[..][k])
  {
    k := 0;
    while k < n && marks[k]
      invariant 0 <= k <= n
      invariant forall j :: 0 <= j < k ==> marks[j]
    {
      k := k + 1;
    }
  }

  // The scan over the marks stops short exactly when some step is not reached.
  lemma AllMarkedIff(d: ProcessGraphDefinition, ids: seq<Text>, marks: seq<bool>, k: nat)
    requires Indexes(d, ids) && k <= |ids| <= |marks|
    requires MarksReached(d, ids, marks)
    requires (forall j :: 0 <= j < k ==> marks[j]) && (k < |ids| ==> !marks[k])
    ensures k == |ids| <==> forall i :: 0 <= i < |d.steps| ==> Reaches(d, d.entryStepId, d.steps[i].stepId)
  {
    ReachabilityOverSteps(d, ids);
  }

  lemma ReachabilityOverSteps(d: ProcessGraphDefinition, ids: seq<Text>)
    requires Indexes(d, ids)
    ensures (forall i :: 0 <= i < |d.steps| ==> Reaches(d, d.entryStepId, d.steps[i].stepId))
       <==> (forall k :: 0 <= k < |ids| ==> Reaches(d, d.entryStepId, StepId(ids[k])))
  {
    if forall i :: 0 <= i < |d.steps| ==> Reaches(d, d.entryStepId, d.steps[i].stepId) {
      forall k | 0 <= k < |ids| ensures Reaches(d, d.entryStepId, StepId(ids[k])) {
        assert Declared(d, StepId(ids[k]));
      }
    }
    if forall k :: 0 <= k < |ids| ==> Reaches(d, d.entryStepId, StepId(ids[k])) {
      forall i | 0 <= i < |d.steps| ensures Reaches(d, d.entryStepId, d.steps[i].stepId) {
        var k :| 0 <= k < |ids| && ids[k] == d.steps[i].stepId.text;
      }
    }
  }

  // Graph validation is exact: it accepts precisely the valid graphs and names
  // the first violation otherwise.
  method Validate(d: ProcessGraphDefinition) returns (r: Result<(), GraphDefinitionError>)
    ensures r == Verdict(d)
  {
    if |d.steps| == 0 {
      return Err(EmptySteps);
    }
    if |d.steps| > MAX_DEFINITION_STEPS {
      return Err(StepLimitExceeded);
    }
    if |d.transitions| > MAX_GRAPH_TRANSITIONS {
      return Err(TransitionLimitExceeded);
    }
    var ids, duplicate := SortedStepIds(d);
    if duplicate {
      return Err(DuplicateStep);
    }
    var entry := BinarySearch(ids, d.entryStepId.text);
    DeclaredIffIndexed(d, ids, d.entryStepId);
    if entry.None? {
      return Err(UnknownEntryStep);
    }
    var fault := CheckTransitions(d, ids);
    if fault.Some? {
      return Err(fault.value);
    }
    CheckedTargetsAreIndexed(d, ids);
    var all := AllReachable(d, ids, entry.value);
    return if all then Ok(()) else Err(UnreachableStep);
  }
}
