// One claim of due timers: which are selected, and that one exhausted timer refuses
// them all (crates/penelope-sqlite/src/leases.rs).
module TimerClaims {
  import opened Wrappers
  import opened Domain
  import opened TextOrder
  import opened LeaseBatches
  import opened TimerDelivery

  // By due time, then by action identity.
  predicate Earlier(s: Store, a: TimerRef, b: TimerRef)
    requires a in s.timers && b in s.timers
  {
    var x, y := s.timers[a].schedule.dueAt, s.timers[b].schedule.dueAt;
    x < y || (x == y && Less(a.actionId.text, b.actionId.text))
  }

  predicate Eligible(s: Store, request: TimerClaimRequest, r: TimerRef) {
    Claimable(s, r, request.now) && r.scope == request.scope
  }

  // The first claimable timers of the scope, in order, up to the limit.
  ghost predicate Selection(s: Store, request: TimerClaimRequest, refs: seq<TimerRef>) {
    && |refs| <= request.limit
    && (forall i :: 0 <= i < |refs| ==> Eligible(s, request, refs[i]))
    && (forall i, j :: 0 <= i < j < |refs| ==> refs[i] != refs[j] && Earlier(s, refs[i], refs[j]))
    && (forall r :: r in s.timers && Eligible(s, request, r) && r !in refs ==>
          |refs| == request.limit && forall i :: 0 <= i < |refs| ==> Earlier(s, refs[i], r))
  }

  // One new lease for each selected timer.
  ghost predicate Offers(s: Store, request: TimerClaimRequest, refs: seq<TimerRef>, leases: seq<TimerLease>) {
    && |leases| == |refs|
    && (forall i :: 0 <= i < |refs| ==> Offer(s, request, refs[i], leases[i]))
    && (forall i, j :: 0 <= i < j < |leases| ==> leases[i].token != leases[j].token)
  }

  predicate Offer(s: Store, request: TimerClaimRequest, r: TimerRef, lease: TimerLease) {
    && r in s.timers && lease.timer == s.timers[r].schedule && lease.owner == request.owner
    && request.now <= lease.expiresAt && lease.token !in s.tokens
  }

  // The claim's transaction: all leases are granted, or none.
  function ClaimDue(s: Store, leases: seq<TimerLease>, now: LogicalTime): Option<Store> {
    if leases == [] then Some(s)
    else
      var before := ClaimDue(s, leases[..|leases| - 1], now);
      if before.None? then None else GrantLease(before.value, leases[|leases| - 1], now)
  }

  // The timer has the lease and one more attempt, and is otherwise as it was.
  predicate Granted(s: Store, after: Store, r: TimerRef, lease: TimerLease) {
    && r in s.timers && r in after.timers
    && after.timers[r] == s.timers[r].(lease := Some(lease), attempts := s.timers[r].attempts + 1)
  }

  // The store after the first n grants.
  ghost predicate GrantedUpTo(s: Store, after: Store, refs: seq<TimerRef>, leases: seq<TimerLease>, n: nat)
    requires n <= |refs| == |leases|
  {
    && after.timers.Keys == s.timers.Keys
    && (forall r :: r in s.timers && r !in refs[..n] ==> after.timers[r] == s.timers[r])
    && (forall i :: 0 <= i < n ==> Granted(s, after, refs[i], leases[i]))
    && (forall token :: token in after.tokens ==> token in s.tokens || exists i :: 0 <= i < n && leases[i].token == token)
  }

  ghost predicate NoneExhausted(s: Store, refs: seq<TimerRef>, n: nat)
    requires n <= |refs|
  {
    forall i :: 0 <= i < n ==> !Exhausted(s, refs[i])
  }

  // The n-th selected timer is still as the claim found it when its turn comes.
  lemma GrantDecision(s: Store, before: Store, request: TimerClaimRequest, r: TimerRef, lease: TimerLease)
    requires r in s.timers && RecordSound(s, r) && Offer(s, request, r, lease) && Eligible(s, request, r)
    requires r in before.timers && before.timers[r] == s.timers[r] && lease.token !in before.tokens
    ensures GrantLease(before, lease, request.now).Some? <==> !Exhausted(s, r)
    ensures GrantLease(before, lease, request.now).Some? ==>
      && Granted(s, GrantLease(before, lease, request.now).value, r, lease)
      && GrantLease(before, lease, request.now).value.timers == before.timers[r := GrantLease(before, lease, request.now).value.timers[r]]
      && GrantLease(before, lease, request.now).value.tokens == before.tokens + {lease.token}
  {
  }

  lemma OneMoreGranted(s: Store, before: Store, after: Store, refs: seq<TimerRef>, leases: seq<TimerLease>, n: nat)
    requires n < |refs| == |leases| && GrantedUpTo(s, before, refs, leases, n) && Granted(s, after, refs[n], leases[n])
    requires forall i :: 0 <= i < n ==> refs[i] != refs[n]
    requires after.timers == before.timers[refs[n] := after.timers[refs[n]]] && after.tokens == before.tokens + {leases[n].token}
    ensures GrantedUpTo(s, after, refs, leases, n + 1)
  {
    assert refs[..n + 1] == refs[..n] + [refs[n]];
    forall i | 0 <= i < n + 1 ensures Granted(s, after, refs[i], leases[i]) {
      if i < n {
        assert Granted(s, before, refs[i], leases[i]);
      }
    }
  }

  lemma NextGrant(s: Store, before: Store, request: TimerClaimRequest, refs: seq<TimerRef>, leases: seq<TimerLease>, n: nat)
    requires RecordsSound(s) && Selection(s, request, refs) && Offers(s, request, refs, leases)
    requires n < |refs| && GrantedUpTo(s, before, refs, leases, n)
    ensures GrantLease(before, leases[n], request.now).Some? <==> !Exhausted(s, refs[n])
    ensures GrantLease(before, leases[n], request.now).Some? ==>
      GrantedUpTo(s, GrantLease(before, leases[n], request.now).value, refs, leases, n + 1)
  {
    assert Offer(s, request, refs[n], leases[n]) && Eligible(s, request, refs[n]) && RecordSound(s, refs[n]);
    assert refs[n] !in refs[..n];
    GrantDecision(s, before, request, refs[n], leases[n]);
    if !Exhausted(s, refs[n]) {
      OneMoreGranted(s, before, GrantLease(before, leases[n], request.now).value, refs, leases, n);
    }
  }

  lemma ClaimUnfolds(s: Store, leases: seq<TimerLease>, now: LogicalTime, n: nat)
    requires n < |leases|
    ensures ClaimDue(s, leases[..n + 1], now)
         == if ClaimDue(s, leases[..n], now).None? then None else GrantLease(ClaimDue(s, leases[..n], now).value, leases[n], now)
  {
    assert leases[..n + 1][..n] == leases[..n];
  }

  // The grants of a selection succeed exactly when none of its timers is exhausted,
  // and then lease every one of them and nothing else.
  lemma {:induction false} GrantsSucceedIff(s: Store, request: TimerClaimRequest, refs: seq<TimerRef>, leases: seq<TimerLease>, n: nat)
    requires RecordsSound(s) && Selection(s, request, refs) && Offers(s, request, refs, leases) && n <= |refs|
    ensures ClaimDue(s, leases[..n], request.now).Some? <==> NoneExhausted(s, refs, n)
    ensures ClaimDue(s, leases[..n], request.now).Some? ==>
      GrantedUpTo(s, ClaimDue(s, leases[..n], request.now).value, refs, leases, n)
  {
    if n > 0 {
      GrantsSucceedIff(s, request, refs, leases, n - 1);
      ClaimUnfolds(s, leases, request.now, n - 1);
      var before := ClaimDue(s, leases[..n - 1], request.now);
      if before.Some? {
        NextGrant(s, before.value, request, refs, leases, n - 1);
      }
    }
  }

  // A claim of a reachable store succeeds exactly when no selected timer is
  // exhausted: then each selected timer has its new lease, otherwise none has.
  lemma ClaimSucceedsIff(world: World, request: TimerClaimRequest, refs: seq<TimerRef>, leases: seq<TimerLease>)
    requires Reachable(world) && Selection(world.store, request, refs) && Offers(world.store, request, refs, leases)
    ensures ClaimDue(world.store, leases, request.now).Some? <==> forall r :: r in refs ==> !Exhausted(world.store, r)
    ensures ClaimDue(world.store, leases, request.now).Some? ==>
      GrantedUpTo(world.store, ClaimDue(world.store, leases, request.now).value, refs, leases, |refs|)
  {
    ReachableIsSound(world);
    GrantsSucceedIff(world.store, request, refs, leases, |refs|);
    assert leases[..|refs|] == leases;
  }

  // So one exhausted timer keeps every timer selected with it from being leased, in
  // every later state in which it is selected again.
  lemma ExhaustedTimerBlocksItsBatch(world: World, steps: seq<Step>, r: TimerRef, request: TimerClaimRequest,
                                     refs: seq<TimerRef>, leases: seq<TimerLease>)
    requires Reachable(world) && Exhausted(world.store, r) && Run(world, steps).Some?
    requires var s := Run(world, steps).value.store; Selection(s, request, refs) && Offers(s, request, refs, leases) && r in refs
    ensures ClaimDue(Run(world, steps).value.store, leases, request.now).None?
  {
    RunIsReachable(world, steps);
    StaysExhausted(world, steps, r);
    ClaimSucceedsIff(Run(world, steps).value, request, refs, leases);
  }

  // The claimable timers of the scope that come before this one.
  ghost function Before(s: Store, request: TimerClaimRequest, r: TimerRef): set<TimerRef>
    requires r in s.timers
  {
    set q | q in s.timers && Eligible(s, request, q) && Earlier(s, q, r)
  }

  lemma UnselectedComesLate(s: Store, request: TimerClaimRequest, refs: seq<TimerRef>, r: TimerRef)
    requires Selection(s, request, refs) && r in s.timers && Eligible(s, request, r) && r !in refs
    ensures |Before(s, request, r)| >= request.limit
  {
    forall i | 0 <= i < |refs| ensures refs[i] in Before(s, request, r) {
      assert Eligible(s, request, refs[i]) && Earlier(s, refs[i], r);
    }
    assert Distinct(refs) by {
      forall i, j | 0 <= i < j < |refs| ensures refs[i] != refs[j] {
      }
    }
    DistinctFits(refs, Before(s, request, r));
  }

  // An exhausted timer whose last lease lapsed refuses every later claim of its
  // scope, until it is no longer waiting or enough timers come before it to fill
  // the claim.
  lemma ExhaustedTimerBlocksItsScope(world: World, steps: seq<Step>, r: TimerRef, request: TimerClaimRequest,
                                     refs: seq<TimerRef>, leases: seq<TimerLease>)
    requires Reachable(world) && Exhausted(world.store, r) && Run(world, steps).Some?
    requires r.scope == request.scope && world.store.timers[r].schedule.dueAt <= request.now
    requires world.store.timers[r].lease.Some? ==> world.store.timers[r].lease.value.expiresAt < request.now
    requires var s := Run(world, steps).value.store; Selection(s, request, refs) && Offers(s, request, refs, leases)
    ensures var s := Run(world, steps).value.store;
      && r in s.timers
      && (ClaimDue(s, leases, request.now).Some? ==> s.timers[r].phase != Waiting || |Before(s, request, r)| >= request.limit)
  {
    ExhaustedIsKept(world, steps, r);
    var s := Run(world, steps).value.store;
    if ClaimDue(s, leases, request.now).Some? && s.timers[r].phase == Waiting {
      if r in refs {
        ExhaustedTimerBlocksItsBatch(world, steps, r, request, refs, leases);
      } else {
        UnselectedComesLate(s, request, refs, r);
      }
    }
  }

  // The first timer after its 64 rounds, and the other newly scheduled.
  lemma ExhaustedThenScheduled(timer: TimerSchedule, other: TimerSchedule, owner: PrincipalId) returns (world: World)
    requires timer.action.kind == Timer && other.action.kind == Timer && TimerRefOf(timer.action) != TimerRefOf(other.action)
    requires timer.dueAt + MAX_DELIVERY_ATTEMPTS <= U64_MAX
    ensures Reachable(world) && world.store.timers.Keys == {TimerRefOf(timer.action), TimerRefOf(other.action)}
    ensures world.store.timers[TimerRefOf(other.action)] == TimerRecord(other, Waiting, None, 0)
    ensures Exhausted(world.store, TimerRefOf(timer.action)) && world.store.timers[TimerRefOf(timer.action)].schedule == timer
    ensures Claimable(world.store, TimerRefOf(timer.action), timer.dueAt + MAX_DELIVERY_ATTEMPTS)
  {
    var steps, before := RoundsRun(timer, owner, MAX_DELIVERY_ATTEMPTS);
    assert Reachable(before);
    world := Next(before, Schedule(other)).value;
    NextIsReachable(before, Schedule(other));
  }

  lemma TwoAreSelected(s: Store, request: TimerClaimRequest, a: TimerRef, b: TimerRef)
    requires s.timers.Keys == {a, b} && Eligible(s, request, a) && Eligible(s, request, b)
    requires a != b && Earlier(s, a, b) && request.limit >= 2
    ensures Selection(s, request, [a, b])
  {
  }

  // Two timers of one process: the first is exhausted by stopped drains, the second
  // was never leased, and every claim that selects both is refused.
  lemma NeighbourIsBlocked(timer: TimerSchedule, other: TimerSchedule, owner: PrincipalId, request: TimerClaimRequest)
    returns (world: World, refs: seq<TimerRef>)
    requires timer.action.kind == Timer && other.action.kind == Timer && timer.action.scope == other.action.scope == request.scope
    requires timer.action.actionId != other.action.actionId && timer.dueAt < other.dueAt <= request.now
    requires request.now == timer.dueAt + MAX_DELIVERY_ATTEMPTS && request.limit >= 2
    ensures Reachable(world) && refs == [TimerRefOf(timer.action), TimerRefOf(other.action)]
    ensures Selection(world.store, request, refs) && Exhausted(world.store, refs[0]) && !Exhausted(world.store, refs[1])
    ensures forall leases :: Offers(world.store, request, refs, leases) ==> ClaimDue(world.store, leases, request.now).None?
  {
    world := ExhaustedThenScheduled(timer, other, owner);
    refs := [TimerRefOf(timer.action), TimerRefOf(other.action)];
    TwoAreSelected(world.store, request, refs[0], refs[1]);
    forall leases | Offers(world.store, request, refs, leases) ensures ClaimDue(world.store, leases, request.now).None? {
      ClaimSucceedsIff(world, request, refs, leases);
      assert refs[0] in refs;
    }
  }

  function GrantSteps(leases: seq<TimerLease>, now: LogicalTime): (steps: seq<Step>)
    ensures |steps| == |leases|
  {
    if leases == [] then [] else GrantSteps(leases[..|leases| - 1], now) + [Grant(leases[|leases| - 1], now)]
  }

  // A claim is a run of single grants, so what holds of all runs holds of claims.
  lemma {:induction false} ClaimIsARun(world: World, leases: seq<TimerLease>, now: LogicalTime)
    requires ClaimDue(world.store, leases, now).Some?
    ensures Run(world, GrantSteps(leases, now)) == Some(world.(store := ClaimDue(world.store, leases, now).value))
  {
    if leases != [] {
      var n := |leases| - 1;
      ClaimIsARun(world, leases[..n], now);
      RunExtends(world, GrantSteps(leases[..n], now), Grant(leases[n], now));
    }
  }
}
