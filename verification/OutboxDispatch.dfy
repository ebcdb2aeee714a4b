// Claiming and dispatching outbox records over unreliable ports
// (crates/penelope-executor/src/services.rs).
module OutboxDispatch {
  import opened Wrappers
  import opened Domain
  import opened LeaseBatches

  const MAX_OUTBOX_DELIVERY_ATTEMPTS: u32 := 64

  datatype OutboxRecord = OutboxRecord(action: ProcessAction, deliveryAttempt: u32, acknowledged: bool)

  datatype OutboxLease = OutboxLease(record: OutboxRecord, owner: PrincipalId, token: NonZeroU64, expiresAt: LogicalTime)

  datatype OutboxClaimRequest = OutboxClaimRequest(scope: ProcessScope, owner: PrincipalId, limit: NonZeroU16)

  // `validate_at`: the record's own bound, then the lease's expiry.
  function FaultAt(lease: OutboxLease, now: LogicalTime): Option<PortError> {
    if lease.record.deliveryAttempt >= MAX_OUTBOX_DELIVERY_ATTEMPTS then Some(Invariant)
    else if now > lease.expiresAt then Some(TimedOut)
    else None
  }

  // `validate_for_claim_at`.
  function OutboxLeaseFault(lease: OutboxLease, request: OutboxClaimRequest, now: LogicalTime): Option<PortError> {
    if request.limit > MAX_CLAIM_BATCH then Some(QuotaExceeded)
    else if lease.record.deliveryAttempt >= MAX_OUTBOX_DELIVERY_ATTEMPTS then Some(Invariant)
    else if lease.record.action.scope != request.scope || lease.owner != request.owner then Some(Invariant)
    else FaultAt(lease, now)
  }

  // What each refusal of an outbox lease means.
  lemma OutboxLeaseFaultSays(lease: OutboxLease, request: OutboxClaimRequest, now: LogicalTime)
    ensures OutboxLeaseFault(lease, request, now) == Some(QuotaExceeded) <==> request.limit > 128
    ensures OutboxLeaseFault(lease, request, now) == Some(Invariant) <==>
      && request.limit <= 128
      && (lease.record.deliveryAttempt >= 64 || lease.record.action.scope != request.scope || lease.owner != request.owner)
    ensures OutboxLeaseFault(lease, request, now) == Some(TimedOut) <==>
      && request.limit <= 128 && lease.record.deliveryAttempt < 64 && lease.record.action.scope == request.scope
      && lease.owner == request.owner && now > lease.expiresAt
  {
  }

  // An acknowledged record is refused after the lease's own faults.
  function ClaimedFault(lease: OutboxLease, request: OutboxClaimRequest, now: LogicalTime): Option<PortError> {
    var own := OutboxLeaseFault(lease, request, now);
    if own.None? && lease.record.acknowledged then Some(Invariant) else own
  }

  function FenceOf(lease: OutboxLease): Fence<NonZeroU64> {
    Fence(lease.record.action.actionId.text, lease.token)
  }

  function Fences(leases: seq<OutboxLease>): (fences: seq<Fence<NonZeroU64>>)
    ensures |fences| == |leases|
  {
    seq(|leases|, i requires 0 <= i < |leases| => FenceOf(leases[i]))
  }

  function OwnFaults(leases: seq<OutboxLease>, request: OutboxClaimRequest, now: LogicalTime): (own: seq<Option<PortError>>)
    ensures |own| == |leases|
  {
    seq(|leases|, i requires 0 <= i < |leases| => ClaimedFault(leases[i], request, now))
  }

  // The post-claim check. Small batches test the acknowledgement together with
  // the clash, large ones with the lease; the first fault is the same.
  method ValidateClaim(leases: seq<OutboxLease>, request: OutboxClaimRequest, now: LogicalTime) returns (fault: Option<PortError>)
    ensures fault == if |leases| > request.limit then Some(Invariant)
                     else BatchFault(Fences(leases), OwnFaults(leases, request, now), 0)
  {
    if |leases| > request.limit {
      return Some(Invariant);
    }
    ghost var fences, own := Fences(leases), OwnFaults(leases, request, now);
    if |leases| <= 16 {
      for i := 0 to |leases|
        invariant BatchFault(fences, own, 0) == BatchFault(fences, own, i)
      {
        fault := OutboxLeaseFault(leases[i], request, now);
        if fault.Some? {
          return;
        }
        var clash := exists j :: i < j < |leases| && Clash(SameEither, FenceOf(leases[i]), FenceOf(leases[j]));
        assert clash <==> HasLater(SameEither, fences, i) by {
          assert forall j :: 0 <= j < |leases| ==> fences[j] == FenceOf(leases[j]);
        }
        if leases[i].record.acknowledged || clash {
          return Some(Invariant);
        }
      }
      return None;
    }
    fault := ValidateBatch(Fences(leases), OwnFaults(leases, request, now));
  }

  // A pending record of the requested process, held by the requester, with
  // delivery attempts left.
  predicate RightlyHeld(lease: OutboxLease, request: OutboxClaimRequest, now: LogicalTime) {
    && lease.record.action.scope == request.scope && lease.owner == request.owner && now <= lease.expiresAt
    && !lease.record.acknowledged && lease.record.deliveryAttempt < MAX_OUTBOX_DELIVERY_ATTEMPTS
  }

  // Under a request within its bound, a batch is accepted exactly when every lease
  // is rightly held and no two share action or token.
  lemma ClaimAcceptedIff(leases: seq<OutboxLease>, request: OutboxClaimRequest, now: LogicalTime)
    requires request.limit <= MAX_CLAIM_BATCH
    ensures BatchFault(Fences(leases), OwnFaults(leases, request, now), 0).None? <==>
      && (forall i :: 0 <= i < |leases| ==> RightlyHeld(leases[i], request, now))
      && (forall i, j :: 0 <= i < j < |leases| ==>
            leases[i].record.action.actionId != leases[j].record.action.actionId && leases[i].token != leases[j].token)
  {
    var fences, own := Fences(leases), OwnFaults(leases, request, now);
    BatchAcceptedIff(fences, own, 0);
    assert forall i :: 0 <= i < |leases| ==> (own[i].None? <==> RightlyHeld(leases[i], request, now));
    assert forall i :: 0 <= i < |leases| ==> fences[i] == FenceOf(leases[i]);
  }

  // ------------------------------------------------------------------------ dispatch

  datatype DispatchStage = AtClock | AtClaim | AtValidate | AtDispatch | AtReceipt | AtAcknowledge

  datatype DispatchReport = DispatchReport(claimed: u16, delivered: u16, acknowledged: u16, duplicateDeliveries: u16)

  datatype DispatchFailure = DispatchFailure(stage: DispatchStage, report: DispatchReport, source: PortError)

  datatype DispatchReceipt = DispatchReceipt(scope: ProcessScope, actionId: ActionId, duplicate: bool)

  // How many receipts say that the action was known before.
  function DuplicatesIn(receipts: seq<DispatchReceipt>): nat {
    if receipts == [] then 0
    else DuplicatesIn(receipts[..|receipts| - 1]) + (if receipts[|receipts| - 1].duplicate then 1 else 0)
  }

  // The first n leases were each answered by a receipt for their own action.
  ghost predicate Receipted(leases: seq<OutboxLease>, receipts: seq<DispatchReceipt>, n: nat) {
    |receipts| == n <= |leases| && forall i :: 0 <= i < n ==> ReceiptFor(receipts[i], leases[i].record.action)
  }

  predicate ReceiptFor(receipt: DispatchReceipt, action: ProcessAction) {
    receipt.scope == action.scope && receipt.actionId == action.actionId
  }

  predicate OneIdentity(a: ProcessAction, b: ProcessAction) {
    a.scope == b.scope && a.actionId == b.actionId
  }

  // The dispatcher accepted an action under this identity.
  predicate Accepted(accepted: seq<ProcessAction>, action: ProcessAction) {
    exists i :: 0 <= i < |accepted| && OneIdentity(accepted[i], action)
  }

  // What every user of the ports keeps: an action identity is accepted once, and
  // nothing is acknowledged that was not accepted.
  predicate Sound(accepted: seq<ProcessAction>, acknowledged: seq<OutboxLease>) {
    && (forall i, j :: 0 <= i < j < |accepted| ==> !OneIdentity(accepted[i], accepted[j]))
    && forall i :: 0 <= i < |acknowledged| ==> Accepted(accepted, acknowledged[i].record.action)
  }

  // The first leases were live when checked and are accepted downstream.
  ghost predicate Delivered(accepted: seq<ProcessAction>, leases: seq<OutboxLease>, times: seq<LogicalTime>, n: nat) {
    && n <= |leases| && n <= |times|
    && forall i :: 0 <= i < n ==> FaultAt(leases[i], times[i]).None? && Accepted(accepted, leases[i].record.action)
  }

  ghost predicate Confirmed(acknowledged: seq<OutboxLease>, leases: seq<OutboxLease>, n: nat) {
    n <= |leases| && forall i :: 0 <= i < n ==> leases[i] in acknowledged
  }

  lemma DeliveredGrows(accepted: seq<ProcessAction>, after: seq<ProcessAction>, leases: seq<OutboxLease>,
                       times: seq<LogicalTime>, at: LogicalTime, n: nat)
    requires Delivered(accepted, leases, times, n) && |times| == n && accepted <= after
    ensures Delivered(after, leases, times + [at], n)
    ensures n < |leases| && FaultAt(leases[n], at).None? && Accepted(after, leases[n].record.action) ==>
      Delivered(after, leases, times + [at], n + 1)
  {
    forall i | 0 <= i < n ensures Accepted(after, leases[i].record.action) {
      AcceptedStays(accepted, after, leases[i].record.action);
    }
  }

  lemma OneMoreReceipt(leases: seq<OutboxLease>, receipts: seq<DispatchReceipt>, receipt: DispatchReceipt, n: nat)
    requires Receipted(leases, receipts, n) && n < |leases| && ReceiptFor(receipt, leases[n].record.action)
    ensures Receipted(leases, receipts + [receipt], n + 1)
    ensures DuplicatesIn(receipts + [receipt]) == DuplicatesIn(receipts) + (if receipt.duplicate then 1 else 0)
  {
    assert (receipts + [receipt])[..n] == receipts;
  }

  // The receipts with one more, if there was one.
  lemma Noted(leases: seq<OutboxLease>, receipts: seq<DispatchReceipt>, receipt: Option<DispatchReceipt>, n: nat)
    returns (more: seq<DispatchReceipt>)
    requires Receipted(leases, receipts, n) && n < |leases| && (receipt.Some? ==> ReceiptFor(receipt.value, leases[n].record.action))
    ensures Receipted(leases, more, n + (if receipt.Some? then 1 else 0))
    ensures DuplicatesIn(more) == DuplicatesIn(receipts) + (if receipt.Some? && receipt.value.duplicate then 1 else 0)
  {
    more := receipts;
    if receipt.Some? {
      OneMoreReceipt(leases, receipts, receipt.value, n);
      more := receipts + [receipt.value];
    }
  }

  lemma AcceptedStays(accepted: seq<ProcessAction>, after: seq<ProcessAction>, action: ProcessAction)
    requires accepted <= after && Accepted(accepted, action)
    ensures Accepted(after, action)
  {
    var i :| 0 <= i < |accepted| && OneIdentity(accepted[i], action);
    assert after[i] == accepted[i];
  }

  // The downstream dispatcher and the outbox, as lists of what they newly
  // accepted and acknowledged. Other workers act before every call, under the
  // same discipline; calls may fail before or after taking effect and may answer
  // with a receipt for something else.
  class DispatchHost {
    var accepted: seq<ProcessAction>
    var acknowledged: seq<OutboxLease>

    constructor ()
      ensures Sound(accepted, acknowledged)
    {
      accepted, acknowledged := [], [];
    }

    twostate predicate Grown()
      reads this
    {
      Sound(accepted, acknowledged) && old(accepted) <= accepted && old(acknowledged) <= acknowledged
    }

    method Interfere()
      requires Sound(accepted, acknowledged)
      modifies this
      ensures Grown()
    {
      var moreAccepted: seq<ProcessAction> := *;
      var moreAcknowledged: seq<OutboxLease> := *;
      if Sound(accepted + moreAccepted, acknowledged + moreAcknowledged) {
        accepted, acknowledged := accepted + moreAccepted, acknowledged + moreAcknowledged;
      }
    }

    method Now() returns (now: Result<LogicalTime, PortError>)
      requires Sound(accepted, acknowledged)
      modifies this
      ensures Grown()
    {
      Interfere();
      if * {
        var time: LogicalTime := *;
        now := Ok(time);
      } else {
        now := Err(Unavailable);
      }
    }

    // Authorization and claim; the leases returned are arbitrary.
    method Claim() returns (leases: Result<seq<OutboxLease>, PortError>)
      requires Sound(accepted, acknowledged)
      modifies this
      ensures Grown()
    {
      Interfere();
      leases := *;
    }

    method Dispatch(action: ProcessAction) returns (r: Result<DispatchReceipt, PortError>)
      requires Sound(accepted, acknowledged)
      modifies this
      ensures Grown()
      ensures r.Ok? && ReceiptFor(r.value, action) ==> Accepted(accepted, action)
    {
      Interfere();
      if Accepted(accepted, action) {
        r := *;
        return;
      }
      if * {
        ghost var before := accepted;
        accepted := accepted + [action];
        assert OneIdentity(accepted[|before|], action);
        forall i | 0 <= i < |acknowledged| ensures Accepted(accepted, acknowledged[i].record.action) {
          AcceptedStays(before, accepted, acknowledged[i].record.action);
        }
        r := *;
      } else {
        r := Err(Unavailable);
      }
    }

    method Acknowledge(lease: OutboxLease, now: LogicalTime) returns (fault: Option<PortError>)
      requires Sound(accepted, acknowledged) && Accepted(accepted, lease.record.action)
      modifies this
      ensures Grown()
      ensures fault.None? ==> lease in acknowledged && FaultAt(lease, now).None?
    {
      ghost var before := accepted;
      Interfere();
      AcceptedStays(before, accepted, lease.record.action);
      fault := FaultAt(lease, now);
      if fault.Some? {
        return;
      }
      if * {
        acknowledged := acknowledged + [lease];
        fault := *;
      } else {
        fault := Some(Conflict);
      }
    }

    // `dispatch_outbox`. The ghost results list the leases of the claim and the
    // time at which each was checked before its dispatch.
    method DispatchOutbox(request: OutboxClaimRequest)
      returns (outcome: Result<DispatchReport, DispatchFailure>, ghost leases: seq<OutboxLease>, ghost times: seq<LogicalTime>,
               ghost receipts: seq<DispatchReceipt>)
      requires Sound(accepted, acknowledged)
      modifies this
      ensures Grown()
      ensures var report := if outcome.Ok? then outcome.value else outcome.error.report;
        && report.claimed == |leases| <= request.limit
        && report.acknowledged <= report.delivered <= report.acknowledged + 1
        && Receipted(leases, receipts, report.delivered) && report.duplicateDeliveries == DuplicatesIn(receipts)
        && Delivered(accepted, leases, times, report.delivered)
        && Confirmed(acknowledged, leases, report.acknowledged)
      ensures outcome.Ok? ==> outcome.value.delivered == outcome.value.acknowledged == |leases|
      ensures outcome.Err? && outcome.error.stage == AtAcknowledge ==> outcome.error.report.delivered == outcome.error.report.acknowledged + 1
      ensures outcome.Err? && outcome.error.stage in {AtValidate, AtDispatch, AtReceipt} ==>
        outcome.error.report.delivered == outcome.error.report.acknowledged < |leases|
    {
      leases, times, receipts := [], [], [];
      var report := DispatchReport(0, 0, 0, 0);
      var now := Now();
      if now.Err? {
        return Err(DispatchFailure(AtClock, report, now.error)), leases, times, receipts;
      }
      if request.limit > MAX_CLAIM_BATCH {
        return Err(DispatchFailure(AtClaim, report, QuotaExceeded)), leases, times, receipts;
      }
      var claim := Claim();
      if claim.Err? {
        return Err(DispatchFailure(AtClaim, report, claim.error)), leases, times, receipts;
      }
      var fault := ValidateClaim(claim.value, request, now.value);
      if fault.Some? {
        return Err(DispatchFailure(AtClaim, report, fault.value)), leases, times, receipts;
      }
      leases := claim.value;
      report := report.(claimed := |claim.value|);
      var failure;
      failure, report, times, receipts := DispatchAll(claim.value, report);
      if failure.Some? {
        return Err(failure.value), leases, times, receipts;
      }
      return Ok(report), leases, times, receipts;
    }

    // The dispatch loop of a checked claim.
    method DispatchAll(leases: seq<OutboxLease>, start: DispatchReport)
      returns (failure: Option<DispatchFailure>, report: DispatchReport, ghost times: seq<LogicalTime>, ghost receipts: seq<DispatchReceipt>)
      requires Sound(accepted, acknowledged)
      requires |leases| <= MAX_CLAIM_BATCH && start == DispatchReport(|leases|, 0, 0, 0)
      modifies this
      ensures Grown() && report.claimed == |leases|
      ensures report.acknowledged <= report.delivered <= report.acknowledged + 1
      ensures Receipted(leases, receipts, report.delivered) && report.duplicateDeliveries == DuplicatesIn(receipts)
      ensures Delivered(accepted, leases, times, report.delivered) && Confirmed(acknowledged, leases, report.acknowledged)
      ensures failure.None? ==> report.delivered == report.acknowledged == |leases|
      ensures failure.Some? ==> failure.value.report == report && failure.value.stage != AtClaim && report.acknowledged < |leases|
      ensures failure.Some? && failure.value.stage == AtAcknowledge ==> report.delivered == report.acknowledged + 1
      ensures failure.Some? && failure.value.stage in {AtValidate, AtDispatch, AtReceipt} ==> report.delivered == report.acknowledged
    {
      report := start;
      times, receipts := [], [];
      for i := 0 to |leases|
        invariant Grown()
        invariant report == DispatchReport(|leases|, i, i, report.duplicateDeliveries) && report.duplicateDeliveries <= i
        invariant Receipted(leases, receipts, i) && report.duplicateDeliveries == DuplicatesIn(receipts)
        invariant |times| == i && Delivered(accepted, leases, times, i) && Confirmed(acknowledged, leases, i)
      {
        ghost var before, at := accepted, 0;
        ghost var receipt;
        failure, report, at, receipt := DispatchOne(leases[i], report);
        DeliveredGrows(before, accepted, leases, times, at, i);
        times := times + [at];
        receipts := Noted(leases, receipts, receipt, i);
        if failure.Some? {
          return;
        }
      }
      failure := None;
    }

    // One lease: checked, dispatched, its receipt checked, then acknowledged.
    method DispatchOne(lease: OutboxLease, before: DispatchReport)
      returns (failure: Option<DispatchFailure>, report: DispatchReport, ghost at: LogicalTime, ghost receipt: Option<DispatchReceipt>)
      requires Sound(accepted, acknowledged)
      requires before.delivered == before.acknowledged < MAX_CLAIM_BATCH && before.duplicateDeliveries <= before.delivered
      modifies this
      ensures Grown()
      ensures report.claimed == before.claimed
      ensures report.delivered == before.delivered + (if receipt.Some? then 1 else 0)
      ensures receipt.Some? ==> ReceiptFor(receipt.value, lease.record.action)
      ensures report.duplicateDeliveries == before.duplicateDeliveries + (if receipt.Some? && receipt.value.duplicate then 1 else 0)
      ensures report.delivered == before.delivered + 1 ==> FaultAt(lease, at).None? && Accepted(accepted, lease.record.action)
      ensures failure.None? ==> report.delivered == report.acknowledged == before.acknowledged + 1 && lease in acknowledged
      ensures failure.Some? ==> failure.value.report == report && report.acknowledged == before.acknowledged
      ensures failure.Some? && failure.value.stage == AtAcknowledge ==> report.delivered == before.delivered + 1
      ensures failure.Some? && failure.value.stage in {AtValidate, AtDispatch, AtReceipt} ==> report.delivered == before.delivered
      ensures failure.Some? ==> failure.value.stage != AtClaim
    {
      report := before;
      at, receipt := 0, None;
      var time := Now();
      if time.Err? {
        return Some(DispatchFailure(AtClock, report, time.error)), report, at, receipt;
      }
      at := time.value;
      var stale := FaultAt(lease, time.value);
      if stale.Some? {
        return Some(DispatchFailure(AtValidate, report, stale.value)), report, at, receipt;
      }
      var answer := Dispatch(lease.record.action);
      if answer.Err? {
        return Some(DispatchFailure(AtDispatch, report, answer.error)), report, at, receipt;
      }
      if !ReceiptFor(answer.value, lease.record.action) {
        return Some(DispatchFailure(AtReceipt, report, Invariant)), report, at, receipt;
      }
      report := report.(delivered := Saturated(report.delivered));
      receipt := Some(answer.value);
      if answer.value.duplicate {
        report := report.(duplicateDeliveries := Saturated(report.duplicateDeliveries));
      }
      ghost var delivered := accepted;
      var acknowledgeTime := Now();
      AcceptedStays(delivered, accepted, lease.record.action);
      if acknowledgeTime.Err? {
        return Some(DispatchFailure(AtClock, report, acknowledgeTime.error)), report, at, receipt;
      }
      delivered := accepted;
      var fault := Acknowledge(lease, acknowledgeTime.value);
      AcceptedStays(delivered, accepted, lease.record.action);
      if fault.Some? {
        return Some(DispatchFailure(AtAcknowledge, report, fault.value)), report, at, receipt;
      }
      report := report.(acknowledged := Saturated(report.acknowledged));
      failure := None;
    }
  }
}
