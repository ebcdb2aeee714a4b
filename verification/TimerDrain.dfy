// The bounded timer drain over unreliable ports
// (crates/penelope-executor/src/services.rs).
module TimerDrain {
  import opened Wrappers
  import opened Domain
  import opened LeaseBatches
  import opened TimerInputs
  import opened TimerDelivery

  datatype DrainStage = AtAuthorization | AtClock | AtClaim | AtValidate | AtPayload | AtInbox | AtAcknowledge

  datatype DrainReport = DrainReport(claimed: u16, acknowledged: u16, duplicateInputs: u16)

  datatype DrainFailure = DrainFailure(stage: DrainStage, report: DrainReport, source: PortError)

  datatype InboxReceipt = InboxReceipt(tenantId: TenantId, processId: ProcessId, inputId: InputId, duplicate: bool)

  predicate ReceiptFor(receipt: InboxReceipt, input: ProcessInput) {
    && receipt.tenantId == input.tenantId && receipt.processId == input.processId && receipt.inputId == input.inputId
  }

  // How many receipts say that the input was known before.
  function DuplicatesIn(receipts: seq<InboxReceipt>): nat {
    if receipts == [] then 0
    else DuplicatesIn(receipts[..|receipts| - 1]) + (if receipts[|receipts| - 1].duplicate then 1 else 0)
  }

  // The receipt is for the input of this lease's timer.
  predicate ReceiptOf(receipt: InboxReceipt, lease: TimerLease) {
    TimerInput(lease.timer).Ok? && ReceiptFor(receipt, TimerInput(lease.timer).value.0)
  }

  ghost predicate Receipted(leases: seq<TimerLease>, receipts: seq<InboxReceipt>, n: nat) {
    |receipts| == n <= |leases| && forall i :: 0 <= i < n ==> ReceiptOf(receipts[i], leases[i])
  }

  lemma OneMoreReceipt(leases: seq<TimerLease>, receipts: seq<InboxReceipt>, receipt: InboxReceipt, n: nat)
    requires Receipted(leases, receipts, n) && n < |leases| && ReceiptOf(receipt, leases[n])
    ensures Receipted(leases, receipts + [receipt], n + 1)
    ensures DuplicatesIn(receipts + [receipt]) == DuplicatesIn(receipts) + (if receipt.duplicate then 1 else 0)
  {
    assert (receipts + [receipt])[..n] == receipts;
  }

  // The receipts with one more, if there was one.
  lemma Noted(leases: seq<TimerLease>, receipts: seq<InboxReceipt>, receipt: Option<InboxReceipt>, n: nat) returns (more: seq<InboxReceipt>)
    requires Receipted(leases, receipts, n) && n < |leases| && (receipt.Some? ==> ReceiptOf(receipt.value, leases[n]))
    ensures Receipted(leases, more, n + (if receipt.Some? then 1 else 0))
    ensures DuplicatesIn(more) == DuplicatesIn(receipts) + (if receipt.Some? && receipt.value.duplicate then 1 else 0)
  {
    more := receipts;
    if receipt.Some? {
      OneMoreReceipt(leases, receipts, receipt.value, n);
      more := receipts + [receipt.value];
    }
  }

  lemma KeptOn(a: Store, b: Store, c: Store)
    requires Kept(a, b) && Kept(b, c)
    ensures Kept(a, c)
  {
  }

  function FenceOf(lease: TimerLease): Fence<NonZeroU64> {
    Fence(lease.timer.action.actionId.text, lease.token)
  }

  function Fences(leases: seq<TimerLease>): (fences: seq<Fence<NonZeroU64>>)
    ensures |fences| == |leases|
  {
    seq(|leases|, i requires 0 <= i < |leases| => FenceOf(leases[i]))
  }

  function OwnFaults(leases: seq<TimerLease>, request: TimerClaimRequest): (own: seq<Option<PortError>>)
    ensures |own| == |leases|
  {
    seq(|leases|, i requires 0 <= i < |leases| => TimerLeaseFault(leases[i], request))
  }

  // The first fault of a claimed batch.
  ghost function ClaimFault(leases: seq<TimerLease>, request: TimerClaimRequest): Option<PortError> {
    BatchFault(Fences(leases), OwnFaults(leases, request), 0)
  }

  // The service scans small batches itself and hands large ones to the index.
  method ValidateClaim(leases: seq<TimerLease>, request: TimerClaimRequest) returns (fault: Option<PortError>)
    ensures fault == ClaimFault(leases, request)
  {
    ghost var fences, own := Fences(leases), OwnFaults(leases, request);
    if |leases| <= 16 {
      for i := 0 to |leases|
        invariant BatchFault(fences, own, 0) == BatchFault(fences, own, i)
      {
        fault := TimerLeaseFault(leases[i], request);
        if fault.Some? {
          return;
        }
        var clash := exists j :: i < j < |leases| && Clash(SameEither, FenceOf(leases[i]), FenceOf(leases[j]));
        assert clash <==> HasLater(SameEither, fences, i) by {
          assert forall j :: 0 <= j < |leases| ==> fences[j] == FenceOf(leases[j]);
        }
        if clash {
          return Some(Invariant);
        }
      }
      return None;
    }
    fault := ValidateBatch(Fences(leases), OwnFaults(leases, request));
  }

  // A due timer of the requested process, held by the requester, unexpired.
  predicate RightlyHeld(lease: TimerLease, request: TimerClaimRequest) {
    && lease.timer.action.kind == Timer && lease.timer.action.scope == request.scope && lease.owner == request.owner
    && lease.timer.dueAt <= request.now <= lease.expiresAt
  }

  predicate AllRightlyHeld(leases: seq<TimerLease>, request: TimerClaimRequest) {
    forall i :: 0 <= i < |leases| ==> RightlyHeld(leases[i], request)
  }

  lemma AcceptedClaimsAreValid(leases: seq<TimerLease>, request: TimerClaimRequest)
    requires ClaimFault(leases, request).None?
    ensures AllValid(leases, request)
    ensures AllRightlyHeld(leases, request)
    ensures forall i, j :: 0 <= i < j < |leases| ==>
      leases[i].timer.action.actionId.text != leases[j].timer.action.actionId.text && leases[i].token != leases[j].token
  {
    var fences, own := Fences(leases), OwnFaults(leases, request);
    BatchAcceptedIff(fences, own, 0);
    forall i | 0 <= i < |leases| ensures TimerLeaseFault(leases[i], request).None? {
      assert own[i].None?;
    }
    forall i, j | 0 <= i < j < |leases|
      ensures leases[i].timer.action.actionId.text != leases[j].timer.action.actionId.text && leases[i].token != leases[j].token
    {
      assert !Clash(SameEither, fences[i], fences[j]);
    }
  }

  // Under a request within its bound, a claim is accepted exactly when every lease
  // is rightly held and no two share action or token.
  lemma ClaimAcceptedIff(leases: seq<TimerLease>, request: TimerClaimRequest)
    requires request.limit <= MAX_CLAIM_BATCH
    ensures ClaimFault(leases, request).None? <==>
      && AllRightlyHeld(leases, request)
      && (forall i, j :: 0 <= i < j < |leases| ==>
            leases[i].timer.action.actionId != leases[j].timer.action.actionId && leases[i].token != leases[j].token)
  {
    var fences, own := Fences(leases), OwnFaults(leases, request);
    BatchAcceptedIff(fences, own, 0);
    forall i | 0 <= i < |leases| ensures own[i].None? <==> RightlyHeld(leases[i], request) {
      TimerLeaseFaultSays(leases[i], request);
    }
    forall i | 0 <= i < |leases| ensures fences[i] == FenceOf(leases[i]) {
    }
  }

  // ---------------------------------------------------------------------- the ports

  // Everyone but worker `w`.
  predicate ByOthers(step: Step, w: nat) {
    (step.Claim? || step.StoreOwn? || step.QueueOwn? || step.AcknowledgeOwn? || step.Stop?) ==> step.w != w
  }

  lemma {:induction false} OthersLeaveWorker(world: World, steps: seq<Step>, w: nat)
    requires Run(world, steps).Some? && forall i :: 0 <= i < |steps| ==> ByOthers(steps[i], w)
    ensures WorkerAt(Run(world, steps).value, w) == WorkerAt(world, w)
  {
    if steps != [] {
      OthersLeaveWorker(world, steps[..|steps| - 1], w);
      assert ByOthers(steps[|steps| - 1], w);
    }
  }

  // The host's durable stores with the drains at work on them. Every port call
  // lets everyone else act first, may fail before or after taking effect, and
  // may answer wrongly; only an answer that passes the drain's checks is backed
  // by the store.
  class TimerHost {
    var world: World

    constructor ()
      ensures world == EMPTY_WORLD && Reachable(world)
    {
      world := EMPTY_WORLD;
      new;
      assert Run(EMPTY_WORLD, []) == Some(EMPTY_WORLD);
    }

    // What any call may have changed: nothing of this worker's progress.
    twostate predicate Interfered(w: nat)
      reads this
    {
      && Reachable(world) && Kept(old(world).store, world.store)
      && WorkerAt(world, w) == WorkerAt(old(world), w)
    }

    method Interfere(w: nat)
      requires Reachable(world)
      modifies this
      ensures Interfered(w)
    {
      var steps: seq<Step> := *;
      if (forall i :: 0 <= i < |steps| ==> ByOthers(steps[i], w)) && Run(world, steps).Some? {
        RunIsReachable(world, steps);
        OthersLeaveWorker(world, steps, w);
        world := Run(world, steps).value;
      }
    }

    method Authorize(w: nat) returns (fault: Option<PortError>)
      requires Reachable(world)
      modifies this
      ensures Interfered(w)
    {
      Interfere(w);
      fault := *;
    }

    method Now(w: nat) returns (now: Result<LogicalTime, PortError>)
      requires Reachable(world)
      modifies this
      ensures Interfered(w)
    {
      Interfere(w);
      if * {
        var time: LogicalTime := *;
        now := Ok(time);
      } else {
        now := Err(Unavailable);
      }
    }

    method ClaimDue(w: nat, request: TimerClaimRequest) returns (leases: Result<seq<TimerLease>, PortError>)
      requires Reachable(world)
      modifies this
      ensures Interfered(w)
    {
      Interfere(w);
      leases := *;
    }

    // The drain takes up the leases it has checked.
    method Begin(w: nat, request: TimerClaimRequest, leases: seq<TimerLease>)
      requires Reachable(world) && WorkerAt(world, w).Idle? && AllValid(leases, request)
      modifies this
      ensures Reachable(world) && world.store == old(world).store && WorkerAt(world, w) == StartWorker(request, leases)
    {
      NextIsReachable(world, Step.Claim(w, request, leases));
      world := Next(world, Step.Claim(w, request, leases)).value;
    }

    method Abandon(w: nat)
      requires Reachable(world)
      modifies this
      ensures Reachable(world) && world.store == old(world).store && WorkerAt(world, w).Idle?
    {
      NextIsReachable(world, Step.Stop(w));
      world := Next(world, Step.Stop(w)).value;
    }

    // Performs the worker's own next step if the store allows it.
    method Attempt(w: nat, step: Step) returns (done: bool)
      requires (step.StoreOwn? || step.QueueOwn? || step.AcknowledgeOwn?) && step.w == w
      requires Reachable(world)
      modifies this
      ensures Reachable(world) && Kept(old(world).store, world.store)
      ensures done ==> Next(old(world), step) == Some(world)
      ensures !done ==> world == old(world)
    {
      done := Next(world, step).Some?;
      if done {
        NextIsReachable(world, step);
        world := Next(world, step).value;
      }
    }

    method PutPayload(w: nat, scope: ProcessScope, digest: ContentDigest, bytes: seq<byte>) returns (r: Result<ContentDigest, PortError>)
      requires Reachable(world) && Delivers(WorkerAt(world, w), Held)
      requires var worker := WorkerAt(world, w);
        scope == worker.scope && TimerInput(worker.leases[0].timer).value.0.payloadDigest == digest
        && TimerInput(worker.leases[0].timer).value.1 == bytes
      modifies this
      ensures Reachable(world) && Kept(old(world).store, world.store)
      ensures r == Ok(digest) ==> WorkerAt(world, w) == WorkerAt(old(world), w).(stage := Stored)
    {
      Interfere(w);
      var done := Attempt(w, StoreOwn(w));
      r := *;
      if !done && r == Ok(digest) {
        r := Err(Ambiguous);
      }
    }

    method Accept(w: nat, input: ProcessInput) returns (r: Result<InboxReceipt, PortError>)
      requires Reachable(world) && Delivers(WorkerAt(world, w), Stored)
      requires TimerInput(WorkerAt(world, w).leases[0].timer).value.0 == input
      modifies this
      ensures Reachable(world) && Kept(old(world).store, world.store)
      ensures r.Ok? && ReceiptFor(r.value, input) ==> WorkerAt(world, w) == WorkerAt(old(world), w).(stage := Queued)
    {
      Interfere(w);
      var done := Attempt(w, QueueOwn(w));
      r := *;
      if !done && r.Ok? && ReceiptFor(r.value, input) {
        r := Err(Ambiguous);
      }
    }

    method Acknowledge(w: nat, lease: TimerLease, now: LogicalTime) returns (fault: Option<PortError>)
      requires Reachable(world) && Delivers(WorkerAt(world, w), Queued) && WorkerAt(world, w).leases[0] == lease
      modifies this
      ensures Reachable(world) && Kept(old(world).store, world.store)
      ensures fault.None? ==> WorkerAt(world, w) == AfterAcknowledging(WorkerAt(old(world), w))
      ensures fault.None? ==> lease in world.store.acknowledgements
    {
      Interfere(w);
      var done := Attempt(w, AcknowledgeOwn(w, now));
      fault := *;
      if !done && fault.None? {
        fault := Some(Conflict);
      }
    }

    // `drain_timers`. The ghost results are the leases of the claim and the
    // trusted time they were checked at.
    method DrainTimers(w: nat, request: TimerClaimRequest) returns (outcome: Result<DrainReport, DrainFailure>, ghost leases: seq<TimerLease>, ghost at: LogicalTime, ghost receipts: seq<InboxReceipt>)
      requires Reachable(world) && WorkerAt(world, w).Idle?
      modifies this
      ensures Reachable(world) && Kept(old(world).store, world.store) && WorkerAt(world, w).Idle?
      // The report counts leases from the front of the claim, each of which the
      // store has acknowledged.
      ensures var report := if outcome.Ok? then outcome.value else outcome.error.report;
        && report.acknowledged <= report.claimed <= MAX_CLAIM_BATCH
        && report.claimed == |leases|
        && Receipted(leases, receipts, |receipts|) && report.duplicateInputs == DuplicatesIn(receipts)
        && report.acknowledged <= |receipts| <= report.acknowledged + 1
        && forall i :: 0 <= i < report.acknowledged ==> leases[i] in world.store.acknowledgements
      // Whatever was acknowledged was a due timer of the requested process, under
      // the requester's own lease.
      ensures var report := if outcome.Ok? then outcome.value else outcome.error.report;
        report.acknowledged > 0 ==> AllRightlyHeld(leases, request.(now := at))
      // Success means that the whole batch was sound and acknowledged.
      ensures outcome.Ok? ==> outcome.value.acknowledged == |leases| <= request.limit
      // A failure while delivering leaves a lease uncounted; if it came at the
      // acknowledgement, that lease was already delivered.
      ensures outcome.Err? && outcome.error.stage in {AtPayload, AtInbox, AtAcknowledge} ==>
        outcome.error.report.acknowledged < |leases|
      ensures outcome.Err? && outcome.error.stage == AtAcknowledge ==>
        var lease := leases[outcome.error.report.acknowledged];
        PayloadHeld(world.store, lease.timer) && InputHeld(world.store, lease.timer)
    {
      leases, at, receipts := [], 0, [];
      var refused, claimed, now := Admit(w, request);
      leases, at := claimed, now;
      if refused.Some? {
        return Err(refused.value), leases, at, receipts;
      }
      ghost var admitted := world;
      var failure, report;
      failure, report, receipts := Deliver(w, request.(now := now), claimed, DrainReport(|claimed|, 0, 0));
      KeptOn(old(world).store, admitted.store, world.store);
      if failure.Some? {
        Abandon(w);
        return Err(failure.value), leases, at, receipts;
      }
      return Ok(report), leases, at, receipts;
    }

    // Everything before the delivery loop: authorization, trusted time, claim, and
    // the checks on what was claimed.
    method Admit(w: nat, request: TimerClaimRequest) returns (failure: Option<DrainFailure>, leases: seq<TimerLease>, at: LogicalTime)
      requires Reachable(world) && WorkerAt(world, w).Idle?
      modifies this
      ensures Reachable(world) && Kept(old(world).store, world.store)
      ensures failure.None? ==>
        && |leases| <= request.limit && |leases| <= MAX_CLAIM_BATCH && AllRightlyHeld(leases, request.(now := at))
        && WorkerAt(world, w) == StartWorker(request.(now := at), leases)
      ensures failure.Some? ==>
        && WorkerAt(world, w).Idle? && |leases| <= MAX_CLAIM_BATCH
        && failure.value.report == DrainReport(|leases|, 0, 0)
        && failure.value.stage in {AtAuthorization, AtClock, AtClaim, AtValidate}
    {
      leases, at := [], 0;
      var report := DrainReport(0, 0, 0);
      if request.limit > MAX_CLAIM_BATCH {
        return Some(DrainFailure(AtValidate, report, QuotaExceeded)), leases, at;
      }
      var denied := Authorize(w);
      if denied.Some? {
        return Some(DrainFailure(AtAuthorization, report, denied.value)), leases, at;
      }
      var now := Now(w);
      if now.Err? {
        return Some(DrainFailure(AtClock, report, now.error)), leases, at;
      }
      at := now.value;
      var trusted := request.(now := now.value);
      var claim := ClaimDue(w, trusted);
      if claim.Err? {
        return Some(DrainFailure(AtClaim, report, claim.error)), leases, at;
      }
      if |claim.value| > trusted.limit {
        return Some(DrainFailure(AtValidate, report, Invariant)), leases, at;
      }
      leases := claim.value;
      report := report.(claimed := |claim.value|);
      var fault := ValidateClaim(claim.value, trusted);
      if fault.Some? {
        return Some(DrainFailure(AtValidate, report, fault.value)), leases, at;
      }
      AcceptedClaimsAreValid(leases, trusted);
      Begin(w, trusted, claim.value);
      failure := None;
    }

    // The delivery loop of a checked claim.
    method Deliver(w: nat, request: TimerClaimRequest, leases: seq<TimerLease>, start: DrainReport)
      returns (failure: Option<DrainFailure>, report: DrainReport, ghost receipts: seq<InboxReceipt>)
      requires Reachable(world) && WorkerAt(world, w) == StartWorker(request, leases)
      requires |leases| <= MAX_CLAIM_BATCH && start == DrainReport(|leases|, 0, 0)
      modifies this
      ensures Reachable(world) && Kept(old(world).store, world.store)
      ensures report.claimed == |leases| && report.acknowledged <= |leases|
      ensures Receipted(leases, receipts, |receipts|) && report.duplicateInputs == DuplicatesIn(receipts)
      ensures report.acknowledged <= |receipts| <= report.acknowledged + 1
      ensures forall i :: 0 <= i < report.acknowledged ==> leases[i] in world.store.acknowledgements
      ensures failure.None? ==> report.acknowledged == |leases| && WorkerAt(world, w).Idle?
      ensures failure.Some? ==> failure.value.report == report && report.acknowledged < |leases|
      ensures failure.Some? && failure.value.stage == AtAcknowledge ==>
        PayloadHeld(world.store, leases[report.acknowledged].timer) && InputHeld(world.store, leases[report.acknowledged].timer)
    {
      report, receipts := start, [];
      for i := 0 to |leases|
        invariant Reachable(world) && Kept(old(world).store, world.store)
        invariant WorkerAt(world, w) == StartWorker(request, leases[i..])
        invariant report.claimed == |leases| && report.acknowledged == i && report.duplicateInputs <= i
        invariant Receipted(leases, receipts, i) && report.duplicateInputs == DuplicatesIn(receipts)
        invariant forall k :: 0 <= k < i ==> leases[k] in world.store.acknowledgements
      {
        assert leases[i..][1..] == leases[i + 1..] && leases[i..][0] == leases[i];
        ghost var before := world;
        ghost var receipt;
        failure, report, receipt := DeliverOne(w, request.scope, leases[i..], report);
        KeptOn(old(world).store, before.store, world.store);
        receipts := Noted(leases, receipts, receipt, i);
        if failure.Some? {
          return;
        }
      }
      failure := None;
    }

    // The first two answers for one lease: payload stored, input accepted.
    method QueueOne(w: nat, scope: ProcessScope, leases: seq<TimerLease>, before: DrainReport)
      returns (failure: Option<DrainFailure>, report: DrainReport, ghost receipt: Option<InboxReceipt>)
      requires Reachable(world) && leases != [] && WorkerAt(world, w) == Draining(scope, leases, Held)
      modifies this
      ensures Reachable(world) && Kept(old(world).store, world.store)
      ensures report.claimed == before.claimed && report.acknowledged == before.acknowledged
      ensures receipt.Some? ==> ReceiptOf(receipt.value, leases[0])
      ensures report.duplicateInputs == if receipt.Some? && receipt.value.duplicate then Saturated(before.duplicateInputs) else before.duplicateInputs
      ensures receipt.Some? <==> failure.None?
      ensures failure.None? ==> WorkerAt(world, w) == Draining(scope, leases, Queued) && TimerInput(leases[0].timer).Ok?
      ensures failure.Some? ==> failure.value.report == report && failure.value.stage in {AtPayload, AtInbox}
    {
      report, receipt := before, None;
      var built := BuildTimerInput(leases[0]);
      if built.Err? {
        return Some(DrainFailure(AtPayload, report, built.error)), report, receipt;
      }
      var input, bytes := built.value.0, built.value.1;
      var digest := PutPayload(w, scope, input.payloadDigest, bytes);
      if digest.Err? {
        return Some(DrainFailure(AtPayload, report, digest.error)), report, receipt;
      }
      if digest.value != input.payloadDigest {
        return Some(DrainFailure(AtPayload, report, Invariant)), report, receipt;
      }
      var answer := Accept(w, input);
      if answer.Err? {
        return Some(DrainFailure(AtInbox, report, answer.error)), report, receipt;
      }
      if !ReceiptFor(answer.value, input) {
        return Some(DrainFailure(AtInbox, report, Invariant)), report, receipt;
      }
      receipt := Some(answer.value);
      if answer.value.duplicate {
        report := report.(duplicateInputs := Saturated(report.duplicateInputs));
      }
      failure := None;
    }

    // One lease: payload, then input, then acknowledgement.
    method DeliverOne(w: nat, scope: ProcessScope, leases: seq<TimerLease>, before: DrainReport)
      returns (failure: Option<DrainFailure>, report: DrainReport, ghost receipt: Option<InboxReceipt>)
      requires Reachable(world) && leases != [] && WorkerAt(world, w) == Draining(scope, leases, Held)
      requires before.acknowledged < MAX_CLAIM_BATCH && before.duplicateInputs <= before.acknowledged
      modifies this
      ensures Reachable(world) && Kept(old(world).store, world.store)
      ensures report.claimed == before.claimed
      ensures receipt.Some? ==> ReceiptOf(receipt.value, leases[0])
      ensures report.duplicateInputs == before.duplicateInputs + (if receipt.Some? && receipt.value.duplicate then 1 else 0)
      ensures failure.None? ==> receipt.Some?
      ensures failure.None? ==>
        && report.acknowledged == before.acknowledged + 1
        && leases[0] in world.store.acknowledgements
        && WorkerAt(world, w) == AfterAcknowledging(Draining(scope, leases, Queued))
      ensures failure.Some? ==> failure.value.report == report && report.acknowledged == before.acknowledged
      ensures failure.Some? && failure.value.stage == AtAcknowledge ==>
        PayloadHeld(world.store, leases[0].timer) && InputHeld(world.store, leases[0].timer)
    {
      failure, report, receipt := QueueOne(w, scope, leases, before);
      if failure.Some? {
        return;
      }
      var now := Now(w);
      if now.Err? {
        return Some(DrainFailure(AtClock, report, now.error)), report, receipt;
      }
      QueuedIsDelivered(world, w);
      ghost var queued := world;
      var fault := Acknowledge(w, leases[0], now.value);
      if fault.Some? {
        HeldIsKept(queued.store, world.store, leases[0].timer);
        return Some(DrainFailure(AtAcknowledge, report, fault.value)), report, receipt;
      }
      report := report.(acknowledged := Saturated(report.acknowledged));
      failure := None;
    }
  }

  // A worker at this stage with an input to deliver.
  predicate Delivers(worker: Worker, stage: Stage) {
    worker.Draining? && worker.stage == stage && worker.leases != [] && TimerInput(worker.leases[0].timer).Ok?
  }

  lemma QueuedIsDelivered(world: World, w: nat)
    requires Reachable(world) && Delivers(WorkerAt(world, w), Queued)
    ensures var timer := WorkerAt(world, w).leases[0].timer;
      PayloadHeld(world.store, timer) && InputHeld(world.store, timer)
  {
    ReachableIsSound(world);
  }
}
