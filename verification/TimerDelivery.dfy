// Timer delivery as a transition system: durable stores, workers that may stop
// after any port call, and everyone else who uses the same stores
// (crates/penelope-executor/src/services.rs, crates/penelope-sqlite/src/leases.rs).
module TimerDelivery {
  import opened Wrappers
  import opened Domain
  import opened LeaseBatches
  import opened TimerInputs

  // ------------------------------------------------------------------- durable state

  datatype TimerRef = TimerRef(scope: ProcessScope, actionId: ActionId)
  datatype PayloadRef = PayloadRef(scope: ProcessScope, digest: ContentDigest)
  datatype InputRef = InputRef(tenantId: TenantId, processId: ProcessId, inputId: InputId)

  datatype Phase = Waiting | Acknowledged | Cancelled

  const MAX_DELIVERY_ATTEMPTS: nat := 64

  // `attempts` counts the leases ever granted on the timer.
  datatype TimerRecord = TimerRecord(schedule: TimerSchedule, phase: Phase, lease: Option<TimerLease>, attempts: nat)

  // `admissions` lists the inputs the inbox newly stored and `acknowledgements` the
  // leases that acknowledged, in order; nothing reads either of them.
  datatype Store = Store(
    timers: map<TimerRef, TimerRecord>,
    tokens: set<NonZeroU64>,
    payloads: map<PayloadRef, seq<byte>>,
    inbox: map<InputRef, ProcessInput>,
    admissions: seq<ProcessInput>,
    acknowledgements: seq<TimerLease>)

  const EMPTY_STORE := Store(map[], {}, map[], map[], [], [])

  function TimerRefOf(action: ProcessAction): TimerRef {
    TimerRef(action.scope, action.actionId)
  }

  function InputRefOf(input: ProcessInput): InputRef {
    InputRef(input.tenantId, input.processId, input.inputId)
  }

  function ScheduleTimer(s: Store, timer: TimerSchedule): Option<Store> {
    var r := TimerRefOf(timer.action);
    if timer.action.kind != Timer then None
    else if r !in s.timers then Some(s.(timers := s.timers[r := TimerRecord(timer, Waiting, None, 0)]))
    else if s.timers[r].schedule == timer then Some(s) else None
  }

  function CancelTimer(s: Store, timer: TimerSchedule): Option<Store> {
    var r := TimerRefOf(timer.action);
    if timer.action.kind != Timer || r !in s.timers || s.timers[r].schedule != timer then None
    else Some(s.(timers := s.timers[r := s.timers[r].(phase := Cancelled)]))
  }

  // A waiting, due timer without a live lease.
  predicate Claimable(s: Store, r: TimerRef, now: LogicalTime) {
    && r in s.timers && s.timers[r].phase == Waiting && s.timers[r].schedule.dueAt <= now
    && (s.timers[r].lease.Some? ==> s.timers[r].lease.value.expiresAt < now)
  }

  // A claimable timer receives a lease under a token never used before, at most
  // sixty-four times in all.
  function GrantLease(s: Store, lease: TimerLease, now: LogicalTime): Option<Store> {
    var r := TimerRefOf(lease.timer.action);
    if !Claimable(s, r, now) || s.timers[r].schedule != lease.timer || lease.token in s.tokens || lease.expiresAt < now
       || s.timers[r].attempts >= MAX_DELIVERY_ATTEMPTS then None
    else
      var granted := s.timers[r].(lease := Some(lease), attempts := s.timers[r].attempts + 1);
      Some(s.(timers := s.timers[r := granted], tokens := s.tokens + {lease.token}))
  }

  // Content is stored under its own digest, idempotently.
  function PutPayload(s: Store, scope: ProcessScope, digest: ContentDigest, bytes: seq<byte>): Option<Store> {
    var r := PayloadRef(scope, digest);
    if SHA256(bytes) != digest || (r in s.payloads && s.payloads[r] != bytes) then None
    else Some(s.(payloads := s.payloads[r := bytes]))
  }

  // The inbox deduplicates by identity and refuses a changed repeat.
  function AcceptInput(s: Store, input: ProcessInput): Option<Store> {
    var r := InputRefOf(input);
    if r !in s.inbox then Some(s.(inbox := s.inbox[r := input], admissions := s.admissions + [input]))
    else if s.inbox[r] == input then Some(s) else None
  }

  // Only the lease on record, unexpired, acknowledges.
  function AcknowledgeTimer(s: Store, lease: TimerLease, now: LogicalTime): Option<Store> {
    var r := TimerRefOf(lease.timer.action);
    if lease.timer.action.kind != Timer || now > lease.expiresAt
       || r !in s.timers || s.timers[r].phase == Cancelled || s.timers[r].lease != Some(lease) then None
    else Some(s.(timers := s.timers[r := s.timers[r].(phase := Acknowledged)], acknowledgements := s.acknowledgements + [lease]))
  }

  // ------------------------------------------------------------------------- workers

  datatype Stage = Held | Stored | Queued

  // The leases a drain has still to deliver, and how far it is with the first.
  datatype Worker = Idle | Draining(scope: ProcessScope, leases: seq<TimerLease>, stage: Stage)

  datatype World = World(store: Store, workers: map<nat, Worker>)

  const EMPTY_WORLD := World(EMPTY_STORE, map[])

  function WorkerAt(world: World, w: nat): Worker {
    if w in world.workers then world.workers[w] else Idle
  }

  // A drain works only on leases that pass their own check.
  predicate AllValid(leases: seq<TimerLease>, request: TimerClaimRequest) {
    forall i :: 0 <= i < |leases| ==> TimerLeaseFault(leases[i], request).None?
  }

  function StartWorker(request: TimerClaimRequest, leases: seq<TimerLease>): Worker {
    if leases == [] then Idle else Draining(request.scope, leases, Held)
  }

  function AfterAcknowledging(worker: Worker): Worker
    requires worker.Draining? && worker.leases != []
  {
    if |worker.leases| == 1 then Idle else Draining(worker.scope, worker.leases[1..], Held)
  }

  // The first group of steps belongs to other users of the stores, the second to
  // drains. A claim may return any leases at all; a worker may stop at any point.
  datatype Step =
    | Schedule(timer: TimerSchedule)
    | Cancel(timer: TimerSchedule)
    | Grant(lease: TimerLease, grantedAt: LogicalTime)
    | Put(scope: ProcessScope, bytes: seq<byte>)
    | Submit(input: ProcessInput)
    | Claim(w: nat, request: TimerClaimRequest, leases: seq<TimerLease>)
    | StoreOwn(w: nat)
    | QueueOwn(w: nat)
    | AcknowledgeOwn(w: nat, now: LogicalTime)
    | Stop(w: nat)

  function Shared(s: Store, step: Step): Option<Store>
    requires step.Schedule? || step.Cancel? || step.Grant? || step.Put? || step.Submit?
  {
    match step
    case Schedule(timer) => ScheduleTimer(s, timer)
    case Cancel(timer) => CancelTimer(s, timer)
    case Grant(lease, now) => GrantLease(s, lease, now)
    case Put(scope, bytes) => PutPayload(s, scope, SHA256(bytes), bytes)
    case Submit(input) => AcceptInput(s, input)
  }

  // The store operation a drain performs next, if it may.
  function Own(s: Store, worker: Worker, step: Step): Option<Store>
    requires step.StoreOwn? || step.QueueOwn? || step.AcknowledgeOwn?
  {
    if worker.Idle? || worker.leases == [] || TimerInput(worker.leases[0].timer).Err? then None
    else
      var lease := worker.leases[0];
      var own := TimerInput(lease.timer).value;
      match step
      case StoreOwn(_) => if worker.stage != Held then None else PutPayload(s, worker.scope, own.0.payloadDigest, own.1)
      case QueueOwn(_) => if worker.stage != Stored then None else AcceptInput(s, own.0)
      case AcknowledgeOwn(_, now) => if worker.stage != Queued then None else AcknowledgeTimer(s, lease, now)
  }

  function Advanced(worker: Worker, step: Step): Worker
    requires step.StoreOwn? || step.QueueOwn? || step.AcknowledgeOwn?
    requires worker.Draining? && worker.leases != []
  {
    match step
    case StoreOwn(_) => worker.(stage := Stored)
    case QueueOwn(_) => worker.(stage := Queued)
    case AcknowledgeOwn(_, _) => AfterAcknowledging(worker)
  }

  function Next(world: World, step: Step): Option<World> {
    match step
    case Claim(w, request, leases) =>
      if WorkerAt(world, w).Idle? && AllValid(leases, request)
      then Some(world.(workers := world.workers[w := StartWorker(request, leases)])) else None
    case Stop(w) => Some(world.(workers := world.workers[w := Idle]))
    case StoreOwn(_) => OwnNext(world, step)
    case QueueOwn(_) => OwnNext(world, step)
    case AcknowledgeOwn(_, _) => OwnNext(world, step)
    case _ =>
      var store := Shared(world.store, step);
      if store.None? then None else Some(world.(store := store.value))
  }

  function OwnNext(world: World, step: Step): Option<World>
    requires step.StoreOwn? || step.QueueOwn? || step.AcknowledgeOwn?
  {
    var worker := WorkerAt(world, step.w);
    var store := Own(world.store, worker, step);
    if store.None? then None else Some(World(store.value, world.workers[step.w := Advanced(worker, step)]))
  }

  function Run(world: World, steps: seq<Step>): Option<World> {
    if steps == [] then Some(world)
    else
      var before := Run(world, steps[..|steps| - 1]);
      if before.None? then None else Next(before.value, steps[|steps| - 1])
  }

  ghost predicate Reachable(world: World) {
    exists steps :: Run(EMPTY_WORLD, steps) == Some(world)
  }

  // ----------------------------------------------------------------------- invariant

  predicate PayloadHeld(s: Store, timer: TimerSchedule) {
    && TimerInput(timer).Ok?
    && var r := PayloadRef(timer.action.scope, TimerInput(timer).value.0.payloadDigest);
       r in s.payloads && s.payloads[r] == TimerInput(timer).value.1
  }

  predicate InputHeld(s: Store, timer: TimerSchedule) {
    && TimerInput(timer).Ok?
    && var input := TimerInput(timer).value.0;
       InputRefOf(input) in s.inbox && s.inbox[InputRefOf(input)] == input
  }

  // A record is kept under its own reference; its lease is for its own schedule.
  predicate RecordSound(s: Store, r: TimerRef)
    requires r in s.timers
  {
    var record := s.timers[r];
    && TimerRefOf(record.schedule.action) == r && record.schedule.action.kind == Timer
    && (record.lease.Some? ==> record.lease.value.timer == record.schedule && record.lease.value.token in s.tokens)
    && record.attempts <= MAX_DELIVERY_ATTEMPTS
    && (record.phase == Acknowledged ==> record.lease.Some? && record.lease.value in s.acknowledgements)
  }

  ghost predicate RecordsSound(s: Store) {
    forall r :: r in s.timers ==> RecordSound(s, r)
  }

  // Whatever was acknowledged, even if cancelled since, had been delivered.
  ghost predicate AcknowledgementsSound(s: Store) {
    forall lease :: lease in s.acknowledgements ==> PayloadHeld(s, lease.timer) && InputHeld(s, lease.timer)
  }

  // The inbox holds exactly the admitted inputs, each admitted once.
  ghost predicate AdmittedOnce(s: Store) {
    && (forall i :: 0 <= i < |s.admissions| ==>
          InputRefOf(s.admissions[i]) in s.inbox && s.inbox[InputRefOf(s.admissions[i])] == s.admissions[i])
    && (forall r :: r in s.inbox ==> s.inbox[r] in s.admissions && InputRefOf(s.inbox[r]) == r)
    && (forall i, j :: 0 <= i < j < |s.admissions| ==> InputRefOf(s.admissions[i]) != InputRefOf(s.admissions[j]))
  }

  predicate WorkerSound(s: Store, worker: Worker) {
    worker.Draining? ==>
      && worker.leases != []
      && (forall i :: 0 <= i < |worker.leases| ==> worker.leases[i].timer.action.scope == worker.scope)
      && (worker.stage != Held ==> PayloadHeld(s, worker.leases[0].timer))
      && (worker.stage == Queued ==> InputHeld(s, worker.leases[0].timer))
  }

  ghost predicate Sound(world: World) {
    && RecordsSound(world.store)
    && AdmittedOnce(world.store)
    && AcknowledgementsSound(world.store)
    && forall w :: w in world.workers ==> WorkerSound(world.store, world.workers[w])
  }

  // Payloads, inputs, used tokens and acknowledgements are never lost or changed.
  ghost predicate Kept(s: Store, after: Store) {
    && (forall r :: r in s.payloads ==> r in after.payloads && after.payloads[r] == s.payloads[r])
    && (forall r :: r in s.inbox ==> r in after.inbox && after.inbox[r] == s.inbox[r])
    && s.tokens <= after.tokens
    && s.acknowledgements <= after.acknowledgements
  }

  lemma HeldIsKept(s: Store, after: Store, timer: TimerSchedule)
    requires Kept(s, after)
    ensures PayloadHeld(s, timer) ==> PayloadHeld(after, timer)
    ensures InputHeld(s, timer) ==> InputHeld(after, timer)
  {
  }

  lemma AcknowledgementsStaySound(s: Store, after: Store)
    requires AcknowledgementsSound(s) && Kept(s, after)
    requires forall lease :: lease in after.acknowledgements ==>
      lease in s.acknowledgements || (PayloadHeld(s, lease.timer) && InputHeld(s, lease.timer))
    ensures AcknowledgementsSound(after)
  {
    forall lease | lease in after.acknowledgements ensures PayloadHeld(after, lease.timer) && InputHeld(after, lease.timer) {
      HeldIsKept(s, after, lease.timer);
    }
  }

  // Only the record at `r` may differ, and if it does it is sound.
  lemma RecordsStaySound(s: Store, after: Store, r: TimerRef)
    requires RecordsSound(s) && Kept(s, after)
    requires forall q :: q in after.timers && q != r ==> q in s.timers && after.timers[q] == s.timers[q]
    requires r in after.timers ==> RecordSound(after, r)
    ensures RecordsSound(after)
  {
    forall q | q in after.timers ensures RecordSound(after, q) {
      if q != r {
        assert RecordSound(s, q);
      }
    }
  }

  lemma ScheduleKeeps(s: Store, timer: TimerSchedule)
    requires RecordsSound(s) && ScheduleTimer(s, timer).Some?
    ensures RecordsSound(ScheduleTimer(s, timer).value) && Kept(s, ScheduleTimer(s, timer).value)
  {
    var after, r := ScheduleTimer(s, timer).value, TimerRefOf(timer.action);
    assert r in s.timers ==> RecordSound(s, r);
    RecordsStaySound(s, after, r);
  }

  lemma CancelKeeps(s: Store, timer: TimerSchedule)
    requires RecordsSound(s) && CancelTimer(s, timer).Some?
    ensures RecordsSound(CancelTimer(s, timer).value) && Kept(s, CancelTimer(s, timer).value)
  {
    assert RecordSound(s, TimerRefOf(timer.action));
    RecordsStaySound(s, CancelTimer(s, timer).value, TimerRefOf(timer.action));
  }

  lemma GrantKeeps(s: Store, lease: TimerLease, now: LogicalTime)
    requires RecordsSound(s) && GrantLease(s, lease, now).Some?
    ensures RecordsSound(GrantLease(s, lease, now).value) && Kept(s, GrantLease(s, lease, now).value)
  {
    var r := TimerRefOf(lease.timer.action);
    assert RecordSound(s, r);
    RecordsStaySound(s, GrantLease(s, lease, now).value, r);
  }

  lemma PutKeeps(s: Store, scope: ProcessScope, digest: ContentDigest, bytes: seq<byte>)
    requires RecordsSound(s) && PutPayload(s, scope, digest, bytes).Some?
    ensures RecordsSound(PutPayload(s, scope, digest, bytes).value) && Kept(s, PutPayload(s, scope, digest, bytes).value)
  {
    var after := PutPayload(s, scope, digest, bytes).value;
    forall r | r in after.timers ensures RecordSound(after, r) {
      assert RecordSound(s, r);
    }
  }

  lemma AcceptKeeps(s: Store, input: ProcessInput)
    requires RecordsSound(s) && AcceptInput(s, input).Some?
    ensures RecordsSound(AcceptInput(s, input).value) && Kept(s, AcceptInput(s, input).value)
  {
    var after := AcceptInput(s, input).value;
    forall r | r in after.timers ensures RecordSound(after, r) {
      assert RecordSound(s, r);
    }
  }

  lemma AcceptAdmitsOnce(s: Store, input: ProcessInput)
    requires AdmittedOnce(s) && AcceptInput(s, input).Some?
    ensures AdmittedOnce(AcceptInput(s, input).value)
  {
    var after := AcceptInput(s, input).value;
    if InputRefOf(input) !in s.inbox {
      assert after.admissions[|s.admissions|] == input;
      forall r | r in after.inbox ensures after.inbox[r] in after.admissions && InputRefOf(after.inbox[r]) == r {
        if r != InputRefOf(input) {
          assert s.inbox[r] in s.admissions;
        }
      }
    }
  }

  lemma AcknowledgeKeeps(s: Store, lease: TimerLease, now: LogicalTime)
    requires RecordsSound(s) && AcknowledgementsSound(s) && AcknowledgeTimer(s, lease, now).Some?
    requires PayloadHeld(s, lease.timer) && InputHeld(s, lease.timer)
    ensures RecordsSound(AcknowledgeTimer(s, lease, now).value) && Kept(s, AcknowledgeTimer(s, lease, now).value)
    ensures AcknowledgementsSound(AcknowledgeTimer(s, lease, now).value)
  {
    var after, r := AcknowledgeTimer(s, lease, now).value, TimerRefOf(lease.timer.action);
    assert RecordSound(s, r);
    RecordsStaySound(s, after, r);
    AcknowledgementsStaySound(s, after);
  }

  lemma SharedKeeps(s: Store, step: Step)
    requires step.Schedule? || step.Cancel? || step.Grant? || step.Put? || step.Submit?
    requires RecordsSound(s) && AdmittedOnce(s) && Shared(s, step).Some?
    ensures RecordsSound(Shared(s, step).value) && AdmittedOnce(Shared(s, step).value) && Kept(s, Shared(s, step).value)
    ensures Shared(s, step).value.acknowledgements == s.acknowledgements
  {
    match step
    case Schedule(timer) => ScheduleKeeps(s, timer);
    case Cancel(timer) => CancelKeeps(s, timer);
    case Grant(lease, now) => GrantKeeps(s, lease, now);
    case Put(scope, bytes) => PutKeeps(s, scope, SHA256(bytes), bytes);
    case Submit(input) => AcceptKeeps(s, input); AcceptAdmitsOnce(s, input);
  }

  lemma OwnKeeps(s: Store, worker: Worker, step: Step)
    requires step.StoreOwn? || step.QueueOwn? || step.AcknowledgeOwn?
    requires RecordsSound(s) && AdmittedOnce(s) && AcknowledgementsSound(s) && WorkerSound(s, worker) && Own(s, worker, step).Some?
    ensures RecordsSound(Own(s, worker, step).value) && AdmittedOnce(Own(s, worker, step).value)
    ensures AcknowledgementsSound(Own(s, worker, step).value)
    ensures Kept(s, Own(s, worker, step).value)
    ensures WorkerSound(Own(s, worker, step).value, Advanced(worker, step))
  {
    var timer := worker.leases[0].timer;
    var own := TimerInput(timer).value;
    match step
    case StoreOwn(_) =>
      PutKeeps(s, worker.scope, own.0.payloadDigest, own.1);
      AcknowledgementsStaySound(s, Own(s, worker, step).value);
    case QueueOwn(_) =>
      AcceptKeeps(s, own.0);
      AcceptAdmitsOnce(s, own.0);
      HeldIsKept(s, Own(s, worker, step).value, timer);
      AcknowledgementsStaySound(s, Own(s, worker, step).value);
    case AcknowledgeOwn(_, now) => AcknowledgeKeeps(s, worker.leases[0], now);
  }

  lemma WorkersStaySound(world: World, after: World)
    requires Sound(world) && Kept(world.store, after.store)
    requires forall w :: w in after.workers ==>
      (w in world.workers && after.workers[w] == world.workers[w]) || WorkerSound(after.store, after.workers[w])
    ensures forall w :: w in after.workers ==> WorkerSound(after.store, after.workers[w])
  {
    forall w | w in after.workers ensures WorkerSound(after.store, after.workers[w]) {
      if w in world.workers && after.workers[w] == world.workers[w] {
        var worker := world.workers[w];
        assert WorkerSound(world.store, worker);
        if worker.Draining? {
          HeldIsKept(world.store, after.store, worker.leases[0].timer);
        }
      }
    }
  }

  lemma StepStaysSound(world: World, step: Step)
    requires Sound(world) && Next(world, step).Some?
    ensures Sound(Next(world, step).value) && Kept(world.store, Next(world, step).value.store)
  {
    var after := Next(world, step).value;
    if step.StoreOwn? || step.QueueOwn? || step.AcknowledgeOwn? {
      OwnKeeps(world.store, WorkerAt(world, step.w), step);
    } else if !step.Claim? && !step.Stop? {
      SharedKeeps(world.store, step);
      AcknowledgementsStaySound(world.store, after.store);
    }
    WorkersStaySound(world, after);
  }

  lemma {:induction false} RunStaysSound(world: World, steps: seq<Step>)
    requires Sound(world) && Run(world, steps).Some?
    ensures Sound(Run(world, steps).value) && Kept(world.store, Run(world, steps).value.store)
  {
    if steps != [] {
      RunStaysSound(world, steps[..|steps| - 1]);
      StepStaysSound(Run(world, steps[..|steps| - 1]).value, steps[|steps| - 1]);
    }
  }

  lemma ReachableIsSound(world: World)
    requires Reachable(world)
    ensures Sound(world)
  {
    var steps :| Run(EMPTY_WORLD, steps) == Some(world);
    RunStaysSound(EMPTY_WORLD, steps);
  }

  lemma NextIsReachable(world: World, step: Step)
    requires Reachable(world) && Next(world, step).Some?
    ensures Reachable(Next(world, step).value) && Kept(world.store, Next(world, step).value.store)
  {
    var steps :| Run(EMPTY_WORLD, steps) == Some(world);
    assert (steps + [step])[..|steps|] == steps;
    assert Run(EMPTY_WORLD, steps + [step]) == Next(world, step);
    ReachableIsSound(world);
    StepStaysSound(world, step);
  }

  lemma {:induction false} RunIsReachable(world: World, steps: seq<Step>)
    requires Reachable(world) && Run(world, steps).Some?
    ensures Reachable(Run(world, steps).value) && Kept(world.store, Run(world, steps).value.store)
  {
    if steps != [] {
      RunIsReachable(world, steps[..|steps| - 1]);
      NextIsReachable(Run(world, steps[..|steps| - 1]).value, steps[|steps| - 1]);
    }
  }

  // ------------------------------------------------------------------------ theorems

  // Position `i` is the one admission of this timer's input.
  ghost predicate AdmittedAt(s: Store, timer: TimerSchedule, i: nat)
    requires TimerInput(timer).Ok?
  {
    var input := TimerInput(timer).value.0;
    && i < |s.admissions| && s.admissions[i] == input
    && forall j :: 0 <= j < |s.admissions| && j != i ==> InputRefOf(s.admissions[j]) != InputRefOf(input)
  }

  // However drains interleave, stop and repeat, an acknowledged timer has its
  // payload stored and its input in the inbox, admitted exactly once.
  lemma AcknowledgedMeansDeliveredOnce(world: World, lease: TimerLease) returns (i: nat)
    requires Reachable(world) && lease in world.store.acknowledgements
    ensures PayloadHeld(world.store, lease.timer)
    ensures AdmittedAt(world.store, lease.timer, i)
  {
    ReachableIsSound(world);
    var s := world.store;
    var input := TimerInput(lease.timer).value.0;
    assert s.inbox[InputRefOf(input)] in s.admissions;
    i :| 0 <= i < |s.admissions| && s.admissions[i] == input;
  }

  // A timer recorded as acknowledged was acknowledged by the lease on its record.
  lemma AcknowledgedRecordsNameTheirLease(world: World, r: TimerRef)
    requires Reachable(world) && r in world.store.timers && world.store.timers[r].phase == Acknowledged
    ensures var record := world.store.timers[r];
      && record.lease.Some? && record.lease.value.timer == record.schedule && record.lease.value in world.store.acknowledgements
  {
    ReachableIsSound(world);
    assert RecordSound(world.store, r);
  }

  // Two acknowledged timers never share an admission, unless SHA-256 collides.
  lemma AdmissionsAreNotShared(world: World, a: TimerRef, b: TimerRef, i: nat, j: nat)
    requires Reachable(world) && a != b && a in world.store.timers && b in world.store.timers
    requires TimerInput(world.store.timers[a].schedule).Ok? && TimerInput(world.store.timers[b].schedule).Ok?
    requires AdmittedAt(world.store, world.store.timers[a].schedule, i)
    requires AdmittedAt(world.store, world.store.timers[b].schedule, j)
    requires NoCollision(world.store.timers[a].schedule.action, world.store.timers[b].schedule.action)
    ensures i != j
  {
    ReachableIsSound(world);
    assert RecordSound(world.store, a) && RecordSound(world.store, b);
    InputIdentityIff(world.store.timers[a].schedule, world.store.timers[b].schedule);
  }

  // The lease has been issued and is not, or no longer, the one on record.
  predicate Stale(s: Store, lease: TimerLease) {
    && lease.token in s.tokens
    && var r := TimerRefOf(lease.timer.action);
       r in s.timers ==> s.timers[r].lease != Some(lease)
  }

  lemma StepStaysStale(world: World, step: Step, lease: TimerLease)
    requires Next(world, step).Some? && Stale(world.store, lease)
    ensures Stale(Next(world, step).value.store, lease)
  {
  }

  // Fencing: once superseded, a lease can never acknowledge again, whatever else
  // happens.
  lemma {:induction false} StaleLeasesNeverAcknowledge(world: World, steps: seq<Step>, lease: TimerLease, now: LogicalTime)
    requires Run(world, steps).Some? && Stale(world.store, lease)
    ensures Stale(Run(world, steps).value.store, lease)
    ensures AcknowledgeTimer(Run(world, steps).value.store, lease, now).None?
  {
    if steps != [] {
      StaleLeasesNeverAcknowledge(world, steps[..|steps| - 1], lease, now);
      StepStaysStale(Run(world, steps[..|steps| - 1]).value, steps[|steps| - 1], lease);
    }
  }

  // Nothing foreign stands where the timer's payload and input belong.
  predicate Unobstructed(s: Store, timer: TimerSchedule)
    requires TimerInput(timer).Ok?
  {
    var own := TimerInput(timer).value;
    var p := PayloadRef(timer.action.scope, own.0.payloadDigest);
    && (p in s.payloads ==> s.payloads[p] == own.1)
    && (InputRefOf(own.0) in s.inbox ==> s.inbox[InputRefOf(own.0)] == own.0)
  }

  // A drain of one lease in the order the service performs it.
  function Delivery(w: nat, request: TimerClaimRequest, lease: TimerLease): seq<Step> {
    [Grant(lease, request.now), Claim(w, request, [lease]), StoreOwn(w), QueueOwn(w), AcknowledgeOwn(w, request.now)]
  }

  lemma RunOfFive(world: World, a: Step, b: Step, c: Step, d: Step, e: Step)
    ensures Run(world, [a, b, c, d, e]) ==
            if Run(world, [a, b, c, d]).None? then None else Next(Run(world, [a, b, c, d]).value, e)
    ensures Run(world, [a, b, c, d]) == if Run(world, [a, b, c]).None? then None else Next(Run(world, [a, b, c]).value, d)
    ensures Run(world, [a, b, c]) == if Run(world, [a, b]).None? then None else Next(Run(world, [a, b]).value, c)
    ensures Run(world, [a, b]) == if Next(world, a).None? then None else Next(Next(world, a).value, b)
  {
    assert [a, b, c, d, e][..4] == [a, b, c, d];
    assert [a, b, c, d][..3] == [a, b, c];
    assert [a, b, c][..2] == [a, b];
    assert [a, b][..1] == [a];
    assert [a][..0] == [];
    assert Run(world, []) == Some(world);
  }

  // One more drain of a claimable timer with a new token and nothing foreign in
  // its way delivers it exactly when fewer than sixty-four leases were granted on
  // it before, whatever earlier drains did before they stopped.
  lemma RedeliveryCompletesIff(world: World, w: nat, request: TimerClaimRequest, lease: TimerLease)
    requires WorkerAt(world, w).Idle? && Claimable(world.store, TimerRefOf(lease.timer.action), request.now)
    requires world.store.timers[TimerRefOf(lease.timer.action)].schedule == lease.timer
    requires lease.token !in world.store.tokens && TimerLeaseFault(lease, request).None?
    requires TimerInput(lease.timer).Ok? && Unobstructed(world.store, lease.timer)
    ensures var r := TimerRefOf(lease.timer.action);
      && (Run(world, Delivery(w, request, lease)).Some? <==> world.store.timers[r].attempts < MAX_DELIVERY_ATTEMPTS)
      && (Run(world, Delivery(w, request, lease)).Some? ==>
            var after := Run(world, Delivery(w, request, lease)).value.store;
            r in after.timers && after.timers[r].phase == Acknowledged)
  {
    RunOfFive(world, Grant(lease, request.now), Claim(w, request, [lease]), StoreOwn(w), QueueOwn(w), AcknowledgeOwn(w, request.now));
    if world.store.timers[TimerRefOf(lease.timer.action)].attempts < MAX_DELIVERY_ATTEMPTS {
      var granted := Next(world, Grant(lease, request.now)).value;
      var claimed := Next(granted, Claim(w, request, [lease])).value;
      assert claimed.workers[w] == Draining(request.scope, [lease], Held);
      DeliveryFromClaim(claimed, w, lease, request.now);
    }
  }

  // From a fresh claim of one live lease, the three port calls all succeed.
  lemma DeliveryFromClaim(claimed: World, w: nat, lease: TimerLease, now: LogicalTime)
    requires w in claimed.workers && claimed.workers[w] == Draining(lease.timer.action.scope, [lease], Held)
    requires lease.timer.action.kind == Timer && now <= lease.expiresAt
    requires TimerInput(lease.timer).Ok? && Unobstructed(claimed.store, lease.timer)
    requires var r := TimerRefOf(lease.timer.action);
      r in claimed.store.timers && claimed.store.timers[r].phase == Waiting && claimed.store.timers[r].lease == Some(lease)
    ensures Next(claimed, StoreOwn(w)).Some?
    ensures var stored := Next(claimed, StoreOwn(w)).value;
      && Next(stored, QueueOwn(w)).Some?
      && var queued := Next(stored, QueueOwn(w)).value;
         && Next(queued, AcknowledgeOwn(w, now)).Some?
         && var after := Next(queued, AcknowledgeOwn(w, now)).value.store;
            && TimerRefOf(lease.timer.action) in after.timers
            && after.timers[TimerRefOf(lease.timer.action)].phase == Acknowledged
  {
    var own := TimerInput(lease.timer).value;
    assert SHA256(own.1) == own.0.payloadDigest;
  }

  // ---------------------------------------------------------------- running out

  // The timer has had all the leases it will ever get.
  predicate Exhausted(s: Store, r: TimerRef) {
    r in s.timers && s.timers[r].attempts >= MAX_DELIVERY_ATTEMPTS
  }

  lemma StepStaysExhausted(world: World, step: Step, r: TimerRef)
    requires Next(world, step).Some? && Exhausted(world.store, r)
    ensures Exhausted(Next(world, step).value.store, r)
  {
  }

  // Nothing anyone does gives such a timer another lease.
  lemma {:induction false} StaysExhausted(world: World, steps: seq<Step>, r: TimerRef)
    requires Run(world, steps).Some? && Exhausted(world.store, r)
    ensures Exhausted(Run(world, steps).value.store, r)
  {
    if steps != [] {
      StaysExhausted(world, steps[..|steps| - 1], r);
      StepStaysExhausted(Run(world, steps[..|steps| - 1]).value, steps[|steps| - 1], r);
    }
  }

  // Such a timer keeps its schedule and its last lease, too.
  predicate SameTimer(a: Store, b: Store, r: TimerRef) {
    r in a.timers && r in b.timers && b.timers[r].schedule == a.timers[r].schedule && b.timers[r].lease == a.timers[r].lease
  }

  lemma StepKeepsExhausted(world: World, step: Step, r: TimerRef)
    requires Next(world, step).Some? && Exhausted(world.store, r)
    ensures SameTimer(world.store, Next(world, step).value.store, r)
  {
  }

  lemma {:induction false} ExhaustedIsKept(world: World, steps: seq<Step>, r: TimerRef)
    requires Run(world, steps).Some? && Exhausted(world.store, r)
    ensures SameTimer(world.store, Run(world, steps).value.store, r)
  {
    if steps != [] {
      var before := steps[..|steps| - 1];
      ExhaustedIsKept(world, before, r);
      StaysExhausted(world, before, r);
      StepKeepsExhausted(Run(world, before).value, steps[|steps| - 1], r);
    }
  }

  // A lease granted on the k-th round, live for that instant only.
  function RoundLease(timer: TimerSchedule, owner: PrincipalId, k: nat): TimerLease
    requires k < MAX_DELIVERY_ATTEMPTS && timer.dueAt + MAX_DELIVERY_ATTEMPTS <= U64_MAX
  {
    TimerLease(timer, owner, k + 1, timer.dueAt + k)
  }

  function RoundRequest(timer: TimerSchedule, owner: PrincipalId, k: nat): TimerClaimRequest
    requires k < MAX_DELIVERY_ATTEMPTS && timer.dueAt + MAX_DELIVERY_ATTEMPTS <= U64_MAX
  {
    TimerClaimRequest(timer.action.scope, owner, timer.dueAt + k, 1)
  }

  // A drain that takes the timer up and stops.
  function Round(timer: TimerSchedule, owner: PrincipalId, k: nat): (steps: seq<Step>)
    requires k < MAX_DELIVERY_ATTEMPTS && timer.dueAt + MAX_DELIVERY_ATTEMPTS <= U64_MAX
    ensures |steps| == 3
  {
    [Grant(RoundLease(timer, owner, k), timer.dueAt + k),
     Claim(0, RoundRequest(timer, owner, k), [RoundLease(timer, owner, k)]),
     Stop(0)]
  }

  // What the world is after k rounds.
  ghost predicate AfterRounds(world: World, timer: TimerSchedule, k: nat) {
    && WorkerAt(world, 0).Idle?
    && (forall token :: token in world.store.tokens ==> token <= k)
    && var r := TimerRefOf(timer.action);
       && world.store.timers.Keys == {r} && world.store.timers[r].schedule == timer && world.store.timers[r].phase == Waiting
       && world.store.timers[r].attempts == k
       && (world.store.timers[r].lease.Some? ==> world.store.timers[r].lease.value.expiresAt < timer.dueAt + k)
  }

  lemma RunExtends(world: World, steps: seq<Step>, step: Step)
    requires Run(world, steps).Some?
    ensures Run(world, steps + [step]) == Next(Run(world, steps).value, step)
  {
    assert (steps + [step])[..|steps|] == steps;
  }

  lemma RunExtendsThrice(world: World, steps: seq<Step>, more: seq<Step>, before: World, one: World, two: World, after: World)
    requires |more| == 3 && Run(world, steps) == Some(before)
    requires Next(before, more[0]) == Some(one) && Next(one, more[1]) == Some(two) && Next(two, more[2]) == Some(after)
    ensures Run(world, steps + more) == Some(after)
  {
    RunExtends(world, steps, more[0]);
    RunExtends(world, steps + [more[0]], more[1]);
    RunExtends(world, steps + [more[0]] + [more[1]], more[2]);
    assert steps + [more[0]] + [more[1]] + [more[2]] == steps + more;
  }

  lemma OneRound(world: World, timer: TimerSchedule, owner: PrincipalId, k: nat) returns (granted: World, claimed: World, after: World)
    requires timer.action.kind == Timer && k < MAX_DELIVERY_ATTEMPTS && timer.dueAt + MAX_DELIVERY_ATTEMPTS <= U64_MAX
    requires AfterRounds(world, timer, k)
    ensures Next(world, Round(timer, owner, k)[0]) == Some(granted) && Next(granted, Round(timer, owner, k)[1]) == Some(claimed)
    ensures Next(claimed, Round(timer, owner, k)[2]) == Some(after) && AfterRounds(after, timer, k + 1)
  {
    granted := Next(world, Grant(RoundLease(timer, owner, k), timer.dueAt + k)).value;
    claimed := Next(granted, Claim(0, RoundRequest(timer, owner, k), [RoundLease(timer, owner, k)])).value;
    after := Next(claimed, Stop(0)).value;
  }

  lemma FirstRound(timer: TimerSchedule) returns (world: World)
    requires timer.action.kind == Timer
    ensures Run(EMPTY_WORLD, [Schedule(timer)]) == Some(world) && AfterRounds(world, timer, 0)
  {
    assert Run(EMPTY_WORLD, []) == Some(EMPTY_WORLD);
    RunExtends(EMPTY_WORLD, [], Schedule(timer));
    assert [] + [Schedule(timer)] == [Schedule(timer)];
    world := Next(EMPTY_WORLD, Schedule(timer)).value;
  }

  // The timer is scheduled, and k drains take it up and stop.
  lemma {:induction false} RoundsRun(timer: TimerSchedule, owner: PrincipalId, k: nat) returns (steps: seq<Step>, world: World)
    requires timer.action.kind == Timer && k <= MAX_DELIVERY_ATTEMPTS && timer.dueAt + MAX_DELIVERY_ATTEMPTS <= U64_MAX
    ensures |steps| == 1 + 3 * k && Run(EMPTY_WORLD, steps) == Some(world) && AfterRounds(world, timer, k)
  {
    if k == 0 {
      steps := [Schedule(timer)];
      world := FirstRound(timer);
    } else {
      var before, prior := RoundsRun(timer, owner, k - 1);
      var granted, claimed;
      granted, claimed, world := OneRound(prior, timer, owner, k - 1);
      steps := before + Round(timer, owner, k - 1);
      RunExtendsThrice(EMPTY_WORLD, before, Round(timer, owner, k - 1), prior, granted, claimed, world);
    }
  }

  // Sixty-four drains that stop before delivering leave a timer waiting and
  // without a live lease, yet out of reach: no run from there leases it again.
  lemma StoppedDrainsExhaust(timer: TimerSchedule, owner: PrincipalId) returns (world: World)
    requires timer.action.kind == Timer && timer.dueAt + MAX_DELIVERY_ATTEMPTS <= U64_MAX
    ensures Reachable(world) && Claimable(world.store, TimerRefOf(timer.action), timer.dueAt + MAX_DELIVERY_ATTEMPTS)
    ensures forall steps, lease: TimerLease, now :: Run(world, steps).Some? && TimerRefOf(lease.timer.action) == TimerRefOf(timer.action) ==>
      GrantLease(Run(world, steps).value.store, lease, now).None?
  {
    var before;
    before, world := RoundsRun(timer, owner, MAX_DELIVERY_ATTEMPTS);
    forall steps, lease: TimerLease, now | Run(world, steps).Some? && TimerRefOf(lease.timer.action) == TimerRefOf(timer.action)
      ensures GrantLease(Run(world, steps).value.store, lease, now).None?
    {
      StaysExhausted(world, steps, TimerRefOf(timer.action));
    }
  }
}
