// What each operation of the timer stores takes, and what it changes
// (crates/penelope-sqlite/src/leases.rs).
module TimerStoreRules {
  import opened Wrappers
  import opened Domain
  import opened LeaseBatches
  import opened TimerInputs
  import opened TimerDelivery

  // Nothing but this timer's record has changed.
  predicate OnlyTimer(s: Store, after: Store, r: TimerRef, record: TimerRecord) {
    && after.timers == s.timers[r := record] && after.payloads == s.payloads && after.inbox == s.inbox
    && after.admissions == s.admissions
  }

  lemma ScheduleSays(s: Store, timer: TimerSchedule)
    ensures var r, after := TimerRef(timer.action.scope, timer.action.actionId), ScheduleTimer(s, timer);
      && (after.Some? <==> timer.action.kind == Timer && (r in s.timers ==> s.timers[r].schedule == timer))
      && (after.Some? && r in s.timers ==> after.value == s)
      && (after.Some? && r !in s.timers ==>
            && OnlyTimer(s, after.value, r, TimerRecord(timer, Waiting, None, 0))
            && after.value.tokens == s.tokens && after.value.acknowledgements == s.acknowledgements)
  {
  }

  lemma CancelSays(s: Store, timer: TimerSchedule)
    ensures var r, after := TimerRef(timer.action.scope, timer.action.actionId), CancelTimer(s, timer);
      && (after.Some? <==> timer.action.kind == Timer && r in s.timers && s.timers[r].schedule == timer)
      && (after.Some? ==>
            && OnlyTimer(s, after.value, r, TimerRecord(timer, Cancelled, s.timers[r].lease, s.timers[r].attempts))
            && after.value.tokens == s.tokens && after.value.acknowledgements == s.acknowledgements)
  {
  }

  // A lease is granted exactly on a waiting, due timer that no live lease holds, that
  // was leased fewer than sixty-four times, under a new token and an expiry to come.
  lemma GrantSays(s: Store, lease: TimerLease, now: LogicalTime)
    ensures var r, after := TimerRef(lease.timer.action.scope, lease.timer.action.actionId), GrantLease(s, lease, now);
      && (after.Some? <==>
            && r in s.timers && s.timers[r].phase == Waiting && s.timers[r].schedule == lease.timer
            && lease.timer.dueAt <= now <= lease.expiresAt && lease.token !in s.tokens && s.timers[r].attempts < 64
            && (s.timers[r].lease.Some? ==> s.timers[r].lease.value.expiresAt < now))
      && (after.Some? ==>
            && OnlyTimer(s, after.value, r, TimerRecord(lease.timer, Waiting, Some(lease), s.timers[r].attempts + 1))
            && after.value.tokens == s.tokens + {lease.token} && after.value.acknowledgements == s.acknowledgements)
  {
  }

  // Exactly the lease on record acknowledges, up to and at its expiry, unless the
  // timer was cancelled.
  lemma AcknowledgeSays(s: Store, lease: TimerLease, now: LogicalTime)
    ensures var r, after := TimerRef(lease.timer.action.scope, lease.timer.action.actionId), AcknowledgeTimer(s, lease, now);
      && (after.Some? <==>
            && lease.timer.action.kind == Timer && now <= lease.expiresAt
            && r in s.timers && s.timers[r].phase != Cancelled && s.timers[r].lease == Some(lease))
      && (after.Some? ==>
            && OnlyTimer(s, after.value, r, TimerRecord(s.timers[r].schedule, Acknowledged, Some(lease), s.timers[r].attempts))
            && after.value.tokens == s.tokens && after.value.acknowledgements == s.acknowledgements + [lease])
  {
  }

  // Content is stored exactly under its own digest, and never replaced by other content.
  lemma PutSays(s: Store, scope: ProcessScope, digest: ContentDigest, bytes: seq<byte>)
    ensures var r, after := PayloadRef(scope, digest), PutPayload(s, scope, digest, bytes);
      && (after.Some? <==> SHA256(bytes) == digest && (r in s.payloads ==> s.payloads[r] == bytes))
      && (after.Some? ==> after.value == s.(payloads := s.payloads[r := bytes]))
  {
  }

  // An input is admitted once; the same input again changes nothing, another under
  // its identity is refused.
  lemma AcceptSays(s: Store, input: ProcessInput)
    ensures var r, after := InputRef(input.tenantId, input.processId, input.inputId), AcceptInput(s, input);
      && (after.Some? <==> (r in s.inbox ==> s.inbox[r] == input))
      && (after.Some? && r in s.inbox ==> after.value == s)
      && (after.Some? && r !in s.inbox ==> after.value == s.(inbox := s.inbox[r := input], admissions := s.admissions + [input]))
  {
  }

  // So the leases of one timer never overlap: a new one begins after the old one has
  // expired, and from then on the old one does not acknowledge at any time.
  lemma LeasesDoNotOverlap(s: Store, earlier: TimerLease, lease: TimerLease, now: LogicalTime)
    requires GrantLease(s, lease, now).Some? && TimerRefOf(earlier.timer.action) == TimerRefOf(lease.timer.action)
    requires s.timers[TimerRefOf(lease.timer.action)].lease == Some(earlier) && earlier != lease
    ensures earlier.expiresAt < now <= lease.expiresAt
    ensures forall at: LogicalTime :: AcknowledgeTimer(GrantLease(s, lease, now).value, earlier, at).None?
  {
    GrantSays(s, lease, now);
  }
}
