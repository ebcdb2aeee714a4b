// Leases returned by a claim, and the bounded duplicate check over a batch
// (crates/penelope-executor/src/lease_batch_index.rs and services.rs).
module LeaseBatches {
  import opened Wrappers
  import opened Domain
  import opened TextOrder

  datatype PortError = Unavailable | Conflict | Unauthorized | QuotaExceeded | TimedOut | PortCancelled | Ambiguous | Invariant

  // ------------------------------------------------------------------ leases

  const MAX_CLAIM_BATCH: nat := 128

  // A fenced lease on one due timer.
  datatype TimerLease = TimerLease(timer: TimerSchedule, owner: PrincipalId, token: NonZeroU64, expiresAt: LogicalTime)

  datatype TimerClaimRequest = TimerClaimRequest(scope: ProcessScope, owner: PrincipalId, now: LogicalTime, limit: NonZeroU16)

  // A report counter's `saturating_add(1)`.
  function Saturated(n: u16): u16 {
    if n == U16_MAX then n else n + 1
  }

  // What a lease may be refused for, in the order the source checks.
  function TimerLeaseFault(lease: TimerLease, request: TimerClaimRequest): Option<PortError> {
    if request.limit > MAX_CLAIM_BATCH then Some(QuotaExceeded)
    else if lease.timer.action.kind != Timer then Some(Invariant)
    else if lease.timer.action.scope != request.scope || lease.owner != request.owner || lease.timer.dueAt > request.now then Some(Invariant)
    else if request.now > lease.expiresAt then Some(TimedOut)
    else None
  }

  // What each refusal of a timer lease means.
  lemma TimerLeaseFaultSays(lease: TimerLease, request: TimerClaimRequest)
    ensures TimerLeaseFault(lease, request) == Some(QuotaExceeded) <==> request.limit > 128
    ensures TimerLeaseFault(lease, request) == Some(Invariant) <==>
      && request.limit <= 128
      && (lease.timer.action.kind != Timer || lease.timer.action.scope != request.scope || lease.owner != request.owner
          || lease.timer.dueAt > request.now)
    ensures TimerLeaseFault(lease, request) == Some(TimedOut) <==>
      && request.limit <= 128 && lease.timer.action.kind == Timer && lease.timer.action.scope == request.scope
      && lease.owner == request.owner && lease.timer.dueAt <= request.now && lease.expiresAt < request.now
    ensures TimerLeaseFault(lease, request).None? <==>
      && request.limit <= 128 && lease.timer.action.kind == Timer && lease.timer.action.scope == request.scope
      && lease.owner == request.owner && lease.timer.dueAt <= request.now <= lease.expiresAt
  {
  }

  // --------------------------------------------------- duplicates, as one condition

  const EMPTY_TEXT: Text := []

  // What a lease contributes to duplicate detection. Tokens are opaque fences
  // compared for equality only.
  datatype Fence<Token> = Fence(action: Text, token: Token)

  datatype Sameness = SameAction | SameToken | SameEither

  predicate Clash<Token(==)>(how: Sameness, a: Fence<Token>, b: Fence<Token>) {
    match how
    case SameAction => a.action == b.action
    case SameToken => a.token == b.token
    case SameEither => a.action == b.action || a.token == b.token
  }

  // Some later fence clashes with position `i`.
  predicate HasLater<Token(==)>(how: Sameness, fences: seq<Fence<Token>>, i: nat)
    requires i < |fences|
  {
    exists j :: i < j < |fences| && Clash(how, fences[i], fences[j])
  }

  // The least position that clashes with a later one, if any does.
  ghost predicate IsFirst<Token>(how: Sameness, fences: seq<Fence<Token>>, found: Option<nat>) {
    match found
    case None => forall i: nat :: i < |fences| ==> !HasLater(how, fences, i)
    case Some(k) => k < |fences| && HasLater(how, fences, k) && forall i: nat :: i < k ==> !HasLater(how, fences, i)
  }

  function Earlier(a: Option<nat>, b: Option<nat>): Option<nat> {
    if a.None? then b else if b.None? then a else if a.value <= b.value then a else b
  }

  // ------------------------------------------------------------- the sorted search

  function NameOf(entry: (Text, nat)): seq<byte> {
    entry.0
  }

  // `names` holds every action with its position, once each.
  ghost predicate Lists<Token>(names: seq<(Text, nat)>, fences: seq<Fence<Token>>) {
    && (forall x, y :: 0 <= x < y < |names| ==> names[x].1 != names[y].1)
    && (forall x :: 0 <= x < |names| ==> names[x].1 < |fences| && names[x].0 == fences[names[x].1].action)
    && (forall i :: 0 <= i < |fences| ==> (fences[i].action, i) in names)
  }

  ghost function Enumerated<Token>(fences: seq<Fence<Token>>): seq<(Text, nat)> {
    seq(|fences|, i requires 0 <= i < |fences| => (fences[i].action, i))
  }

  lemma SortedLists<Token>(names: seq<(Text, nat)>, fences: seq<Fence<Token>>)
    requires multiset(names) == multiset(Enumerated(fences))
    ensures Lists(names, fences)
  {
    var all := Enumerated(fences);
    forall x | 0 <= x < |names| ensures names[x].1 < |fences| && names[x].0 == fences[names[x].1].action {
      assert names[x] in multiset(all);
    }
    forall i | 0 <= i < |fences| ensures (fences[i].action, i) in names {
      assert all[i] in multiset(names);
    }
    forall x, y | 0 <= x < y < |names| ensures names[x].1 != names[y].1 {
      if names[x].1 == names[y].1 {
        assert names[x] == names[y];
        assert names == names[..x] + [names[x]] + names[x + 1..y] + [names[y]] + names[y + 1..];
        assert multiset(names)[names[x]] >= 2;
        EnumeratedOnce(fences, names[x].1);
      }
    }
  }

  lemma EnumeratedOnce<Token>(fences: seq<Fence<Token>>, i: nat)
    requires i < |fences|
    ensures multiset(Enumerated(fences))[(fences[i].action, i)] == 1
  {
    var all := Enumerated(fences);
    assert all == all[..i] + [all[i]] + all[i + 1..];
    assert all[i] !in all[..i] && all[i] !in all[i + 1..];
  }

  // Entries k - 1 and k hold one action, and position `i` is one of the two.
  predicate PairAt(names: seq<(Text, nat)>, k: nat, i: nat) {
    && 1 <= k < |names| && names[k - 1].0 == names[k].0
    && (i == names[k - 1].1 || i == names[k].1)
  }

  // The smallest position found in an equal adjacent pair among the first n.
  ghost predicate LeastPaired(found: Option<nat>, names: seq<(Text, nat)>, n: nat) {
    && (forall k: nat, i: nat :: k < n && PairAt(names, k, i) ==> found.Some? && found.value <= i)
    && (found.Some? ==> exists k: nat :: k < n && PairAt(names, k, found.value))
  }

  function WithPair(found: Option<nat>, names: seq<(Text, nat)>, k: nat): Option<nat>
    requires 1 <= k < |names|
  {
    if names[k - 1].0 == names[k].0 then Earlier(found, Earlier(Some(names[k - 1].1), Some(names[k].1))) else found
  }

  lemma LeastPairedGrows(found: Option<nat>, names: seq<(Text, nat)>, n: nat)
    requires 1 <= n < |names| && LeastPaired(found, names, n)
    ensures LeastPaired(WithPair(found, names, n), names, n + 1)
  {
    var next := WithPair(found, names, n);
    if next.Some? && next != found {
      assert PairAt(names, n, next.value);
    }
  }

  lemma PairIsRepeat<Token>(names: seq<(Text, nat)>, fences: seq<Fence<Token>>, k: nat, i: nat) returns (j: nat)
    requires Lists(names, fences) && PairAt(names, k, i)
    ensures i < |fences| && j < |fences| && j != i && fences[i].action == fences[j].action
  {
    j := if i == names[k].1 then names[k - 1].1 else names[k].1;
  }

  lemma RepeatIsPaired<Token>(names: seq<(Text, nat)>, fences: seq<Fence<Token>>, i: nat, j: nat) returns (k: nat)
    requires Lists(names, fences) && SortedBy(names, NameOf)
    requires i < |fences| && j < |fences| && i != j && fences[i].action == fences[j].action
    ensures PairAt(names, k, i)
  {
    var x :| 0 <= x < |names| && names[x] == (fences[i].action, i);
    var y :| 0 <= y < |names| && names[y] == (fences[j].action, j);
    if x < y {
      EqualKeysAreAdjacent(names, NameOf, x, y);
      k := x + 1;
    } else {
      EqualKeysAreAdjacent(names, NameOf, y, x);
      k := x;
    }
  }

  // The least paired position is the least one whose action occurs later.
  lemma LeastPairedIsFirst<Token>(found: Option<nat>, names: seq<(Text, nat)>, fences: seq<Fence<Token>>)
    requires Lists(names, fences) && SortedBy(names, NameOf)
    requires LeastPaired(found, names, |names|)
    ensures IsFirst(SameAction, fences, found)
  {
    forall i: nat | i < |fences| && HasLater(SameAction, fences, i) ensures found.Some? && found.value <= i {
      var j :| i < j < |fences| && Clash(SameAction, fences[i], fences[j]);
      var k := RepeatIsPaired(names, fences, i, j);
    }
    if found.Some? {
      var k: nat :| k < |names| && PairAt(names, k, found.value);
      var j := PairIsRepeat(names, fences, k, found.value);
      var l := RepeatIsPaired(names, fences, j, found.value);
      assert found.value < j && Clash(SameAction, fences[found.value], fences[j]);
    }
  }

  // Combining the least action repeat with the least token repeat.
  lemma EarlierIsFirst<Token>(a: Option<nat>, t: Option<nat>, fences: seq<Fence<Token>>)
    requires IsFirst(SameAction, fences, a) && IsFirst(SameToken, fences, t)
    ensures IsFirst(SameEither, fences, Earlier(a, t))
  {
    forall i: nat | i < |fences|
      ensures HasLater(SameEither, fences, i) <==> HasLater(SameAction, fences, i) || HasLater(SameToken, fences, i)
    {
      if HasLater(SameEither, fences, i) {
        var j :| i < j < |fences| && Clash(SameEither, fences[i], fences[j]);
        assert Clash(SameAction, fences[i], fences[j]) || Clash(SameToken, fences[i], fences[j]);
      } else {
        forall j | i < j < |fences| ensures !Clash(SameAction, fences[i], fences[j]) && !Clash(SameToken, fences[i], fences[j]) {
          assert !Clash(SameEither, fences[i], fences[j]);
        }
      }
    }
  }

  method FirstActionDuplicate<Token>(fences: seq<Fence<Token>>) returns (found: Option<nat>)
    requires 1 <= |fences| <= 128
    ensures IsFirst(SameAction, fences, found)
  {
    var n := |fences|;
    var blank: (Text, nat) := (EMPTY_TEXT, 0);
    var names := new (Text, nat)[128](_ => blank);
    for i := 0 to n
      invariant forall k :: 0 <= k < i ==> names[k] == (fences[k].action, k)
    {
      names[i] := (fences[i].action, i);
    }
    assert names[..n] == Enumerated(fences);
    SortUnstableBy(names, n, NameOf);
    ghost var sorted := names[..n];
    SortedLists(sorted, fences);
    found := None;
    for k := 1 to n
      invariant names[..n] == sorted
      invariant LeastPaired(found, sorted, k)
    {
      LeastPairedGrows(found, sorted, k);
      if names[k - 1].0 == names[k].0 {
        found := Earlier(found, Earlier(Some(names[k - 1].1), Some(names[k].1)));
      }
    }
    LeastPairedIsFirst(found, sorted, fences);
  }

  method FirstTokenDuplicate<Token(==)>(fences: seq<Fence<Token>>) returns (found: Option<nat>)
    requires 1 <= |fences| <= 128
    ensures IsFirst(SameToken, fences, found)
  {
    var n := |fences|;
    var tokens := new Token[128](_ => fences[0].token);
    for i := 0 to n
      invariant forall k :: 0 <= k < i ==> tokens[k] == fences[k].token
    {
      tokens[i] := fences[i].token;
    }
    for i := 0 to n
      invariant forall k: nat :: k < i ==> !HasLater(SameToken, fences, k)
    {
      var j := i + 1;
      while j < n && tokens[j] != tokens[i]
        invariant i < j <= n
        invariant forall m :: i < m < j ==> !Clash(SameToken, fences[i], fences[m])
      {
        j := j + 1;
      }
      if j < n {
        assert Clash(SameToken, fences[i], fences[j]);
        return Some(i);
      }
    }
    found := None;
  }

  // The earliest lease that clashes with a later one. Small and oversized
  // batches are scanned pairwise, the rest through the sorted index; both agree.
  method FirstDuplicateIndex<Token(==)>(fences: seq<Fence<Token>>) returns (found: Option<nat>)
    ensures IsFirst(SameEither, fences, found)
  {
    if |fences| <= 16 || |fences| > 128 {
      for i := 0 to |fences|
        invariant forall k: nat :: k < i ==> !HasLater(SameEither, fences, k)
      {
        if HasLater(SameEither, fences, i) {
          return Some(i);
        }
      }
      return None;
    }
    var byAction := FirstActionDuplicate(fences);
    var byToken := FirstTokenDuplicate(fences);
    EarlierIsFirst(byAction, byToken, fences);
    found := Earlier(byAction, byToken);
  }

  // -------------------------------------------------------------- batch validation

  // The quadratic reading: at each position a lease's own fault comes before a
  // clash that starts there.
  ghost function BatchFault<Token>(fences: seq<Fence<Token>>, own: seq<Option<PortError>>, from: nat): Option<PortError>
    requires |own| == |fences| && from <= |fences|
    decreases |fences| - from
  {
    if from == |fences| then None
    else if own[from].Some? then own[from]
    else if HasLater(SameEither, fences, from) then Some(Invariant)
    else BatchFault(fences, own, from + 1)
  }

  // Whatever the batch size, the indexed validation reports what the quadratic
  // loop reports.
  method ValidateBatch<Token(==)>(fences: seq<Fence<Token>>, own: seq<Option<PortError>>) returns (fault: Option<PortError>)
    requires |own| == |fences|
    ensures fault == BatchFault(fences, own, 0)
  {
    if |fences| <= 16 {
      for i := 0 to |fences|
        invariant BatchFault(fences, own, 0) == BatchFault(fences, own, i)
      {
        if own[i].Some? {
          return own[i];
        }
        if HasLater(SameEither, fences, i) {
          return Some(Invariant);
        }
      }
    } else {
      var duplicate := FirstDuplicateIndex(fences);
      for i := 0 to |fences|
        invariant BatchFault(fences, own, 0) == BatchFault(fences, own, i)
        invariant duplicate.Some? ==> i <= duplicate.value
      {
        if own[i].Some? {
          return own[i];
        }
        if duplicate == Some(i) {
          return Some(Invariant);
        }
      }
    }
    return None;
  }

  // A batch is accepted exactly when every lease is valid and all actions and
  // all tokens are pairwise distinct.
  lemma {:induction false} BatchAcceptedIff<Token>(fences: seq<Fence<Token>>, own: seq<Option<PortError>>, from: nat)
    requires |own| == |fences| && from <= |fences|
    ensures BatchFault(fences, own, from).None? <==>
              && (forall i :: from <= i < |fences| ==> own[i].None?)
              && (forall i, j :: from <= i < j < |fences| ==> !Clash(SameEither, fences[i], fences[j]))
    decreases |fences| - from
  {
    if from < |fences| {
      BatchAcceptedIff(fences, own, from + 1);
    }
  }
}
