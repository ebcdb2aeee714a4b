// Where every field of the canonical forms stands
// (crates/penelope-domain/src/implementation.rs).
module EncodingLayout {
  import opened Wrappers
  import opened Domain
  import opened Encoding

  // At this offset stand a two-byte big-endian length and a text of that length.
  predicate TextAt(b: seq<byte>, at: nat, text: Text) {
    && at + 2 + |text| <= |b|
    && b[at] as int * 0x100 + b[at + 1] as int == |text|
    && b[at + 2..at + 2 + |text|] == text
  }

  // At this offset stands a four-byte big-endian number.
  predicate NumberAt(b: seq<byte>, at: nat, n: u32) {
    && at + 4 <= |b|
    && b[at] as int * 0x100_0000 + b[at + 1] as int * 0x1_0000 + b[at + 2] as int * 0x100 + b[at + 3] as int == n
  }

  predicate DigestAt(b: seq<byte>, at: nat, digest: ContentDigest) {
    at + 32 <= |b| && b[at..at + 32] == digest
  }

  // The byte after a text.
  function Past(at: nat, text: Text): nat {
    at + 2 + |text|
  }

  // Tenant, process, definition and version, in this order, and then the digest.
  predicate ScopeAt(b: seq<byte>, scope: ProcessScope) {
    var process := Past(0, scope.tenantId.text);
    var definition := Past(process, scope.processId.text);
    var version := Past(definition, scope.definitionId.text);
    var digest := Past(version, scope.definitionVersion.text);
    && TextAt(b, 0, scope.tenantId.text) && TextAt(b, process, scope.processId.text)
    && TextAt(b, definition, scope.definitionId.text) && TextAt(b, version, scope.definitionVersion.text)
    && DigestAt(b, digest, scope.definitionDigest)
  }

  // The byte that stands for a kind of action.
  predicate KindByte(b: byte, kind: ProcessActionKind) {
    match kind
    case CanonicalCommand => b == 0
    case Timer => b == 1
    case ExternalEffect => b == 2
    case ManualReview => b == 3
  }

  // What is left of the bytes at an offset.
  predicate Rest(b: seq<byte>, at: nat, rest: seq<byte>) {
    at <= |b| && b[at..] == rest
  }

  lemma RestAfter(b: seq<byte>, at: nat, head: seq<byte>, rest: seq<byte>, next: nat)
    requires Rest(b, at, head + rest) && next == at + |head|
    ensures Rest(b, next, rest) && b[at..next] == head
  {
    assert b[at..][..|head|] == head && b[at..][|head|..] == rest;
  }

  lemma TextStep(b: seq<byte>, at: nat, text: Text, rest: seq<byte>, next: nat)
    requires Rest(b, at, IdentifierBytes(text) + rest) && next == Past(at, text)
    ensures TextAt(b, at, text) && Rest(b, next, rest)
  {
    var head := IdentifierBytes(text);
    RestAfter(b, at, head, rest, next);
    assert b[at] == b[at..next][0] && b[at + 1] == b[at..next][1];
    assert b[at + 2..next] == b[at..next][2..] == text;
  }

  lemma NumberStep(b: seq<byte>, at: nat, n: u32, rest: seq<byte>)
    requires Rest(b, at, U32Bytes(n) + rest)
    ensures NumberAt(b, at, n) && Rest(b, at + 4, rest)
  {
    RestAfter(b, at, U32Bytes(n), rest, at + 4);
    var four := b[at..at + 4];
    assert b[at] == four[0] && b[at + 1] == four[1] && b[at + 2] == four[2] && b[at + 3] == four[3];
  }

  lemma PairStep(b: seq<byte>, at: nat, first: Text, second: Text, rest: seq<byte>, next: nat)
    requires Rest(b, at, PairBytes(first, second) + rest) && next == Past(Past(at, first), second)
    ensures TextAt(b, at, first) && TextAt(b, Past(at, first), second) && Rest(b, next, rest)
  {
    Regroup(IdentifierBytes(first), IdentifierBytes(second), rest);
    TextStep(b, at, first, IdentifierBytes(second) + rest, Past(at, first));
    TextStep(b, Past(at, first), second, rest, next);
  }

  lemma Regroup(a: seq<byte>, b: seq<byte>, c: seq<byte>)
    ensures (a + b) + c == a + (b + c)
  {
  }

  lemma RegroupThree(a: seq<byte>, b: seq<byte>, c: seq<byte>, d: seq<byte>)
    ensures (a + (b + c)) + d == a + (b + (c + d))
  {
    Regroup(a, b + c, d);
    Regroup(b, c, d);
  }

  lemma RegroupFour(a: seq<byte>, b: seq<byte>, c: seq<byte>, d: seq<byte>, e: seq<byte>)
    ensures (a + (b + (c + d))) + e == a + (b + (c + (d + e)))
  {
    Regroup(a, b + (c + d), e);
    RegroupThree(b, c, d, e);
  }

  // A scope's bytes are its four texts and its digest, where they belong.
  lemma ScopeLayout(scope: ProcessScope, b: seq<byte>, after: seq<byte>)
    requires b == ScopeBytes(scope) + after
    ensures ScopeAt(b, scope) && Rest(b, |ScopeBytes(scope)|, after)
  {
    var owner := PairBytes(scope.tenantId.text, scope.processId.text);
    var rest := PairBytes(scope.definitionId.text, scope.definitionVersion.text) + (scope.definitionDigest + after);
    RegroupThree(owner, PairBytes(scope.definitionId.text, scope.definitionVersion.text), scope.definitionDigest, after);
    Whole(b, owner + rest);
    PairStep(b, 0, scope.tenantId.text, scope.processId.text, rest, |owner|);
    PinLayout(scope, b, |owner|, after);
  }

  lemma PinLayout(scope: ProcessScope, b: seq<byte>, at: nat, after: seq<byte>)
    requires Rest(b, at, PairBytes(scope.definitionId.text, scope.definitionVersion.text) + (scope.definitionDigest + after))
    ensures var version := Past(at, scope.definitionId.text);
      var digest := Past(version, scope.definitionVersion.text);
      && TextAt(b, at, scope.definitionId.text) && TextAt(b, version, scope.definitionVersion.text)
      && DigestAt(b, digest, scope.definitionDigest) && Rest(b, digest + 32, after)
  {
    var digest := Past(Past(at, scope.definitionId.text), scope.definitionVersion.text);
    PairStep(b, at, scope.definitionId.text, scope.definitionVersion.text, scope.definitionDigest + after, digest);
    RestAfter(b, digest, scope.definitionDigest, after, digest + 32);
  }

  lemma Whole(b: seq<byte>, parts: seq<byte>)
    requires b == parts
    ensures Rest(b, 0, parts)
  {
  }

  // Where the step of an effect key stands.
  function StepAt(scope: ProcessScope): nat {
    40 + |scope.tenantId.text| + |scope.processId.text| + |scope.definitionId.text| + |scope.definitionVersion.text|
  }

  // An effect key's bytes are the scope's, the step, the attempt, the kind's byte
  // and the payload digest.
  lemma EffectKeyLayout(key: EffectKey, b: seq<byte>, after: seq<byte>)
    requires b == EffectKeyBytes(key) + after
    ensures ScopeAt(b, key.scope) && EffectAt(b, StepAt(key.scope), key)
  {
    var scope, step, number := ScopeBytes(key.scope), IdentifierBytes(key.stepId.text), U32Bytes(key.attempt);
    var effect := EffectBytes(key.kind, key.payloadDigest);
    RegroupFour(scope, step, number, effect, after);
    ScopeLayout(key.scope, b, step + (number + (effect + after)));
    StepLayout(key, b, StepAt(key.scope), after);
  }

  // The step, the attempt, the kind's byte and the payload digest, from here on.
  predicate EffectAt(b: seq<byte>, at: nat, key: EffectKey) {
    var attempt := Past(at, key.stepId.text);
    && TextAt(b, at, key.stepId.text) && NumberAt(b, attempt, key.attempt)
    && attempt + 37 <= |b| && KindByte(b[attempt + 4], key.kind) && DigestAt(b, attempt + 5, key.payloadDigest)
  }

  lemma StepLayout(key: EffectKey, b: seq<byte>, at: nat, after: seq<byte>)
    requires Rest(b, at, IdentifierBytes(key.stepId.text) + (U32Bytes(key.attempt) + (EffectBytes(key.kind, key.payloadDigest) + after)))
    ensures EffectAt(b, at, key)
  {
    var attempt, effect := Past(at, key.stepId.text), EffectBytes(key.kind, key.payloadDigest);
    TextStep(b, at, key.stepId.text, U32Bytes(key.attempt) + (effect + after), attempt);
    NumberStep(b, attempt, key.attempt, effect + after);
    RestAfter(b, attempt + 4, effect, after, attempt + 37);
    EffectLayout(b, attempt + 4, key.kind, key.payloadDigest);
  }

  lemma EffectLayout(b: seq<byte>, at: nat, kind: ProcessActionKind, payload: ContentDigest)
    requires at + 33 <= |b| && b[at..at + 33] == EffectBytes(kind, payload)
    ensures KindByte(b[at], kind) && DigestAt(b, at + 1, payload)
  {
    assert b[at] == b[at..at + 33][0] && b[at + 1..at + 33] == b[at..at + 33][1..];
  }

  // Where the k-th step of a definition stands.
  function StepOffset(from: nat, steps: seq<StepId>, k: nat): nat
    requires k <= |steps|
  {
    if k == 0 then from else Past(StepOffset(from, steps, k - 1), steps[k - 1].text)
  }

  lemma {:induction false} RestOfSteps(b: seq<byte>, steps: seq<StepId>, from: nat, k: nat)
    requires Rest(b, from, StepBytes(steps)) && k <= |steps|
    ensures Rest(b, StepOffset(from, steps, k), StepBytes(steps[k..]))
  {
    if k > 0 {
      RestOfSteps(b, steps, from, k - 1);
      StepStands(b, StepOffset(from, steps, k - 1), steps, k - 1, StepOffset(from, steps, k));
    } else {
      assert steps[0..] == steps;
    }
  }

  lemma StepStands(b: seq<byte>, at: nat, steps: seq<StepId>, k: nat, next: nat)
    requires k < |steps| && Rest(b, at, StepBytes(steps[k..])) && next == Past(at, steps[k].text)
    ensures TextAt(b, at, steps[k].text) && Rest(b, next, StepBytes(steps[k + 1..]))
  {
    assert steps[k..][1..] == steps[k + 1..];
    TextStep(b, at, steps[k].text, StepBytes(steps[k + 1..]), next);
  }

  // The count and then every step, from here on.
  predicate StepsAt(b: seq<byte>, at: nat, steps: seq<StepId>) {
    |steps| <= U32_MAX && NumberAt(b, at, |steps|) && TextsAt(b, at + 4, steps)
  }

  predicate TextsAt(b: seq<byte>, from: nat, steps: seq<StepId>) {
    forall k :: 0 <= k < |steps| ==> TextAt(b, StepOffset(from, steps, k), steps[k].text)
  }

  // A definition's bytes are its identity, its version, the number of its steps and
  // every step in order.
  lemma DefinitionLayout(d: ProcessDefinition, b: seq<byte>)
    requires |d.stepIds| <= U32_MAX && b == DefinitionBytes(d)
    ensures TextAt(b, 0, d.definitionId.text) && TextAt(b, Past(0, d.definitionId.text), d.definitionVersion.text)
    ensures StepsAt(b, Past(Past(0, d.definitionId.text), d.definitionVersion.text), d.stepIds)
  {
    var rest := U32Bytes(|d.stepIds|) + StepBytes(d.stepIds);
    var count := Past(Past(0, d.definitionId.text), d.definitionVersion.text);
    Whole(b, PairBytes(d.definitionId.text, d.definitionVersion.text) + rest);
    PairStep(b, 0, d.definitionId.text, d.definitionVersion.text, rest, count);
    CountLayout(b, count, d.stepIds, |d.stepIds|);
  }

  lemma CountLayout(b: seq<byte>, at: nat, steps: seq<StepId>, n: u32)
    requires n == |steps| && Rest(b, at, U32Bytes(n) + StepBytes(steps))
    ensures StepsAt(b, at, steps)
  {
    NumberStep(b, at, n, StepBytes(steps));
    AllStepsStand(b, steps, at + 4);
  }

  lemma AllStepsStand(b: seq<byte>, steps: seq<StepId>, from: nat)
    requires Rest(b, from, StepBytes(steps))
    ensures TextsAt(b, from, steps)
  {
    forall k | 0 <= k < |steps| ensures TextAt(b, StepOffset(from, steps, k), steps[k].text) {
      RestOfSteps(b, steps, from, k);
      StepStands(b, StepOffset(from, steps, k), steps, k, StepOffset(from, steps, k + 1));
    }
  }
}
