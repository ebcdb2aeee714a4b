// Canonical length-prefixed byte forms and their decoders
// (crates/penelope-domain/src/implementation.rs).
module Encoding {
  import opened Wrappers
  import opened Domain
  import opened Identifiers

  // -------------------------------------------------------------------- encoders

  function U16Bytes(n: u16): (b: seq<byte>)
    ensures |b| == 2
  {
    [(n / 0x100) as byte, (n % 0x100) as byte]
  }

  function U32Bytes(n: u32): (b: seq<byte>)
    ensures |b| == 4
  {
    U16Bytes(n / 0x1_0000) + U16Bytes(n % 0x1_0000)
  }

  // The source clamps lengths that do not fit sixteen bits; identifiers never do.
  function IdentifierBytes(value: Text): (b: seq<byte>)
    ensures |b| == 2 + |value|
  {
    U16Bytes(|value|) + value
  }

  function PairBytes(first: Text, second: Text): (b: seq<byte>)
    ensures |b| == 4 + |first| + |second|
  {
    IdentifierBytes(first) + IdentifierBytes(second)
  }

  function ScopeBytes(scope: ProcessScope): (b: seq<byte>)
    ensures |b| == 40 + |scope.tenantId.text| + |scope.processId.text| + |scope.definitionId.text| + |scope.definitionVersion.text|
  {
    PairBytes(scope.tenantId.text, scope.processId.text)
    + (PairBytes(scope.definitionId.text, scope.definitionVersion.text)
    + scope.definitionDigest)
  }

  function KindCode(kind: ProcessActionKind): byte {
    match kind
    case CanonicalCommand => 0
    case Timer => 1
    case ExternalEffect => 2
    case ManualReview => 3
  }

  function EffectBytes(kind: ProcessActionKind, payload: ContentDigest): (b: seq<byte>)
    ensures |b| == 33
  {
    [KindCode(kind)] + payload
  }

  // The scope's fields and then the step, attempt, kind and payload.
  function EffectKeyBytes(key: EffectKey): (b: seq<byte>)
    ensures |b| == 79 + |key.scope.tenantId.text| + |key.scope.processId.text| + |key.scope.definitionId.text|
                      + |key.scope.definitionVersion.text| + |key.stepId.text|
  {
    ScopeBytes(key.scope)
    + (IdentifierBytes(key.stepId.text)
    + (U32Bytes(key.attempt)
    + EffectBytes(key.kind, key.payloadDigest)))
  }

  // Definition identity and steps; the stored digest is not part of its own input.
  datatype ProcessDefinition = ProcessDefinition(
    definitionId: DefinitionId,
    definitionVersion: DefinitionVersion,
    definitionDigest: ContentDigest,
    stepIds: seq<StepId>)

  function StepBytes(steps: seq<StepId>): seq<byte> {
    if steps == [] then [] else IdentifierBytes(steps[0].text) + StepBytes(steps[1..])
  }

  function DefinitionBytes(d: ProcessDefinition): seq<byte>
    requires |d.stepIds| <= U32_MAX
  {
    PairBytes(d.definitionId.text, d.definitionVersion.text)
    + (U32Bytes(|d.stepIds|)
    + StepBytes(d.stepIds))
  }

  method EncodeIdentifier(bytes: seq<byte>, value: Text) returns (extended: seq<byte>)
    ensures extended == bytes + IdentifierBytes(value)
  {
    var length: u16 := |value|;
    extended := bytes + U16Bytes(length);
    extended := extended + value;
  }

  // The scope encoder as it fills its buffer.
  method ScopeCanonicalBytes(scope: ProcessScope) returns (bytes: seq<byte>)
    ensures bytes == ScopeBytes(scope)
  {
    bytes := EncodeIdentifier([], scope.tenantId.text);
    bytes := EncodeIdentifier(bytes, scope.processId.text);
    ghost var owner := bytes;
    assert owner == PairBytes(scope.tenantId.text, scope.processId.text);
    bytes := EncodeIdentifier(bytes, scope.definitionId.text);
    bytes := EncodeIdentifier(bytes, scope.definitionVersion.text);
    assert bytes == owner + PairBytes(scope.definitionId.text, scope.definitionVersion.text);
    bytes := bytes + scope.definitionDigest;
  }

  // The effect-key encoder as it fills its buffer: the scope's own bytes, then
  // the coordinates of the effect.
  method EffectKeyCanonicalBytes(key: EffectKey) returns (bytes: seq<byte>)
    ensures bytes == EffectKeyBytes(key)
  {
    bytes := ScopeCanonicalBytes(key.scope);
    bytes := EncodeIdentifier(bytes, key.stepId.text);
    bytes := bytes + U32Bytes(key.attempt);
    bytes := bytes + [KindCode(key.kind)];
    bytes := bytes + key.payloadDigest;
    assert bytes == ScopeBytes(key.scope)
      + (IdentifierBytes(key.stepId.text) + (U32Bytes(key.attempt) + ([KindCode(key.kind)] + key.payloadDigest)));
  }

  method DefinitionCanonicalBytes(d: ProcessDefinition) returns (bytes: seq<byte>)
    requires |d.stepIds| <= U32_MAX
    ensures bytes == DefinitionBytes(d)
  {
    bytes := EncodeIdentifier([], d.definitionId.text);
    bytes := EncodeIdentifier(bytes, d.definitionVersion.text);
    bytes := bytes + U32Bytes(|d.stepIds|);
    ghost var head := bytes;
    assert head == PairBytes(d.definitionId.text, d.definitionVersion.text) + U32Bytes(|d.stepIds|);
    for i := 0 to |d.stepIds|
      invariant bytes + StepBytes(d.stepIds[i..]) == head + StepBytes(d.stepIds)
    {
      assert d.stepIds[i..][1..] == d.stepIds[i + 1..];
      ghost var before := bytes;
      bytes := EncodeIdentifier(bytes, d.stepIds[i].text);
      assert bytes + StepBytes(d.stepIds[i + 1..]) == before + StepBytes(d.stepIds[i..]);
    }
    assert d.stepIds[|d.stepIds|..] == [];
    assert bytes + [] == bytes;
    assert head + StepBytes(d.stepIds) == DefinitionBytes(d);
  }

  // -------------------------------------------------------------------- decoders

  // A decoded value and the bytes after it.
  datatype Decoded<+T> = Decoded(value: T, rest: seq<byte>)

  function DecodeU16(b: seq<byte>): Option<Decoded<u16>> {
    if |b| < 2 then None else Some(Decoded(b[0] as int * 0x100 + b[1] as int, b[2..]))
  }

  function DecodeU32(b: seq<byte>): Option<Decoded<u32>> {
    if |b| < 4 then None
    else
      var high, low := DecodeU16(b).value, DecodeU16(b[2..]).value;
      Some(Decoded(high.value * 0x1_0000 + low.value, b[4..]))
  }

  function DecodeText(b: seq<byte>): Option<Decoded<Text>> {
    var length := DecodeU16(b);
    if length.None? || length.value.value > MAX_IDENTIFIER_LENGTH || |length.value.rest| < length.value.value then None
    else Some(Decoded(length.value.rest[..length.value.value], length.value.rest[length.value.value..]))
  }

  function DecodeDigest(b: seq<byte>): Option<Decoded<ContentDigest>> {
    if |b| < DIGEST_LENGTH then None else Some(Decoded(b[..DIGEST_LENGTH], b[DIGEST_LENGTH..]))
  }

  function DecodeKind(b: seq<byte>): Option<Decoded<ProcessActionKind>> {
    if b == [] || b[0] > 3 then None
    else Some(Decoded(if b[0] == 0 then CanonicalCommand else if b[0] == 1 then Timer
                      else if b[0] == 2 then ExternalEffect else ManualReview, b[1..]))
  }

  function DecodePair(b: seq<byte>): Option<Decoded<(Text, Text)>> {
    var first := DecodeText(b);
    if first.None? then None
    else
      var second := DecodeText(first.value.rest);
      if second.None? then None
      else Some(Decoded((first.value.value, second.value.value), second.value.rest))
  }

  function DecodeScope(b: seq<byte>): Option<Decoded<ProcessScope>> {
    var owner := DecodePair(b);
    if owner.None? then None
    else
      var pin := DecodePair(owner.value.rest);
      if pin.None? then None
      else
        var digest := DecodeDigest(pin.value.rest);
        if digest.None? then None
        else
          Some(Decoded(ProcessScope(TenantId(owner.value.value.0), ProcessId(owner.value.value.1),
                                    DefinitionId(pin.value.value.0), DefinitionVersion(pin.value.value.1),
                                    digest.value.value), digest.value.rest))
  }

  function DecodeEffect(b: seq<byte>): Option<Decoded<(ProcessActionKind, ContentDigest)>> {
    var kind := DecodeKind(b);
    if kind.None? then None
    else
      var payload := DecodeDigest(kind.value.rest);
      if payload.None? then None else Some(Decoded((kind.value.value, payload.value.value), payload.value.rest))
  }

  function DecodeEffectKey(b: seq<byte>): Option<Decoded<EffectKey>> {
    var scope := DecodeScope(b);
    if scope.None? then None
    else
      var step := DecodeText(scope.value.rest);
      if step.None? then None
      else
        var attempt := DecodeU32(step.value.rest);
        if attempt.None? then None
        else
          var effect := DecodeEffect(attempt.value.rest);
          if effect.None? then None
          else
            Some(Decoded(EffectKey(scope.value.value, StepId(step.value.value), attempt.value.value,
                                   effect.value.value.0, effect.value.value.1), effect.value.rest))
  }

  function DecodeSteps(count: nat, b: seq<byte>): Option<Decoded<seq<StepId>>> {
    if count == 0 then Some(Decoded([], b))
    else
      var first := DecodeText(b);
      if first.None? then None
      else
        var more := DecodeSteps(count - 1, first.value.rest);
        if more.None? then None
        else Some(Decoded([StepId(first.value.value)] + more.value.value, more.value.rest))
  }

  // Identity, version and steps read back from definition bytes.
  function DecodeDefinition(b: seq<byte>): Option<Decoded<(DefinitionId, DefinitionVersion, seq<StepId>)>> {
    var pin := DecodePair(b);
    if pin.None? then None
    else
      var count := DecodeU32(pin.value.rest);
      if count.None? then None
      else
        var steps := DecodeSteps(count.value.value, count.value.rest);
        if steps.None? then None
        else Some(Decoded((DefinitionId(pin.value.value.0), DefinitionVersion(pin.value.value.1), steps.value.value), steps.value.rest))
  }

  // ------------------------------------------------------------------ round trips

  lemma U16RoundTrip(n: u16, rest: seq<byte>)
    ensures DecodeU16(U16Bytes(n) + rest) == Some(Decoded(n, rest))
  {
    assert (U16Bytes(n) + rest)[2..] == rest;
  }

  lemma U32RoundTrip(n: u32, rest: seq<byte>)
    ensures DecodeU32(U32Bytes(n) + rest) == Some(Decoded(n, rest))
  {
    var b := U32Bytes(n) + rest;
    assert b == U16Bytes(n / 0x1_0000) + (U16Bytes(n % 0x1_0000) + rest);
    U16RoundTrip(n / 0x1_0000, U16Bytes(n % 0x1_0000) + rest);
    assert b[2..] == U16Bytes(n % 0x1_0000) + rest;
    U16RoundTrip(n % 0x1_0000, rest);
    assert b[4..] == rest;
  }

  lemma TextRoundTrip(value: Text, rest: seq<byte>)
    ensures DecodeText(IdentifierBytes(value) + rest) == Some(Decoded(value, rest))
  {
    U16RoundTrip(|value|, value + rest);
    assert IdentifierBytes(value) + rest == U16Bytes(|value|) + (value + rest);
    assert (value + rest)[..|value|] == value && (value + rest)[|value|..] == rest;
  }

  lemma DigestRoundTrip(digest: ContentDigest, rest: seq<byte>)
    ensures DecodeDigest(digest + rest) == Some(Decoded(digest, rest))
  {
    assert (digest + rest)[..DIGEST_LENGTH] == digest && (digest + rest)[DIGEST_LENGTH..] == rest;
  }

  lemma PairRoundTrip(first: Text, second: Text, rest: seq<byte>)
    ensures DecodePair(PairBytes(first, second) + rest) == Some(Decoded((first, second), rest))
  {
    assert PairBytes(first, second) + rest == IdentifierBytes(first) + (IdentifierBytes(second) + rest);
    TextRoundTrip(first, IdentifierBytes(second) + rest);
    TextRoundTrip(second, rest);
  }

  lemma Reassociate(a: seq<byte>, b: seq<byte>, c: seq<byte>, d: seq<byte>)
    ensures (a + (b + c)) + d == a + (b + (c + d))
  {
  }

  lemma ScopeFrom(b: seq<byte>, scope: ProcessScope, afterOwner: seq<byte>, afterPin: seq<byte>, rest: seq<byte>)
    requires DecodePair(b) == Some(Decoded((scope.tenantId.text, scope.processId.text), afterOwner))
    requires DecodePair(afterOwner) == Some(Decoded((scope.definitionId.text, scope.definitionVersion.text), afterPin))
    requires DecodeDigest(afterPin) == Some(Decoded(scope.definitionDigest, rest))
    ensures DecodeScope(b) == Some(Decoded(scope, rest))
  {
  }

  // Scope bytes are self-delimiting: followed by anything, they decode to the
  // scope and leave what followed.
  lemma ScopeRoundTrip(scope: ProcessScope, rest: seq<byte>)
    ensures DecodeScope(ScopeBytes(scope) + rest) == Some(Decoded(scope, rest))
  {
    var owner := PairBytes(scope.tenantId.text, scope.processId.text);
    var pin := PairBytes(scope.definitionId.text, scope.definitionVersion.text);
    var b := scope.definitionDigest + rest;
    var a := pin + b;
    Reassociate(owner, pin, scope.definitionDigest, rest);
    PairRoundTrip(scope.tenantId.text, scope.processId.text, a);
    PairRoundTrip(scope.definitionId.text, scope.definitionVersion.text, b);
    DigestRoundTrip(scope.definitionDigest, rest);
    ScopeFrom(owner + a, scope, a, b, rest);
  }

  lemma EffectRoundTrip(kind: ProcessActionKind, payload: ContentDigest, rest: seq<byte>)
    ensures DecodeEffect(EffectBytes(kind, payload) + rest) == Some(Decoded((kind, payload), rest))
  {
    assert (EffectBytes(kind, payload) + rest)[1..] == payload + rest;
    DigestRoundTrip(payload, rest);
  }

  lemma EffectKeyFrom(b: seq<byte>, key: EffectKey, afterScope: seq<byte>, afterStep: seq<byte>, afterAttempt: seq<byte>, rest: seq<byte>)
    requires DecodeScope(b) == Some(Decoded(key.scope, afterScope))
    requires DecodeText(afterScope) == Some(Decoded(key.stepId.text, afterStep))
    requires DecodeU32(afterStep) == Some(Decoded(key.attempt, afterAttempt))
    requires DecodeEffect(afterAttempt) == Some(Decoded((key.kind, key.payloadDigest), rest))
    ensures DecodeEffectKey(b) == Some(Decoded(key, rest))
  {
  }

  lemma ReassociateKey(scope: seq<byte>, step: seq<byte>, attempt: seq<byte>, effect: seq<byte>, rest: seq<byte>)
    ensures (scope + (step + (attempt + effect))) + rest == scope + (step + (attempt + (effect + rest)))
  {
    Reassociate(step, attempt, effect, rest);
    var tail := step + (attempt + effect);
    assert (scope + tail) + rest == scope + (tail + rest);
  }

  // Effect-key bytes are self-delimiting too, so an action identity appended to
  // them, as for timers, leaves both readable.
  lemma EffectKeyRoundTrip(key: EffectKey, rest: seq<byte>)
    ensures DecodeEffectKey(EffectKeyBytes(key) + rest) == Some(Decoded(key, rest))
  {
    var scope, step := ScopeBytes(key.scope), IdentifierBytes(key.stepId.text);
    var attempt, effect := U32Bytes(key.attempt), EffectBytes(key.kind, key.payloadDigest);
    var c := effect + rest;
    var b := attempt + c;
    var a := step + b;
    ReassociateKey(scope, step, attempt, effect, rest);
    ScopeRoundTrip(key.scope, a);
    TextRoundTrip(key.stepId.text, b);
    U32RoundTrip(key.attempt, c);
    EffectRoundTrip(key.kind, key.payloadDigest, rest);
    EffectKeyFrom(scope + a, key, a, b, c, rest);
  }

  lemma StepsFrom(steps: seq<StepId>, b: seq<byte>, afterFirst: seq<byte>, rest: seq<byte>)
    requires steps != [] && DecodeText(b) == Some(Decoded(steps[0].text, afterFirst))
    requires DecodeSteps(|steps| - 1, afterFirst) == Some(Decoded(steps[1..], rest))
    ensures DecodeSteps(|steps|, b) == Some(Decoded(steps, rest))
  {
    assert [steps[0]] + steps[1..] == steps;
  }

  lemma {:induction false} StepsRoundTrip(steps: seq<StepId>, rest: seq<byte>)
    ensures DecodeSteps(|steps|, StepBytes(steps) + rest) == Some(Decoded(steps, rest))
  {
    if steps == [] {
      assert StepBytes(steps) + rest == rest;
    } else {
      var first, more := IdentifierBytes(steps[0].text), StepBytes(steps[1..]);
      Reassociate(first, [], more, rest);
      assert [] + more == more && [] + (more + rest) == more + rest;
      TextRoundTrip(steps[0].text, more + rest);
      StepsRoundTrip(steps[1..], rest);
      StepsFrom(steps, first + (more + rest), more + rest, rest);
    }
  }

  lemma DefinitionRoundTrip(d: ProcessDefinition, rest: seq<byte>)
    requires |d.stepIds| <= U32_MAX
    ensures DecodeDefinition(DefinitionBytes(d) + rest)
         == Some(Decoded((d.definitionId, d.definitionVersion, d.stepIds), rest))
  {
    var b := StepBytes(d.stepIds) + rest;
    var a := U32Bytes(|d.stepIds|) + b;
    assert DefinitionBytes(d) + rest == PairBytes(d.definitionId.text, d.definitionVersion.text) + a;
    PairRoundTrip(d.definitionId.text, d.definitionVersion.text, a);
    U32RoundTrip(|d.stepIds|, b);
    StepsRoundTrip(d.stepIds, rest);
  }

  // ------------------------------------------------------- exactness and injectivity

  lemma TextDecodesExactly(b: seq<byte>)
    ensures DecodeText(b).Some? ==> IdentifierBytes(DecodeText(b).value.value) + DecodeText(b).value.rest == b
  {
    if DecodeText(b).Some? {
      var n := DecodeU16(b).value.value;
      assert U16Bytes(n) == b[..2];
      assert b == b[..2] + b[2..];
    }
  }

  lemma U32DecodesExactly(b: seq<byte>)
    ensures DecodeU32(b).Some? ==> U32Bytes(DecodeU32(b).value.value) + DecodeU32(b).value.rest == b
  {
    if DecodeU32(b).Some? {
      var n := DecodeU32(b).value.value;
      assert n / 0x1_0000 == b[0] as int * 0x100 + b[1] as int;
      assert n % 0x1_0000 == b[2] as int * 0x100 + b[3] as int;
      assert U32Bytes(n) == b[..4];
      assert b == b[..4] + b[4..];
    }
  }

  // What the two pieces of a pair must be when it decodes.
  lemma PairParts(b: seq<byte>) returns (first: Text, afterFirst: seq<byte>, second: Text, rest: seq<byte>)
    requires DecodePair(b).Some?
    ensures DecodePair(b) == Some(Decoded((first, second), rest))
    ensures DecodeText(b) == Some(Decoded(first, afterFirst)) && DecodeText(afterFirst) == Some(Decoded(second, rest))
  {
    var one := DecodeText(b).value;
    var two := DecodeText(one.rest).value;
    first, afterFirst, second, rest := one.value, one.rest, two.value, two.rest;
  }

  lemma PairJoins(b: seq<byte>, first: Text, afterFirst: seq<byte>, second: Text, rest: seq<byte>)
    requires IdentifierBytes(first) + afterFirst == b && IdentifierBytes(second) + rest == afterFirst
    ensures PairBytes(first, second) + rest == b
  {
    var one, two := IdentifierBytes(first), IdentifierBytes(second);
    assert (one + two) + rest == one + (two + rest);
  }

  lemma PairDecodesExactly(b: seq<byte>)
    ensures DecodePair(b).Some? ==>
              PairBytes(DecodePair(b).value.value.0, DecodePair(b).value.value.1) + DecodePair(b).value.rest == b
  {
    if DecodePair(b).Some? {
      var first, afterFirst, second, rest := PairParts(b);
      TextDecodesExactly(b);
      TextDecodesExactly(afterFirst);
      PairJoins(b, first, afterFirst, second, rest);
    }
  }

  // What the three pieces of a scope must be when it decodes.
  lemma ScopeParts(b: seq<byte>) returns (scope: ProcessScope, afterOwner: seq<byte>, afterPin: seq<byte>, rest: seq<byte>)
    requires DecodeScope(b).Some?
    ensures DecodeScope(b).value == Decoded(scope, rest)
    ensures DecodePair(b) == Some(Decoded((scope.tenantId.text, scope.processId.text), afterOwner))
    ensures DecodePair(afterOwner) == Some(Decoded((scope.definitionId.text, scope.definitionVersion.text), afterPin))
    ensures DecodeDigest(afterPin) == Some(Decoded(scope.definitionDigest, rest))
  {
    var owner := DecodePair(b).value;
    var pin := DecodePair(owner.rest).value;
    scope, rest := DecodeScope(b).value.value, DecodeScope(b).value.rest;
    afterOwner, afterPin := owner.rest, pin.rest;
  }

  lemma DigestDecodesExactly(b: seq<byte>)
    ensures DecodeDigest(b).Some? ==> DecodeDigest(b).value.value + DecodeDigest(b).value.rest == b
  {
  }

  lemma ScopeDecodesExactly(b: seq<byte>)
    ensures DecodeScope(b).Some? ==> ScopeBytes(DecodeScope(b).value.value) + DecodeScope(b).value.rest == b
  {
    if DecodeScope(b).Some? {
      var scope, afterOwner, afterPin, rest := ScopeParts(b);
      PairDecodesExactly(b);
      PairDecodesExactly(afterOwner);
      DigestDecodesExactly(afterPin);
      Reassociate(PairBytes(scope.tenantId.text, scope.processId.text),
                  PairBytes(scope.definitionId.text, scope.definitionVersion.text), scope.definitionDigest, rest);
    }
  }

  lemma EffectDecodesExactly(b: seq<byte>)
    ensures DecodeEffect(b).Some? ==>
              EffectBytes(DecodeEffect(b).value.value.0, DecodeEffect(b).value.value.1) + DecodeEffect(b).value.rest == b
  {
  }

  lemma EffectKeyParts(b: seq<byte>)
    returns (key: EffectKey, afterScope: seq<byte>, afterStep: seq<byte>, afterAttempt: seq<byte>, rest: seq<byte>)
    requires DecodeEffectKey(b).Some?
    ensures DecodeEffectKey(b).value == Decoded(key, rest)
    ensures DecodeScope(b) == Some(Decoded(key.scope, afterScope))
    ensures DecodeText(afterScope) == Some(Decoded(key.stepId.text, afterStep))
    ensures DecodeU32(afterStep) == Some(Decoded(key.attempt, afterAttempt))
    ensures DecodeEffect(afterAttempt) == Some(Decoded((key.kind, key.payloadDigest), rest))
  {
    var scope := DecodeScope(b).value;
    var step := DecodeText(scope.rest).value;
    var attempt := DecodeU32(step.rest).value;
    key, rest := DecodeEffectKey(b).value.value, DecodeEffectKey(b).value.rest;
    afterScope, afterStep, afterAttempt := scope.rest, step.rest, attempt.rest;
  }

  // The decoder accepts nothing but encodings: whatever it reads, encoding it
  // again gives back the bytes.
  lemma EffectKeyDecodesExactly(b: seq<byte>)
    ensures DecodeEffectKey(b).Some? ==>
              EffectKeyBytes(DecodeEffectKey(b).value.value) + DecodeEffectKey(b).value.rest == b
  {
    if DecodeEffectKey(b).Some? {
      var key, afterScope, afterStep, afterAttempt, rest := EffectKeyParts(b);
      ScopeDecodesExactly(b);
      TextDecodesExactly(afterScope);
      U32DecodesExactly(afterStep);
      EffectDecodesExactly(afterAttempt);
      ReassociateKey(ScopeBytes(key.scope), IdentifierBytes(key.stepId.text), U32Bytes(key.attempt),
                     EffectBytes(key.kind, key.payloadDigest), rest);
    }
  }

  // Two scopes share their bytes, even as prefixes, only if they are one scope.
  lemma ScopeBytesInjective(a: ProcessScope, b: ProcessScope, x: seq<byte>, y: seq<byte>)
    ensures ScopeBytes(a) + x == ScopeBytes(b) + y <==> a == b && x == y
  {
    ScopeRoundTrip(a, x);
    ScopeRoundTrip(b, y);
  }

  lemma EffectKeyBytesInjective(a: EffectKey, b: EffectKey, x: seq<byte>, y: seq<byte>)
    ensures EffectKeyBytes(a) + x == EffectKeyBytes(b) + y <==> a == b && x == y
  {
    EffectKeyRoundTrip(a, x);
    EffectKeyRoundTrip(b, y);
  }

  lemma DefinitionBytesInjective(a: ProcessDefinition, b: ProcessDefinition)
    requires |a.stepIds| <= U32_MAX && |b.stepIds| <= U32_MAX
    ensures DefinitionBytes(a) == DefinitionBytes(b)
       <==> a.definitionId == b.definitionId && a.definitionVersion == b.definitionVersion && a.stepIds == b.stepIds
  {
    DefinitionRoundTrip(a, []);
    DefinitionRoundTrip(b, []);
    assert DefinitionBytes(a) + [] == DefinitionBytes(a) && DefinitionBytes(b) + [] == DefinitionBytes(b);
  }
}
