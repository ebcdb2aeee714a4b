// The stable inbox input of a timer (crates/penelope-executor/src/timer_input.rs).
module TimerInputs {
  import opened Wrappers
  import opened Domain
  import opened Identifiers
  import opened Encoding
  import opened LeaseBatches

  // SHA-256, as an arbitrary function of the bytes.
  const SHA256: seq<byte> -> ContentDigest

  // The record's canonical wire bytes, as an arbitrary function that may fail.
  const WIRE: TimerSchedule -> Option<seq<byte>>

  const IDENTITY_PREFIX := "inp_timer_"
  const KEY_PREFIX := "penelope.timer-input.v1\0"

  // What is hashed: the effect key and then the action identity, which needs no
  // length because it comes last.
  function TimerKey(action: ProcessAction): seq<byte> {
    Ascii(KEY_PREFIX) + (EffectKeyBytes(EffectKeyOf(action)) + action.actionId.text)
  }

  function HexDigit(n: byte): (c: byte)
    requires n < 16
    ensures IsIdentifierByte(c)
  {
    if n < 10 then '0' as byte + n else 'a' as byte + (n - 10)
  }

  function {:induction false} Hex(bytes: seq<byte>): (text: seq<byte>)
    ensures |text| == 2 * |bytes|
    ensures forall i :: 0 <= i < |text| ==> IsIdentifierByte(text[i])
  {
    if bytes == [] then []
    else Hex(bytes[..|bytes| - 1]) + [HexDigit(bytes[|bytes| - 1] / 16), HexDigit(bytes[|bytes| - 1] % 16)]
  }

  function IdentityText(digest: ContentDigest): seq<byte> {
    Ascii(IDENTITY_PREFIX) + Hex(digest)
  }

  // The input and payload of a schedule. Neither the lease nor the time of
  // delivery is an argument.
  function TimerInput(timer: TimerSchedule): Result<(ProcessInput, seq<byte>), PortError> {
    if WIRE(timer).None? then Err(Invariant)
    else
      var identity := IdentityText(SHA256(TimerKey(timer.action)));
      if !IsIdentifier(Ascii("inp_"), identity) then Err(Invariant)
      else Ok((ProcessInput(timer.action.scope.tenantId, timer.action.scope.processId, InputId(identity),
                            TimerFiredInput, SHA256(WIRE(timer).value)), WIRE(timer).value))
  }

  // The first buffer: prefix, effect key and action identity.
  method FillKey(action: ProcessAction) returns (key: seq<byte>)
    ensures key == TimerKey(action)
  {
    var effectKey := EffectKeyCanonicalBytes(EffectKeyOf(action));
    key := Ascii(KEY_PREFIX);
    key := key + effectKey;
    key := key + action.actionId.text;
  }

  // The second buffer: prefix and two digits per byte of the digest.
  method FillIdentity(digest: ContentDigest) returns (identity: seq<byte>)
    ensures identity == IdentityText(digest)
  {
    identity := Ascii(IDENTITY_PREFIX);
    for i := 0 to |digest|
      invariant identity == Ascii(IDENTITY_PREFIX) + Hex(digest[..i])
    {
      identity := identity + [HexDigit(digest[i] / 16), HexDigit(digest[i] % 16)];
      assert digest[..i + 1][..i] == digest[..i];
    }
    assert digest[..|digest|] == digest;
  }

  // `timer_input`, filling its two buffers. It sees the lease but the result
  // depends on the schedule alone.
  method BuildTimerInput(lease: TimerLease) returns (r: Result<(ProcessInput, seq<byte>), PortError>)
    ensures r == TimerInput(lease.timer)
  {
    var timer := lease.timer;
    var wire := WIRE(timer);
    if wire.None? {
      return Err(Invariant);
    }
    var key := FillKey(timer.action);
    var identity := FillIdentity(SHA256(key));
    if !IsIdentifier(Ascii("inp_"), identity) {
      return Err(Invariant);
    }
    return Ok((ProcessInput(timer.action.scope.tenantId, timer.action.scope.processId, InputId(identity),
                            TimerFiredInput, SHA256(wire.value)), wire.value));
  }

  // The identity is always accepted: ten prefix bytes and sixty-four digits, all
  // safe, and therefore building the input fails only when encoding does.
  lemma IdentityIsValid(digest: ContentDigest)
    ensures |IdentityText(digest)| == 74 && IsIdentifier(Ascii("inp_"), IdentityText(digest))
  {
    var text := IdentityText(digest);
    assert |Ascii(IDENTITY_PREFIX)| == 10;
    assert text[..4] == Ascii("inp_");
    forall i | 4 <= i < |text| ensures IsIdentifierByte(text[i]) {
      if i < 10 {
        assert text[i] == IDENTITY_PREFIX[i] as byte;
      } else {
        assert text[i] == Hex(digest)[i - 10];
      }
    }
  }

  // What a digit stands for.
  function DigitValue(c: byte): int {
    if '0' as byte <= c <= '9' as byte then c as int - '0' as int
    else if 'a' as byte <= c <= 'f' as byte then c as int - 'a' as int + 10
    else -1
  }

  // Each byte of the digest is spelt by two lower-case digits, the high half first.
  lemma {:induction false} HexSpells(bytes: seq<byte>, i: nat)
    requires i < |bytes|
    ensures 0 <= DigitValue(Hex(bytes)[2 * i]) < 16 && 0 <= DigitValue(Hex(bytes)[2 * i + 1]) < 16
    ensures bytes[i] as int == 16 * DigitValue(Hex(bytes)[2 * i]) + DigitValue(Hex(bytes)[2 * i + 1])
  {
    var m := |bytes| - 1;
    if i < m {
      HexSpells(bytes[..m], i);
    } else {
      DigitSpells(bytes[m] / 16);
      DigitSpells(bytes[m] % 16);
    }
  }

  lemma DigitSpells(n: byte)
    requires n < 16
    ensures DigitValue(HexDigit(n)) == n as int
  {
  }

  // The input is a fired timer of the timer's own process, under the prefix and the
  // hexadecimal digest of its key, and the payload's digest is its own.
  lemma TimerInputIs(timer: TimerSchedule)
    requires TimerInput(timer).Ok?
    ensures var input, bytes := TimerInput(timer).value.0, TimerInput(timer).value.1;
      && input.kind == TimerFiredInput && input.tenantId == timer.action.scope.tenantId && input.processId == timer.action.scope.processId
      && |input.inputId.text| == 74 && input.inputId.text[..10] == Ascii("inp_timer_")
      && WIRE(timer) == Some(bytes) && input.payloadDigest == SHA256(bytes)
      && forall i :: 0 <= i < 32 ==>
           SHA256(TimerKey(timer.action))[i] as int
           == 16 * DigitValue(input.inputId.text[10 + 2 * i]) + DigitValue(input.inputId.text[11 + 2 * i])
  {
    var digest := SHA256(TimerKey(timer.action));
    var text := IdentityText(digest);
    assert |Ascii(IDENTITY_PREFIX)| == 10 && text[..10] == Ascii("inp_timer_");
    forall i | 0 <= i < 32
      ensures digest[i] as int == 16 * DigitValue(text[10 + 2 * i]) + DigitValue(text[11 + 2 * i])
    {
      HexSpells(digest, i);
      assert text[10 + 2 * i] == Hex(digest)[2 * i] && text[11 + 2 * i] == Hex(digest)[2 * i + 1];
    }
  }

  lemma TimerInputFailsIff(timer: TimerSchedule)
    ensures TimerInput(timer).Err? <==> WIRE(timer).None?
  {
    IdentityIsValid(SHA256(TimerKey(timer.action)));
  }

  lemma {:induction false} HexIsInjective(a: seq<byte>, b: seq<byte>)
    requires Hex(a) == Hex(b)
    ensures a == b
  {
    assert |Hex(a)| == |Hex(b)|;
    if a != [] {
      var m := |a| - 1;
      HexEnds(Hex(a[..m]), Hex(b[..m]), HexDigit(a[m] / 16), HexDigit(b[m] / 16), HexDigit(a[m] % 16), HexDigit(b[m] % 16));
      HexIsInjective(a[..m], b[..m]);
      DigitsFixByte(a[m], b[m]);
      assert a == a[..m] + [a[m]] && b == b[..m] + [b[m]];
    }
  }

  // Equal texts agree in all but the last two digits, and in those.
  lemma HexEnds(x: seq<byte>, y: seq<byte>, x0: byte, y0: byte, x1: byte, y1: byte)
    requires |x| == |y| && x + [x0, x1] == y + [y0, y1]
    ensures x == y && x0 == y0 && x1 == y1
  {
    var n := |x|;
    assert (x + [x0, x1])[..n] == x && (y + [y0, y1])[..n] == y;
    assert (x + [x0, x1])[n] == x0 && (y + [y0, y1])[n] == y0;
    assert (x + [x0, x1])[n + 1] == x1 && (y + [y0, y1])[n + 1] == y1;
  }

  lemma DigitsFixByte(x: byte, y: byte)
    requires HexDigit(x / 16) == HexDigit(y / 16) && HexDigit(x % 16) == HexDigit(y % 16)
    ensures x == y
  {
    assert x / 16 == y / 16 && x % 16 == y % 16;
  }

  // The hashed keys coincide exactly for one effect under one action identity.
  lemma TimerKeysCoincideIff(a: ProcessAction, b: ProcessAction)
    ensures TimerKey(a) == TimerKey(b) <==> EffectKeyOf(a) == EffectKeyOf(b) && a.actionId == b.actionId
  {
    var x := EffectKeyBytes(EffectKeyOf(a)) + a.actionId.text;
    var y := EffectKeyBytes(EffectKeyOf(b)) + b.actionId.text;
    var n := |KEY_PREFIX|;
    assert TimerKey(a)[n..] == x && TimerKey(b)[n..] == y;
    EffectKeyBytesInjective(EffectKeyOf(a), EffectKeyOf(b), a.actionId.text, b.actionId.text);
  }

  // SHA-256 tells these two keys apart.
  predicate NoCollision(a: ProcessAction, b: ProcessAction) {
    SHA256(TimerKey(a)) == SHA256(TimerKey(b)) ==> TimerKey(a) == TimerKey(b)
  }

  // Two timers share an inbox identity exactly when they are one effect under
  // one action identity.
  lemma InputIdentityIff(a: TimerSchedule, b: TimerSchedule)
    requires TimerInput(a).Ok? && TimerInput(b).Ok? && NoCollision(a.action, b.action)
    ensures TimerInput(a).value.0.inputId == TimerInput(b).value.0.inputId
       <==> EffectKeyOf(a.action) == EffectKeyOf(b.action) && a.action.actionId == b.action.actionId
  {
    TimerKeysCoincideIff(a.action, b.action);
    var x, y := SHA256(TimerKey(a.action)), SHA256(TimerKey(b.action));
    if IdentityText(x) == IdentityText(y) {
      assert IdentityText(x)[10..] == Hex(x) && IdentityText(y)[10..] == Hex(y);
      HexIsInjective(x, y);
    }
  }
}
