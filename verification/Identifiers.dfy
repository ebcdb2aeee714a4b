// Identifier texts, and the numbered ones of the runs that proofs construct
// (crates/penelope-domain/src/implementation.rs).
module Identifiers {
  import opened Wrappers
  import opened Domain

  // ------------------------------------------------------------------- validation

  function Ascii(text: string): (bytes: seq<byte>)
    requires forall i :: 0 <= i < |text| ==> text[i] < 128 as char
    ensures |bytes| == |text|
  {
    seq(|text|, i requires 0 <= i < |text| => text[i] as byte)
  }

  predicate IsIdentifierByte(b: byte) {
    || '0' as byte <= b <= '9' as byte
    || 'A' as byte <= b <= 'Z' as byte
    || 'a' as byte <= b <= 'z' as byte
    || b == '_' as byte || b == '-' as byte || b == '.' as byte
  }

  // `validate_identifier`: the prefix, then a non-empty body of safe bytes.
  predicate IsIdentifier(prefix: seq<byte>, value: seq<byte>) {
    && prefix <= value
    && |prefix| < |value| <= MAX_IDENTIFIER_LENGTH
    && forall i :: |prefix| <= i < |value| ==> IsIdentifierByte(value[i])
  }

  // The prefixes of the sixteen identifier kinds.
  const PREFIXES: seq<string> := [
    "tnt_", "prc_", "def_", "dfv_", "stp_", "inp_", "out_", "act_", "rev_", "pri_", "cev_", "cmt_", "res_", "op_", "ext_", "mig_"]

  function PrefixBytes(kind: nat): (prefix: seq<byte>)
    requires kind < |PREFIXES|
    ensures |prefix| >= 3
  {
    Ascii(PREFIXES[kind])
  }

  lemma PrefixesDiffer(i: nat, j: nat)
    requires i < j < |PREFIXES|
    ensures PREFIXES[i][0] != PREFIXES[j][0] || PREFIXES[i][1] != PREFIXES[j][1] || PREFIXES[i][2] != PREFIXES[j][2]
    ensures |PREFIXES[i]| >= 3 && |PREFIXES[j]| >= 3
  {
  }

  // No text is a valid identifier of two different kinds.
  lemma KindsAreDisjoint(i: nat, j: nat, value: seq<byte>)
    requires i < j < |PREFIXES|
    ensures !(IsIdentifier(PrefixBytes(i), value) && IsIdentifier(PrefixBytes(j), value))
  {
    PrefixesDiffer(i, j);
    if PrefixBytes(i) <= value && PrefixBytes(j) <= value {
      forall k | 0 <= k < 3 ensures PREFIXES[i][k] == PREFIXES[j][k] {
        assert PrefixBytes(i)[k] == value[k] == PrefixBytes(j)[k];
      }
    }
  }

  // ---------------------------------------------------------------- numbered texts

  const ID_DIGITS: nat := 10
  const ID_LIMIT: nat := 10_000_000_000

  // Positions of the prefixes of inputs, outcomes and actions.
  const INPUT_KIND: nat := 5
  const OUTCOME_KIND: nat := 6
  const ACTION_KIND: nat := 7

  function PowerOfTen(n: nat): nat {
    if n == 0 then 1 else 10 * PowerOfTen(n - 1)
  }

  // The last n decimal digits.
  function Digits(k: nat, n: nat): (digits: seq<byte>)
    ensures |digits| == n
    ensures forall i :: 0 <= i < n ==> '0' as byte <= digits[i] <= '9' as byte
  {
    if n == 0 then [] else Digits(k / 10, n - 1) + [(48 + k % 10) as byte]
  }

  lemma {:induction false} DigitsAreInjective(i: nat, k: nat, n: nat)
    requires i < PowerOfTen(n) && k < PowerOfTen(n) && Digits(i, n) == Digits(k, n)
    ensures i == k
  {
    if n > 0 {
      var x, y := Digits(i, n), Digits(k, n);
      assert x[..n - 1] == Digits(i / 10, n - 1) && y[..n - 1] == Digits(k / 10, n - 1);
      assert x[n - 1] == y[n - 1];
      DigitsAreInjective(i / 10, k / 10, n - 1);
    }
  }

  function NthText(kind: nat, k: nat): (text: Text)
    requires kind < |PREFIXES|
    ensures IsIdentifier(PrefixBytes(kind), text)
  {
    assert |PREFIXES[kind]| <= 4;
    PrefixBytes(kind) + Digits(k, ID_DIGITS)
  }

  function NthId(k: nat): ActionId
    requires k < ID_LIMIT
  {
    ActionId(NthText(ACTION_KIND, k))
  }

  function NthInput(k: nat): InputId
    requires k < ID_LIMIT
  {
    InputId(NthText(INPUT_KIND, k))
  }

  function NthOutcome(k: nat): OutcomeId
    requires k < ID_LIMIT
  {
    OutcomeId(NthText(OUTCOME_KIND, k))
  }

  function NthIds(n: nat): (ids: seq<ActionId>)
    requires n <= ID_LIMIT
    ensures |ids| == n
  {
    seq(n, i requires 0 <= i < n => NthId(i))
  }

  function NthInputs(n: nat): (ids: seq<InputId>)
    requires n <= ID_LIMIT
    ensures |ids| == n
  {
    seq(n, i requires 0 <= i < n => NthInput(i))
  }

  // The numbered texts are valid identifiers of their kind, and numbered apart.
  lemma NthTextsDiffer(kind: nat, i: nat, k: nat)
    requires kind < |PREFIXES| && i < k < ID_LIMIT
    ensures NthText(kind, i) != NthText(kind, k)
  {
    if NthText(kind, i) == NthText(kind, k) {
      var n := |PrefixBytes(kind)|;
      assert NthText(kind, i)[n..] == Digits(i, ID_DIGITS) && NthText(kind, k)[n..] == Digits(k, ID_DIGITS);
      assert PowerOfTen(5) == 100_000 && PowerOfTen(10) == 100_000 * PowerOfTen(5);
      DigitsAreInjective(i, k, ID_DIGITS);
    }
  }

  lemma NthInputsAreDistinct(n: nat)
    requires n <= ID_LIMIT
    ensures Distinct(NthInputs(n))
  {
    forall i, j | 0 <= i < j < n ensures NthInputs(n)[i] != NthInputs(n)[j] {
      NthTextsDiffer(INPUT_KIND, i, j);
    }
  }

  lemma FreshNthId(issued: seq<ActionId>, k: nat)
    requires k < ID_LIMIT && issued == NthIds(k)
    ensures NthId(k) !in issued
    ensures issued + [NthId(k)] == NthIds(k + 1)
  {
    forall i | 0 <= i < k ensures issued[i] != NthId(k) {
      NthTextsDiffer(ACTION_KIND, i, k);
    }
  }
}
