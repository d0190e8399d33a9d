/**
 * What the bootstrap configuration is encoded to, in terms of the configuration's own fields and of how its strings
 * are spelled: each authenticator's fields go where their names say.
 */
module ConfigMeaning {
  import opened Bytes
  import opened Protocol
  import opened HostConfig
  import opened Rules
  import JsBytes
  import State = StateCodec

  // ----- Spelling -----

  const LOWER: string := "0123456789abcdef"
  const UPPER: string := "0123456789ABCDEF"

  predicate IsDigitOf(c: char, value: nat) {
    value < 16 && (c == LOWER[value] || c == UPPER[value])
  }

  /** Two digits for each byte, the high one first, in either case. */
  predicate Spells(digits: string, b: Bytes) {
    |digits| == 2 * |b| &&
    forall i: nat | i < |b| :: IsDigitOf(digits[2 * i], b[i] / 16) && IsDigitOf(digits[2 * i + 1], b[i] % 16)
  }

  function WithoutPrefix(s: string): string {
    if |s| >= 2 && s[0] == '0' && s[1] == 'x' then s[2..] else s
  }

  lemma DigitIs(c: char, value: nat)
    ensures HexDigit(c) == Some(value) <==> IsDigitOf(c, value)
  {
  }

  lemma {:induction false} DecodedIsSpelled(s: string, b: Bytes)
    ensures DecodeHex(s) == Some(b) <==> Spells(s, b)
    decreases |s|
  {
    hide IsDigitOf;
    hide HexDigit;
    if |s| >= 2 {
      if b != [] {
        DigitIs(s[0], b[0] / 16);
        DigitIs(s[1], b[0] % 16);
        DecodedIsSpelled(s[2..], b[1..]);
        SpelledStep(s, b);
      }
      DecodeStep(s);
    }
  }

  /** One byte of the decoding. */
  lemma DecodeStep(s: string)
    requires |s| >= 2
    ensures forall b: Bytes ::
              DecodeHex(s) == Some(b) <==>
              b != [] && HexDigit(s[0]) == Some(b[0] / 16) && HexDigit(s[1]) == Some(b[0] % 16)
              && DecodeHex(s[2..]) == Some(b[1..])
  {
    hide HexDigit;
    var high, low, rest := HexDigit(s[0]), HexDigit(s[1]), DecodeHex(s[2..]);
    if high.Some? && low.Some? && rest.Some? {
      DigitIsSmall(s[0]);
      DigitIsSmall(s[1]);
      var byte: Byte := 16 * high.value + low.value;
      assert byte / 16 == high.value && byte % 16 == low.value;
      assert DecodeHex(s) == Some([byte] + rest.value);
      forall b: Bytes ensures DecodeHex(s) == Some(b) <==> b != [] && b[0] == byte && b[1..] == rest.value {
        HeadAndTail(b, byte, rest.value);
      }
    }
  }

  lemma DigitIsSmall(c: char)
    ensures HexDigit(c).Some? ==> HexDigit(c).value < 16
  {
  }

  lemma HeadAndTail(b: Bytes, head: Byte, tail: Bytes)
    ensures b == [head] + tail <==> b != [] && b[0] == head && b[1..] == tail
  {
    if b != [] && b[0] == head && b[1..] == tail {
      assert b == [b[0]] + b[1..];
    }
  }

  lemma SpelledStep(s: string, b: Bytes)
    requires |s| >= 2 && b != []
    ensures Spells(s, b) <==>
            IsDigitOf(s[0], b[0] / 16) && IsDigitOf(s[1], b[0] % 16) && Spells(s[2..], b[1..])
  {
    hide IsDigitOf;
    if |s| == 2 * |b| {
      assert forall i: nat | i < |b| - 1 ::
          b[1..][i] == b[i + 1] && s[2..][2 * i] == s[2 * (i + 1)] && s[2..][2 * i + 1] == s[2 * (i + 1) + 1];
      if Spells(s[2..], b[1..]) && IsDigitOf(s[0], b[0] / 16) && IsDigitOf(s[1], b[0] % 16) {
        forall i: nat | i < |b| ensures IsDigitOf(s[2 * i], b[i] / 16) && IsDigitOf(s[2 * i + 1], b[i] % 16) {
          if i > 0 {
            assert b[1..][i - 1] == b[i];
          }
        }
      }
      if Spells(s, b) {
        forall i: nat | i < |b| - 1
          ensures IsDigitOf(s[2..][2 * i], b[1..][i] / 16) && IsDigitOf(s[2..][2 * i + 1], b[1..][i] % 16)
        {
          assert b[i + 1] == b[1..][i];
        }
      }
    }
  }

  /** A string is read as the bytes it spells, behind an optional 0x. */
  lemma ParsedIsSpelled(s: string, b: Bytes)
    ensures ParseHex(s) == Some(b) <==> Spells(WithoutPrefix(s), b)
  {
    hide DecodeHex;
    hide Spells;
    assert "0x"[0] == '0' && "0x"[1] == 'x';
    assert "0x" <= s <==> |s| >= 2 && s[0] == '0' && s[1] == 'x';
    DecodedIsSpelled(WithoutPrefix(s), b);
  }

  function UpperDigits(b: Bytes): (s: string)
    ensures |s| == 2 * |b|
  {
    if b == [] then "" else [UPPER[b[0] / 16], UPPER[b[0] % 16]] + UpperDigits(b[1..])
  }

  lemma {:induction false} UpperSpells(b: Bytes)
    ensures Spells(UpperDigits(b), b)
  {
    hide IsDigitOf;
    if b != [] {
      UpperSpells(b[1..]);
      assert UpperDigits(b)[2..] == UpperDigits(b[1..]);
      assert IsDigitOf(UPPER[b[0] / 16], b[0] / 16) by { UpperIsDigit(b[0] / 16); }
      assert IsDigitOf(UPPER[b[0] % 16], b[0] % 16) by { UpperIsDigit(b[0] % 16); }
      SpelledStep(UpperDigits(b), b);
    }
  }

  lemma UpperIsDigit(value: nat)
    requires value < 16
    ensures IsDigitOf(UPPER[value], value) && IsDigitOf(LOWER[value], value)
  {
  }

  lemma LowerSpells(b: Bytes)
    ensures Spells(JsBytes.HexDigits(b), b)
  {
    hide IsDigitOf;
    hide JsBytes.HexDigits;
    forall i: nat | i < |b|
      ensures IsDigitOf(JsBytes.HexDigits(b)[2 * i], b[i] / 16) && IsDigitOf(JsBytes.HexDigits(b)[2 * i + 1], b[i] % 16)
    {
      JsBytes.HexDigitsAt(b, i);
      JsBytes.HexCharIs(b[i] / 16);
      JsBytes.HexCharIs(b[i] % 16);
      UpperIsDigit(b[i] / 16);
      UpperIsDigit(b[i] % 16);
    }
  }

  lemma NoPrefix(digits: string, b: Bytes)
    requires Spells(digits, b)
    ensures WithoutPrefix(digits) == digits && WithoutPrefix("0x" + digits) == digits
  {
    if |digits| >= 2 {
      assert IsDigitOf(digits[2 * 0 + 1], b[0] % 16);
      assert 'x' !in LOWER && 'x' !in UPPER;
    }
  }

  /** Printed bytes are read back, in lower or upper case, with or without 0x. */
  lemma PrintedIsParsed(b: Bytes)
    ensures ParseHex(JsBytes.Hex(b)) == Some(b) && ParseHex(JsBytes.HexDigits(b)) == Some(b)
    ensures ParseHex("0x" + UpperDigits(b)) == Some(b) && ParseHex(UpperDigits(b)) == Some(b)
  {
    hide Spells;
    hide ParseHex;
    LowerSpells(b);
    UpperSpells(b);
    NoPrefix(JsBytes.HexDigits(b), b);
    NoPrefix(UpperDigits(b), b);
    ParsedIsSpelled(JsBytes.Hex(b), b);
    ParsedIsSpelled(JsBytes.HexDigits(b), b);
    ParsedIsSpelled("0x" + UpperDigits(b), b);
    ParsedIsSpelled(UpperDigits(b), b);
  }

  // ----- Authenticators -----

  /** The entry has the authenticator's numbers, and the bytes its three strings spell. */
  predicate IsEntryOf(a: AuthenticatorConfig, e: State.Entry) {
    && e.slot == a.slot && e.algorithmId == a.algorithmId && e.capabilities == a.capabilities && e.weight == a.weight
    && e.verifierHashType == a.verifierHashType && e.verifierAbi == a.verifierAbi
    && Spells(WithoutPrefix(a.verifierCodeHash), e.verifierCodeHash)
    && Spells(WithoutPrefix(a.keyId), e.keyId)
    && Spells(WithoutPrefix(a.aux), e.aux)
  }

  lemma ConvertedExactly(a: AuthenticatorConfig, e: State.Entry)
    ensures ToAuthenticator(a) == Some(e) <==>
            && IsEntryOf(a, e) && |e.keyId| == 32
            && e.verifierAbi == 1 && e.verifierHashType <= 1 && e.capabilities <= 15 && e.weight >= 1
            && |e.aux| >= 1 && (e.algorithmId == 1 ==> |e.aux| == 65)
  {
    hide ParseHex;
    hide Spells;
    ParsedIsSpelled(a.aux, e.aux);
    ParsedIsSpelled(a.keyId, e.keyId);
    ParsedIsSpelled(a.verifierCodeHash, e.verifierCodeHash);
  }

  lemma {:induction false} AllConverted(cs: seq<AuthenticatorConfig>, es: seq<State.Entry>)
    ensures ToAuthenticators(cs) == Some(es) <==>
            |es| == |cs| && forall i | 0 <= i < |cs| :: ToAuthenticator(cs[i]) == Some(es[i])
  {
    hide ToAuthenticator;
    if cs != [] && es != [] {
      AllConverted(cs[1..], es[1..]);
      assert es == [es[0]] + es[1..];
      assert forall i | 0 <= i < |cs| - 1 :: cs[1..][i] == cs[i + 1];
      assert forall i | 0 <= i < |es| - 1 :: es[1..][i] == es[i + 1];
    }
  }

  // ----- The account -----

  /** The state says what the configuration says, at sequence 0. */
  predicate IsStateOf(c: AccountStateConfig, s: State.AccountState) {
    && c.sequence == 0 && s.sequence == 0 && s.flags == c.flags
    && s.spendThreshold == c.spendThreshold && s.rotateThreshold == c.rotateThreshold
    && s.recoveryThreshold == c.recoveryThreshold && s.recoverySince == c.recoverySince
    && |s.authenticators| == |c.authenticators|
    && forall i | 0 <= i < |c.authenticators| ::
         && IsEntryOf(c.authenticators[i], s.authenticators[i])
         && (s.authenticators[i].algorithmId == 1 ==> |s.authenticators[i].aux| == 65)
  }

  predicate Describes(c: AccountStateConfig, s: State.AccountState, b: Bytes) {
    IsStateOf(c, s) && State.ValidAccountState(s) && b == State.StateBytes(s)
  }

  lemma EncodedIsDescribed(c: AccountStateConfig, b: Bytes)
    requires EncodedConfig(c) == Some(b)
    ensures exists s :: Describes(c, s, b)
  {
    hide ToAuthenticators;
    hide ToAuthenticator;
    hide IsEntryOf;
    hide Satisfiable;
    hide SlotsIncrease;
    hide ValidatorChecks;
    hide State.ValidAccountState;
    hide State.StateBytes;
    var es := ToAuthenticators(c.authenticators).value;
    var s := HostConfig.StateOf(c, es);
    CheckedIsValid(c, es);
    AllConverted(c.authenticators, es);
    forall i | 0 <= i < |es|
      ensures IsEntryOf(c.authenticators[i], es[i]) && (es[i].algorithmId == 1 ==> |es[i].aux| == 65)
    {
      ConvertedExactly(c.authenticators[i], es[i]);
    }
    assert Describes(c, s, b);
  }

  lemma DescribedPasses(c: AccountStateConfig, s: State.AccountState)
    requires IsStateOf(c, s) && State.ValidAccountState(s)
    ensures OwnChecks(c, s.authenticators)
  {
    hide Bit;
    hide IsEntryOf;
    hide ToAuthenticators;
    hide AvailableWeight;
    hide WeightOf;
    hide State.CapWeight;
    hide State.EntriesSize;
    hide State.FramedEntries;
    var es := s.authenticators;
    FramedAre(es, -1);
    forall i | 0 <= i < |es| ensures ToAuthenticator(c.authenticators[i]) == Some(es[i]) {
      assert es[i] in es && IsFramedEntry(es[i]) && State.UsableEntry(es[i]);
      hide ToAuthenticator;
      ConvertedExactly(c.authenticators[i], es[i]);
    }
    AllConverted(c.authenticators, es);
    SumsAgree(es, CAP_SPEND);
    SumsAgree(es, CAP_ROTATE);
    SumsAgree(es, CAP_RECOVERY);
  }

  /** A configuration is accepted exactly when it describes a legal state, and that state is what is encoded. */
  lemma EncodesExactly(c: AccountStateConfig, b: Bytes)
    ensures EncodedConfig(c) == Some(b) <==>
            exists s :: Describes(c, s, b)
  {
    hide EncodedConfig;
    hide Describes;
    if EncodedConfig(c) == Some(b) {
      EncodedIsDescribed(c, b);
    }
    forall s | Describes(c, s, b) ensures EncodedConfig(c) == Some(b) {
      DescribedIsEncoded(c, s, b);
    }
  }

  lemma DescribedIsEncoded(c: AccountStateConfig, s: State.AccountState, b: Bytes)
    requires Describes(c, s, b)
    ensures EncodedConfig(c) == Some(b)
  {
    hide OwnChecks;
    hide ValidatorChecks;
    hide ToAuthenticators;
    hide IsEntryOf;
    hide State.StateBytes;
    DescribedPasses(c, s);
    OwnChecksConvert(c, s.authenticators);
    assert HostConfig.StateOf(c, s.authenticators) == s;
    CheckedIsValid(c, s.authenticators);
  }

  lemma OwnChecksConvert(c: AccountStateConfig, es: seq<State.Entry>)
    requires OwnChecks(c, es)
    ensures ToAuthenticators(c.authenticators) == Some(es)
  {
    hide ToAuthenticators;
    hide Satisfiable;
    hide SlotsIncrease;
  }

  lemma DescribedIs(c: AccountStateConfig, s: State.AccountState, b: Bytes)
    requires Describes(c, s, b)
    ensures IsStateOf(c, s) && State.ValidAccountState(s) && State.DecodedState(b) == Some(s)
  {
    hide State.DecodedState;
    hide State.StateBytes;
    hide IsStateOf;
    State.EncodedIsDecoded(s);
  }

  /** Entry by entry, what the produced bytes decode to. */
  lemma DecodedConfigIs(c: AccountStateConfig, i: nat)
    requires EncodedConfig(c).Some? && i < |c.authenticators|
    ensures State.DecodedState(EncodedConfig(c).value).Some?
    ensures var s := State.DecodedState(EncodedConfig(c).value).value;
            && IsLegalState(s)
            && s.flags == c.flags && s.sequence == 0 && s.spendThreshold == c.spendThreshold
            && s.rotateThreshold == c.rotateThreshold && s.recoveryThreshold == c.recoveryThreshold
            && s.recoverySince == c.recoverySince && |s.authenticators| == |c.authenticators|
            && s.authenticators[i].slot == c.authenticators[i].slot
            && s.authenticators[i].weight == c.authenticators[i].weight
            && s.authenticators[i].capabilities == c.authenticators[i].capabilities
            && Spells(WithoutPrefix(c.authenticators[i].verifierCodeHash), s.authenticators[i].verifierCodeHash)
            && Spells(WithoutPrefix(c.authenticators[i].keyId), s.authenticators[i].keyId)
            && Spells(WithoutPrefix(c.authenticators[i].aux), s.authenticators[i].aux)
            && IsEntryOf(c.authenticators[i], s.authenticators[i])
  {
    hide EncodedConfig;
    hide Spells;
    hide IsLegalState;
    hide State.DecodedState;
    hide Describes;
    var b := EncodedConfig(c).value;
    EncodesExactly(c, b);
    var s :| Describes(c, s, b);
    DescribedIs(c, s, b);
    ValidIsLegal(s);
  }
}
