/** The bootstrap configuration of an account: when it is accepted and what it is encoded to. */
module HostConfig {
  import opened Bytes
  import opened Protocol
  import opened StateCodec

  datatype AuthenticatorConfig = AuthenticatorConfig(
    slot: U16,
    algorithmId: U16,
    capabilities: U16,
    weight: U16,
    verifierHashType: Byte,
    verifierAbi: Byte,
    verifierCodeHash: string,
    keyId: string,
    aux: string)

  datatype AccountStateConfig = AccountStateConfig(
    flags: Byte,
    sequence: U64,
    spendThreshold: U16,
    rotateThreshold: U16,
    recoveryThreshold: U16,
    recoverySince: U64,
    authenticators: seq<AuthenticatorConfig>)

  // ----- Hex -----

  function HexDigit(c: char): Option<nat> {
    if '0' <= c <= '9' then Some(c as int - '0' as int)
    else if 'a' <= c <= 'f' then Some(c as int - 'a' as int + 10)
    else if 'A' <= c <= 'F' then Some(c as int - 'A' as int + 10)
    else None
  }

  function DecodeHex(s: string): Option<Bytes> {
    if s == "" then Some([])
    else if |s| == 1 then None
    else
      var high :- HexDigit(s[0]);
      var low :- HexDigit(s[1]);
      var rest :- DecodeHex(s[2..]);
      if high < 16 && low < 16 then Some([16 * high + low] + rest) else None
  }

  /** `parse_hex`: an optional 0x, then pairs of hex digits in either case. */
  function ParseHex(s: string): Option<Bytes> {
    DecodeHex(if "0x" <= s then s[2..] else s)
  }

  function ParseHash(s: string): Option<Digest> {
    var b :- ParseHex(s);
    if |b| == 32 then Some(b) else None
  }

  // ----- The configuration's own checks -----

  function ToAuthenticator(a: AuthenticatorConfig): Option<Entry> {
    if a.verifierAbi != VERIFIER_ABI_V1 || a.verifierHashType > 1 || a.capabilities >= CAP_KNOWN_LIMIT || a.weight == 0
    then None
    else
      var aux :- ParseHex(a.aux);
      if aux == [] || (a.algorithmId == ALG_P256_WEBAUTHN && |aux| != 65) then None
      else
        var codeHash :- ParseHash(a.verifierCodeHash);
        var keyId :- ParseHash(a.keyId);
        Some(Entry(a.slot, a.algorithmId, a.capabilities, a.weight, a.verifierHashType, a.verifierAbi, codeHash,
                   keyId, aux))
  }

  function ToAuthenticators(cs: seq<AuthenticatorConfig>): Option<seq<Entry>> {
    if cs == [] then Some([])
    else
      var e :- ToAuthenticator(cs[0]);
      var rest :- ToAuthenticators(cs[1..]);
      Some([e] + rest)
  }

  /** The iterator sum over the entries that hold a capability, in order. */
  function AvailableWeight(es: seq<Entry>, cap: nat): nat {
    if es == [] then 0
    else (if Bit(es[0].capabilities, cap) then es[0].weight else 0) + AvailableWeight(es[1..], cap)
  }

  predicate Satisfiable(threshold: U16, es: seq<Entry>, cap: nat) {
    threshold != 0 && AvailableWeight(es, cap) >= threshold
  }

  /** Every neighbouring pair, as `windows(2)` visits them. */
  predicate SlotsIncrease(es: seq<Entry>) {
    forall i | 0 < i < |es| :: es[i - 1].slot < es[i].slot
  }

  function StateOf(c: AccountStateConfig, es: seq<Entry>): AccountState {
    AccountState(c.flags, c.sequence, c.spendThreshold, c.rotateThreshold, c.recoveryThreshold, c.recoverySince, es)
  }

  /** The checks `encode` makes itself, on the converted authenticators. */
  predicate OwnChecks(c: AccountStateConfig, es: seq<Entry>) {
    && c.sequence == 0
    && c.flags < FLAGS_KNOWN_LIMIT
    && 1 <= |c.authenticators| <= AUTHENTICATOR_MAX_COUNT
    && ToAuthenticators(c.authenticators) == Some(es)
    && SlotsIncrease(es)
    && Satisfiable(c.spendThreshold, es, CAP_SPEND)
    && Satisfiable(c.rotateThreshold, es, CAP_ROTATE)
    && (Bit(c.flags, FLAG_RECOVERY_ENABLED) ==> Satisfiable(c.recoveryThreshold, es, CAP_RECOVERY))
  }

  /** What the protocol's validator adds to them. */
  predicate ValidatorChecks(c: AccountStateConfig, es: seq<Entry>) {
    && (forall e | e in es :: IsSupportedAlgorithm(e.algorithmId))
    && STATE_HEADER_LEN + EntriesSize(es) <= STATE_MAX_LEN
    && (!Bit(c.flags, FLAG_RECOVERY_ENABLED) ==> c.recoveryThreshold == 0 && c.recoverySince == 0)
  }

  /** The configuration's sums are the validator's. */
  lemma {:induction false} SumsAgree(es: seq<Entry>, cap: nat)
    ensures AvailableWeight(es, cap) == CapWeight(es, cap)
  {
    hide Bit;
    if es != [] {
      var init, last := es[..|es| - 1], es[|es| - 1];
      SumsAgree(init, cap);
      AvailableAppend(init, last, cap);
      assert es == init + [last];
    }
  }

  lemma {:induction false} AvailableAppend(es: seq<Entry>, e: Entry, cap: nat)
    ensures AvailableWeight(es + [e], cap) ==
            AvailableWeight(es, cap) + if Bit(e.capabilities, cap) then e.weight else 0
  {
    hide Bit;
    if es == [] {
      assert es + [e] == [e];
    } else {
      assert (es + [e])[1..] == es[1..] + [e];
      AvailableAppend(es[1..], e, cap);
    }
  }

  /** What a converted authenticator already guarantees of the validator's demands. */
  predicate Converted(e: Entry) {
    && e.weight != 0 && e.capabilities < CAP_KNOWN_LIMIT && e.verifierHashType <= 1 && e.verifierAbi == VERIFIER_ABI_V1
    && |e.keyId| == 32 && e.aux != []
  }

  lemma {:induction false} ToAuthenticatorsConverts(cs: seq<AuthenticatorConfig>)
    requires ToAuthenticators(cs).Some?
    ensures |ToAuthenticators(cs).value| == |cs| && forall e | e in ToAuthenticators(cs).value :: Converted(e)
  {
    hide ParseHex;
    if cs != [] {
      ToAuthenticatorsConverts(cs[1..]);
    }
  }

  lemma {:induction false} ConvertedAreFramed(es: seq<Entry>, prev: int)
    requires SlotsIncrease(es) && (es != [] ==> prev < es[0].slot)
    requires forall e | e in es :: Converted(e)
    requires EntriesSize(es) <= U16_MAX
    ensures FramedEntries(es, prev) && AllSized(es)
  {
    if es != [] {
      assert es[0] in es && es == [es[0]] + es[1..];
      assert forall i | 0 <= i < |es| - 1 :: es[1..][i] == es[i + 1];
      ConvertedAreFramed(es[1..], es[0].slot);
    }
  }

  /** Behind the configuration's own checks, validity is exactly what the validator adds. */
  lemma CheckedIsValid(c: AccountStateConfig, es: seq<Entry>)
    requires OwnChecks(c, es)
    ensures ValidAccountState(StateOf(c, es)) <==> ValidatorChecks(c, es)
  {
    hide ToAuthenticators;
    hide Bit;
    hide AvailableWeight;
    hide CapWeight;
    ToAuthenticatorsConverts(c.authenticators);
    SumsAgree(es, CAP_SPEND);
    SumsAgree(es, CAP_ROTATE);
    SumsAgree(es, CAP_RECOVERY);
    if ValidatorChecks(c, es) {
      ConvertedAreFramed(es, -1);
    }
  }

  // ----- Encoding -----

  /** What `encode` produces, and when: its own checks and what the validator adds, nothing else. */
  function EncodedConfig(c: AccountStateConfig): Option<Bytes> {
    var es :- ToAuthenticators(c.authenticators);
    if OwnChecks(c, es) && ValidatorChecks(c, es) then
      CheckedIsValid(c, es);
      Some(StateBytes(StateOf(c, es)))
    else None
  }

  method Encode(c: AccountStateConfig) returns (r: Option<Bytes>)
    ensures r == EncodedConfig(c)
  {
    hide ValidAccountState;
    hide StateBytes;
    hide Validated;
    hide ToAuthenticators;
    hide ValidatorChecks;
    hide Satisfiable;
    hide SlotsIncrease;
    if c.sequence != 0 || c.flags >= FLAGS_KNOWN_LIMIT {
      return None;
    }
    if c.authenticators == [] || |c.authenticators| > AUTHENTICATOR_MAX_COUNT {
      return None;
    }
    var es :- ToAuthenticators(c.authenticators);
    if !SlotsIncrease(es) {
      return None;
    }
    if !Satisfiable(c.spendThreshold, es, CAP_SPEND) || !Satisfiable(c.rotateThreshold, es, CAP_ROTATE) {
      return None;
    }
    if Bit(c.flags, FLAG_RECOVERY_ENABLED) && !Satisfiable(c.recoveryThreshold, es, CAP_RECOVERY) {
      return None;
    }
    assert OwnChecks(c, es);
    CheckedIsValid(c, es);
    var encoded := EncodeState(StateOf(c, es));
    var bytes :- encoded;
    ValidIsBounded(StateOf(c, es));
    EncodableIsValid(StateOf(c, es));
    var validated := ValidateState(bytes);
    assert validated.Some?; // the second validation always passes
    return Some(bytes);
  }

  /** The bytes decode to the configuration, with sequence 0, and carry its own sums as summary weights. */
  lemma EncodedConfigDecodes(c: AccountStateConfig, es: seq<Entry>)
    requires ToAuthenticators(c.authenticators) == Some(es) && EncodedConfig(c).Some?
    ensures DecodedState(EncodedConfig(c).value) == Some(StateOf(c, es)) && c.sequence == 0
    ensures var v := Validated(EncodedConfig(c).value);
            && v.Some?
            && v.value.1.spendWeight == AvailableWeight(es, CAP_SPEND)
            && v.value.1.rotateWeight == AvailableWeight(es, CAP_ROTATE)
            && v.value.1.recoveryWeight == AvailableWeight(es, CAP_RECOVERY)
  {
    hide ValidatorChecks;
    hide ToAuthenticators;
    hide Satisfiable;
    hide SlotsIncrease;
    hide StateBytes;
    hide DecodedState;
    hide Validated;
    hide ValidAccountState;
    CheckedIsValid(c, es);
    ValidIsBounded(StateOf(c, es));
    EncodedIsDecoded(StateOf(c, es));
    ValidatedIsEncoded(StateBytes(StateOf(c, es)), StateOf(c, es));
    SumsAgree(es, CAP_SPEND);
    SumsAgree(es, CAP_ROTATE);
    SumsAgree(es, CAP_RECOVERY);
  }
}
