/**
 * Whether an account that the bootstrap configuration accepts can ever be used. The configuration refuses an
 * account it calls permanently unusable, judging by the available weight; what decides is the usable weight.
 */
module ConfigUse {
  import opened Bytes
  import opened Protocol
  import opened HostConfig
  import opened AccountLock
  import opened LockOut
  import Policy
  import State = StateCodec

  lemma EncodedIsValid(c: AccountStateConfig, es: seq<State.Entry>)
    requires ToAuthenticators(c.authenticators) == Some(es) && EncodedConfig(c).Some?
    ensures State.ValidAccountState(HostConfig.StateOf(c, es)) && OwnChecks(c, es)
  {
    hide ToAuthenticators;
    hide Satisfiable;
    hide SlotsIncrease;
    hide ValidatorChecks;
    hide State.ValidAccountState;
    hide State.StateBytes;
    CheckedIsValid(c, es);
  }

  /** The account is usable for an operation exactly when its usable weight meets the threshold, and recovery,
      where asked for, is enabled. */
  lemma EncodedIsUsableExactly(c: AccountStateConfig, es: seq<State.Entry>, operation: Byte)
    requires ToAuthenticators(c.authenticators) == Some(es) && EncodedConfig(c).Some?
    requires CapabilityForOperation(operation).Some?
    ensures CanBeAccepted(HostConfig.StateOf(c, es), operation) <==>
            && ThresholdFor(HostConfig.StateOf(c, es), operation) <=
               Policy.UsableWeight(es, CapabilityForOperation(operation).value)
            && (operation == OP_RECOVERY ==> Bit(c.flags, FLAG_RECOVERY_ENABLED))
  {
    hide EncodedConfig;
    hide ToAuthenticators;
    hide Satisfiable;
    hide SlotsIncrease;
    hide CanBeAccepted;
    hide Policy.UsableWeight;
    hide State.ValidAccountState;
    EncodedIsValid(c, es);
    AcceptedExactly(HostConfig.StateOf(c, es), operation);
  }

  /** With only P-256 authenticators, whose `aux` is 65 bytes, the account is always usable. */
  lemma P256IsAlwaysUsable(c: AccountStateConfig, es: seq<State.Entry>, operation: Byte)
    requires ToAuthenticators(c.authenticators) == Some(es) && EncodedConfig(c).Some?
    requires CapabilityForOperation(operation).Some?
    requires forall e | e in es :: e.algorithmId == ALG_P256_WEBAUTHN
    requires operation == OP_RECOVERY ==> Bit(c.flags, FLAG_RECOVERY_ENABLED)
    ensures CanBeAccepted(HostConfig.StateOf(c, es), operation)
  {
    hide EncodedConfig;
    hide ToAuthenticators;
    hide CanBeAccepted;
    hide AvailableWeight;
    hide SlotsIncrease;
    hide Bit;
    hide Policy.UsableWeight;
    hide State.CapWeight;
    hide State.ValidAccountState;
    var cap := CapabilityForOperation(operation).value;
    EncodedIsValid(c, es);
    P256AuxIsShort(c.authenticators);
    Policy.UsableIsCapable(es, cap);
    SumsAgree(es, cap);
    EncodedIsUsableExactly(c, es, operation);
  }

  lemma {:induction false} P256AuxIsShort(cs: seq<AuthenticatorConfig>)
    requires ToAuthenticators(cs).Some?
    ensures forall e | e in ToAuthenticators(cs).value && e.algorithmId == ALG_P256_WEBAUTHN :: |e.aux| == 65
  {
    hide ParseHex;
    if cs != [] {
      P256AuxIsShort(cs[1..]);
    }
  }

  // ----- An accepted account that is unusable -----

  /** `n` zero bytes in hex. */
  function ZeroHex(n: nat): string {
    seq(2 * n, _ => '0')
  }

  function Zeros(n: nat): Bytes {
    seq(n, _ => 0)
  }

  lemma {:induction false} ZeroHexIsRead(n: nat)
    ensures DecodeHex(ZeroHex(n)) == Some(Zeros(n))
  {
    if n > 0 {
      ZeroHexIsRead(n - 1);
      assert ZeroHex(n)[2..] == ZeroHex(n - 1);
      assert HexDigit(ZeroHex(n)[0]) == Some(0) && HexDigit(ZeroHex(n)[1]) == Some(0);
      assert [0] + Zeros(n - 1) == Zeros(n);
    } else {
      assert ZeroHex(0) == "" && Zeros(0) == [];
    }
  }

  lemma ZeroHexIsParsed(n: nat)
    ensures ParseHex(ZeroHex(n)) == Some(Zeros(n))
  {
    ZeroHexIsRead(n);
    assert "0x"[1] == 'x';
    assert !("0x" <= ZeroHex(n));
  }

  /** One ML-DSA authenticator that may do everything, with one byte of `aux` too many. */
  function OversizedConfig(): AccountStateConfig {
    AccountStateConfig(1, 0, 1, 1, 1, 0, [
      AuthenticatorConfig(0, ALG_MLDSA65, 7, 1, 0, VERIFIER_ABI_V1, ZeroHex(32), ZeroHex(32),
                          ZeroHex(MAX_AUX_LEN + 1))])
  }

  function OversizedEntries(): seq<State.Entry> {
    [State.Entry(0, ALG_MLDSA65, 7, 1, 0, VERIFIER_ABI_V1, Zeros(32), Zeros(32), Zeros(MAX_AUX_LEN + 1))]
  }

  lemma OversizedIsConverted()
    ensures ToAuthenticators(OversizedConfig().authenticators) == Some(OversizedEntries())
  {
    hide ParseHex;
    hide ZeroHex;
    ZeroHexIsParsed(32);
    ZeroHexIsParsed(MAX_AUX_LEN + 1);
    var cs := OversizedConfig().authenticators;
    assert cs[1..] == [];
    assert ToAuthenticators([]) == Some([]);
    assert ToAuthenticator(cs[0]) == Some(OversizedEntries()[0]);
    assert [OversizedEntries()[0]] + [] == OversizedEntries();
  }

  lemma OversizedPassesChecks()
    ensures OwnChecks(OversizedConfig(), OversizedEntries()) && ValidatorChecks(OversizedConfig(), OversizedEntries())
  {
    hide ZeroHex;
    hide ToAuthenticators;
    OversizedIsConverted();
    var es := OversizedEntries();
    assert Bit(7, CAP_SPEND) && Bit(3, 0) && Bit(7, CAP_ROTATE) && Bit(3, 1) && Bit(7, CAP_RECOVERY);
    assert es[1..] == [];
    assert AvailableWeight(es, CAP_SPEND) == 1 && AvailableWeight(es, CAP_ROTATE) == 1;
    assert AvailableWeight(es, CAP_RECOVERY) == 1;
    assert State.EntrySize(es[0]) == 4177 && State.EntriesSize(es) == 4177;
  }

  lemma OversizedHasNoUse(cap: nat)
    ensures Policy.UsableWeight(OversizedEntries(), cap) == 0
  {
    hide Bit;
    var es := OversizedEntries();
    assert es[..0] == [] && !Policy.IsUsable(es[0], cap);
  }

  /** The configuration accepts an account that no transaction can ever use for anything. */
  lemma UnusableIsEncoded(operation: Byte)
    requires CapabilityForOperation(operation).Some?
    ensures EncodedConfig(OversizedConfig()).Some?
    ensures ToAuthenticators(OversizedConfig().authenticators) == Some(OversizedEntries())
    ensures !CanBeAccepted(HostConfig.StateOf(OversizedConfig(), OversizedEntries()), operation)
  {
    hide OwnChecks;
    hide ValidatorChecks;
    hide ToAuthenticators;
    hide CanBeAccepted;
    hide ZeroHex;
    hide OversizedEntries;
    hide Policy.UsableWeight;
    hide State.StateBytes;
    OversizedIsConverted();
    OversizedPassesChecks();
    OversizedHasNoUse(CapabilityForOperation(operation).value);
    EncodedIsUsableExactly(OversizedConfig(), OversizedEntries(), operation);
  }
}
