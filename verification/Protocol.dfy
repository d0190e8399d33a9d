/** The constants of the AccountLock protocol, version 1. */
module Protocol {
  import opened Bytes

  const ACCOUNT_LOCK_VERSION: Byte := 1
  const ACCOUNT_LOCK_ARGS_LEN: nat := 33

  const STATE_MAGIC: Bytes := [0x43, 0x4b, 0x41, 0x53] // "CKAS"
  const STATE_VERSION: Byte := 1
  const STATE_HEADER_LEN: U16 := 32
  const STATE_MAX_LEN: nat := 16_384
  const ENTRY_FIXED_LEN: nat := 48
  const AUTHENTICATOR_MAX_COUNT: nat := 16

  const WITNESS_MAGIC: Bytes := [0x43, 0x4b, 0x41, 0x57] // "CKAW"
  const WITNESS_VERSION: Byte := 1
  const WITNESS_HEADER_LEN: nat := 16
  const WITNESS_MAX_LOCK_LEN: nat := 131_072

  const VERIFIER_MAGIC: Bytes := [0x43, 0x4b, 0x56, 0x52] // "CKVR"
  const VERIFIER_ABI_V1: Byte := 1
  const REQUEST_HEADER_LEN: U16 := 96
  const MAX_AUX_LEN: nat := 4_096
  const MAX_PROOF_LEN: nat := 65_536
  const MAX_REQUEST_LEN: nat := 69_728

  // "CKB_ACCOUNT_LOCK_V1"
  const AUTH_DOMAIN: Bytes := [
    0x43, 0x4b, 0x42, 0x5f, 0x41, 0x43, 0x43, 0x4f, 0x55, 0x4e, 0x54, 0x5f, 0x4c, 0x4f, 0x43,
    0x4b, 0x5f, 0x56, 0x31]

  const OP_SPEND: Byte := 1
  const OP_ROTATE: Byte := 2
  const OP_RECOVERY: Byte := 3

  // Capabilities are named by the bit they occupy; the known mask is 0x000f.
  const CAP_SPEND: nat := 0
  const CAP_ROTATE: nat := 1
  const CAP_RECOVERY: nat := 2
  const CAP_KNOWN_LIMIT: nat := 0x10

  // The state flags, also by bit; the known mask is 0x03.
  const FLAG_RECOVERY_ENABLED: nat := 0
  const FLAGS_KNOWN_LIMIT: nat := 4

  const ALG_P256_WEBAUTHN: U16 := 0x0001
  const ALG_MLDSA44: U16 := 0x0101
  const ALG_MLDSA65: U16 := 0x0102
  const ALG_MLDSA87: U16 := 0x0103
  const ALG_SLHDSA: U16 := 0x0201

  const PROFILE_V1: Byte := 1

  predicate IsSupportedAlgorithm(algorithmId: U16) {
    algorithmId in {ALG_P256_WEBAUTHN, ALG_MLDSA44, ALG_MLDSA65, ALG_MLDSA87, ALG_SLHDSA}
  }

  function CapabilityForOperation(operation: Byte): Option<nat> {
    if operation == OP_SPEND then Some(CAP_SPEND)
    else if operation == OP_ROTATE then Some(CAP_ROTATE)
    else if operation == OP_RECOVERY then Some(CAP_RECOVERY)
    else None
  }
}
