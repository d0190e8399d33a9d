/** VerifierRequestV1: what AccountLock sends to a verifier child, built once by the lock and once by the host. */
module RequestCodec {
  import opened Bytes
  import opened Protocol
  import opened StateCodec

  datatype VerifierRequest = VerifierRequest(
    algorithmId: U16,
    slot: U16,
    operation: Byte,
    verifierProfile: Byte,
    authorizationDigest: Digest,
    keyId: Digest,
    aux: Bytes,
    proof: Bytes)

  predicate ValidRequest(q: VerifierRequest) {
    CapabilityForOperation(q.operation).Some? && |q.aux| <= MAX_AUX_LEN && |q.proof| <= MAX_PROOF_LEN
  }

  function FixedBytes(q: VerifierRequest): (b: Bytes)
    requires |q.aux| <= U32_MAX && |q.proof| <= U32_MAX
    ensures |b| == REQUEST_HEADER_LEN
  {
    VERIFIER_MAGIC + [VERIFIER_ABI_V1, 0] + U16Le(REQUEST_HEADER_LEN) + U16Le(q.algorithmId) + U16Le(q.slot)
    + [q.operation, q.verifierProfile, 0, 0] + q.authorizationDigest + q.keyId
    + U32Le(|q.aux|) + U32Le(|q.proof|) + [0, 0, 0, 0, 0, 0, 0, 0]
  }

  function RequestBytes(q: VerifierRequest): (b: Bytes)
    requires |q.aux| <= U32_MAX && |q.proof| <= U32_MAX
    ensures |b| == REQUEST_HEADER_LEN + |q.aux| + |q.proof|
  {
    FixedBytes(q) + q.aux + q.proof
  }

  function ParseRequest(data: Bytes): Option<VerifierRequest> {
    if |data| < REQUEST_HEADER_LEN || |data| > MAX_REQUEST_LEN then None
    else if data[0..4] != VERIFIER_MAGIC || data[4] != VERIFIER_ABI_V1 then None
    else if data[5] != 0 || U16At(data, 6) != REQUEST_HEADER_LEN then None
    else if CapabilityForOperation(data[12]).None? then None
    else if data[14] != 0 || data[15] != 0 || (exists k | 88 <= k < 96 :: data[k] != 0) then None
    else
      var auxLen, proofLen := U32At(data, 80), U32At(data, 84);
      var auxEnd := REQUEST_HEADER_LEN + auxLen;
      if auxLen > MAX_AUX_LEN || proofLen > MAX_PROOF_LEN || auxEnd + proofLen != |data| then None
      else Some(VerifierRequest(U16At(data, 8), U16At(data, 10), data[12], data[13], data[16..48], data[48..80],
                                data[REQUEST_HEADER_LEN..auxEnd], data[auxEnd..]))
  }

  lemma RequestFields(q: VerifierRequest, data: Bytes)
    requires |q.aux| <= U32_MAX && |q.proof| <= U32_MAX
    requires REQUEST_HEADER_LEN <= |data| && data[..REQUEST_HEADER_LEN] == FixedBytes(q)
    ensures data[0..4] == VERIFIER_MAGIC && data[4] == VERIFIER_ABI_V1 && data[5] == 0
    ensures U16At(data, 6) == REQUEST_HEADER_LEN && U16At(data, 8) == q.algorithmId && U16At(data, 10) == q.slot
    ensures data[12] == q.operation && data[13] == q.verifierProfile && data[14] == 0 && data[15] == 0
    ensures data[16..48] == q.authorizationDigest && data[48..80] == q.keyId
    ensures U32At(data, 80) == |q.aux| && U32At(data, 84) == |q.proof|
    ensures forall k | 88 <= k < 96 :: data[k] == 0
  {
    hide Le;
    hide FromLe;
    var n := REQUEST_HEADER_LEN;
    var d := data[0..n];
    assert d == data[..n];
    assert d[0..4] == VERIFIER_MAGIC && d[4] == VERIFIER_ABI_V1 && d[5] == 0;
    assert d[6..8] == U16Le(n) && d[8..10] == U16Le(q.algorithmId) && d[10..12] == U16Le(q.slot);
    assert d[12] == q.operation && d[13] == q.verifierProfile && d[14] == 0 && d[15] == 0;
    assert d[16..48] == q.authorizationDigest && d[48..80] == q.keyId;
    assert d[80..84] == U32Le(|q.aux|) && d[84..88] == U32Le(|q.proof|);
    assert d[88..96] == [0, 0, 0, 0, 0, 0, 0, 0];
    SliceOfSlice(data, 0, n, 0, 4);
    SliceOfSlice(data, 0, n, 6, 8);
    SliceOfSlice(data, 0, n, 8, 10);
    SliceOfSlice(data, 0, n, 10, 12);
    SliceOfSlice(data, 0, n, 16, 48);
    SliceOfSlice(data, 0, n, 48, 80);
    SliceOfSlice(data, 0, n, 80, 84);
    SliceOfSlice(data, 0, n, 84, 88);
    forall k | 88 <= k < 96 ensures data[k] == 0 {
      assert data[k] == d[k] == d[88..96][k - 88];
    }
  }

  lemma FixedBytesAre(data: Bytes, q: VerifierRequest)
    requires ParseRequest(data) == Some(q)
    ensures data[..REQUEST_HEADER_LEN] == FixedBytes(q)
  {
    hide Le;
    hide FromLe;
    assert data[88..96] == [0, 0, 0, 0, 0, 0, 0, 0];
    hide CapabilityForOperation;
    var front := data[0..4] + [data[4], data[5]] + data[6..8] + data[8..10] + data[10..12]
                 + [data[12], data[13], data[14], data[15]];
    assert front == data[..16];
    assert FixedBytes(q) == front + data[16..48] + data[48..80] + data[80..84] + data[84..88] + data[88..96];
  }

  /**
   * The parser accepts exactly the encodings of valid requests and returns what was encoded. The
   * three separate limits already bound the total, so neither encoder's total check decides anything.
   */
  lemma ParsedRequestIsEncoded(data: Bytes, q: VerifierRequest)
    ensures ParseRequest(data) == Some(q) <==> ValidRequest(q) && data == RequestBytes(q)
    ensures ValidRequest(q) ==> |RequestBytes(q)| <= MAX_REQUEST_LEN
  {
    hide Le;
    hide FromLe;
    hide FixedBytes;
    if ParseRequest(data) == Some(q) {
      FixedBytesAre(data, q);
      assert data == data[..REQUEST_HEADER_LEN] + q.aux + q.proof;
    }
    if ValidRequest(q) && data == RequestBytes(q) {
      var auxEnd := REQUEST_HEADER_LEN + |q.aux|;
      assert data[..REQUEST_HEADER_LEN] == FixedBytes(q);
      assert data[REQUEST_HEADER_LEN..auxEnd] == q.aux && data[auxEnd..] == q.proof;
      RequestFields(q, data);
    }
  }

  /** Request encodings are prefix-free. */
  lemma RequestIsDetermined(p: VerifierRequest, q: VerifierRequest)
    requires ValidRequest(p) && ValidRequest(q) && RequestBytes(p) <= RequestBytes(q)
    ensures p == q
  {
    hide Le;
    hide FromLe;
    hide FixedBytes;
    var n, x, y := REQUEST_HEADER_LEN, RequestBytes(p), RequestBytes(q);
    assert x[..n] == FixedBytes(p) && y[..n] == FixedBytes(q) && x[..n] == y[..n];
    RequestFields(p, y);
    RequestFields(q, y);
    var m := n + |p.aux|;
    assert x[n..m] == p.aux && y[n..m] == q.aux;
    assert x[m..] == p.proof && y[m..] == q.proof;
  }

  /** The host's encoder; its total-length check follows the two part checks and is the assertion here. */
  method EncodeVerifierRequest(q: VerifierRequest) returns (r: Option<Bytes>)
    ensures r == if ValidRequest(q) then Some(RequestBytes(q)) else None
  {
    hide Le;
    hide FromLe;
    hide ParseRequest;
    if CapabilityForOperation(q.operation).None? || |q.aux| > MAX_AUX_LEN || |q.proof| > MAX_PROOF_LEN {
      return None;
    }
    assert REQUEST_HEADER_LEN + |q.aux| + |q.proof| <= MAX_REQUEST_LEN;
    var out := VERIFIER_MAGIC;
    out := out + [VERIFIER_ABI_V1] + [0];
    out := out + U16Le(REQUEST_HEADER_LEN);
    out := out + U16Le(q.algorithmId);
    out := out + U16Le(q.slot);
    out := out + [q.operation] + [q.verifierProfile] + [0, 0];
    out := out + q.authorizationDigest;
    out := out + q.keyId;
    out := out + U32Le(|q.aux|);
    out := out + U32Le(|q.proof|);
    out := out + [0, 0, 0, 0, 0, 0, 0, 0];
    assert out == FixedBytes(q);
    out := out + q.aux;
    out := out + q.proof;
    ParsedRequestIsEncoded(out, q);
    assert ParseRequest(out).Some?; // the self-check at the end always passes
    return Some(out);
  }

  /** The request a state entry gives rise to: its profile byte is the first byte of its aux data. */
  function RequestFor(auth: Entry, operation: Byte, digest: Digest, proof: Bytes): VerifierRequest
    requires |auth.keyId| == 32 && auth.aux != []
  {
    VerifierRequest(auth.algorithmId, auth.slot, operation, auth.aux[0], digest, auth.keyId, auth.aux, proof)
  }

  function LockRequest(auth: Entry, operation: Byte, digest: Digest, proof: Bytes): Option<Bytes> {
    if |auth.keyId| == 32 && auth.aux != [] && ValidRequest(RequestFor(auth, operation, digest, proof))
    then Some(RequestBytes(RequestFor(auth, operation, digest, proof)))
    else None
  }

  /** The lock's encoder agrees with the host's on success and on every byte. */
  method EncodeRequest(auth: Entry, operation: Byte, digest: Digest, proof: Bytes) returns (r: Option<Bytes>)
    ensures r == LockRequest(auth, operation, digest, proof)
  {
    hide Le;
    hide FromLe;
    hide ParseRequest;
    if |auth.keyId| != 32 || auth.aux == [] || |proof| > MAX_PROOF_LEN {
      return None;
    }
    var total := REQUEST_HEADER_LEN + |auth.aux| + |proof|;
    if total > MAX_REQUEST_LEN {
      return None;
    }
    var output := VERIFIER_MAGIC;
    output := output + [VERIFIER_ABI_V1, 0];
    output := output + U16Le(REQUEST_HEADER_LEN);
    output := output + U16Le(auth.algorithmId);
    output := output + U16Le(auth.slot);
    output := output + [operation, auth.aux[0], 0, 0];
    output := output + digest;
    output := output + auth.keyId;
    output := output + U32Le(|auth.aux|);
    output := output + U32Le(|proof|);
    output := output + [0, 0, 0, 0, 0, 0, 0, 0];
    ghost var q := RequestFor(auth, operation, digest, proof);
    assert output == FixedBytes(q);
    output := output + auth.aux;
    output := output + proof;
    if !ValidRequest(q) {
      RejectsInvalid(q);
    }
    ParsedRequestIsEncoded(output, q);
    var _ :- ParseRequest(output);
    return Some(output);
  }

  /** Parsing the bytes of a request that breaks a limit fails. */
  lemma RejectsInvalid(q: VerifierRequest)
    requires |q.aux| <= U32_MAX && |q.proof| <= U32_MAX && !ValidRequest(q)
    ensures ParseRequest(RequestBytes(q)).None?
  {
    var data := RequestBytes(q);
    assert data[..REQUEST_HEADER_LEN] == FixedBytes(q);
    RequestFields(q, data);
  }
}
