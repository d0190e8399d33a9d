/** The P-256 verifier around its cryptography: what it accepts, and that an assertion is good for one context only. */
module VerifierP256 {
  import opened Bytes
  import opened Protocol
  import opened ProofCodec
  import opened RequestCodec
  import opened ClientData
  import opened Transaction
  import opened Sighash
  import opened AccountLock
  import Base64Url
  import Binding
  import State = StateCodec

  /**
   * The foreign libraries as arbitrary functions: the two hashes, the canonical SEC1 and DER checks
   * (parse, encode again, compare) and the signature check over a prehash.
   */
  datatype Crypto = Crypto(
    ckbHash: Bytes -> Digest,
    sha256: Bytes -> Digest,
    canonicalKey: Bytes -> bool,
    canonicalSignature: Bytes -> bool,
    verifies: (Bytes, Digest, Bytes) -> bool)

  const AUX_LEN: nat := 65

  const VALID: int := 0
  const INVALID_PROOF: int := 1
  const MALFORMED_REQUEST: int := 2
  const UNSUPPORTED_ALGORITHM: int := 3
  const UNSUPPORTED_PROFILE: int := 4
  const KEY_ID_MISMATCH: int := 5
  const MALFORMED_KEY: int := 6
  const MALFORMED_PROOF: int := 7
  const DIGEST_BINDING_FAILURE: int := 8
  const AUX_MISMATCH: int := 9

  /** User present and user verified, bits 0 and 2 of the authenticator data's flags. */
  predicate UserVerified(flags: Byte) {
    Bit(flags, 0) && Bit(flags, 2)
  }

  /** What the assertion of a P-256 authenticator has to show for one authorization digest, whatever the key. */
  ghost predicate IsGoodAssertion(c: Crypto, q: VerifierRequest, p: P256Proof)
    requires |q.aux| == AUX_LEN && ValidP256Proof(p)
  {
    && c.sha256(p.origin) == q.aux[33..65]
    && p.authenticatorData[..32] == q.aux[1..33]
    && UserVerified(p.authenticatorData[32])
    && AcceptedClientData(p.clientDataJson, Base64Url.Encoded(q.authorizationDigest), p.origin)
    && c.canonicalKey(p.publicKey) && c.canonicalSignature(p.signature)
    && c.verifies(p.publicKey, c.sha256(p.authenticatorData + c.sha256(p.clientDataJson)), p.signature)
  }

  /** A good assertion of the very key the request names. */
  ghost predicate ProvesPossession(c: Crypto, q: VerifierRequest, p: P256Proof)
    requires |q.aux| == AUX_LEN && ValidP256Proof(p)
  {
    c.ckbHash(p.publicKey) == q.keyId && p.publicKey[0] == 4 && IsGoodAssertion(c, q, p)
  }

  ghost predicate AcceptsRequest(c: Crypto, q: VerifierRequest) {
    && q.algorithmId == ALG_P256_WEBAUTHN && q.verifierProfile == PROFILE_V1
    && |q.aux| == AUX_LEN && q.aux[0] == PROFILE_V1
    && exists p :: ValidP256Proof(p) && q.proof == P256ProofBytes(p) && ProvesPossession(c, q, p)
  }

  /** The same libraries, but every signature is good. */
  function Lenient(c: Crypto): Crypto {
    c.(verifies := (_: Bytes, _: Digest, _: Bytes) => true)
  }

  /** Exit codes 1 to 4: only the signature is wrong, or what the request says about itself. */
  method Verify(c: Crypto, data: Bytes) returns (code: int)
    ensures code == VALID <==> ParseRequest(data).Some? && AcceptsRequest(c, ParseRequest(data).value)
    ensures code == INVALID_PROOF <==>
            && ParseRequest(data).Some? && AcceptsRequest(Lenient(c), ParseRequest(data).value)
            && !AcceptsRequest(c, ParseRequest(data).value)
    ensures code == MALFORMED_REQUEST <==> ParseRequest(data).None?
    ensures code == UNSUPPORTED_ALGORITHM <==> ParseRequest(data).Some? && ParseRequest(data).value.algorithmId != 1
    ensures code == UNSUPPORTED_PROFILE <==>
            && ParseRequest(data).Some? && ParseRequest(data).value.algorithmId == 1
            && ParseRequest(data).value.verifierProfile != 1
    ensures 0 <= code <= 9
  {
    hide ParseRequest;
    hide ParseP256Proof;
    hide ValidP256Proof;
    hide P256ProofBytes;
    hide AcceptedClientData;
    if ParseRequest(data).None? {
      return MALFORMED_REQUEST;
    }
    var q := ParseRequest(data).value;
    if q.algorithmId != ALG_P256_WEBAUTHN {
      return UNSUPPORTED_ALGORITHM;
    }
    if q.verifierProfile != PROFILE_V1 {
      return UNSUPPORTED_PROFILE;
    }
    if |q.aux| != AUX_LEN || q.aux[0] != PROFILE_V1 {
      return AUX_MISMATCH;
    }
    var parsed := ParseProof(q.proof);
    ParsedProofIsTheOne(q.proof);
    if parsed.None? {
      return MALFORMED_PROOF;
    }
    var proof := parsed.value;
    FieldLengths(proof);
    assert ProvesPossession(c, q, proof) <==> AcceptsRequest(c, q);
    assert ProvesPossession(Lenient(c), q, proof) <==> AcceptsRequest(Lenient(c), q);
    if c.ckbHash(proof.publicKey) != q.keyId {
      return KEY_ID_MISMATCH;
    }
    if c.sha256(proof.origin) != q.aux[33..65] {
      return AUX_MISMATCH;
    }
    if proof.authenticatorData[..32] != q.aux[1..33] || !UserVerified(proof.authenticatorData[32]) {
      return AUX_MISMATCH;
    }
    var challenge := Base64Url.Base64UrlDigest(q.authorizationDigest);
    var bound := ValidateClientData(proof.clientDataJson, challenge, proof.origin);
    if !bound {
      return DIGEST_BINDING_FAILURE;
    }
    if proof.publicKey[0] != 4 || !c.canonicalKey(proof.publicKey) {
      return MALFORMED_KEY;
    }
    if !c.canonicalSignature(proof.signature) {
      return MALFORMED_PROOF;
    }
    var signed := c.sha256(proof.authenticatorData + c.sha256(proof.clientDataJson));
    return if c.verifies(proof.publicKey, signed, proof.signature) then VALID else INVALID_PROOF;
  }

  lemma ParsedProofIsTheOne(data: Bytes)
    ensures forall p :: ValidP256Proof(p) && data == P256ProofBytes(p) <==> ParseP256Proof(data) == Some(p)
  {
    hide ParseP256Proof;
    hide P256ProofBytes;
    forall p ensures ValidP256Proof(p) && data == P256ProofBytes(p) <==> ParseP256Proof(data) == Some(p) {
      ParsedP256ProofIsEncoded(data, p);
    }
  }

  lemma FieldLengths(p: P256Proof)
    requires ValidP256Proof(p)
    ensures |p.publicKey| == PUBLIC_KEY_LEN && |p.authenticatorData| >= MIN_AUTHENTICATOR_DATA_LEN
  {
  }

  // ----- One assertion, one context -----

  /** Client data accepted for two challenges was accepted for one: its reading is unique. */
  lemma ClientDataFixesChallenge(json: Bytes, challenge1: Bytes, origin1: Bytes, challenge2: Bytes, origin2: Bytes)
    requires AcceptedClientData(json, challenge1, origin1) && AcceptedClientData(json, challenge2, origin2)
    ensures challenge1 == challenge2 && origin1 == origin2
  {
    hide ValidDocument;
    hide DocumentBytes;
    hide ParseDocument;
    var d1 :| ValidDocument(d1) && json == DocumentBytes(d1) && Binds(d1, challenge1, origin1);
    var d2 :| ValidDocument(d2) && json == DocumentBytes(d2) && Binds(d2, challenge2, origin2);
    ParsedDocumentIsRead(json, d1);
    ParsedDocumentIsRead(json, d2);
  }

  /** An accepted challenge determines the authorization digest. */
  lemma ClientDataFixesDigest(json: Bytes, digest1: Digest, origin1: Bytes, digest2: Digest, origin2: Bytes)
    requires AcceptedClientData(json, Base64Url.Encoded(digest1), origin1)
    requires AcceptedClientData(json, Base64Url.Encoded(digest2), origin2)
    ensures digest1 == digest2
  {
    hide AcceptedClientData;
    hide Base64Url.Encoded;
    ClientDataFixesChallenge(json, Base64Url.Encoded(digest1), origin1, Base64Url.Encoded(digest2), origin2);
    Base64Url.EncodedIsDecoded(digest1);
    Base64Url.EncodedIsDecoded(digest2);
  }

  /**
   * From the browser to the ledger: if the verifier accepts the same client data in two runs of
   * AccountLock, whatever the slots, accounts and transactions, then both runs authorize one and the
   * same context, or two different byte strings with one hash can be read off the runs.
   */
  lemma AssertionIsGoodForOneContext(c: Crypto, h: Hashes,
                                     tx1: Transaction, script1: Bytes, t1: Task, auth1: State.Entry, p1: P256Proof,
                                     tx2: Transaction, script2: Bytes, t2: Task, auth2: State.Entry, p2: P256Proof)
    requires Prepare(h, tx1, script1) == Some(t1) && Prepare(h, tx2, script2) == Some(t2)
    requires |auth1.keyId| == 32 && |auth1.aux| == AUX_LEN && ValidP256Proof(p1)
    requires |auth2.keyId| == 32 && |auth2.aux| == AUX_LEN && ValidP256Proof(p2)
    requires ProvesPossession(c, RequestFor(auth1, t1.operation, t1.digest, P256ProofBytes(p1)), p1)
    requires ProvesPossession(c, RequestFor(auth2, t2.operation, t2.digest, P256ProofBytes(p2)), p2)
    requires p1.clientDataJson == p2.clientDataJson
    ensures Covered(tx1, Group(tx1, script1)).Some? && Covered(tx2, Group(tx2, script2)).Some?
    ensures var c1, c2 := Binding.ContextOf(tx1, script1, t1), Binding.ContextOf(tx2, script2, t2);
            && AllSized(c1.covered) && AllSized(c2.covered)
            && (|| c1 == c2
                || Collide(h, ContextPreimage(h, c1), ContextPreimage(h, c2))
                || Collide(h, c1.state, c2.state)
                || Collide(h, Stream(c1.txHash, c1.covered), Stream(c2.txHash, c2.covered)))
  {
    hide Prepare;
    hide Covered;
    hide Group;
    hide Stream;
    hide ContextPreimage;
    hide P256ProofBytes;
    hide AcceptedClientData;
    hide Base64Url.Encoded;
    ClientDataFixesDigest(p1.clientDataJson, t1.digest, p1.origin, t2.digest, p2.origin);
    Binding.EqualDigestsBindRuns(h, tx1, script1, t1, tx2, script2, t2);
  }
}
