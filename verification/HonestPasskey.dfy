/**
 * What an honest authenticator produces is accepted, and what differs from it in any one respect is refused. An
 * assertion's signature is over the authenticator data followed by the hash of the client data (section 6.3.3 of
 * W3C WebAuthn Level 2), and ECDSA with SHA-256 signs the hash of that.
 */
module HonestPasskey {
  import opened Bytes
  import opened Protocol
  import opened Words
  import opened ProofCodec
  import opened RequestCodec
  import opened ClientData
  import opened VerifierP256
  import Base64Url
  import BrowserData

  /** The prehash of an assertion. */
  function SignedMessage(c: Crypto, authenticatorData: Bytes, clientDataJson: Bytes): Digest {
    var clientDataHash := c.sha256(clientDataJson);
    c.sha256(authenticatorData + clientDataHash)
  }

  lemma FlagsAre(flags: Byte)
    ensures UserVerified(flags) <==> flags % 2 == 1 && flags / 4 % 2 == 1
  {
    BitsAreMasks(flags);
  }

  /** The relying party's hash, the flags and a four-byte counter (section 6.1). */
  function AuthenticatorData(rpIdHash: Digest, flags: Byte, counter: Bytes): (b: Bytes)
    requires |counter| == 4
    ensures |b| == 37 && b[..32] == rpIdHash && b[32] == flags
  {
    rpIdHash + [flags] + counter
  }

  /** The account's `aux` for a passkey: profile 1, its relying party and its origin. */
  function PasskeyAux(rpIdHash: Digest, originHash: Digest): (aux: Bytes)
    ensures |aux| == 65 && aux[0] == 1 && aux[1..33] == rpIdHash && aux[33..65] == originHash
  {
    [1] + rpIdHash + originHash
  }

  /** The verifier's decision on a proof, condition by condition. */
  lemma AcceptsExactly(c: Crypto, q: VerifierRequest, p: P256Proof)
    requires ValidP256Proof(p) && q.proof == P256ProofBytes(p)
    ensures AcceptsRequest(c, q) <==>
            && q.algorithmId == 1 && q.verifierProfile == 1 && |q.aux| == 65 && q.aux[0] == 1
            && c.ckbHash(p.publicKey) == q.keyId
            && p.authenticatorData[..32] == q.aux[1..33] && c.sha256(p.origin) == q.aux[33..65]
            && p.authenticatorData[32] % 2 == 1 && p.authenticatorData[32] / 4 % 2 == 1
            && AcceptedClientData(p.clientDataJson, Base64Url.Encoded(q.authorizationDigest), p.origin)
            && p.publicKey[0] == 4 && c.canonicalKey(p.publicKey) && c.canonicalSignature(p.signature)
            && c.verifies(p.publicKey, SignedMessage(c, p.authenticatorData, p.clientDataJson), p.signature)
  {
    hide P256ProofBytes;
    hide ParseP256Proof;
    hide AcceptedClientData;
    ParsedProofIsTheOne(q.proof);
    FlagsAre(p.authenticatorData[32]);
  }

  // ----- Completeness -----

  /** A key pair: whatever it signs verifies under the key. */
  ghost predicate IsKeyPair(c: Crypto, key: Bytes, sign: Digest -> Bytes) {
    && |key| == 65 && key[0] == 4 && c.canonicalKey(key)
    && forall m: Digest :: c.canonicalSignature(sign(m)) && 1 <= |sign(m)| <= 65_535 && c.verifies(key, m, sign(m))
  }

  /** What the browser and the authenticator make of a challenge together. */
  function Assertion(c: Crypto, key: Bytes, sign: Digest -> Bytes, rpIdHash: Digest, origin: Bytes, counter: Bytes,
                     digest: Digest): P256Proof
    requires |counter| == 4
  {
    var authenticatorData := AuthenticatorData(rpIdHash, 0x05, counter);
    var json := BrowserData.Written(Base64Url.Encoded(digest), origin, false);
    P256Proof(key, origin, authenticatorData, json, sign(SignedMessage(c, authenticatorData, json)))
  }

  /** The length of a digest's encoding. */
  lemma ChallengeLength(digest: Digest)
    ensures |Base64Url.Encoded(digest)| == 43
  {
    hide Base64Url.EncodeChunk;
    EncodedLength(digest);
  }

  lemma {:induction false} EncodedLength(input: Bytes)
    ensures |Base64Url.Encoded(input)| == (4 * |input| + 2) / 3
    decreases |input|
  {
    if input != [] {
      ChunkLength(if |input| <= 3 then input else input[..3]);
      hide Base64Url.EncodeChunk;
      if |input| > 3 {
        EncodedLength(input[3..]);
      }
    }
  }

  lemma ChunkLength(chunk: Bytes)
    requires 1 <= |chunk| <= 3
    ensures |Base64Url.EncodeChunk(chunk)| == |chunk| + 1
  {
    Base64Url.ChunkIsDecoded(chunk);
  }

  lemma ClientDataLength(challenge: Bytes, origin: Bytes)
    ensures |BrowserData.Written(challenge, origin, false)| == 70 + |challenge| + |origin|
  {
  }

  /** An honest assertion is accepted, for every digest, key pair, relying party, origin and counter. */
  lemma AssertionIsAccepted(c: Crypto, q: VerifierRequest, key: Bytes, sign: Digest -> Bytes, rpIdHash: Digest,
                            origin: Bytes, counter: Bytes)
    requires IsKeyPair(c, key, sign) && |counter| == 4
    requires 1 <= |origin| <= 255 && All(origin, TextByte)
    requires q.algorithmId == 1 && q.verifierProfile == 1 && q.keyId == c.ckbHash(key)
    requires q.aux == PasskeyAux(rpIdHash, c.sha256(origin))
    requires var p := Assertion(c, key, sign, rpIdHash, origin, counter, q.authorizationDigest);
             ValidP256Proof(p) ==> q.proof == P256ProofBytes(p)
    ensures ValidP256Proof(Assertion(c, key, sign, rpIdHash, origin, counter, q.authorizationDigest))
    ensures AcceptsRequest(c, q)
  {
    hide P256ProofBytes;
    hide AcceptsRequest;
    hide AcceptedClientData;
    hide BrowserData.Written;
    hide Base64Url.Encoded;
    hide All;
    var p := Assertion(c, key, sign, rpIdHash, origin, counter, q.authorizationDigest);
    ChallengeLength(q.authorizationDigest);
    ClientDataLength(Base64Url.Encoded(q.authorizationDigest), origin);
    BrowserData.DigestIsAccepted(q.authorizationDigest, origin, false);
    AcceptsExactly(c, q, p);
  }

  /** And so the verifier exits 0 on its request. */
  method VerifyHonest(c: Crypto, q: VerifierRequest, key: Bytes, ghost sign: Digest -> Bytes, ghost rpIdHash: Digest,
                      origin: Bytes, ghost counter: Bytes) returns (code: int)
    requires ValidRequest(q)
    requires IsKeyPair(c, key, sign) && |counter| == 4
    requires 1 <= |origin| <= 255 && All(origin, TextByte)
    requires q.algorithmId == 1 && q.verifierProfile == 1 && q.keyId == c.ckbHash(key)
    requires q.aux == PasskeyAux(rpIdHash, c.sha256(origin))
    requires var p := Assertion(c, key, sign, rpIdHash, origin, counter, q.authorizationDigest);
             ValidP256Proof(p) ==> q.proof == P256ProofBytes(p)
    ensures code == 0
  {
    hide RequestBytes;
    hide ParseRequest;
    hide AcceptsRequest;
    hide P256ProofBytes;
    hide IsKeyPair;
    hide Assertion;
    AssertionIsAccepted(c, q, key, sign, rpIdHash, origin, counter);
    ParsedRequestIsEncoded(RequestBytes(q), q);
    code := Verify(c, RequestBytes(q));
  }

  // ----- Refusals -----

  lemma OtherRelyingPartyIsRefused(c: Crypto, q: VerifierRequest, p: P256Proof)
    requires ValidP256Proof(p) && q.proof == P256ProofBytes(p) && |q.aux| == 65
    requires p.authenticatorData[..32] != q.aux[1..33]
    ensures !AcceptsRequest(c, q)
  {
    hide AcceptsRequest;
    hide P256ProofBytes;
    AcceptsExactly(c, q, p);
  }

  lemma OtherOriginIsRefused(c: Crypto, q: VerifierRequest, p: P256Proof)
    requires ValidP256Proof(p) && q.proof == P256ProofBytes(p) && |q.aux| == 65
    requires c.sha256(p.origin) != q.aux[33..65]
    ensures !AcceptsRequest(c, q)
  {
    hide AcceptsRequest;
    hide P256ProofBytes;
    AcceptsExactly(c, q, p);
  }

  /** Presence without verification, or verification without presence, is not enough. */
  lemma MissingFlagIsRefused(c: Crypto, q: VerifierRequest, p: P256Proof)
    requires ValidP256Proof(p) && q.proof == P256ProofBytes(p)
    requires p.authenticatorData[32] % 2 == 0 || p.authenticatorData[32] / 4 % 2 == 0
    ensures !AcceptsRequest(c, q)
  {
    hide AcceptsRequest;
    hide P256ProofBytes;
    AcceptsExactly(c, q, p);
  }

  lemma OtherMessageIsRefused(c: Crypto, q: VerifierRequest, p: P256Proof)
    requires ValidP256Proof(p) && q.proof == P256ProofBytes(p)
    requires !c.verifies(p.publicKey, SignedMessage(c, p.authenticatorData, p.clientDataJson), p.signature)
    ensures !AcceptsRequest(c, q)
  {
    hide AcceptsRequest;
    hide P256ProofBytes;
    AcceptsExactly(c, q, p);
  }
}
