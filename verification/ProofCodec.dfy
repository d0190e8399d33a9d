/** The two inner proof formats: PublicKeyProof (ML-DSA, SLH-DSA) and P256ProofV1. */
module ProofCodec {
  import opened Bytes

  // ----- PublicKeyProof -----

  datatype PublicKeyProof = PublicKeyProof(publicKey: Bytes, signature: Bytes)

  const PUBLIC_KEY_PROOF_VERSION: Byte := 1

  predicate ValidPublicKeyProof(p: PublicKeyProof) {
    0 < |p.publicKey| <= U16_MAX && 0 < |p.signature| <= U16_MAX
  }

  function PublicKeyProofBytes(p: PublicKeyProof): Bytes
    requires |p.publicKey| <= U16_MAX && |p.signature| <= U16_MAX
  {
    [PUBLIC_KEY_PROOF_VERSION] + U16Le(|p.publicKey|) + U16Le(|p.signature|) + p.publicKey + p.signature
  }

  function ParsePublicKeyProof(data: Bytes): Option<PublicKeyProof> {
    if |data| < 5 || data[0] != PUBLIC_KEY_PROOF_VERSION then None
    else
      var keyLen, signatureLen := U16At(data, 1), U16At(data, 3);
      if keyLen == 0 || signatureLen == 0 || 5 + keyLen + signatureLen != |data| then None
      else Some(PublicKeyProof(data[5..5 + keyLen], data[5 + keyLen..]))
  }

  lemma ParsedPublicKeyProofIsEncoded(data: Bytes, p: PublicKeyProof)
    ensures ParsePublicKeyProof(data) == Some(p) <==> ValidPublicKeyProof(p) && data == PublicKeyProofBytes(p)
  {
    hide Le;
    hide FromLe;
    if ParsePublicKeyProof(data) == Some(p) {
      assert data == [data[0]] + data[1..3] + data[3..5] + p.publicKey + p.signature;
    }
    if ValidPublicKeyProof(p) && data == PublicKeyProofBytes(p) {
      assert data[1..3] == U16Le(|p.publicKey|) && data[3..5] == U16Le(|p.signature|);
      assert data[5..5 + |p.publicKey|] == p.publicKey && data[5 + |p.publicKey|..] == p.signature;
    }
  }

  method EncodePublicKeyProof(p: PublicKeyProof) returns (r: Option<Bytes>)
    ensures r == if ValidPublicKeyProof(p) then Some(PublicKeyProofBytes(p)) else None
  {
    if p.publicKey == [] || p.signature == [] {
      return None;
    }
    if |p.publicKey| > U16_MAX || |p.signature| > U16_MAX {
      return None;
    }
    var out: Bytes := [1];
    out := out + U16Le(|p.publicKey|);
    out := out + U16Le(|p.signature|);
    out := out + p.publicKey;
    out := out + p.signature;
    ParsedPublicKeyProofIsEncoded(out, p);
    assert ParsePublicKeyProof(out).Some?; // the self-check at the end always passes
    return Some(out);
  }

  // ----- P256ProofV1 -----

  datatype P256Proof = P256Proof(
    publicKey: Bytes,
    origin: Bytes,
    authenticatorData: Bytes,
    clientDataJson: Bytes,
    signature: Bytes)

  const PUBLIC_KEY_LEN: nat := 65
  const MIN_AUTHENTICATOR_DATA_LEN: nat := 37

  /** What the verifier's parser demands. */
  predicate ValidP256Proof(p: P256Proof) {
    && |p.publicKey| == PUBLIC_KEY_LEN
    && 0 < |p.origin| <= 0xff
    && MIN_AUTHENTICATOR_DATA_LEN <= |p.authenticatorData| <= U16_MAX
    && 0 < |p.clientDataJson| <= U16_MAX
    && 0 < |p.signature| <= U16_MAX
  }

  function P256ProofBytes(p: P256Proof): Bytes
    requires |p.origin| <= 0xff && |p.authenticatorData| <= U16_MAX
    requires |p.clientDataJson| <= U16_MAX && |p.signature| <= U16_MAX
  {
    p.publicKey + ([|p.origin|] + p.origin) + (U16Le(|p.authenticatorData|) + p.authenticatorData)
    + (U16Le(|p.clientDataJson|) + p.clientDataJson) + (U16Le(|p.signature|) + p.signature)
  }

  /** `len` bytes from the cursor on, if there are that many. */
  function Take(data: Bytes, offset: nat, len: nat): Option<Bytes> {
    if offset + len <= |data| then Some(data[offset..offset + len]) else None
  }

  /** A field that carries its own `u16` length. */
  function TakeSized(data: Bytes, offset: nat): Option<Bytes> {
    if offset + 2 <= |data| then Take(data, offset + 2, U16At(data, offset)) else None
  }

  function ParseP256Proof(data: Bytes): Option<P256Proof> {
    var publicKey :- Take(data, 0, PUBLIC_KEY_LEN);
    var originLen :- Take(data, PUBLIC_KEY_LEN, 1);
    var origin :- Take(data, PUBLIC_KEY_LEN + 1, originLen[0]);
    var at := PUBLIC_KEY_LEN + 1 + |origin|;
    var authenticatorData :- TakeSized(data, at);
    var clientAt := at + 2 + |authenticatorData|;
    var clientDataJson :- TakeSized(data, clientAt);
    var signatureAt := clientAt + 2 + |clientDataJson|;
    var signature :- TakeSized(data, signatureAt);
    if signatureAt + 2 + |signature| != |data| || origin == []
       || |authenticatorData| < MIN_AUTHENTICATOR_DATA_LEN || clientDataJson == [] || signature == [] then None
    else Some(P256Proof(publicKey, origin, authenticatorData, clientDataJson, signature))
  }

  /** The verifier's parser, with its cursor. */
  method ParseProof(data: Bytes) returns (r: Option<P256Proof>)
    ensures r == ParseP256Proof(data)
  {
    hide U16At;
    var offset := 0;
    var publicKey :- Take(data, offset, PUBLIC_KEY_LEN);
    offset := offset + PUBLIC_KEY_LEN;
    var originLen :- Take(data, offset, 1);
    offset := offset + 1;
    var origin :- Take(data, offset, originLen[0]);
    offset := offset + |origin|;
    var authenticatorData :- TakeSized(data, offset);
    offset := offset + 2 + |authenticatorData|;
    var clientDataJson :- TakeSized(data, offset);
    offset := offset + 2 + |clientDataJson|;
    var signature :- TakeSized(data, offset);
    offset := offset + 2 + |signature|;
    if offset != |data| || origin == [] || |authenticatorData| < MIN_AUTHENTICATOR_DATA_LEN
       || clientDataJson == [] || signature == [] {
      return None;
    }
    return Some(P256Proof(publicKey, origin, authenticatorData, clientDataJson, signature));
  }

  lemma TakeSizedIsEncoded(data: Bytes, offset: nat, field: Bytes)
    ensures TakeSized(data, offset) == Some(field) <==>
            && |field| <= U16_MAX
            && offset + 2 + |field| <= |data|
            && data[offset..offset + 2 + |field|] == U16Le(|field|) + field
  {
    hide Le;
    hide FromLe;
    var end := offset + 2 + |field|;
    if TakeSized(data, offset) == Some(field) {
      assert data[offset..end] == data[offset..offset + 2] + data[offset + 2..end];
    }
    if |field| <= U16_MAX && end <= |data| && data[offset..end] == U16Le(|field|) + field {
      var d := data[offset..end];
      assert d[0..2] == U16Le(|field|) && d[2..2 + |field|] == field;
      SliceOfSlice(data, offset, end, 0, 2);
      SliceOfSlice(data, offset, end, 2, 2 + |field|);
    }
  }

  lemma P256ProofFields(p: P256Proof, data: Bytes)
    requires ValidP256Proof(p) && data == P256ProofBytes(p)
    ensures ParseP256Proof(data) == Some(p)
  {
    hide Le;
    hide FromLe;
    hide TakeSized;
    var n := PUBLIC_KEY_LEN;
    var a := n + 1 + |p.origin|;
    var c := a + 2 + |p.authenticatorData|;
    var s := c + 2 + |p.clientDataJson|;
    assert data[..n] == p.publicKey && data[n..n + 1] == [|p.origin|] && data[n + 1..a] == p.origin;
    assert data[a..c] == U16Le(|p.authenticatorData|) + p.authenticatorData;
    assert data[c..s] == U16Le(|p.clientDataJson|) + p.clientDataJson;
    assert data[s..s + 2 + |p.signature|] == U16Le(|p.signature|) + p.signature;
    TakeSizedIsEncoded(data, a, p.authenticatorData);
    TakeSizedIsEncoded(data, c, p.clientDataJson);
    TakeSizedIsEncoded(data, s, p.signature);
  }

  lemma FiveParts(data: Bytes, n: nat, a: nat, c: nat, s: nat)
    requires n <= a <= c <= s <= |data|
    ensures data == data[..n] + data[n..a] + data[a..c] + data[c..s] + data[s..]
  {
  }

  lemma P256ProofBytesAre(data: Bytes, p: P256Proof)
    requires ParseP256Proof(data) == Some(p)
    ensures ValidP256Proof(p) && data == P256ProofBytes(p)
  {
    hide Le;
    hide FromLe;
    hide TakeSized;
    var n := PUBLIC_KEY_LEN;
    var a := n + 1 + |p.origin|;
    var c := a + 2 + |p.authenticatorData|;
    var s := c + 2 + |p.clientDataJson|;
    TakeSizedIsEncoded(data, a, p.authenticatorData);
    TakeSizedIsEncoded(data, c, p.clientDataJson);
    TakeSizedIsEncoded(data, s, p.signature);
    assert |data[s..]| == 2 + |p.signature|;
    assert data[..n] == p.publicKey && data[n..a] == [|p.origin|] + p.origin;
    FiveParts(data, n, a, c, s);
  }

  /** The parser accepts exactly the encodings of valid proofs and returns what was encoded. */
  lemma ParsedP256ProofIsEncoded(data: Bytes, p: P256Proof)
    ensures ParseP256Proof(data) == Some(p) <==> ValidP256Proof(p) && data == P256ProofBytes(p)
  {
    hide ParseP256Proof;
    if ParseP256Proof(data) == Some(p) {
      P256ProofBytesAre(data, p);
    } else if ValidP256Proof(p) && data == P256ProofBytes(p) {
      P256ProofFields(p, data);
    }
  }

  /** The host's encoder additionally insists on an uncompressed SEC1 key. */
  method EncodeP256Proof(p: P256Proof) returns (r: Option<Bytes>)
    ensures r == if ValidP256Proof(p) && p.publicKey[0] == 4 then Some(P256ProofBytes(p)) else None
  {
    hide Le;
    hide FromLe;
    if |p.publicKey| != PUBLIC_KEY_LEN || p.publicKey[0] != 4 || p.origin == [] || |p.origin| > 0xff
       || |p.authenticatorData| < MIN_AUTHENTICATOR_DATA_LEN || p.clientDataJson == [] || p.signature == [] {
      return None;
    }
    if |p.authenticatorData| > U16_MAX || |p.clientDataJson| > U16_MAX || |p.signature| > U16_MAX {
      return None;
    }
    var out: Bytes := [];
    out := out + p.publicKey;
    out := out + [|p.origin|];
    out := out + p.origin;
    out := out + U16Le(|p.authenticatorData|);
    out := out + p.authenticatorData;
    out := out + U16Le(|p.clientDataJson|);
    out := out + p.clientDataJson;
    out := out + U16Le(|p.signature|);
    out := out + p.signature;
    assert out == P256ProofBytes(p);
    return Some(out);
  }
}
