/**
 * Where every field lies in every format, byte by byte: offsets, widths and byte order spelled out, each field read
 * by plain arithmetic. With the parsers exact against the encodings, this is what they read, too.
 */
module Layouts {
  import opened Bytes
  import opened Protocol
  import opened Words
  import opened Molecule
  import opened Transaction
  import Req = RequestCodec
  import Sig = Sighash
  import State = StateCodec
  import Wit = WitnessCodec
  import Proofs = ProofCodec

  lemma TailSlice(b: Bytes, n: nat, tail: Bytes, from: nat, to: nat)
    requires n <= |b| && b[n..] == tail && from <= to <= |tail|
    ensures n + to <= |b| && b[n + from..n + to] == tail[from..to]
  {
    assert |b| == n + |tail|;
    forall k | 0 <= k < to - from ensures b[n + from..n + to][k] == tail[from..to][k] {
      assert b[n + from..n + to][k] == b[n + (from + k)] == b[n..][from + k];
    }
  }

  lemma HeadSlice(head: Bytes, tail: Bytes)
    ensures (head + tail)[..|head|] == head && (head + tail)[|head|..] == tail
    ensures (head + tail)[0..0 + |head|] == head
  {
  }

  // ----- AccountStateV1 -----

  lemma NamesAreSpelled()
    ensures STATE_MAGIC == Ascii("CKAS") && WITNESS_MAGIC == Ascii("CKAW") && VERIFIER_MAGIC == Ascii("CKVR")
    ensures AUTH_DOMAIN == Ascii("CKB_ACCOUNT_LOCK_V1")
  {
    assert forall i | 0 <= i < 19 :: AUTH_DOMAIN[i] == Ascii("CKB_ACCOUNT_LOCK_V1")[i];
  }

  lemma StateHeaderLayout(s: State.AccountState)
    requires State.Encodable(s)
    ensures var b := State.StateBytes(s);
            && |b| >= 32 && b[0..4] == Ascii("CKAS") && b[4] == 1 && b[5] == s.flags && W16(b, 6) == 32
            && W64(b, 8) == s.sequence
            && W16(b, 16) == s.spendThreshold && W16(b, 18) == s.rotateThreshold && W16(b, 20) == s.recoveryThreshold
            && b[22] == |s.authenticators| && b[23] == 0 && W64(b, 24) == s.recoverySince
            && b[32..] == State.EntriesBytes(s.authenticators)
  {
    hide Ascii;
    hide U16At;
    hide U64At;
    hide W16;
    hide W64;
    hide State.HeaderBytes;
    hide State.EntriesBytes;
    var b, h := State.StateBytes(s), State.HeaderOf(s);
    NamesAreSpelled();
    assert b[..32] == State.HeaderBytes(h);
    State.HeaderFields(h, b);
    U16AtIs(b, 6);
    U64AtIs(b, 8);
    U16AtIs(b, 16);
    U16AtIs(b, 18);
    U16AtIs(b, 20);
    U64AtIs(b, 24);
  }

  lemma EntryLayout(e: State.Entry)
    requires State.EntrySize(e) <= U16_MAX
    ensures var b, n := State.EntryBytes(e), |e.keyId|;
            && |b| == 48 + n + |e.aux| && W16(b, 0) == |b|
            && W16(b, 2) == e.slot && W16(b, 4) == e.algorithmId && W16(b, 6) == e.capabilities
            && W16(b, 8) == e.weight && b[10] == e.verifierHashType && b[11] == e.verifierAbi
            && b[12..44] == e.verifierCodeHash && W16(b, 44) == n && W16(b, 46) == |e.aux|
            && b[48..48 + n] == e.keyId && b[48 + n..] == e.aux
  {
    hide U16At;
    hide W16;
    hide State.EntryFixedBytes;
    var b := State.EntryBytes(e);
    assert b[0..48] == State.EntryFixedBytes(e);
    State.EntryFixedFields(e, b, 0);
    U16AtIs(b, 0);
    U16AtIs(b, 2);
    U16AtIs(b, 4);
    U16AtIs(b, 6);
    U16AtIs(b, 8);
    U16AtIs(b, 44);
    U16AtIs(b, 46);
  }

  /** Where entry `i` starts behind the header. */
  function EntryOffset(es: seq<State.Entry>, i: nat): nat
    requires i <= |es|
  {
    if i == 0 then 0 else EntryOffset(es, i - 1) + 48 + |es[i - 1].keyId| + |es[i - 1].aux|
  }

  lemma {:induction false} EntryOffsetShift(es: seq<State.Entry>, i: nat)
    requires 0 < i <= |es|
    ensures EntryOffset(es, i) == State.EntrySize(es[0]) + EntryOffset(es[1..], i - 1)
  {
    if i > 1 {
      EntryOffsetShift(es, i - 1);
    }
  }

  /** The entries follow each other in state order. */
  lemma {:induction false} EntryPlace(es: seq<State.Entry>, i: nat)
    requires State.AllSized(es) && i < |es|
    ensures es[i] in es && EntryOffset(es, i) + State.EntrySize(es[i]) <= |State.EntriesBytes(es)|
    ensures State.EntriesBytes(es)[EntryOffset(es, i)..EntryOffset(es, i) + State.EntrySize(es[i])] ==
            State.EntryBytes(es[i])
  {
    hide State.EntryBytes;
    hide State.EntrySize;
    var head, tail := State.EntryBytes(es[0]), State.EntriesBytes(es[1..]);
    HeadSlice(head, tail);
    assert State.EntriesBytes(es) == head + tail;
    if i > 0 {
      EntryOffsetShift(es, i);
      assert es[1..][i - 1] == es[i];
      EntryPlace(es[1..], i - 1);
      var from := EntryOffset(es[1..], i - 1);
      hide EntryOffset;
      TailSlice(head + tail, |head|, tail, from, from + State.EntrySize(es[i]));
    }
  }

  // ----- AccountWitnessV1 -----

  lemma WitnessHeaderLayout(w: Wit.AccountWitness)
    requires Wit.Encodable(w)
    ensures var b := Wit.WitnessBytes(w);
            && |b| >= 16 && b[0..4] == Ascii("CKAW") && b[4] == 1 && b[5] == w.operation
            && b[6] == |w.proofs| && b[7] == 0 && W64(b, 8) == w.stateSequence
            && b[16..] == Wit.ProofsBytes(w.proofs)
  {
    hide Ascii;
    hide U64At;
    hide W64;
    hide Wit.HeaderBytes;
    hide Wit.ProofsBytes;
    var b := Wit.WitnessBytes(w);
    NamesAreSpelled();
    assert b[..16] == Wit.HeaderBytes(Wit.HeaderOf(w));
    Wit.HeaderFields(Wit.HeaderOf(w), b);
    U64AtIs(b, 8);
  }

  lemma ProofLayout(p: Wit.Proof)
    requires |p.bytes| <= U32_MAX
    ensures var b := Wit.ProofBytes(p);
            && |b| == 8 + |p.bytes| && W16(b, 0) == p.slot && b[2] == 0 && b[3] == 0
            && W32(b, 4) == |p.bytes| && b[8..] == p.bytes
  {
    hide U16At;
    hide U32At;
    hide W16;
    hide W32;
    var b := Wit.ProofBytes(p);
    assert b[0..0 + 8 + |p.bytes|] == b;
    Wit.ProofFields(p, b, 0);
    U16AtIs(b, 0);
    U32AtIs(b, 4);
    assert b[8..8 + |p.bytes|] == b[8..];
  }

  function ProofOffset(ps: seq<Wit.Proof>, i: nat): nat
    requires i <= |ps|
  {
    if i == 0 then 0 else ProofOffset(ps, i - 1) + 8 + |ps[i - 1].bytes|
  }

  lemma {:induction false} ProofOffsetShift(ps: seq<Wit.Proof>, i: nat)
    requires 0 < i <= |ps|
    ensures ProofOffset(ps, i) == 8 + |ps[0].bytes| + ProofOffset(ps[1..], i - 1)
  {
    if i > 1 {
      ProofOffsetShift(ps, i - 1);
    }
  }

  lemma {:induction false} ProofsLength(ps: seq<Wit.Proof>)
    requires Wit.AllSized(ps)
    ensures |Wit.ProofsBytes(ps)| == ProofOffset(ps, |ps|)
  {
    hide Wit.ProofBytes;
    if ps != [] {
      var rest := ps[1..];
      assert |Wit.ProofsBytes(ps)| == 8 + |ps[0].bytes| + |Wit.ProofsBytes(rest)|;
      hide Wit.ProofsBytes;
      hide ProofOffset;
      ProofOffsetShift(ps, |ps|);
      ProofsLength(rest);
    }
  }

  /** The proofs follow each other in witness order; by `ProofsLength` nothing else does. */
  lemma {:induction false} ProofPlace(ps: seq<Wit.Proof>, i: nat)
    requires Wit.AllSized(ps) && i < |ps|
    ensures ps[i] in ps && ProofOffset(ps, i) + 8 + |ps[i].bytes| <= |Wit.ProofsBytes(ps)|
    ensures Wit.ProofsBytes(ps)[ProofOffset(ps, i)..ProofOffset(ps, i) + 8 + |ps[i].bytes|] == Wit.ProofBytes(ps[i])
  {
    hide Wit.ProofBytes;
    var head, tail := Wit.ProofBytes(ps[0]), Wit.ProofsBytes(ps[1..]);
    HeadSlice(head, tail);
    assert Wit.ProofsBytes(ps) == head + tail;
    if i > 0 {
      ProofOffsetShift(ps, i);
      assert ps[1..][i - 1] == ps[i];
      ProofPlace(ps[1..], i - 1);
      var from := ProofOffset(ps[1..], i - 1);
      hide ProofOffset;
      TailSlice(head + tail, |head|, tail, from, from + 8 + |ps[i].bytes|);
    }
  }

  // ----- VerifierRequestV1 -----

  lemma RequestLayout(q: Req.VerifierRequest)
    requires Req.ValidRequest(q)
    ensures var b, n := Req.RequestBytes(q), |q.aux|;
            && |b| == 96 + n + |q.proof| && b[0..4] == Ascii("CKVR") && b[4] == 1 && b[5] == 0 && W16(b, 6) == 96
            && W16(b, 8) == q.algorithmId && W16(b, 10) == q.slot
            && b[12] == q.operation && b[13] == q.verifierProfile && b[14] == 0 && b[15] == 0
            && b[16..48] == q.authorizationDigest && b[48..80] == q.keyId
            && W32(b, 80) == n && W32(b, 84) == |q.proof| && (forall k | 88 <= k < 96 :: b[k] == 0)
            && b[96..96 + n] == q.aux && b[96 + n..] == q.proof
  {
    hide Ascii;
    hide U16At;
    hide U32At;
    hide W16;
    hide W32;
    hide Req.FixedBytes;
    var b := Req.RequestBytes(q);
    NamesAreSpelled();
    assert b[..96] == Req.FixedBytes(q);
    Req.RequestFields(q, b);
    U16AtIs(b, 6);
    U16AtIs(b, 8);
    U16AtIs(b, 10);
    U32AtIs(b, 80);
    U32AtIs(b, 84);
  }

  /** What the lock sends for an entry: the entry's algorithm, slot, key and aux, and its aux's first byte. */
  lemma LockRequestLayout(e: State.Entry, operation: Byte, digest: Digest, proof: Bytes, b: Bytes)
    requires Req.LockRequest(e, operation, digest, proof) == Some(b)
    ensures 0 < |e.aux| <= 4096 && |proof| <= 65536 && 1 <= operation <= 3
    ensures |b| == 96 + |e.aux| + |proof|
    ensures W16(b, 8) == e.algorithmId && W16(b, 10) == e.slot && b[12] == operation && b[13] == e.aux[0]
    ensures b[16..48] == digest && b[48..80] == e.keyId
    ensures W32(b, 80) == |e.aux| && W32(b, 84) == |proof|
    ensures b[96..96 + |e.aux|] == e.aux && b[96 + |e.aux|..] == proof
  {
    hide Ascii;
    hide W16;
    hide W32;
    hide Req.RequestBytes;
    RequestLayout(Req.RequestFor(e, operation, digest, proof));
  }

  // ----- The inner proofs -----

  lemma PublicKeyProofLayout(p: Proofs.PublicKeyProof)
    requires Proofs.ValidPublicKeyProof(p)
    ensures var b, n := Proofs.PublicKeyProofBytes(p), |p.publicKey|;
            && |b| == 5 + n + |p.signature| && b[0] == 1 && W16(b, 1) == n && W16(b, 3) == |p.signature|
            && b[5..5 + n] == p.publicKey && b[5 + n..] == p.signature
  {
    hide Le;
    hide FromLe;
    hide W16;
    var b := Proofs.PublicKeyProofBytes(p);
    Proofs.ParsedPublicKeyProofIsEncoded(b, p);
    U16AtIs(b, 1);
    U16AtIs(b, 3);
  }

  /** Key, origin with a one-byte length, then three fields with two-byte lengths. */
  lemma P256ProofLayout(p: Proofs.P256Proof)
    requires Proofs.ValidP256Proof(p)
    ensures var b := Proofs.P256ProofBytes(p);
            var a := 66 + |p.origin|;
            var c := a + 2 + |p.authenticatorData|;
            var s := c + 2 + |p.clientDataJson|;
            && |b| == s + 2 + |p.signature|
            && b[0..65] == p.publicKey && b[65] == |p.origin| && b[66..a] == p.origin
            && W16(b, a) == |p.authenticatorData| && b[a + 2..c] == p.authenticatorData
            && W16(b, c) == |p.clientDataJson| && b[c + 2..s] == p.clientDataJson
            && W16(b, s) == |p.signature| && b[s + 2..] == p.signature
  {
    hide U16At;
    hide U16Le;
    hide W16;
    var b := Proofs.P256ProofBytes(p);
    Proofs.P256ProofFields(p, b);
    var a := 66 + |p.origin|;
    var c := a + 2 + |p.authenticatorData|;
    var s := c + 2 + |p.clientDataJson|;
    U16AtIs(b, a);
    U16AtIs(b, c);
    U16AtIs(b, s);
    assert b[s + 2..s + 2 + |p.signature|] == b[s + 2..];
  }

  // ----- Molecule -----

  lemma TableLayout(f: Fields)
    requires TableSize(f) <= U32_MAX
    ensures var b, second, third := PackTable3(f), 16 + |f.first|, 16 + |f.first| + |f.second|;
            && |b| == third + |f.third| && W32(b, 0) == |b| && W32(b, 4) == 16
            && W32(b, 8) == second && W32(b, 12) == third
            && b[16..second] == f.first && b[second..third] == f.second && b[third..] == f.third
  {
    hide U32At;
    hide W32;
    hide PackTable3;
    var b := PackTable3(f);
    Table3IsPacked(b, f);
    TableOffsets(b, f);
    U32AtIs(b, 0);
    U32AtIs(b, 4);
    U32AtIs(b, 8);
    U32AtIs(b, 12);
  }

  lemma TableOffsets(b: Bytes, f: Fields)
    requires Table3Fields(b) == Some(f)
    ensures |b| >= 16 && U32At(b, 0) == |b| && U32At(b, 4) == 16
    ensures U32At(b, 8) == 16 + |f.first| && U32At(b, 12) == 16 + |f.first| + |f.second|
    ensures |b| == 16 + |f.first| + |f.second| + |f.third|
    ensures b[16..16 + |f.first|] == f.first
    ensures b[16 + |f.first|..16 + |f.first| + |f.second|] == f.second
    ensures b[16 + |f.first| + |f.second|..] == f.third
  {
    hide U32At;
  }

  lemma OptionLayout(o: Option<Bytes>)
    requires OptionSize(o) <= U32_MAX
    ensures o.None? ==> PackOption(o) == []
    ensures o.Some? ==> |PackOption(o)| == 4 + |o.value| && W32(PackOption(o), 0) == |o.value|
                        && PackOption(o)[4..] == o.value
  {
    hide U32At;
    hide W32;
    if o.Some? {
      var b := PackBytes(o.value);
      MoleculeBytesIsPacked(b, o.value);
      U32AtIs(b, 0);
    }
  }

  // ----- The authorization digest -----

  /** The 124 bytes that are hashed for a digest. */
  predicate IsMessage(h: Hashes, operation: Byte, accountId: Digest, sequence: U64, state: Bytes, sighash: Digest,
                      b: Bytes)
  {
    && |b| == 124 && b[0..19] == Ascii("CKB_ACCOUNT_LOCK_V1") && b[19] == operation && b[20..52] == accountId
    && W64(b, 52) == sequence && b[60..92] == h.ckb(state) && b[92..124] == sighash
  }

  lemma MessageLayout(h: Hashes, operation: Byte, accountId: Digest, sequence: U64, state: Bytes, sighash: Digest)
    ensures IsMessage(h, operation, accountId, sequence, state, sighash,
                      Sig.DigestPreimage(operation, accountId, sequence, h.ckb(state), sighash))
  {
    hide Ascii;
    hide Le;
    hide FromLe;
    hide U64At;
    hide W64;
    var b := Sig.DigestPreimage(operation, accountId, sequence, h.ckb(state), sighash);
    NamesAreSpelled();
    assert b[0..19] == AUTH_DOMAIN && b[19] == operation && b[20..52] == accountId;
    assert b[52..60] == U64Le(sequence);
    assert U64Le(U64At(b, 52)) == b[52..60];
    assert b[60..92] == h.ckb(state) && b[92..124] == sighash;
    U64AtIs(b, 52);
  }

  /** A digest of these fields: the hash of such bytes, which the fields determine. */
  ghost predicate IsDigest(h: Hashes, operation: Byte, accountId: Digest, sequence: U64, state: Bytes, sighash: Digest,
                           digest: Digest)
  {
    exists b :: IsMessage(h, operation, accountId, sequence, state, sighash, b) && digest == h.ckb(b)
  }

  lemma DigestIsHashed(h: Hashes, operation: Byte, accountId: Digest, sequence: U64, state: Bytes, sighash: Digest)
    ensures IsDigest(h, operation, accountId, sequence, state, sighash,
                     Sig.AuthorizationDigest(h, operation, accountId, sequence, state, sighash))
  {
    hide IsMessage;
    hide Sig.DigestPreimage;
    MessageLayout(h, operation, accountId, sequence, state, sighash);
    var b := Sig.DigestPreimage(operation, accountId, sequence, h.ckb(state), sighash);
    assert IsMessage(h, operation, accountId, sequence, state, sighash, b);
  }

  /** The lock's `authorization_digest`. */
  method LockDigest(h: Hashes, operation: Byte, accountId: Digest, sequence: U64, state: Bytes, sighash: Digest)
    returns (digest: Digest)
    ensures digest == Sig.AuthorizationDigest(h, operation, accountId, sequence, state, sighash)
    ensures IsDigest(h, operation, accountId, sequence, state, sighash, digest)
  {
    hide U64Le;
    hide IsDigest;
    var stateHash := h.ckb(state);
    var hashed := AUTH_DOMAIN;
    hashed := hashed + [operation];
    hashed := hashed + accountId;
    hashed := hashed + U64Le(sequence);
    hashed := hashed + stateHash;
    hashed := hashed + sighash;
    DigestIsHashed(h, operation, accountId, sequence, state, sighash);
    return h.ckb(hashed);
  }

  /** The host's `authorization_digest`, which refuses unknown operations. */
  method HostDigest(h: Hashes, operation: Byte, accountId: Digest, sequence: U64, state: Bytes, sighash: Digest)
    returns (r: Option<Digest>)
    ensures r.Some? <==> operation == 1 || operation == 2 || operation == 3
    ensures r.Some? ==> IsDigest(h, operation, accountId, sequence, state, sighash, r.value)
  {
    hide U64Le;
    hide IsDigest;
    if CapabilityForOperation(operation).None? {
      return None;
    }
    var hashed := AUTH_DOMAIN;
    hashed := hashed + [operation];
    hashed := hashed + accountId;
    hashed := hashed + U64Le(sequence);
    hashed := hashed + h.ckb(state);
    hashed := hashed + sighash;
    DigestIsHashed(h, operation, accountId, sequence, state, sighash);
    return Some(h.ckb(hashed));
  }

  // ----- The hashed stream -----

  /** Where the `i`-th covered witness's length stands. */
  function StreamOffset(covered: seq<Bytes>, i: nat): nat
    requires i <= |covered|
  {
    if i == 0 then 32 else StreamOffset(covered, i - 1) + 8 + |covered[i - 1]|
  }

  function PrefixedOffset(ws: seq<Bytes>, i: nat): nat
    requires i <= |ws|
  {
    if i == 0 then 0 else PrefixedOffset(ws, i - 1) + 8 + |ws[i - 1]|
  }

  lemma {:induction false} PrefixedShift(ws: seq<Bytes>, i: nat)
    requires 0 < i <= |ws|
    ensures PrefixedOffset(ws, i) == 8 + |ws[0]| + PrefixedOffset(ws[1..], i - 1)
  {
    if i > 1 {
      PrefixedShift(ws, i - 1);
    }
  }

  lemma {:induction false} OffsetsAgree(ws: seq<Bytes>, i: nat)
    requires i <= |ws|
    ensures StreamOffset(ws, i) == 32 + PrefixedOffset(ws, i)
  {
    if i > 0 {
      OffsetsAgree(ws, i - 1);
    }
  }

  lemma {:induction false} PrefixedLength(ws: seq<Bytes>)
    requires Sig.AllSized(ws)
    ensures |Sig.PrefixedAll(ws)| == PrefixedOffset(ws, |ws|)
  {
    hide U64Le;
    if ws != [] {
      var rest := ws[1..];
      assert |Sig.PrefixedAll(ws)| == 8 + |ws[0]| + |Sig.PrefixedAll(rest)|;
      hide Sig.PrefixedAll;
      hide PrefixedOffset;
      PrefixedShift(ws, |ws|);
      PrefixedLength(rest);
    }
  }

  lemma {:induction false} PrefixedPlace(ws: seq<Bytes>, i: nat)
    requires Sig.AllSized(ws) && i < |ws|
    ensures ws[i] in ws && PrefixedOffset(ws, i) + 8 + |ws[i]| <= |Sig.PrefixedAll(ws)|
    ensures Sig.PrefixedAll(ws)[PrefixedOffset(ws, i)..PrefixedOffset(ws, i) + 8 + |ws[i]|] == Sig.Prefixed(ws[i])
  {
    hide U64Le;
    var head, tail := Sig.Prefixed(ws[0]), Sig.PrefixedAll(ws[1..]);
    assert |head| == 8 + |ws[0]|;
    hide Sig.Prefixed;
    HeadSlice(head, tail);
    assert Sig.PrefixedAll(ws) == head + tail;
    if i > 0 {
      PrefixedShift(ws, i);
      assert ws[1..][i - 1] == ws[i];
      PrefixedPlace(ws[1..], i - 1);
      var from := PrefixedOffset(ws[1..], i - 1);
      hide PrefixedOffset;
      TailSlice(head + tail, |head|, tail, from, from + 8 + |ws[i]|);
    }
  }

  lemma PrefixedLayout(w: Bytes)
    requires |w| <= U64_MAX
    ensures |Sig.Prefixed(w)| == 8 + |w| && W64(Sig.Prefixed(w), 0) == |w| && Sig.Prefixed(w)[8..] == w
  {
    hide Le;
    hide FromLe;
    hide W64;
    var b := Sig.Prefixed(w);
    assert b[0..8] == U64Le(|w|);
    assert U64Le(U64At(b, 0)) == b[0..8];
    U64AtIs(b, 0);
  }

  /** First the transaction hash; then, for each covered witness in order, its length in 8 bytes and the witness. */
  lemma StreamLayout(txHash: Digest, covered: seq<Bytes>, i: nat)
    requires Sig.AllSized(covered) && i < |covered|
    ensures var b, at := Sig.Stream(txHash, covered), StreamOffset(covered, i);
            && b[0..32] == txHash && |b| == StreamOffset(covered, |covered|)
            && at + 8 + |covered[i]| <= |b|
            && W64(b, at) == |covered[i]| && b[at + 8..at + 8 + |covered[i]|] == covered[i]
  {
    hide Sig.PrefixedAll;
    hide Sig.Prefixed;
    hide W64;
    hide StreamOffset;
    hide PrefixedOffset;
    var tail, w := Sig.PrefixedAll(covered), Sig.Prefixed(covered[i]);
    var b, from := txHash + tail, PrefixedOffset(covered, i);
    assert b == Sig.Stream(txHash, covered);
    OffsetsAgree(covered, i);
    OffsetsAgree(covered, |covered|);
    PrefixedLength(covered);
    PrefixedPlace(covered, i);
    PrefixedLayout(covered[i]);
    HeadSlice(txHash, tail);
    TailSlice(b, 32, tail, from, from + |w|);
    SameWord(b, 32 + from, w);
    SliceOfSlice(b, 32 + from, 32 + from + |w|, 8, |w|);
    assert w[8..|w|] == w[8..];
  }

  lemma SameWord(b: Bytes, at: nat, w: Bytes)
    requires |w| >= 8 && at + |w| <= |b| && b[at..at + |w|] == w
    ensures W64(b, at) == W64(w, 0)
  {
    assert forall k | 0 <= k < 8 :: w[k] == b[at + k];
  }

  /**
   * Which witnesses are covered, and in which order: the canonical first one, the group's others by their inputs,
   * then those past the inputs; here for a transaction in which every input has a witness.
   */
  lemma CoveredOrder(tx: Transaction, group: seq<nat>, k: nat)
    requires Sig.Covered(tx, group).Some? && |tx.inputs| <= |tx.witnesses|
    requires forall i | i in group :: i < |tx.inputs|
    ensures var covered := Sig.Covered(tx, group).value;
            && group != [] && group[0] < |tx.witnesses|
            && |covered| == |group| + (|tx.witnesses| - |tx.inputs|)
            && CanonicalWitness(tx.witnesses[group[0]]) == Some(covered[0])
            && (1 <= k < |group| ==> group[k] < |tx.witnesses| && covered[k] == tx.witnesses[group[k]])
            && (|group| <= k < |covered| ==> covered[k] == tx.witnesses[|tx.inputs| + (k - |group|)])
  {
    hide CanonicalWitness;
    hide Sig.WitnessesAt;
    var covered := Sig.Covered(tx, group).value;
    assert group[0] in group;
    forall i | i in group[1..] ensures i < |tx.witnesses| {
      assert i in group;
    }
    AllPresent(tx, group[1..]);
    var rest, extras := Sig.WitnessesAt(tx, group[1..]), Sig.ExtraWitnesses(tx);
    assert covered == [covered[0]] + (rest + extras);
    if 1 <= k < |group| {
      assert group[1..][k - 1] == group[k] && group[k] in group;
      assert covered[k] == (rest + extras)[k - 1] == rest[k - 1];
    } else if |group| <= k < |covered| {
      assert covered[k] == (rest + extras)[k - 1] == extras[k - |group|];
    }
  }

  lemma {:induction false} AllPresent(tx: Transaction, indices: seq<nat>)
    requires forall i | i in indices :: i < |tx.witnesses|
    ensures |Sig.WitnessesAt(tx, indices)| == |indices|
    ensures forall k | 0 <= k < |indices| :: indices[k] in indices
    ensures forall k | 0 <= k < |indices| :: Sig.WitnessesAt(tx, indices)[k] == tx.witnesses[indices[k]]
  {
    if indices != [] {
      assert indices[0] in indices && forall i | i in indices[1..] :: i in indices;
      AllPresent(tx, indices[1..]);
    }
  }
}
