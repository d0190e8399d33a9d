/** The frontend's own encoders and digests; each is proved to give the host's bytes on the host's inputs. */
module Frontend {
  import opened Bytes
  import opened Protocol
  import opened JsBytes
  import opened Molecule
  import opened ProofCodec
  import opened Transaction
  import opened Sighash
  import Layouts
  import Wit = WitnessCodec

  datatype SlotProof = SlotProof(slot: Number, bytes: Bytes)

  function AsOperation(operation: Number): Option<Byte> {
    if operation in {Finite(1.0), Finite(2.0), Finite(3.0)} then Some(operation.value.Floor) else None
  }

  /** The operations are 1, 2 and 3, each as itself. */
  lemma OperationsAre(n: Number, operation: Byte)
    ensures AsOperation(n) == Some(operation) <==> 1 <= operation <= 3 && n == Finite(operation as real)
  {
    assert (1.0).Floor == 1 && (2.0).Floor == 2 && (3.0).Floor == 3;
  }

  // ----- P256ProofV1 -----

  /** The host's `EncodeP256Proof`, with the field lengths checked only where they are written. */
  method EncodeP256(input: P256Proof) returns (r: Option<Bytes>)
    ensures r == if ValidP256Proof(input) && input.publicKey[0] == 4 then Some(P256ProofBytes(input)) else None
  {
    hide Le;
    hide FromLe;
    if |input.publicKey| != PUBLIC_KEY_LEN || input.publicKey[0] != 4 {
      return None;
    }
    if input.origin == [] || |input.origin| > 0xff {
      return None;
    }
    if |input.authenticatorData| < MIN_AUTHENTICATOR_DATA_LEN {
      return None;
    }
    if input.clientDataJson == [] || input.signature == [] {
      return None;
    }
    var authenticatorLength :- U16Field(|input.authenticatorData|);
    var clientLength :- U16Field(|input.clientDataJson|);
    var signatureLength :- U16Field(|input.signature|);
    var parts := [input.publicKey, [|input.origin|], input.origin, authenticatorLength, input.authenticatorData,
                  clientLength, input.clientDataJson, signatureLength, input.signature];
    FlatOfNine(parts);
    assert Flat(parts) == P256ProofBytes(input);
    r := BytesConcat(parts);
  }

  function U16Field(value: nat): Option<Bytes> {
    if value <= U16_MAX then Some(U16Le(value)) else None
  }

  lemma FlatOfNine(p: seq<Bytes>)
    requires |p| == 9
    ensures Flat(p) == p[0] + (p[1] + p[2]) + (p[3] + p[4]) + (p[5] + p[6]) + (p[7] + p[8])
  {
    FlatSplit(p, 5);
    FlatOfFew(p[..5]);
    FlatOfFew(p[5..]);
  }

  lemma FlatOfFew(p: seq<Bytes>)
    ensures |p| == 4 ==> Flat(p) == p[0] + p[1] + (p[2] + p[3])
    ensures |p| == 5 ==> Flat(p) == p[0] + (p[1] + p[2]) + (p[3] + p[4])
  {
    if |p| == 4 || |p| == 5 {
      assert Flat(p) == p[0] + Flat(p[1..]);
      assert Flat(p[1..]) == p[1] + Flat(p[2..]);
      assert Flat(p[2..]) == p[2] + Flat(p[3..]);
      if |p| == 5 {
        assert Flat(p[3..]) == p[3] + Flat(p[4..]);
        assert Flat(p[4..]) == p[4] + Flat(p[5..]) == p[4];
      } else {
        assert Flat(p[3..]) == p[3] + Flat(p[4..]) == p[3];
      }
    }
  }

  // ----- AccountWitnessV1 -----

  /** The proofs with their slots as integers, if every slot is one. */
  function WithSlots(proofs: seq<SlotProof>): Option<seq<Wit.Proof>> {
    if proofs == [] then Some([])
    else
      var init :- WithSlots(proofs[..|proofs| - 1]);
      var slot :- AsNat(proofs[|proofs| - 1].slot, U16_MAX);
      Some(init + [Wit.Proof(slot, proofs[|proofs| - 1].bytes)])
  }

  lemma {:induction false} WithSlotsPrefix(proofs: seq<SlotProof>, n: nat)
    requires n <= |proofs| && WithSlots(proofs).Some?
    ensures WithSlots(proofs[..n]).Some? && WithSlots(proofs[..n]).value <= WithSlots(proofs).value
    ensures |WithSlots(proofs[..n]).value| == n
  {
    if n < |proofs| {
      var init := proofs[..|proofs| - 1];
      WithSlotsPrefix(init, n);
      assert init[..n] == proofs[..n];
    } else if n > 0 {
      WithSlotsPrefix(proofs[..n - 1], n - 1);
      assert proofs[..n - 1][..n - 1] == proofs[..n - 1] && proofs[..n] == proofs;
    } else {
      assert proofs[..n] == [];
    }
  }

  /** One proof for each, with the same bytes and the slot as an integer. */
  lemma {:induction false} WithSlotsAre(proofs: seq<SlotProof>, ps: seq<Wit.Proof>)
    ensures WithSlots(proofs) == Some(ps) <==>
            && |ps| == |proofs|
            && forall i | 0 <= i < |ps| :: proofs[i] == SlotProof(Finite(ps[i].slot as real), ps[i].bytes)
  {
    hide AsNat;
    var n := |proofs|;
    if n > 0 {
      var slot := AsNat(proofs[n - 1].slot, U16_MAX);
      WithSlotsAre(proofs[..n - 1], if |ps| > 0 then ps[..|ps| - 1] else []);
      if |ps| == n {
        assert ps == ps[..n - 1] + [ps[n - 1]];
        NumbersAre(proofs[n - 1].slot, U16_MAX, ps[n - 1].slot);
      }
      if WithSlots(proofs).Some? {
        WithSlotsPrefix(proofs, n);
        assert proofs[..n] == proofs;
      }
    }
  }

  function LastSlot(ps: seq<Wit.Proof>): int {
    if ps == [] then -1 else ps[|ps| - 1].slot
  }

  /** Framing can be checked from the front, one proof at a time. */
  lemma {:induction false} FramedAppend(ps: seq<Wit.Proof>, p: Wit.Proof, prev: int)
    ensures Wit.FramedProofs(ps + [p], prev) <==>
            Wit.FramedProofs(ps, prev) && Wit.Framed(p, if ps == [] then prev else LastSlot(ps))
  {
    if ps == [] {
      assert ps + [p] == [p];
    } else {
      assert (ps + [p])[1..] == ps[1..] + [p];
      FramedAppend(ps[1..], p, ps[0].slot);
    }
  }

  lemma {:induction false} FramedPrefix(ps: seq<Wit.Proof>, qs: seq<Wit.Proof>, prev: int)
    requires Wit.FramedProofs(qs, prev) && ps <= qs
    ensures Wit.FramedProofs(ps, prev)
  {
    if ps != [] {
      assert ps[1..] <= qs[1..];
      FramedPrefix(ps[1..], qs[1..], ps[0].slot);
    }
  }

  /** What the host's `EncodeWitness` gives for these proofs, none if a slot is no `u16`. */
  function HostWitness(operation: Byte, sequence: U64, proofs: seq<SlotProof>): Option<Bytes> {
    var ps :- WithSlots(proofs);
    var w := Wit.AccountWitness(operation, sequence, ps);
    if |ps| <= AUTHENTICATOR_MAX_COUNT && Wit.ValidWitness(w) then Some(Wit.WitnessBytes(w)) else None
  }

  /** The bytes of one proof, as the loop pushes them. */
  method EncodeSlotProof(slot: U16, bytes: Bytes) returns (r: Option<Bytes>)
    ensures r == if |bytes| <= U32_MAX then Some(Wit.ProofBytes(Wit.Proof(slot, bytes))) else None
  {
    hide Le;
    hide FromLe;
    if |bytes| > U32_MAX {
      return None;
    }
    var parts := [U16Le(slot), [0, 0], U32Le(|bytes|), bytes];
    FlatOfFew(parts);
    assert Flat(parts) == Wit.ProofBytes(Wit.Proof(slot, bytes));
    r := BytesConcat(parts);
  }

  /** The proofs as the loop accepts them: every slot a `u16` above the one before, no proof empty or too long. */
  function Accepted(proofs: seq<SlotProof>): Option<seq<Wit.Proof>> {
    var ps :- WithSlots(proofs);
    if Wit.FramedProofs(ps, -1) then Some(ps) else None
  }

  /** One turn of the loop. */
  lemma AcceptedStep(proofs: seq<SlotProof>, i: nat)
    requires i < |proofs| && Accepted(proofs[..i]).Some?
    ensures var done, slot := Accepted(proofs[..i]).value, AsNat(proofs[i].slot, U16_MAX);
            Accepted(proofs[..i + 1]) ==
            if slot.Some? && LastSlot(done) < slot.value && 0 < |proofs[i].bytes| <= U32_MAX
            then Some(done + [Wit.Proof(slot.value, proofs[i].bytes)]) else None
  {
    hide AsNat;
    hide Wit.FramedProofs;
    var slot := AsNat(proofs[i].slot, U16_MAX);
    assert proofs[..i + 1][..i] == proofs[..i];
    if slot.Some? {
      FramedAppend(Accepted(proofs[..i]).value, Wit.Proof(slot.value, proofs[i].bytes), -1);
    }
  }

  lemma AcceptedPrefix(proofs: seq<SlotProof>, n: nat)
    requires n <= |proofs| && Accepted(proofs[..n]).None?
    ensures Accepted(proofs).None?
  {
    hide WithSlots;
    if Accepted(proofs).Some? {
      WithSlotsPrefix(proofs, n);
      FramedPrefix(WithSlots(proofs[..n]).value, WithSlots(proofs).value, -1);
    }
  }

  /** The loop of `encodeAccountWitness`. */
  method EncodeSlotProofs(proofs: seq<SlotProof>) returns (r: Option<seq<Bytes>>)
    ensures r.Some? <==> Accepted(proofs).Some?
    ensures r.Some? ==> Wit.AllSized(Accepted(proofs).value)
                        && Flat(r.value) == Wit.ProofsBytes(Accepted(proofs).value)
  {
    hide Wit.ProofBytes;
    hide AsNat;
    hide Accepted;
    var encodedProofs: seq<Bytes> := [];
    var previousSlot: int := -1;
    ghost var done: seq<Wit.Proof> := [];
    assert Accepted(proofs[..0]) == Some([]) by { NothingIsAccepted(); }
    for i := 0 to |proofs|
      invariant Accepted(proofs[..i]) == Some(done)
      invariant previousSlot == LastSlot(done)
      invariant Wit.AllSized(done) && Flat(encodedProofs) == Wit.ProofsBytes(done)
    {
      AcceptedStep(proofs, i);
      var slot := AsNat(proofs[i].slot, U16_MAX);
      if slot.None? || slot.value <= previousSlot || proofs[i].bytes == [] {
        AcceptedPrefix(proofs, i + 1);
        return None;
      }
      previousSlot := slot.value;
      var encoded := EncodeSlotProof(slot.value, proofs[i].bytes);
      if encoded.None? {
        AcceptedPrefix(proofs, i + 1);
        return None;
      }
      ghost var p := Wit.Proof(slot.value, proofs[i].bytes);
      FlatAppend(encodedProofs, encoded.value);
      Wit.ProofsBytesAppend(done, p);
      encodedProofs, done := encodedProofs + [encoded.value], done + [p];
    }
    assert proofs[..|proofs|] == proofs;
    return Some(encodedProofs);
  }

  lemma NothingIsAccepted()
    ensures Accepted([]) == Some([])
  {
  }

  /** `encodeAccountWitness`: the same inputs and the same bytes as the host's encoder. */
  method EncodeAccountWitness(operation: Number, sequence: int, proofs: seq<SlotProof>) returns (r: Option<Bytes>)
    ensures r == (if AsOperation(operation).None? || AsU64(sequence).None? then None
                  else HostWitness(AsOperation(operation).value, AsU64(sequence).value, proofs))
  {
    hide Wit.ProofsBytes;
    hide Wit.FramedProofs;
    hide WithSlots;
    hide U64Le;
    if WithSlots(proofs).Some? {
      WithSlotsPrefix(proofs, |proofs|);
      assert proofs[..|proofs|] == proofs;
    }
    var op :- AsOperation(operation);
    if |proofs| > AUTHENTICATOR_MAX_COUNT {
      return None;
    }
    var encodedProofs := EncodeSlotProofs(proofs);
    if encodedProofs.None? {
      return None;
    }
    var sequence64 :- AsU64(sequence);
    ghost var w := Wit.AccountWitness(op, sequence64, Accepted(proofs).value);
    var header := [WITNESS_MAGIC, [WITNESS_VERSION, op, |proofs|, 0], U64Le(sequence64)];
    FlatOfHeader(header, encodedProofs.value);
    assert Flat(header + encodedProofs.value) == Wit.WitnessBytes(w);
    var concatenated := BytesConcat(header + encodedProofs.value);
    if concatenated.None? || |concatenated.value| > WITNESS_MAX_LOCK_LEN {
      return None;
    }
    return concatenated;
  }

  lemma FlatOfHeader(header: seq<Bytes>, rest: seq<Bytes>)
    requires |header| == 3
    ensures Flat(header + rest) == header[0] + header[1] + header[2] + Flat(rest)
  {
    FlatSplit(header + rest, 3);
    assert (header + rest)[..3] == header && (header + rest)[3..] == rest;
    assert Flat(header) == header[0] + Flat(header[1..]);
    assert Flat(header[1..]) == header[1] + Flat(header[2..]);
    assert Flat(header[2..]) == header[2] + Flat(header[3..]) == header[2];
  }

  // ----- Group sighash and digest -----

  function LengthPrefixedAll(ws: seq<Bytes>): seq<Bytes>
    requires AllSized(ws)
  {
    if ws == [] then [] else [Prefixed(ws[0])] + LengthPrefixedAll(ws[1..])
  }

  lemma {:induction false} FlatOfPrefixed(ws: seq<Bytes>)
    requires AllSized(ws)
    ensures Flat(LengthPrefixedAll(ws)) == PrefixedAll(ws)
  {
    hide Prefixed;
    if ws != [] {
      FlatOfPrefixed(ws[1..]);
      assert LengthPrefixedAll(ws)[1..] == LengthPrefixedAll(ws[1..]);
    }
  }

  /** The stream as the host defines it, unless it is longer than JavaScript can count. */
  function FrontendStream(txHash: Bytes, groupWitnesses: seq<Bytes>, extraWitnesses: seq<Bytes>): Option<Bytes> {
    if |txHash| != 32 then None
    else
      var stream :- HostStream(txHash, groupWitnesses, extraWitnesses);
      if |stream| <= MAX_SAFE_INTEGER then Some(stream) else None
  }

  /** `groupSighash`. */
  method GroupSighashOf(h: Hashes, txHash: Bytes, groupWitnesses: seq<Bytes>, extraWitnesses: seq<Bytes>)
    returns (r: Option<Digest>)
    ensures r == match FrontendStream(txHash, groupWitnesses, extraWitnesses)
                 case None => None
                 case Some(stream) => Some(h.ckb(stream))
  {
    hide Prefixed;
    hide PrefixedAll;
    hide UnpackWitnessArgs;
    hide PackWitnessArgs;
    if |txHash| != 32 || groupWitnesses == [] {
      return None;
    }
    var args :- UnpackWitnessArgs(groupWitnesses[0]);
    var sealed := args.(lock := Some([]));
    if WitnessArgsSize(sealed) > U32_MAX {
      return None;
    }
    var canonical := PackWitnessArgs(sealed);
    var rest := groupWitnesses[1..];
    assert AllSized(rest + extraWitnesses) <==> AllSized(rest) && AllSized(extraWitnesses);
    if !AllSized(rest) || !AllSized(extraWitnesses) {
      return None;
    }
    var parts := [txHash, Prefixed(canonical)] + LengthPrefixedAll(rest) + LengthPrefixedAll(extraWitnesses);
    FlatOfStream(txHash, canonical, rest, extraWitnesses);
    StreamSplits(txHash, canonical, rest, extraWitnesses);
    var stream := BytesConcat(parts);
    if stream.None? {
      return None;
    }
    return Some(h.ckb(stream.value));
  }

  lemma FlatOfStream(txHash: Bytes, canonical: Bytes, rest: seq<Bytes>, extras: seq<Bytes>)
    requires |canonical| <= U64_MAX && AllSized(rest) && AllSized(extras)
    ensures Flat([txHash, Prefixed(canonical)] + LengthPrefixedAll(rest) + LengthPrefixedAll(extras)) ==
            txHash + Prefixed(canonical) + PrefixedAll(rest) + PrefixedAll(extras)
  {
    hide Prefixed;
    hide PrefixedAll;
    var head, a, b := [txHash, Prefixed(canonical)], LengthPrefixedAll(rest), LengthPrefixedAll(extras);
    FlatOfPrefixed(rest);
    FlatOfPrefixed(extras);
    FlatSplit(head + a + b, 2 + |a|);
    assert (head + a + b)[..2 + |a|] == head + a && (head + a + b)[2 + |a|..] == b;
    FlatSplit(head + a, 2);
    assert (head + a)[..2] == head && (head + a)[2..] == a;
    assert Flat(head) == head[0] + Flat(head[1..]);
    assert Flat(head[1..]) == head[1] + Flat(head[2..]) == head[1];
  }

  /** `authorizationDigest`: the host's digest of the same fields, once their lengths are checked. */
  method AuthorizationDigestOf(h: Hashes, operation: Number, accountId: Bytes, sequence: int, state: Bytes,
                               groupSighash: Bytes) returns (r: Option<Digest>)
    ensures r == if AsOperation(operation).None? || |accountId| != 32 || |groupSighash| != 32 || AsU64(sequence).None?
                 then None
                 else Some(AuthorizationDigest(h, AsOperation(operation).value, accountId, AsU64(sequence).value,
                                               state, groupSighash))
    ensures r.Some? ==> Layouts.IsDigest(h, AsOperation(operation).value, accountId, AsU64(sequence).value, state,
                                         groupSighash, r.value)
  {
    hide Layouts.IsDigest;
    hide Le;
    hide FromLe;
    var op :- AsOperation(operation);
    if |accountId| != 32 || |groupSighash| != 32 {
      return None;
    }
    var sequence64 :- AsU64(sequence);
    var head, tail := [AUTH_DOMAIN, [op], accountId], [U64Le(sequence64), h.ckb(state), groupSighash];
    FlatOfHeader(head, tail);
    FlatOfHeader(tail, []);
    assert tail + [] == tail;
    assert Flat(head + tail) == DigestPreimage(op, accountId, sequence64, h.ckb(state), groupSighash);
    var preimage := BytesConcat(head + tail);
    assert preimage.Some?; // 124 bytes
    Layouts.DigestIsHashed(h, op, accountId, sequence64, state, groupSighash);
    return Some(h.ckb(preimage.value));
  }

  // ----- Packing -----

  /** `packAccountWitness`. */
  function PackAccountWitness(bytes: Bytes): Option<Bytes> {
    var args := WitnessArgs(Some(bytes), None, None);
    if WitnessArgsSize(args) <= U32_MAX then Some(PackWitnessArgs(args)) else None
  }

  /** `unpackAccountWitness`. */
  function UnpackAccountWitness(packed: Bytes): Option<Bytes> {
    var args :- UnpackWitnessArgs(packed);
    args.lock
  }

  /** What is packed is read back, by the frontend and by the lock, in 20 bytes more than the witness. */
  lemma PackedWitnessIsRead(bytes: Bytes, packed: Bytes)
    requires PackAccountWitness(bytes) == Some(packed)
    ensures UnpackAccountWitness(packed) == Some(bytes) && WitnessLock(packed) == Some(bytes)
    ensures |packed| == 20 + |bytes|
    ensures packed == PackTable3(Fields(PackBytes(bytes), [], []))
  {
    hide PackTable3;
    hide Table3Fields;
    hide MoleculeBytes;
    hide UnpackWitnessArgs;
    var args := WitnessArgs(Some(bytes), None, None);
    WitnessArgsArePacked(packed, args);
    var f := PackedFields(args);
    Table3IsPacked(packed, f);
    MoleculeBytesIsPacked(f.first, bytes);
  }
}
