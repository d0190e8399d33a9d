/** AccountWitnessV1: the lock field of the first group witness, its parser and its encoder. */
module WitnessCodec {
  import opened Bytes
  import opened Protocol

  datatype Proof = Proof(slot: U16, bytes: Bytes)

  datatype WitnessHeader = WitnessHeader(operation: Byte, proofCount: Byte, stateSequence: U64)

  datatype AccountWitness = AccountWitness(operation: Byte, stateSequence: U64, proofs: seq<Proof>)

  // ----- What a valid witness is -----

  predicate Framed(p: Proof, prev: int) {
    prev < p.slot && 0 < |p.bytes| <= U32_MAX
  }

  predicate FramedProofs(ps: seq<Proof>, prev: int) {
    ps != [] ==> Framed(ps[0], prev) && FramedProofs(ps[1..], ps[0].slot)
  }

  predicate AllSized(ps: seq<Proof>) {
    forall p | p in ps :: |p.bytes| <= U32_MAX
  }

  predicate Encodable(w: AccountWitness) {
    |w.proofs| <= 0xff && AllSized(w.proofs)
  }

  predicate ValidWitness(w: AccountWitness) {
    && Encodable(w)
    && CapabilityForOperation(w.operation).Some?
    && |WitnessBytes(w)| <= WITNESS_MAX_LOCK_LEN
    && FramedProofs(w.proofs, -1)
  }

  // ----- Encoding -----

  function HeaderBytes(h: WitnessHeader): (b: Bytes)
    ensures |b| == WITNESS_HEADER_LEN
  {
    WITNESS_MAGIC + [WITNESS_VERSION, h.operation, h.proofCount, 0] + U64Le(h.stateSequence)
  }

  function ProofBytes(p: Proof): (b: Bytes)
    requires |p.bytes| <= U32_MAX
    ensures |b| == 8 + |p.bytes|
  {
    U16Le(p.slot) + [0, 0] + U32Le(|p.bytes|) + p.bytes
  }

  function ProofsBytes(ps: seq<Proof>): Bytes
    requires AllSized(ps)
  {
    if ps == [] then [] else ProofBytes(ps[0]) + ProofsBytes(ps[1..])
  }

  function HeaderOf(w: AccountWitness): WitnessHeader
    requires |w.proofs| <= 0xff
  {
    WitnessHeader(w.operation, |w.proofs|, w.stateSequence)
  }

  function WitnessBytes(w: AccountWitness): Bytes
    requires Encodable(w)
  {
    HeaderBytes(HeaderOf(w)) + ProofsBytes(w.proofs)
  }

  // ----- Parsing -----

  function ParseHeader(data: Bytes): Option<WitnessHeader> {
    if |data| < WITNESS_HEADER_LEN || |data| > WITNESS_MAX_LOCK_LEN then None
    else if data[0..4] != WITNESS_MAGIC || data[4] != WITNESS_VERSION || data[7] != 0 then None
    else if data[5] != OP_SPEND && data[5] != OP_ROTATE && data[5] != OP_RECOVERY then None
    else Some(WitnessHeader(data[5], data[6], U64At(data, 8)))
  }

  /** One turn of the proof loop. */
  function ProofAt(data: Bytes, off: nat, prev: int): Option<Proof> {
    if off + 8 > |data| then None
    else if data[off + 2] != 0 || data[off + 3] != 0 then None
    else
      var len := U32At(data, off + 4);
      if off + 8 + len > |data| then None
      else
        var p := Proof(U16At(data, off), data[off + 8..off + 8 + len]);
        if Framed(p, prev) then Some(p) else None
  }

  function ProofsAt(data: Bytes, off: nat, count: nat, prev: int): Option<seq<Proof>>
    decreases count
  {
    if count == 0 then
      if off == |data| then Some([]) else None
    else
      var p :- ProofAt(data, off, prev);
      var rest :- ProofsAt(data, off + 8 + |p.bytes|, count - 1, p.slot);
      Some([p] + rest)
  }

  /** `parse_proofs`; the caller's callback sees the returned proofs in order. */
  method ParseProofs(data: Bytes, header: WitnessHeader) returns (r: Option<seq<Proof>>)
    ensures r == ProofsAt(data, WITNESS_HEADER_LEN, header.proofCount, -1)
  {
    hide ProofAt;
    var off: nat, prev: int, proofs := WITNESS_HEADER_LEN, -1, [];
    ghost var total := ProofsAt(data, WITNESS_HEADER_LEN, header.proofCount, -1);
    assert total.Some? ==> [] + total.value == total.value;
    for i := 0 to header.proofCount
      invariant total == match ProofsAt(data, off, header.proofCount - i, prev)
                         case None => None
                         case Some(rest) => Some(proofs + rest)
    {
      var p :- ProofAt(data, off, prev);
      ghost var rest := ProofsAt(data, off + 8 + |p.bytes|, header.proofCount - i - 1, p.slot);
      assert rest.Some? ==> proofs + ([p] + rest.value) == proofs + [p] + rest.value;
      proofs, prev, off := proofs + [p], p.slot, off + 8 + |p.bytes|;
    }
    if off != |data| {
      return None;
    }
    assert proofs + [] == proofs;
    return Some(proofs);
  }

  /** Header and proofs together: what the lock and the host read out of the field. */
  function ParseWitness(data: Bytes): Option<AccountWitness> {
    var h :- ParseHeader(data);
    var ps :- ProofsAt(data, WITNESS_HEADER_LEN, h.proofCount, -1);
    Some(AccountWitness(h.operation, h.stateSequence, ps))
  }

  // ----- Parser and encoder undo each other -----

  lemma ProofFields(p: Proof, data: Bytes, off: nat)
    requires |p.bytes| <= U32_MAX && off + 8 + |p.bytes| <= |data|
    requires data[off..off + 8 + |p.bytes|] == ProofBytes(p)
    ensures U16At(data, off) == p.slot && data[off + 2] == 0 && data[off + 3] == 0
    ensures U32At(data, off + 4) == |p.bytes| && data[off + 8..off + 8 + |p.bytes|] == p.bytes
  {
    hide Le;
    hide FromLe;
    var end := off + 8 + |p.bytes|;
    var d := data[off..end];
    assert d[0..2] == U16Le(p.slot) && d[2] == 0 && d[3] == 0;
    assert d[4..8] == U32Le(|p.bytes|) && d[8..8 + |p.bytes|] == p.bytes;
    SliceOfSlice(data, off, end, 0, 2);
    SliceOfSlice(data, off, end, 4, 8);
    SliceOfSlice(data, off, end, 8, 8 + |p.bytes|);
  }

  lemma ProofAtIsEncoded(data: Bytes, off: nat, prev: int, p: Proof)
    ensures ProofAt(data, off, prev) == Some(p) <==>
            && Framed(p, prev)
            && off + 8 + |p.bytes| <= |data|
            && data[off..off + 8 + |p.bytes|] == ProofBytes(p)
  {
    hide Le;
    hide FromLe;
    if ProofAt(data, off, prev) == Some(p) {
      assert ProofBytes(p) == data[off..off + 2] + [data[off + 2], data[off + 3]] + data[off + 4..off + 8] + p.bytes;
    } else if Framed(p, prev) && off + 8 + |p.bytes| <= |data| && data[off..off + 8 + |p.bytes|] == ProofBytes(p) {
      ProofFields(p, data, off);
    }
  }

  lemma {:induction false} ProofsAtGivesBytes(data: Bytes, off: nat, count: nat, prev: int, ps: seq<Proof>)
    requires ProofsAt(data, off, count, prev) == Some(ps)
    ensures |ps| == count && FramedProofs(ps, prev) && AllSized(ps)
    ensures off <= |data| && data[off..] == ProofsBytes(ps)
    decreases count
  {
    hide ProofAt;
    hide ProofBytes;
    if count != 0 {
      var p := ProofAt(data, off, prev).value;
      var next := off + 8 + |p.bytes|;
      ProofAtIsEncoded(data, off, prev, p);
      ProofsAtGivesBytes(data, next, count - 1, p.slot, ps[1..]);
      assert data[off..] == data[off..next] + data[next..];
    }
  }

  lemma {:induction false} BytesGiveProofsAt(data: Bytes, off: nat, prev: int, ps: seq<Proof>)
    requires FramedProofs(ps, prev) && AllSized(ps)
    requires off <= |data| && data[off..] == ProofsBytes(ps)
    ensures ProofsAt(data, off, |ps|, prev) == Some(ps)
    decreases |ps|
  {
    hide ProofAt;
    hide ProofBytes;
    hide Framed;
    if ps == [] {
      assert |ProofsBytes(ps)| == 0 && |data[off..]| == |data| - off;
      assert ProofsAt(data, off, 0, prev) == Some([]);
    } else {
      var size := 8 + |ps[0].bytes|;
      assert data[off..off + size] == ProofsBytes(ps)[..size] == ProofBytes(ps[0]);
      assert data[off + size..] == data[off..][size..] == ProofsBytes(ps[1..]);
      ProofAtIsEncoded(data, off, prev, ps[0]);
      BytesGiveProofsAt(data, off + size, ps[0].slot, ps[1..]);
      assert ps == [ps[0]] + ps[1..];
    }
  }

  lemma HeaderFields(h: WitnessHeader, data: Bytes)
    requires WITNESS_HEADER_LEN <= |data| && data[..WITNESS_HEADER_LEN] == HeaderBytes(h)
    ensures data[0..4] == WITNESS_MAGIC && data[4] == WITNESS_VERSION && data[5] == h.operation
    ensures data[6] == h.proofCount && data[7] == 0 && U64At(data, 8) == h.stateSequence
  {
    hide Le;
    hide FromLe;
    var n := WITNESS_HEADER_LEN;
    var d := data[0..n];
    assert d == data[..n];
    assert d[0..4] == WITNESS_MAGIC && d[4] == WITNESS_VERSION && d[5] == h.operation;
    assert d[6] == h.proofCount && d[7] == 0 && d[8..16] == U64Le(h.stateSequence);
    SliceOfSlice(data, 0, n, 0, 4);
    SliceOfSlice(data, 0, n, 8, 16);
  }

  lemma ParseHeaderIsEncoded(data: Bytes, h: WitnessHeader)
    ensures ParseHeader(data) == Some(h) <==>
            && WITNESS_HEADER_LEN <= |data| <= WITNESS_MAX_LOCK_LEN
            && CapabilityForOperation(h.operation).Some?
            && data[..WITNESS_HEADER_LEN] == HeaderBytes(h)
  {
    hide Le;
    hide FromLe;
    if ParseHeader(data) == Some(h) {
      assert HeaderBytes(h) == data[0..4] + [data[4], data[5], data[6], data[7]] + data[8..16];
    } else if WITNESS_HEADER_LEN <= |data| && data[..WITNESS_HEADER_LEN] == HeaderBytes(h) {
      HeaderFields(h, data);
    }
  }

  lemma EncodedWitnessParts(w: AccountWitness)
    requires ValidWitness(w)
    ensures ParseHeader(WitnessBytes(w)) == Some(HeaderOf(w))
    ensures ProofsAt(WitnessBytes(w), WITNESS_HEADER_LEN, |w.proofs|, -1) == Some(w.proofs)
  {
    hide ProofsAt;
    hide ParseHeader;
    hide HeaderBytes;
    hide ProofsBytes;
    var data := WitnessBytes(w);
    assert data[..WITNESS_HEADER_LEN] == HeaderBytes(HeaderOf(w));
    assert data[WITNESS_HEADER_LEN..] == ProofsBytes(w.proofs);
    ParseHeaderIsEncoded(data, HeaderOf(w));
    BytesGiveProofsAt(data, WITNESS_HEADER_LEN, -1, w.proofs);
  }

  /** The parser accepts exactly the encodings of valid witnesses and returns what was encoded. */
  lemma ParsedWitnessIsEncoded(data: Bytes, w: AccountWitness)
    ensures ParseWitness(data) == Some(w) <==> ValidWitness(w) && data == WitnessBytes(w)
  {
    hide ProofsAt;
    hide ParseHeader;
    hide HeaderBytes;
    hide ProofsBytes;
    if ParseWitness(data) == Some(w) {
      var h := ParseHeader(data).value;
      ParseHeaderIsEncoded(data, h);
      ProofsAtGivesBytes(data, WITNESS_HEADER_LEN, h.proofCount, -1, w.proofs);
      assert data == data[..WITNESS_HEADER_LEN] + data[WITNESS_HEADER_LEN..];
    }
    if ValidWitness(w) && data == WitnessBytes(w) {
      EncodedWitnessParts(w);
    }
  }

  // ----- The encoder -----

  lemma ProofIsDetermined(p: Proof, q: Proof, restP: Bytes, restQ: Bytes)
    requires |p.bytes| <= U32_MAX && |q.bytes| <= U32_MAX
    requires ProofBytes(p) + restP <= ProofBytes(q) + restQ
    ensures p == q && restP <= restQ
  {
    hide Le;
    hide FromLe;
    hide ProofBytes;
    var x, y := ProofBytes(p) + restP, ProofBytes(q) + restQ;
    var m, n := 8 + |p.bytes|, 8 + |q.bytes|;
    assert x[0..m] == ProofBytes(p) && y[0..n] == ProofBytes(q);
    ProofFields(p, x, 0);
    ProofFields(q, y, 0);
    assert x[0..2] == y[0..2] && x[4..8] == y[4..8];
    assert m == n && x[0..m] == y[0..m];
    assert x[m..] == restP && y[m..] == restQ;
  }

  /** Proof lists of one length are prefix-free. */
  lemma {:induction false} ProofsAreDetermined(ps: seq<Proof>, qs: seq<Proof>)
    requires |ps| == |qs| && AllSized(ps) && AllSized(qs)
    requires ProofsBytes(ps) <= ProofsBytes(qs)
    ensures ps == qs
  {
    hide ProofBytes;
    if ps != [] {
      ProofIsDetermined(ps[0], qs[0], ProofsBytes(ps[1..]), ProofsBytes(qs[1..]));
      ProofsAreDetermined(ps[1..], qs[1..]);
      assert ps == [ps[0]] + ps[1..] && qs == [qs[0]] + qs[1..];
    }
  }

  /** Witness encodings are prefix-free: none is a proper prefix of another. */
  lemma WitnessIsDetermined(v: AccountWitness, w: AccountWitness)
    requires Encodable(v) && Encodable(w)
    requires WitnessBytes(v) <= WitnessBytes(w)
    ensures v == w
  {
    hide Le;
    hide FromLe;
    hide HeaderBytes;
    hide ProofsBytes;
    var n, x, y := WITNESS_HEADER_LEN, WitnessBytes(v), WitnessBytes(w);
    assert x[..n] == HeaderBytes(HeaderOf(v)) && y[..n] == HeaderBytes(HeaderOf(w)) && x[..n] == y[..n];
    HeaderFields(HeaderOf(v), y);
    HeaderFields(HeaderOf(w), y);
    assert ProofsBytes(v.proofs) == x[n..] && ProofsBytes(w.proofs) == y[n..];
    ProofsAreDetermined(v.proofs, w.proofs);
  }

  lemma EncodableIsValid(w: AccountWitness)
    requires Encodable(w)
    ensures ParseWitness(WitnessBytes(w)).Some? <==> ValidWitness(w)
  {
    hide ParseWitness;
    hide WitnessBytes;
    ParsedWitnessIsEncoded(WitnessBytes(w), w);
    var d := ParseWitness(WitnessBytes(w));
    if d.Some? {
      ParsedWitnessIsEncoded(WitnessBytes(w), d.value);
      WitnessIsDetermined(w, d.value);
    }
  }

  lemma {:induction false} ProofsBytesAppend(ps: seq<Proof>, p: Proof)
    requires AllSized(ps) && |p.bytes| <= U32_MAX
    ensures AllSized(ps + [p]) && ProofsBytes(ps + [p]) == ProofsBytes(ps) + ProofBytes(p)
  {
    hide ProofBytes;
    assert forall x | x in ps + [p] :: x in ps || x == p;
    if ps == [] {
      assert ps + [p] == [p];
    } else {
      assert (ps + [p])[1..] == ps[1..] + [p];
      ProofsBytesAppend(ps[1..], p);
    }
  }

  lemma {:induction false} FramedAreNonEmpty(ps: seq<Proof>, prev: int)
    requires FramedProofs(ps, prev)
    ensures forall p | p in ps :: 0 < |p.bytes| <= U32_MAX
  {
    if ps != [] {
      FramedAreNonEmpty(ps[1..], ps[0].slot);
      assert ps == [ps[0]] + ps[1..];
    }
  }

  /** One turn of the encoder's loop. */
  method AppendProof(out: Bytes, proof: Proof) returns (r: Option<Bytes>)
    ensures r == if 0 < |proof.bytes| <= U32_MAX then Some(out + ProofBytes(proof)) else None
  {
    hide Le;
    hide FromLe;
    if proof.bytes == [] || |proof.bytes| > U32_MAX {
      return None;
    }
    var next := out + U16Le(proof.slot);
    next := next + [0, 0];
    next := next + U32Le(|proof.bytes|);
    next := next + proof.bytes;
    assert next == out + ProofBytes(proof);
    return Some(next);
  }

  method EncodeWitness(operation: Byte, stateSequence: U64, proofs: seq<Proof>) returns (r: Option<Bytes>)
    ensures var w := AccountWitness(operation, stateSequence, proofs);
            r == if |proofs| <= AUTHENTICATOR_MAX_COUNT && ValidWitness(w) then Some(WitnessBytes(w)) else None
  {
    hide ProofsAt;
    hide ParseHeader;
    hide ProofBytes;
    hide U64Le;
    ghost var w := AccountWitness(operation, stateSequence, proofs);
    if ValidWitness(w) {
      FramedAreNonEmpty(proofs, -1);
    }
    if CapabilityForOperation(operation).None? || |proofs| > AUTHENTICATOR_MAX_COUNT {
      return None;
    }
    var out := WITNESS_MAGIC;
    out := out + [WITNESS_VERSION, operation, |proofs|, 0];
    out := out + U64Le(stateSequence);
    ghost var header := HeaderBytes(HeaderOf(w));
    assert out == header + ProofsBytes(proofs[..0]);
    for i := 0 to |proofs|
      invariant AllSized(proofs[..i])
      invariant out == header + ProofsBytes(proofs[..i])
    {
      var next := AppendProof(out, proofs[i]);
      out :- next;
      ProofsBytesAppend(proofs[..i], proofs[i]);
      assert proofs[..i + 1] == proofs[..i] + [proofs[i]];
    }
    assert proofs[..|proofs|] == proofs;
    assert out == WitnessBytes(w);
    EncodableIsValid(w);
    var parsedHeader :- ParseHeader(out);
    var parsed := ParseProofs(out, parsedHeader);
    if parsed.None? {
      return None;
    }
    return Some(out);
  }
}
