/**
 * The protocol's rules in plain numbers: what a legal state, witness, request and proof is, which capability mask
 * each operation needs, and what a run's digest is the hash of. Each is proved to be what the codecs and the lock
 * go by.
 */
module Rules {
  import opened Bytes
  import opened Protocol
  import opened Words
  import opened Transaction
  import opened AccountLock
  import opened Layouts
  import Policy
  import Proofs = ProofCodec
  import Req = RequestCodec
  import Sig = Sighash
  import State = StateCodec
  import Wit = WitnessCodec

  // ----- States -----

  /** P-256, ML-DSA 44, 65 and 87, and SLH-DSA. */
  lemma AlgorithmsAre(algorithmId: U16)
    ensures IsSupportedAlgorithm(algorithmId) <==>
            || algorithmId == 0x0001 || algorithmId == 0x0101 || algorithmId == 0x0102 || algorithmId == 0x0103
            || algorithmId == 0x0201
  {
  }

  predicate IsLegalEntry(e: State.Entry) {
    && (|| e.algorithmId == 0x0001 || e.algorithmId == 0x0101 || e.algorithmId == 0x0102 || e.algorithmId == 0x0103
        || e.algorithmId == 0x0201)
    && e.capabilities <= 15 && e.weight >= 1 && e.verifierHashType <= 1 && e.verifierAbi == 1
    && |e.keyId| == 32 && |e.aux| >= 1
  }

  /** Total weight of the entries with a bit of the mask. */
  function WeightOf(es: seq<State.Entry>, mask: nat): nat
    requires mask > 0
  {
    if es == [] then 0 else (if HasMask(es[0].capabilities, mask) then es[0].weight else 0) + WeightOf(es[1..], mask)
  }

  predicate SlotsAscend(es: seq<State.Entry>) {
    forall i, j | 0 <= i < j < |es| :: es[i].slot < es[j].slot
  }

  predicate IsLegalState(s: State.AccountState) {
    var es := s.authenticators;
    && s.flags <= 3 && 1 <= |es| <= 16 && 32 + EntryOffset(es, |es|) <= 16_384
    && SlotsAscend(es) && (forall e | e in es :: IsLegalEntry(e))
    && 1 <= s.spendThreshold <= WeightOf(es, 1)
    && 1 <= s.rotateThreshold <= WeightOf(es, 2)
    && if s.flags % 2 == 1 then 1 <= s.recoveryThreshold <= WeightOf(es, 4)
       else s.recoveryThreshold == 0 && s.recoverySince == 0
  }

  lemma {:induction false} OffsetIsSize(es: seq<State.Entry>)
    ensures EntryOffset(es, |es|) == State.EntriesSize(es)
  {
    if es != [] {
      EntryOffsetShift(es, |es|);
      OffsetIsSize(es[1..]);
    }
  }

  lemma {:induction false} EntryFits(es: seq<State.Entry>, e: State.Entry)
    requires e in es
    ensures State.EntrySize(e) <= State.EntriesSize(es)
  {
    if e != es[0] {
      assert e in es[1..];
      EntryFits(es[1..], e);
    }
  }

  predicate IsFramedEntry(e: State.Entry) {
    && State.EntrySize(e) <= 0xffff && e.weight >= 1 && e.capabilities <= 15 && e.verifierHashType <= 1
    && e.verifierAbi == 1
  }

  lemma AscendBehind(e: State.Entry, rest: seq<State.Entry>)
    ensures SlotsAscend([e] + rest) <==> SlotsAscend(rest) && (rest != [] ==> e.slot < rest[0].slot)
  {
    var es := [e] + rest;
    assert forall i | 0 <= i < |rest| :: rest[i] == es[i + 1];
    if SlotsAscend(es) {
      forall i, j | 0 <= i < j < |rest| ensures rest[i].slot < rest[j].slot {
        assert es[i + 1].slot < es[j + 1].slot;
      }
      assert rest != [] ==> es[0].slot < es[1].slot;
    }
    if SlotsAscend(rest) && (rest != [] ==> e.slot < rest[0].slot) {
      forall i, j | 0 <= i < j < |es| ensures es[i].slot < es[j].slot {
        assert es[j] == rest[j - 1] && rest[0].slot <= rest[j - 1].slot;
      }
    }
  }

  lemma {:induction false} FramedAre(es: seq<State.Entry>, prev: int)
    ensures State.FramedEntries(es, prev) <==>
            SlotsAscend(es) && (forall e | e in es :: IsFramedEntry(e)) && (es != [] ==> prev < es[0].slot)
  {
    hide SlotsAscend;
    var rest := if es == [] then [] else es[1..];
    if es != [] {
      FramedAre(rest, es[0].slot);
      AscendBehind(es[0], rest);
      assert es == [es[0]] + rest && es[0] in es;
      assert State.Framed(es[0], prev) <==> IsFramedEntry(es[0]) && prev < es[0].slot;
      assert forall e :: e in es <==> e == es[0] || e in rest;
    } else {
      assert SlotsAscend(es) by { NoneAscend(); }
    }
  }

  lemma NoneAscend()
    ensures SlotsAscend([])
  {
  }

  lemma {:induction false} WeightAppend(es: seq<State.Entry>, e: State.Entry, mask: nat)
    requires mask > 0
    ensures WeightOf(es + [e], mask) == WeightOf(es, mask) + if HasMask(e.capabilities, mask) then e.weight else 0
  {
    hide HasMask;
    if es == [] {
      assert es + [e] == [e];
    } else {
      assert (es + [e])[1..] == es[1..] + [e];
      WeightAppend(es[1..], e, mask);
    }
  }

  lemma {:induction false} WeightsAre(es: seq<State.Entry>, cap: nat, mask: nat)
    requires (cap == 0 && mask == 1) || (cap == 1 && mask == 2) || (cap == 2 && mask == 4)
    ensures State.CapWeight(es, cap) == WeightOf(es, mask)
  {
    hide Bit;
    hide HasMask;
    if es != [] {
      var init, last := es[..|es| - 1], es[|es| - 1];
      WeightsAre(init, cap, mask);
      WeightAppend(init, last, mask);
      BitsAreMasks(last.capabilities);
      assert es == init + [last];
    }
  }

  lemma EntriesAre(es: seq<State.Entry>)
    requires State.EntriesSize(es) <= 16_384
    ensures State.AllSized(es)
    ensures (forall e | e in es :: IsFramedEntry(e)) && (forall e | e in es :: State.UsableEntry(e)) <==>
            forall e | e in es :: IsLegalEntry(e)
  {
    forall e | e in es ensures State.EntrySize(e) <= 16_384 {
      EntryFits(es, e);
    }
  }

  /** A state is valid exactly when it is legal: these numbers are the validator's. */
  lemma ValidIsLegal(s: State.AccountState)
    ensures State.ValidAccountState(s) <==> IsLegalState(s)
  {
    hide Bit;
    hide WeightOf;
    hide IsLegalEntry;
    hide IsFramedEntry;
    hide SlotsAscend;
    hide EntryOffset;
    hide State.UsableEntry;
    hide State.EntriesSize;
    hide State.FramedEntries;
    hide State.AllSized;
    hide State.CapWeight;
    var es := s.authenticators;
    OffsetIsSize(es);
    FramedAre(es, -1);
    WeightsAre(es, 0, 1);
    WeightsAre(es, 1, 2);
    WeightsAre(es, 2, 4);
    BitsAreMasks(s.flags);
    assert HasMask(s.flags, 1) <==> s.flags % 2 == 1;
    if State.EntriesSize(es) <= 16_384 {
      EntriesAre(es);
    }
  }

  // ----- Witnesses, requests, proofs -----

  predicate IsLegalWitness(w: Wit.AccountWitness) {
    && 1 <= w.operation <= 3 && |w.proofs| <= 255 && 16 + ProofOffset(w.proofs, |w.proofs|) <= 131_072
    && (forall p | p in w.proofs :: |p.bytes| >= 1)
    && (forall i, j | 0 <= i < j < |w.proofs| :: w.proofs[i].slot < w.proofs[j].slot)
  }

  lemma {:induction false} FramedProofsAre(ps: seq<Wit.Proof>, prev: int)
    ensures Wit.FramedProofs(ps, prev) <==>
            && Policy.AscendingProofs(ps) && (forall p | p in ps :: 1 <= |p.bytes| <= 0xffff_ffff)
            && (ps != [] ==> prev < ps[0].slot)
  {
    if ps != [] {
      var rest := ps[1..];
      FramedProofsAre(rest, ps[0].slot);
      assert ps == [ps[0]] + rest;
      assert forall i | 0 <= i < |rest| :: rest[i] == ps[i + 1];
      if Policy.AscendingProofs(ps) {
        assert Policy.AscendingProofs(rest) && (rest != [] ==> ps[0].slot < rest[0].slot);
      }
      if Wit.FramedProofs(ps, prev) {
        forall i, j | 0 <= i < j < |ps| ensures ps[i].slot < ps[j].slot {
          assert ps[j] == rest[j - 1];
          assert i > 0 ==> ps[i] == rest[i - 1];
          assert rest[0].slot <= rest[j - 1].slot;
        }
      }
    }
  }

  lemma {:induction false} ProofFits(ps: seq<Wit.Proof>, p: Wit.Proof)
    requires p in ps
    ensures |p.bytes| <= ProofOffset(ps, |ps|)
  {
    ProofOffsetShift(ps, |ps|);
    if p != ps[0] {
      assert p in ps[1..];
      ProofFits(ps[1..], p);
    }
  }

  lemma WitnessLength(w: Wit.AccountWitness)
    requires Wit.Encodable(w)
    ensures |Wit.WitnessBytes(w)| == 16 + ProofOffset(w.proofs, |w.proofs|)
  {
    hide Wit.ProofsBytes;
    hide Wit.HeaderBytes;
    ProofsLength(w.proofs);
  }

  lemma ValidWitnessIsLegal(w: Wit.AccountWitness)
    ensures Wit.ValidWitness(w) <==> IsLegalWitness(w)
  {
    hide ProofOffset;
    hide Wit.WitnessBytes;
    hide Wit.FramedProofs;
    FramedProofsAre(w.proofs, -1);
    if Wit.Encodable(w) {
      WitnessLength(w);
    }
    if IsLegalWitness(w) {
      forall p | p in w.proofs ensures |p.bytes| <= 131_072 {
        ProofFits(w.proofs, p);
      }
      WitnessLength(w);
    }
  }

  lemma ValidRequestIsLegal(q: Req.VerifierRequest)
    ensures Req.ValidRequest(q) <==> 1 <= q.operation <= 3 && |q.aux| <= 4096 && |q.proof| <= 65_536
  {
  }

  lemma ValidP256ProofIsLegal(p: Proofs.P256Proof)
    ensures Proofs.ValidP256Proof(p) <==>
            && |p.publicKey| == 65 && 1 <= |p.origin| <= 255 && 37 <= |p.authenticatorData| <= 65_535
            && 1 <= |p.clientDataJson| <= 65_535 && 1 <= |p.signature| <= 65_535
  {
  }

  // ----- Capabilities -----

  /** Spend, rotate and recovery have the masks 1, 2 and 4 and thresholds of their own. */
  lemma OperationsAre(operation: Byte, s: State.AccountState)
    ensures CapabilityForOperation(operation).Some? <==> 1 <= operation <= 3
    ensures operation == 1 ==> CapabilityForOperation(operation) == Some(0)
                               && ThresholdFor(s, operation) == s.spendThreshold
    ensures operation == 2 ==> CapabilityForOperation(operation) == Some(1)
                               && ThresholdFor(s, operation) == s.rotateThreshold
    ensures operation == 3 ==> CapabilityForOperation(operation) == Some(2)
                               && ThresholdFor(s, operation) == s.recoveryThreshold
  {
  }

  function MaskFor(operation: Byte): (mask: nat)
    ensures mask > 0
  {
    if operation == 1 then 1 else if operation == 2 then 2 else 4
  }

  lemma CapabilityIsMask(word: nat, operation: Byte)
    requires CapabilityForOperation(operation).Some?
    ensures Bit(word, CapabilityForOperation(operation).value) <==> HasMask(word, MaskFor(operation))
  {
    hide Bit;
    BitsAreMasks(word);
  }

  /** A proof for an entry without the operation's mask is never judged: it fails the whole transaction. */
  lemma IncapableIsNotJudged(h: Hashes, child: Child, deps: seq<Cell>, entries: seq<State.Entry>, operation: Byte,
                             digest: Digest, p: Wit.Proof)
    requires CapabilityForOperation(operation).Some? && EntryOfSlot(entries, p.slot).Some?
    requires !HasMask(EntryOfSlot(entries, p.slot).value.capabilities, MaskFor(operation))
    ensures Judge(h, child, deps, entries, operation, CapabilityForOperation(operation).value, digest, p).None?
  {
    hide HasMask;
    hide Bit;
    CapabilityIsMask(EntryOfSlot(entries, p.slot).value.capabilities, operation);
  }

  /** In an accepted run every proof, whatever its verdict, is for an entry with the operation's mask. */
  lemma AcceptedProofsHaveMask(h: Hashes, child: Child, tx: Transaction, script: Bytes, a: Approval, e: State.Entry,
                               p: Wit.Proof)
    requires Run(h, child, tx, script) == Some(a)
    requires e in a.task.state.authenticators && p in a.proofs && e.slot == p.slot
    ensures HasMask(e.capabilities, MaskFor(a.task.operation))
  {
    hide Run;
    hide Prepare;
    hide Judge;
    hide Tally;
    hide HasMask;
    hide Resolve;
    hide ValidateTransition;
    hide ThresholdFor;
    hide AccountOf;
    hide State.ValidAccountState;
    hide State.StateBytes;
    hide State.CapWeight;
    hide Wit.ProofsAt;
    hide Bit;
    var t := a.task;
    Policy.AcceptedRun(h, child, tx, script, a);
    var cap := CapabilityForOperation(t.operation).value;
    Policy.PreparedTask(h, tx, script, t);
    RecoveryIsEnabled(h, tx, script, t);
    Policy.ValidStateFacts(t.state, t.operation);
    Policy.EntryOfSlotIs(t.state.authenticators, p.slot, e);
    AcceptedProofsAreFew(h, child, tx, script, a);
    Policy.TallyCannotOverflow(h, child, tx.deps, t, cap, a.proofs);
    if !HasMask(e.capabilities, MaskFor(t.operation)) {
      IncapableIsNotJudged(h, child, tx.deps, t.state.authenticators, t.operation, t.digest, p);
    }
  }

  lemma AcceptedProofsAreFew(h: Hashes, child: Child, tx: Transaction, script: Bytes, a: Approval)
    requires Run(h, child, tx, script) == Some(a)
    ensures |a.proofs| <= 16
  {
    hide Prepare;
    hide Tally;
    hide Wit.ProofsAt;
    Policy.AcceptedRun(h, child, tx, script, a);
    Wit.ProofsAtGivesBytes(a.task.lock, WITNESS_HEADER_LEN, a.task.proofCount, -1, a.proofs);
    PreparedCount(h, tx, script, a.task);
  }

  lemma RecoveryIsEnabled(h: Hashes, tx: Transaction, script: Bytes, t: Task)
    requires Prepare(h, tx, script) == Some(t)
    ensures t.operation == OP_RECOVERY ==> Bit(t.state.flags, FLAG_RECOVERY_ENABLED)
  {
    hide Prepare;
    hide Resolve;
    hide AccountOf;
    hide State.ValidAccountState;
    hide State.StateBytes;
    Policy.PreparedTask(h, tx, script, t);
  }

  lemma PreparedCount(h: Hashes, tx: Transaction, script: Bytes, t: Task)
    requires Prepare(h, tx, script) == Some(t)
    ensures t.proofCount <= 16
  {
    hide AccountOf;
    hide Policy.Carries;
    hide GroupFrom;
    hide Resolve;
    hide ValidateTransition;
    hide Prepare;
    hide Sig.GroupStream;
    hide Sig.AuthorizationDigest;
    hide Wit.ParseHeader;
    hide State.DecodedState;
    Policy.PreparedFields(h, tx, script, t);
  }

  // ----- The digest of a run -----

  /** A run's proofs are for the hash of 124 bytes, the last 32 of which are the hash of the run's stream. */
  lemma RunDigestIs(h: Hashes, tx: Transaction, script: Bytes, t: Task)
    requires Prepare(h, tx, script) == Some(t)
    ensures Sig.GroupStream(tx, Group(tx, script)).Some?
    ensures IsDigest(h, t.operation, t.accountId, t.state.sequence, t.resolved.current,
                     h.ckb(Sig.GroupStream(tx, Group(tx, script)).value), t.digest)
  {
    hide AccountOf;
    hide Policy.Carries;
    hide GroupFrom;
    hide Resolve;
    hide ValidateTransition;
    hide Prepare;
    hide IsDigest;
    hide Sig.GroupStream;
    hide Sig.AuthorizationDigest;
    hide Wit.ParseHeader;
    hide State.DecodedState;
    Policy.PreparedFields(h, tx, script, t);
    DigestIsHashed(h, t.operation, t.accountId, t.state.sequence, t.resolved.current,
                   h.ckb(Sig.GroupStream(tx, Group(tx, script)).value));
  }

  // ----- The limits -----

  lemma LimitsAre()
    ensures Sig.MAX_WITNESS == 132_096 && MAX_CELL_DATA == 16_384 && MAX_SCRIPT == 512 && MAX_TYPE_SCRIPT == 512
    ensures ACCOUNT_LOCK_VERSION == 1 && ACCOUNT_LOCK_ARGS_LEN == 33
  {
  }
}
