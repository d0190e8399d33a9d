/** Sufficient conditions for a transaction to be accepted, used to exhibit accepted transactions. */
module Acceptance {
  import opened Bytes
  import opened Protocol
  import opened Molecule
  import opened Transaction
  import opened Sighash
  import opened AccountLock
  import State = StateCodec
  import Wit = WitnessCodec

  /** The first group witness, with the account witness sealed into its lock field. */
  function SealedWitness(w: Wit.AccountWitness, second: Bytes, third: Bytes): Fields
    requires Wit.ValidWitness(w)
  {
    Fields(PackBytes(Wit.WitnessBytes(w)), second, third)
  }

  /** The first group witness is the sealed one, and every covered witness is within the cap. */
  predicate Sealed(tx: Transaction, script: Bytes, w: Wit.AccountWitness, second: Bytes, third: Bytes)
    requires Wit.ValidWitness(w)
  {
    var group := Group(tx, script);
    && group != [] && group[0] < |tx.witnesses|
    && TableSize(SealedWitness(w, second, third)) <= MAX_WITNESS
    && tx.witnesses[group[0]] == PackTable3(SealedWitness(w, second, third))
    && AllCapped(WitnessesAt(tx, group[1..]) + ExtraWitnesses(tx))
  }

  /** Everything before the proofs succeeds, and the proofs parsed are those of the account witness. */
  lemma SealedIsPrepared(h: Hashes, tx: Transaction, script: Bytes, id: Digest, w: Wit.AccountWitness,
                         second: Bytes, third: Bytes, resolved: Resolved, s: State.AccountState)
    requires AccountOf(script) == Some(id)
    requires Wit.ValidWitness(w) && |w.proofs| <= AUTHENTICATOR_MAX_COUNT
    requires Sealed(tx, script, w, second, third)
    requires Resolve(h, tx, w.operation, id) == Some(resolved)
    requires State.ValidAccountState(s) && resolved.current == State.StateBytes(s)
    requires w.stateSequence == s.sequence
    requires ValidateTransition(tx, w.operation, resolved, State.HeaderOf(s))
    ensures Prepare(h, tx, script).Some?
    ensures var t := Prepare(h, tx, script).value;
            && t.operation == w.operation && t.accountId == id && t.state == s && t.resolved == resolved
            && t.proofCount == |w.proofs|
            && Wit.ProofsAt(t.lock, WITNESS_HEADER_LEN, t.proofCount, -1) == Some(w.proofs)
  {
    hide AccountOf;
    hide GroupFrom;
    hide Resolve;
    hide ValidateTransition;
    hide PackTable3;
    hide PackBytes;
    hide CanonicalWitness;
    hide Table3Fields;
    hide MoleculeBytes;
    hide Wit.WitnessBytes;
    hide Wit.FramedProofs;
    hide Wit.HeaderBytes;
    hide Wit.ParseHeader;
    hide Wit.ProofsAt;
    hide State.DecodedState;
    hide State.StateBytes;
    hide Stream;
    hide WitnessesAt;
    hide ExtraWitnesses;
    var f := SealedWitness(w, second, third);
    var lock := Wit.WitnessBytes(w);
    Table3IsPacked(PackTable3(f), f);
    assert f.first != [] by { PackedIsNotEmpty(lock); }
    MoleculeBytesIsPacked(f.first, lock);
    Wit.EncodedWitnessParts(w);
    State.EncodedIsDecoded(s);
    CanonicalIsEmptyLock(PackTable3(f), f);
  }

  lemma PackedIsNotEmpty(content: Bytes)
    requires |content| <= U32_MAX
    ensures PackBytes(content) != []
  {
    assert |PackBytes(content)| == 4 + |content|;
  }
}
