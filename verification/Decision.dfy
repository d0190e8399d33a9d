/**
 * AccountLock's whole decision as one predicate over values. Scripts, witnesses and states are described by what
 * they are the encodings of, cells by what there is exactly one of, approval by a set of slots and its weight;
 * only the lists of group and covered witnesses are the program's own terms. `AcceptsExactly` says that this
 * is what the program decides.
 */
module Decision {
  import opened Bytes
  import opened Protocol
  import opened Molecule
  import opened Transaction
  import opened Sighash
  import opened AccountLock
  import opened Policy
  import Req = RequestCodec
  import State = StateCodec
  import Wit = WitnessCodec

  // ----- The decision -----

  /** A script whose arguments are the version and the account id. */
  ghost predicate IsAccountScript(script: Bytes, id: Digest) {
    |script| <= MAX_SCRIPT &&
    exists f :: TableSize(f) <= U32_MAX && script == PackTable3(f) && f.third == PackBytes([ACCOUNT_LOCK_VERSION] + id)
  }

  /** The first group witness is the table `f`, with the encoded account witness for its lock. */
  predicate Holds(tx: Transaction, script: Bytes, f: Fields, lock: Bytes) {
    && TableSize(f) <= MAX_WITNESS && |lock| <= U32_MAX && f.first == PackBytes(lock)
    && GroupWitness(tx, Group(tx, script), 0) == Some(PackTable3(f))
  }

  /** The current state is in the one dep of the account's type, and no input is of that type. */
  ghost predicate ReadsDep(h: Hashes, tx: Transaction, id: Digest, s: State.AccountState)
    requires State.Encodable(s)
  {
    && (forall i | 0 <= i < |tx.inputs| :: TypeHash(h, tx.inputs[i].cell) != Some(id))
    && exists d: nat :: OnlyAt(tx.deps, HasType(h, id), d) && tx.deps[d].data == State.StateBytes(s)
  }

  /** Input `i` holds the current state, and output `o`, under the same type script, a valid next one. */
  ghost predicate ReplacesAt(h: Hashes, tx: Transaction, operation: Byte, id: Digest, s: State.AccountState,
                             i: nat, o: nat, next: State.AccountState)
    requires State.Encodable(s)
  {
    && OnlyAt(InputCells(tx), HasType(h, id), i) && OnlyAt(tx.outputs, HasType(h, id), o)
    && tx.inputs[i].cell.typeScript == tx.outputs[o].typeScript
    && |tx.outputs[o].typeScript.value| <= MAX_TYPE_SCRIPT
    && tx.inputs[i].cell.data == State.StateBytes(s)
    && State.ValidAccountState(next) && tx.outputs[o].data == State.StateBytes(next)
    && next.sequence == s.sequence + 1
    && (operation == OP_RECOVERY ==>
          Bit(s.flags, FLAG_RECOVERY_ENABLED) && tx.inputs[i].since >= s.recoverySince)
  }

  /** The state the operation is judged by, and what the operation has to do with it. */
  ghost predicate ActsOn(h: Hashes, tx: Transaction, operation: Byte, id: Digest, s: State.AccountState)
    requires State.Encodable(s)
  {
    if operation == OP_SPEND then ReadsDep(h, tx, id, s)
    else exists i, o, next :: ReplacesAt(h, tx, operation, id, s, i, o, next)
  }

  /** The covered witnesses besides the first. */
  function Others(tx: Transaction, script: Bytes): seq<Bytes> {
    var group := Group(tx, script);
    (if group == [] then [] else WitnessesAt(tx, group[1..])) + ExtraWitnesses(tx)
  }

  /** All covered witnesses: the first with an empty lock, and the others. */
  function CoveredBy(tx: Transaction, script: Bytes, f: Fields): seq<Bytes>
    requires TableSize(f) <= MAX_WITNESS
  {
    assert |PackBytes([])| == 4;
    [PackTable3(f.(first := PackBytes([])))] + Others(tx, script)
  }

  /** What the proofs are about. */
  datatype Ballot = Ballot(state: State.AccountState, operation: Byte, digest: Digest)

  /** The proof is for a capable slot, and the slot's one verifier ended on exactly the slot's request. */
  ghost predicate Ran(h: Hashes, child: Child, deps: seq<Cell>, b: Ballot, cap: nat, p: Wit.Proof, verdict: int) {
    exists e: State.Entry, d: nat ::
      && e in b.state.authenticators && e.slot == p.slot && Bit(e.capabilities, cap)
      && OnlyAt(deps, RunsVerifier(h, e), d)
      && |e.keyId| == 32 && e.aux != []
      && Req.ValidRequest(Req.RequestFor(e, b.operation, b.digest, p.bytes))
      && child(d, Req.RequestBytes(Req.RequestFor(e, b.operation, b.digest, p.bytes))) == Some(verdict)
  }

  /** The slots whose verifier exited 0. */
  ghost function Approving(h: Hashes, child: Child, deps: seq<Cell>, b: Ballot, cap: nat, proofs: seq<Wit.Proof>)
    : set<U16>
  {
    set p | p in proofs && Ran(h, child, deps, b, cap, p, 0) :: p.slot
  }

  /** Every proof's verifier ended, and the approving slots weigh enough. */
  ghost predicate Approved(h: Hashes, child: Child, deps: seq<Cell>, b: Ballot, proofs: seq<Wit.Proof>) {
    CapabilityForOperation(b.operation).Some? &&
    var cap := CapabilityForOperation(b.operation).value;
    && (forall p | p in proofs :: exists verdict :: Ran(h, child, deps, b, cap, p, verdict))
    && SlotWeight(b.state.authenticators, Approving(h, child, deps, b, cap, proofs))
       >= ThresholdFor(b.state, b.operation)
  }

  /** The digest the proofs must be for. */
  function DigestOf(h: Hashes, tx: Transaction, script: Bytes, id: Digest, w: Wit.AccountWitness, s: State.AccountState,
                    f: Fields): Digest
    requires State.Encodable(s) && TableSize(f) <= MAX_WITNESS && AllCapped(Others(tx, script))
  {
    CoveredByIsSized(tx, script, f);
    ContextDigest(h, Context(w.operation, id, s.sequence, State.StateBytes(s), tx.hash, CoveredBy(tx, script, f)))
  }

  ghost predicate Accepts(h: Hashes, child: Child, tx: Transaction, script: Bytes, id: Digest, w: Wit.AccountWitness,
                          s: State.AccountState, f: Fields)
  {
    && IsAccountScript(script, id)
    && Wit.ValidWitness(w) && |w.proofs| <= AUTHENTICATOR_MAX_COUNT && Holds(tx, script, f, Wit.WitnessBytes(w))
    && AllCapped(Others(tx, script))
    && State.ValidAccountState(s) && s.sequence == w.stateSequence
    && ActsOn(h, tx, w.operation, id, s)
    && Approved(h, child, tx.deps, Ballot(s, w.operation, DigestOf(h, tx, script, id, w, s, f)), w.proofs)
  }

  lemma CoveredByIsSized(tx: Transaction, script: Bytes, f: Fields)
    requires TableSize(f) <= MAX_WITNESS && AllCapped(Others(tx, script))
    ensures AllSized(CoveredBy(tx, script, f))
  {
    hide Others;
    hide PackTable3;
    assert |PackBytes([])| == 4;
  }

  // ----- Scripts and witnesses -----

  lemma AccountScriptIs(script: Bytes, id: Digest)
    ensures AccountOf(script) == Some(id) <==> IsAccountScript(script, id)
  {
    hide PackTable3;
    hide PackBytes;
    hide Table3Fields;
    hide MoleculeBytes;
    var args := [ACCOUNT_LOCK_VERSION] + id;
    assert |args| == ACCOUNT_LOCK_ARGS_LEN && args[0] == ACCOUNT_LOCK_VERSION && args[1..] == id;
    if AccountOf(script) == Some(id) {
      var f := Table3Fields(script).value;
      Table3IsPacked(script, f);
      MoleculeBytesIsPacked(f.third, args);
      assert ScriptArgs(script).value == args;
    }
    if IsAccountScript(script, id) {
      var f :| TableSize(f) <= U32_MAX && script == PackTable3(f) && f.third == PackBytes(args);
      Table3IsPacked(script, f);
      MoleculeBytesIsPacked(f.third, args);
    }
  }

  /** What a first group witness holds in its lock field, and which table it is. */
  lemma CarriedIsHeld(tx: Transaction, script: Bytes, lock: Bytes, f: Fields)
    requires lock != []
    ensures Holds(tx, script, f, lock) <==>
            Carries(tx, script, lock) && Table3Fields(GroupWitness(tx, Group(tx, script), 0).value) == Some(f)
  {
    hide GroupWitness;
    hide GroupFrom;
    hide PackTable3;
    hide Table3Fields;
    hide MoleculeBytes;
    var first := GroupWitness(tx, Group(tx, script), 0);
    if Carries(tx, script, lock) && Table3Fields(first.value) == Some(f) {
      Table3IsPacked(first.value, f);
      MoleculeBytesIsPacked(f.first, lock);
    }
    if Holds(tx, script, f, lock) {
      Table3IsPacked(first.value, f);
      MoleculeBytesIsPacked(f.first, lock);
      assert |f.first| == 4 + |lock|;
    }
  }

  lemma CoveredIsCoveredBy(tx: Transaction, script: Bytes, f: Fields)
    requires TableSize(f) <= MAX_WITNESS && GroupWitness(tx, Group(tx, script), 0) == Some(PackTable3(f))
    ensures Covered(tx, Group(tx, script)) ==
            if AllCapped(Others(tx, script)) then Some(CoveredBy(tx, script, f)) else None
  {
    hide GroupFrom;
    hide WitnessesAt;
    hide ExtraWitnesses;
    hide PackTable3;
    hide CanonicalWitness;
    Table3IsPacked(PackTable3(f), f);
    CanonicalIsEmptyLock(PackTable3(f), f);
  }

  // ----- The state and its transition -----

  /** What the program resolves and then checks of it, together. */
  ghost predicate ResolvesTo(h: Hashes, tx: Transaction, operation: Byte, id: Digest, s: State.AccountState,
                             r: Resolved)
    requires State.Encodable(s)
  {
    && Resolve(h, tx, operation, id) == Some(r) && r.current == State.StateBytes(s)
    && ValidateTransition(tx, operation, r, State.HeaderOf(s))
  }

  lemma SpendActsOn(h: Hashes, tx: Transaction, id: Digest, s: State.AccountState)
    requires State.ValidAccountState(s)
    ensures (exists r :: ResolvesTo(h, tx, OP_SPEND, id, s, r)) <==> ActsOn(h, tx, OP_SPEND, id, s)
  {
    hide OnlyAt;
    hide Resolve;
    hide State.StateBytes;
    hide State.CapWeight;
    StateFits(s);
    forall r | ResolvesTo(h, tx, OP_SPEND, id, s, r) ensures ReadsDep(h, tx, id, s) {
      ResolvedSpend(h, tx, id, r);
    }
    if ReadsDep(h, tx, id, s) {
      var r := Resolved(State.StateBytes(s), None, None);
      ResolvedSpend(h, tx, id, r);
      assert ResolvesTo(h, tx, OP_SPEND, id, s, r);
    }
  }

  lemma StateFits(s: State.AccountState)
    requires State.ValidAccountState(s)
    ensures State.Encodable(s) && |State.StateBytes(s)| <= MAX_CELL_DATA
  {
  }

  /** A byte string is validated exactly when it encodes a valid state, whose sequence is the one reported. */
  lemma ValidatedSequence(data: Bytes, sequence: U64)
    ensures (State.Validated(data).Some? && State.Validated(data).value.0.sequence == sequence) <==>
            exists next :: State.ValidAccountState(next) && data == State.StateBytes(next) && next.sequence == sequence
  {
    hide State.Validated;
    hide State.DecodedState;
    hide State.StateBytes;
    hide State.EntriesSize;
    hide State.FramedEntries;
    hide State.ThresholdsMet;
    hide State.CapWeight;
    State.ValidatedAgreesWithDecoded(data);
    if State.Validated(data).Some? {
      State.DecodedIsEncoded(data, State.DecodedState(data).value);
    }
    forall next | State.ValidAccountState(next) && data == State.StateBytes(next) && next.sequence == sequence
      ensures State.Validated(data).Some? && State.Validated(data).value.0.sequence == sequence
    {
      State.ValidatedIsEncoded(data, next);
    }
  }

  /** One change, resolved at given indices. */
  lemma ChangeAt(h: Hashes, tx: Transaction, operation: Byte, id: Digest, s: State.AccountState, i: nat, o: nat)
    requires State.ValidAccountState(s) && (operation == OP_ROTATE || operation == OP_RECOVERY)
    requires OnlyAt(InputCells(tx), HasType(h, id), i) && OnlyAt(tx.outputs, HasType(h, id), o)
    requires tx.inputs[i].cell.data == State.StateBytes(s)
    ensures (&& tx.inputs[i].cell.typeScript == tx.outputs[o].typeScript
             && |tx.outputs[o].typeScript.value| <= MAX_TYPE_SCRIPT
             && ValidateTransition(tx, operation, Resolved(State.StateBytes(s), Some(tx.outputs[o].data), Some(i)),
                                   State.HeaderOf(s)))
            <==> exists next :: ReplacesAt(h, tx, operation, id, s, i, o, next)
  {
    hide IndicesWhere;
    hide Bit;
    hide State.Validated;
    hide State.StateBytes;
    hide State.EntriesSize;
    hide State.FramedEntries;
    hide State.ThresholdsMet;
    hide State.CapWeight;
    if s.sequence < U64_MAX {
      ValidatedSequence(tx.outputs[o].data, s.sequence + 1);
    }
    var resolved := Resolved(State.StateBytes(s), Some(tx.outputs[o].data), Some(i));
    if && tx.inputs[i].cell.typeScript == tx.outputs[o].typeScript
       && |tx.outputs[o].typeScript.value| <= MAX_TYPE_SCRIPT
       && ValidateTransition(tx, operation, resolved, State.HeaderOf(s)) {
      var next :| && State.ValidAccountState(next) && tx.outputs[o].data == State.StateBytes(next)
                  && next.sequence == s.sequence + 1;
      assert ReplacesAt(h, tx, operation, id, s, i, o, next);
    }
    forall next | ReplacesAt(h, tx, operation, id, s, i, o, next)
      ensures ValidateTransition(tx, operation, resolved, State.HeaderOf(s))
    {
    }
  }

  lemma ChangeActsOn(h: Hashes, tx: Transaction, operation: Byte, id: Digest, s: State.AccountState)
    requires State.ValidAccountState(s) && (operation == OP_ROTATE || operation == OP_RECOVERY)
    ensures (exists r :: ResolvesTo(h, tx, operation, id, s, r)) <==> ActsOn(h, tx, operation, id, s)
  {
    hide Resolve;
    hide ValidateTransition;
    hide IndicesWhere;
    hide State.StateBytes;
    hide State.ValidAccountState;
    StateFits(s);
    forall r | ResolvesTo(h, tx, operation, id, s, r) ensures ActsOn(h, tx, operation, id, s) {
      ResolvedChange(h, tx, operation, id, r);
      var i: nat, o: nat :|
        && OnlyAt(InputCells(tx), HasType(h, id), i) && OnlyAt(tx.outputs, HasType(h, id), o)
        && tx.inputs[i].cell.typeScript == tx.outputs[o].typeScript
        && |tx.outputs[o].typeScript.value| <= MAX_TYPE_SCRIPT
        && r == Resolved(tx.inputs[i].cell.data, Some(tx.outputs[o].data), Some(i));
      ChangeAt(h, tx, operation, id, s, i, o);
    }
    forall i: nat, o: nat, next | ReplacesAt(h, tx, operation, id, s, i, o, next)
      ensures exists r :: ResolvesTo(h, tx, operation, id, s, r)
    {
      var r := Resolved(State.StateBytes(s), Some(tx.outputs[o].data), Some(i));
      ChangeAt(h, tx, operation, id, s, i, o);
      StateFits(next);
      ResolvedChange(h, tx, operation, id, r);
      assert ResolvesTo(h, tx, operation, id, s, r);
    }
  }

  lemma ActsOnIs(h: Hashes, tx: Transaction, operation: Byte, id: Digest, s: State.AccountState)
    requires State.ValidAccountState(s) && CapabilityForOperation(operation).Some?
    ensures (exists r :: ResolvesTo(h, tx, operation, id, s, r)) <==> ActsOn(h, tx, operation, id, s)
  {
    hide ResolvesTo;
    hide ActsOn;
    hide State.ValidAccountState;
    if operation == OP_SPEND {
      SpendActsOn(h, tx, id, s);
    } else {
      ChangeActsOn(h, tx, operation, id, s);
    }
  }

  // ----- The proofs -----

  function BallotOf(t: Task): Ballot {
    Ballot(t.state, t.operation, t.digest)
  }

  lemma RanIsJudged(h: Hashes, child: Child, deps: seq<Cell>, t: Task, cap: nat, p: Wit.Proof)
    requires AscendingSlots(t.state.authenticators)
    ensures (exists verdict :: Ran(h, child, deps, BallotOf(t), cap, p, verdict)) <==>
            Judge(h, child, deps, t.state.authenticators, t.operation, cap, t.digest, p).Some?
  {
    hide VerifierDep;
    hide OnlyAt;
    hide Req.RequestBytes;
    hide AscendingSlots;
    var entries := t.state.authenticators;
    forall verdict | Ran(h, child, deps, BallotOf(t), cap, p, verdict)
      ensures Judge(h, child, deps, entries, t.operation, cap, t.digest, p).Some?
    {
      var e: State.Entry, d: nat :|
        && e in entries && e.slot == p.slot && Bit(e.capabilities, cap) && OnlyAt(deps, RunsVerifier(h, e), d)
        && |e.keyId| == 32 && e.aux != [] && Req.ValidRequest(Req.RequestFor(e, t.operation, t.digest, p.bytes))
        && child(d, Req.RequestBytes(Req.RequestFor(e, t.operation, t.digest, p.bytes))) == Some(verdict);
      EntryOfSlotIs(entries, p.slot, e);
      VerifierDepIsOnly(h, deps, e, d);
    }
    if Judge(h, child, deps, entries, t.operation, cap, t.digest, p).Some? {
      var e := EntryOfSlot(entries, p.slot).value;
      EntryOfSlotIs(entries, p.slot, e);
      var d := VerifierDep(h, deps, e).value;
      VerifierDepIsOnly(h, deps, e, d);
      var verdict := child(d, Req.RequestBytes(Req.RequestFor(e, t.operation, t.digest, p.bytes))).value;
      assert Ran(h, child, deps, BallotOf(t), cap, p, verdict);
    }
  }

  lemma ApprovingIsEarning(h: Hashes, child: Child, deps: seq<Cell>, t: Task, cap: nat, proofs: seq<Wit.Proof>)
    requires AscendingSlots(t.state.authenticators) && forall e | e in t.state.authenticators :: 0 < e.weight
    requires forall p | p in proofs ::
               Judge(h, child, deps, t.state.authenticators, t.operation, cap, t.digest, p).Some?
    ensures Approving(h, child, deps, BallotOf(t), cap, proofs) == ApprovedSlots(h, child, deps, t, cap, proofs)
  {
    hide Judge;
    hide Earns;
    hide Ran;
    hide ApprovedWith;
    forall p | p in proofs
      ensures Earns(h, child, deps, t, cap, p) <==> Ran(h, child, deps, BallotOf(t), cap, p, 0)
    {
      EarnsIsApproved(h, child, deps, t, cap, p);
      RanIsApproved(h, child, deps, t, cap, p);
    }
  }

  lemma RanIsApproved(h: Hashes, child: Child, deps: seq<Cell>, t: Task, cap: nat, p: Wit.Proof)
    ensures Ran(h, child, deps, BallotOf(t), cap, p, 0) <==> ApprovedWith(h, child, deps, t, cap, p)
  {
    hide OnlyAt;
    hide Req.RequestBytes;
    hide Bit;
    if Ran(h, child, deps, BallotOf(t), cap, p, 0) {
      var e: State.Entry, d: nat :|
        && e in t.state.authenticators && e.slot == p.slot && Bit(e.capabilities, cap)
        && OnlyAt(deps, RunsVerifier(h, e), d)
        && |e.keyId| == 32 && e.aux != [] && Req.ValidRequest(Req.RequestFor(e, t.operation, t.digest, p.bytes))
        && child(d, Req.RequestBytes(Req.RequestFor(e, t.operation, t.digest, p.bytes))) == Some(0);
      assert VerifierAccepts(h, child, deps, t, e, p, d);
    }
    if ApprovedWith(h, child, deps, t, cap, p) {
      var e: State.Entry, d: nat :|
        && e in t.state.authenticators && e.slot == p.slot && Bit(e.capabilities, cap)
        && VerifierAccepts(h, child, deps, t, e, p, d);
      assert OnlyAt(deps, RunsVerifier(h, e), d);
    }
  }

  /** The running sum meets the threshold exactly when the approving slots weigh enough. */
  lemma TallyDecides(h: Hashes, child: Child, deps: seq<Cell>, t: Task, cap: nat, proofs: seq<Wit.Proof>)
    requires AscendingSlots(t.state.authenticators) && forall e | e in t.state.authenticators :: 0 < e.weight
    requires AscendingProofs(proofs) && |proofs| <= AUTHENTICATOR_MAX_COUNT
    requires CapabilityForOperation(t.operation) == Some(cap)
    ensures Approved(h, child, deps, BallotOf(t), proofs) <==>
            && Tally(h, child, deps, t, cap, proofs).Some?
            && Tally(h, child, deps, t, cap, proofs).value >= ThresholdFor(t.state, t.operation)
  {
    hide Judge;
    hide Ran;
    hide Approving;
    hide ApprovedSlots;
    hide Tally;
    hide SlotWeight;
    hide AscendingSlots;
    hide AscendingProofs;
    hide ThresholdFor;
    forall p | p in proofs
      ensures (exists verdict :: Ran(h, child, deps, BallotOf(t), cap, p, verdict)) <==>
              Judge(h, child, deps, t.state.authenticators, t.operation, cap, t.digest, p).Some?
    {
      RanIsJudged(h, child, deps, t, cap, p);
    }
    TallyCannotOverflow(h, child, deps, t, cap, proofs);
    if Tally(h, child, deps, t, cap, proofs).Some? {
      TallyIsSlotWeight(h, child, deps, t, cap, proofs);
      ApprovingIsEarning(h, child, deps, t, cap, proofs);
    }
  }

  /** From a prepared run to its verdict. */
  lemma ProofsDecide(h: Hashes, child: Child, tx: Transaction, script: Bytes, t: Task, proofs: seq<Wit.Proof>)
    requires Prepare(h, tx, script) == Some(t)
    requires Wit.ProofsAt(t.lock, WITNESS_HEADER_LEN, t.proofCount, -1) == Some(proofs)
    ensures Run(h, child, tx, script).Some? <==> Approved(h, child, tx.deps, BallotOf(t), proofs)
  {
    hide Prepare;
    hide Tally;
    hide Approved;
    hide ThresholdFor;
    hide AccountOf;
    hide Carries;
    hide Group;
    hide GroupStream;
    hide AuthorizationDigest;
    hide Resolve;
    hide ValidateTransition;
    hide Bit;
    hide Wit.ParseHeader;
    hide State.DecodedState;
    hide State.StateBytes;
    hide AscendingSlots;
    hide AscendingProofs;
    hide Wit.ProofsAt;
    hide State.ValidAccountState;
    hide State.CapWeight;
    PreparedTask(h, tx, script, t);
    ValidStateFacts(t.state, t.operation);
    Wit.ProofsAtGivesBytes(t.lock, WITNESS_HEADER_LEN, t.proofCount, -1, proofs);
    FramedProofsAscend(proofs, -1);
    PreparedFields(h, tx, script, t);
    TallyDecides(h, child, tx.deps, t, CapabilityForOperation(t.operation).value, proofs);
  }

  // ----- Both directions -----

  /** The witness of a parsed header and the parsed proofs. */
  lemma ParsedWitness(lock: Bytes, h: Wit.WitnessHeader, proofs: seq<Wit.Proof>)
    requires Wit.ParseHeader(lock) == Some(h)
    requires Wit.ProofsAt(lock, WITNESS_HEADER_LEN, h.proofCount, -1) == Some(proofs)
    ensures var w := Wit.AccountWitness(h.operation, h.stateSequence, proofs);
            Wit.ValidWitness(w) && lock == Wit.WitnessBytes(w) && |proofs| == h.proofCount && lock != []
  {
    hide Wit.ParseHeader;
    hide Wit.ProofsAt;
    hide Wit.ValidWitness;
    hide Wit.WitnessBytes;
    Wit.ParsedWitnessIsEncoded(lock, Wit.AccountWitness(h.operation, h.stateSequence, proofs));
    Wit.ProofsAtGivesBytes(lock, WITNESS_HEADER_LEN, h.proofCount, -1, proofs);
    Wit.ParseHeaderIsEncoded(lock, h);
  }

  lemma DigestsAgree(h: Hashes, tx: Transaction, script: Bytes, id: Digest, w: Wit.AccountWitness,
                     s: State.AccountState, f: Fields, lock: Bytes)
    requires State.Encodable(s) && Holds(tx, script, f, lock) && AllCapped(Others(tx, script))
    ensures GroupStream(tx, Group(tx, script)).Some?
    ensures DigestOf(h, tx, script, id, w, s, f) ==
            AuthorizationDigest(h, w.operation, id, s.sequence, State.StateBytes(s),
                                h.ckb(GroupStream(tx, Group(tx, script)).value))
  {
    hide PackTable3;
    hide GroupFrom;
    hide GroupWitness;
    hide Covered;
    hide Others;
    hide CoveredBy;
    hide Stream;
    hide DigestPreimage;
    hide State.StateBytes;
    CoveredIsCoveredBy(tx, script, f);
    CoveredByIsSized(tx, script, f);
  }

  lemma AcceptedIsDescribed(h: Hashes, child: Child, tx: Transaction, script: Bytes)
    requires Run(h, child, tx, script).Some?
    ensures exists id, w, s, f :: Accepts(h, child, tx, script, id, w, s, f)
  {
    hide Prepare;
    hide Tally;
    hide Approved;
    hide IsAccountScript;
    hide Holds;
    hide Carries;
    hide ActsOn;
    hide Others;
    hide DigestOf;
    hide Covered;
    hide Table3Fields;
    hide PackTable3;
    hide GroupFrom;
    hide AccountOf;
    hide Resolve;
    hide ValidateTransition;
    hide AuthorizationDigest;
    hide ThresholdFor;
    hide Wit.ProofsAt;
    hide Wit.ParseHeader;
    hide Wit.WitnessBytes;
    hide Wit.ValidWitness;
    hide State.DecodedState;
    hide State.StateBytes;
    hide State.ValidAccountState;
    var a := Run(h, child, tx, script).value;
    var t, proofs := a.task, a.proofs;
    PreparedFields(h, tx, script, t);
    PreparedTask(h, tx, script, t);
    ParsedWitness(t.lock, Wit.ParseHeader(t.lock).value, proofs);
    var w := Wit.AccountWitness(t.operation, t.state.sequence, proofs);
    AccountScriptIs(script, t.accountId);
    CarriedFields(tx, script, t.lock);
    var f := Table3Fields(GroupWitness(tx, Group(tx, script), 0).value).value;
    CarriedIsHeld(tx, script, t.lock, f);
    HeldIsCapped(tx, script, f, t.lock);
    StateFits(t.state);
    assert ResolvesTo(h, tx, t.operation, t.accountId, t.state, t.resolved);
    ActsOnIs(h, tx, t.operation, t.accountId, t.state);
    DigestsAgree(h, tx, script, t.accountId, w, t.state, f, t.lock);
    ProofsDecide(h, child, tx, script, t, proofs);
    assert Accepts(h, child, tx, script, t.accountId, w, t.state, f);
  }

  lemma CarriedFields(tx: Transaction, script: Bytes, lock: Bytes)
    requires Carries(tx, script, lock)
    ensures GroupWitness(tx, Group(tx, script), 0).Some?
    ensures Table3Fields(GroupWitness(tx, Group(tx, script), 0).value).Some?
  {
  }

  lemma HeldIsCapped(tx: Transaction, script: Bytes, f: Fields, lock: Bytes)
    requires Holds(tx, script, f, lock)
    ensures GroupStream(tx, Group(tx, script)).Some? <==> AllCapped(Others(tx, script))
  {
    hide PackTable3;
    hide PackBytes;
    hide GroupFrom;
    hide GroupWitness;
    hide Covered;
    hide Others;
    hide CoveredBy;
    hide Stream;
    CoveredIsCoveredBy(tx, script, f);
  }

  lemma DescribedIsAccepted(h: Hashes, child: Child, tx: Transaction, script: Bytes, id: Digest, w: Wit.AccountWitness,
                            s: State.AccountState, f: Fields)
    requires Accepts(h, child, tx, script, id, w, s, f)
    ensures Run(h, child, tx, script).Some?
  {
    hide Run;
    hide Prepare;
    hide Approved;
    hide IsAccountScript;
    hide PackBytes;
    hide Carries;
    hide ActsOn;
    hide Others;
    hide DigestOf;
    hide Table3Fields;
    hide PackTable3;
    hide GroupFrom;
    hide GroupWitness;
    hide GroupStream;
    hide AccountOf;
    hide Resolve;
    hide ValidateTransition;
    hide AuthorizationDigest;
    hide Wit.ProofsAt;
    hide Wit.ParseHeader;
    hide Wit.FramedProofs;
    hide State.DecodedState;
    hide State.StateBytes;
    hide State.CapWeight;
    var lock := Wit.WitnessBytes(w);
    Wit.EncodedWitnessParts(w);
    Wit.ParseHeaderIsEncoded(lock, Wit.HeaderOf(w));
    AccountScriptIs(script, id);
    CarriedIsHeld(tx, script, lock, f);
    State.EncodedIsDecoded(s);
    ActsOnIs(h, tx, w.operation, id, s);
    var r :| ResolvesTo(h, tx, w.operation, id, s, r);
    DigestsAgree(h, tx, script, id, w, s, f, lock);
    var t := Task(w.operation, id, s, r, lock, |w.proofs|, DigestOf(h, tx, script, id, w, s, f));
    PreparedFields(h, tx, script, t);
    ProofsDecide(h, child, tx, script, t, w.proofs);
  }

  /**
   * AccountLock accepts a transaction exactly when its first group witness holds the encoding of an account
   * witness, the account's one state cell holds the encoding of a valid state at the witness's sequence,
   * a change replaces it by the encoding of a valid next state under the same type script, every proof is
   * for a capable slot whose one verifier ended on exactly the slot's request, and the slots whose verifier
   * exited 0 weigh at least the operation's threshold.
   */
  lemma AcceptsExactly(h: Hashes, child: Child, tx: Transaction, script: Bytes)
    ensures Run(h, child, tx, script).Some? <==> exists id, w, s, f :: Accepts(h, child, tx, script, id, w, s, f)
  {
    hide Run;
    hide Accepts;
    if Run(h, child, tx, script).Some? {
      AcceptedIsDescribed(h, child, tx, script);
    }
    forall id, w, s, f | Accepts(h, child, tx, script, id, w, s, f) ensures Run(h, child, tx, script).Some? {
      DescribedIsAccepted(h, child, tx, script, id, w, s, f);
    }
  }
}
