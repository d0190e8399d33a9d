/** What an accepted run of AccountLock proves about who approved it, and what approval a state's weights allow. */
module Policy {
  import opened Bytes
  import opened Protocol
  import opened Transaction
  import opened Sighash
  import opened Molecule
  import opened AccountLock
  import State = StateCodec
  import Wit = WitnessCodec
  import Req = RequestCodec

  // ----- Slots and their weight -----

  predicate AscendingSlots(entries: seq<State.Entry>) {
    forall i, j | 0 <= i < j < |entries| :: entries[i].slot < entries[j].slot
  }

  /** Total weight of a set of slots; each entry of the state is counted at most once. */
  function SlotWeight(entries: seq<State.Entry>, slots: set<U16>): nat {
    if entries == [] then 0
    else
      var last := entries[|entries| - 1];
      SlotWeight(entries[..|entries| - 1], slots) + if last.slot in slots then last.weight else 0
  }

  lemma {:induction false} FramedAreAscending(entries: seq<State.Entry>, prev: int)
    requires State.FramedEntries(entries, prev)
    ensures AscendingSlots(entries)
    ensures forall e | e in entries :: prev < e.slot && 0 < e.weight
  {
    if entries != [] {
      FramedAreAscending(entries[1..], entries[0].slot);
      assert entries == [entries[0]] + entries[1..];
      assert forall i | 1 <= i < |entries| :: entries[i] == entries[1..][i - 1];
    }
  }

  lemma {:induction false} EntryOfSlotIs(entries: seq<State.Entry>, slot: U16, e: State.Entry)
    requires AscendingSlots(entries)
    ensures EntryOfSlot(entries, slot) == Some(e) <==> e in entries && e.slot == slot
  {
    if entries != [] {
      var init, last := entries[..|entries| - 1], entries[|entries| - 1];
      assert entries == init + [last];
      EntryOfSlotIs(init, slot, e);
    }
  }

  lemma {:induction false} SlotWeightWithout(entries: seq<State.Entry>, slots: set<U16>, slot: U16)
    requires forall e | e in entries :: e.slot != slot
    ensures SlotWeight(entries, slots + {slot}) == SlotWeight(entries, slots)
  {
    if entries != [] {
      var init, last := entries[..|entries| - 1], entries[|entries| - 1];
      assert entries == init + [last];
      SlotWeightWithout(init, slots, slot);
    }
  }

  /** A new slot adds exactly the weight of its one entry. */
  lemma {:induction false} SlotWeightAdd(entries: seq<State.Entry>, slots: set<U16>, e: State.Entry)
    requires AscendingSlots(entries) && e in entries && e.slot !in slots
    ensures SlotWeight(entries, slots + {e.slot}) == SlotWeight(entries, slots) + e.weight
  {
    var init, last := entries[..|entries| - 1], entries[|entries| - 1];
    assert entries == init + [last];
    if last == e {
      SlotWeightWithout(init, slots, e.slot);
    } else {
      SlotWeightAdd(init, slots, e);
    }
  }

  /** The entry holds the capability, and its `aux` fits a verifier request; the validator does not ask the latter. */
  predicate IsUsable(e: State.Entry, cap: nat) {
    Bit(e.capabilities, cap) && |e.aux| <= MAX_AUX_LEN
  }

  /** Total weight of the entries that can ever be approved for a capability. */
  function UsableWeight(entries: seq<State.Entry>, cap: nat): nat {
    if entries == [] then 0
    else
      var last := entries[|entries| - 1];
      UsableWeight(entries[..|entries| - 1], cap) + if IsUsable(last, cap) then last.weight else 0
  }

  /** A set of usable slots weighs at most the usable weight, and exactly that when it is all of them. */
  lemma {:induction false} SlotWeightIsUsable(entries: seq<State.Entry>, slots: set<U16>, cap: nat)
    requires forall e | e in entries && e.slot in slots :: IsUsable(e, cap)
    ensures SlotWeight(entries, slots) <= UsableWeight(entries, cap)
    ensures (forall e | e in entries && IsUsable(e, cap) :: e.slot in slots) ==>
              SlotWeight(entries, slots) == UsableWeight(entries, cap)
  {
    hide IsUsable;
    if entries != [] {
      var init, last := entries[..|entries| - 1], entries[|entries| - 1];
      assert entries == init + [last];
      SlotWeightIsUsable(init, slots, cap);
    }
  }

  /** The usable weight is the summary weight less that of the capable entries with too long an `aux`. */
  lemma {:induction false} UsableIsCapable(entries: seq<State.Entry>, cap: nat)
    ensures UsableWeight(entries, cap) <= State.CapWeight(entries, cap)
    ensures (forall e | e in entries && Bit(e.capabilities, cap) :: |e.aux| <= MAX_AUX_LEN) ==>
              UsableWeight(entries, cap) == State.CapWeight(entries, cap)
  {
    hide Bit;
    if entries != [] {
      var init, last := entries[..|entries| - 1], entries[|entries| - 1];
      assert entries == init + [last];
      UsableIsCapable(init, cap);
    }
  }

  // ----- Approval -----

  /** The verifier of `e` is the one at `d`, and its child exits 0 on the request for `e` and this proof. */
  predicate VerifierAccepts(h: Hashes, child: Child, deps: seq<Cell>, t: Task, e: State.Entry, p: Wit.Proof, d: nat) {
    && OnlyAt(deps, RunsVerifier(h, e), d)
    && |e.keyId| == 32 && e.aux != []
    && Req.ValidRequest(Req.RequestFor(e, t.operation, t.digest, p.bytes))
    && child(d, Req.RequestBytes(Req.RequestFor(e, t.operation, t.digest, p.bytes))) == Some(0)
  }

  /** The slot's authenticator, named by the state, holds the capability, has one verifier dep, and that
      dep's child exited 0 on exactly the request encoded for this slot and proof. */
  ghost predicate ApprovedWith(h: Hashes, child: Child, deps: seq<Cell>, t: Task, cap: nat, p: Wit.Proof) {
    exists e: State.Entry, d: nat ::
      && e in t.state.authenticators && e.slot == p.slot && Bit(e.capabilities, cap)
      && VerifierAccepts(h, child, deps, t, e, p, d)
  }

  ghost predicate SlotApproved(h: Hashes, child: Child, deps: seq<Cell>, t: Task, cap: nat, proofs: seq<Wit.Proof>,
                               slot: U16)
  {
    exists p :: p in proofs && p.slot == slot && ApprovedWith(h, child, deps, t, cap, p)
  }

  predicate Earns(h: Hashes, child: Child, deps: seq<Cell>, t: Task, cap: nat, p: Wit.Proof) {
    var judged := Judge(h, child, deps, t.state.authenticators, t.operation, cap, t.digest, p);
    judged.Some? && judged.value != 0
  }

  /** The slots whose proof earned weight. */
  function ApprovedSlots(h: Hashes, child: Child, deps: seq<Cell>, t: Task, cap: nat, proofs: seq<Wit.Proof>)
    : set<U16>
  {
    set p | p in proofs && Earns(h, child, deps, t, cap, p) :: p.slot
  }

  lemma EarnsIsApproved(h: Hashes, child: Child, deps: seq<Cell>, t: Task, cap: nat, p: Wit.Proof)
    requires AscendingSlots(t.state.authenticators) && forall e | e in t.state.authenticators :: 0 < e.weight
    requires Judge(h, child, deps, t.state.authenticators, t.operation, cap, t.digest, p).Some?
    ensures Earns(h, child, deps, t, cap, p) <==> ApprovedWith(h, child, deps, t, cap, p)
  {
    hide VerifierDep;
    hide Req.RequestBytes;
    var entries := t.state.authenticators;
    var e := EntryOfSlot(entries, p.slot).value;
    EntryOfSlotIs(entries, p.slot, e);
    if Earns(h, child, deps, t, cap, p) {
      var d := VerifierDep(h, deps, e).value;
      VerifierDepIsOnly(h, deps, e, d);
      assert VerifierAccepts(h, child, deps, t, e, p, d);
    }
    if ApprovedWith(h, child, deps, t, cap, p) {
      var f: State.Entry, d: nat :| && f in entries && f.slot == p.slot && Bit(f.capabilities, cap)
                                    && VerifierAccepts(h, child, deps, t, f, p, d);
      AcceptedProofEarns(h, child, deps, t, cap, p, f, d);
    }
  }

  predicate AscendingProofs(proofs: seq<Wit.Proof>) {
    forall i, j | 0 <= i < j < |proofs| :: proofs[i].slot < proofs[j].slot
  }

  lemma {:induction false} FramedProofsAscend(proofs: seq<Wit.Proof>, prev: int)
    requires Wit.FramedProofs(proofs, prev)
    ensures AscendingProofs(proofs) && forall p | p in proofs :: prev < p.slot
  {
    if proofs != [] {
      FramedProofsAscend(proofs[1..], proofs[0].slot);
      assert proofs == [proofs[0]] + proofs[1..];
      assert forall i | 1 <= i < |proofs| :: proofs[i] == proofs[1..][i - 1];
    }
  }

  lemma JudgedWeight(h: Hashes, child: Child, deps: seq<Cell>, t: Task, cap: nat, p: Wit.Proof)
    requires Judge(h, child, deps, t.state.authenticators, t.operation, cap, t.digest, p).Some?
    ensures var e := EntryOfSlot(t.state.authenticators, p.slot);
            && e.Some? && Bit(e.value.capabilities, cap)
            && Judge(h, child, deps, t.state.authenticators, t.operation, cap, t.digest, p).value in {0, e.value.weight}
  {
    hide VerifierDep;
    hide Req.LockRequest;
  }

  lemma SlotsGrow(h: Hashes, child: Child, deps: seq<Cell>, t: Task, cap: nat, init: seq<Wit.Proof>, last: Wit.Proof)
    requires AscendingProofs(init + [last])
    ensures var before := ApprovedSlots(h, child, deps, t, cap, init);
            && last.slot !in before
            && ApprovedSlots(h, child, deps, t, cap, init + [last]) ==
               if Earns(h, child, deps, t, cap, last) then before + {last.slot} else before
  {
    hide Earns;
    assert forall i | 0 <= i < |init| :: init[i] == (init + [last])[i];
    assert (init + [last])[|init|] == last;
    assert forall p :: p in init + [last] <==> p in init || p == last;
  }

  lemma EarnsMeansWeight(h: Hashes, child: Child, deps: seq<Cell>, t: Task, cap: nat, p: Wit.Proof)
    ensures Earns(h, child, deps, t, cap, p) <==>
            && Judge(h, child, deps, t.state.authenticators, t.operation, cap, t.digest, p).Some?
            && Judge(h, child, deps, t.state.authenticators, t.operation, cap, t.digest, p) != Some(0)
  {
    hide Judge;
  }

  lemma TallyStep(h: Hashes, child: Child, deps: seq<Cell>, t: Task, cap: nat, init: seq<Wit.Proof>, last: Wit.Proof)
    requires Tally(h, child, deps, t, cap, init + [last]).Some?
    ensures var judged := Judge(h, child, deps, t.state.authenticators, t.operation, cap, t.digest, last);
            && Tally(h, child, deps, t, cap, init).Some? && judged.Some?
            && Tally(h, child, deps, t, cap, init + [last]).value ==
               Tally(h, child, deps, t, cap, init).value + judged.value
  {
    hide Judge;
    var proofs := init + [last];
    assert proofs[..|proofs| - 1] == init && proofs[|proofs| - 1] == last;
  }

  lemma AscendingInit(init: seq<Wit.Proof>, last: Wit.Proof)
    requires AscendingProofs(init + [last])
    ensures AscendingProofs(init)
  {
    assert forall i | 0 <= i < |init| :: init[i] == (init + [last])[i];
  }

  /** The running sum is the weight of the set of approved slots: no slot counts twice. */
  lemma {:induction false} TallyIsSlotWeight(h: Hashes, child: Child, deps: seq<Cell>, t: Task, cap: nat,
                                             proofs: seq<Wit.Proof>)
    requires AscendingSlots(t.state.authenticators) && AscendingProofs(proofs)
    requires Tally(h, child, deps, t, cap, proofs).Some?
    ensures Tally(h, child, deps, t, cap, proofs).value ==
            SlotWeight(t.state.authenticators, ApprovedSlots(h, child, deps, t, cap, proofs))
  {
    hide Judge;
    hide SlotWeight;
    hide AscendingSlots;
    hide AscendingProofs;
    hide Earns;
    hide EntryOfSlot;
    var entries := t.state.authenticators;
    var after := ApprovedSlots(h, child, deps, t, cap, proofs);
    if proofs == [] {
      assert after == {};
      NoSlotsNoWeight(entries);
    } else {
      hide ApprovedSlots;
      hide Tally;
      var init, last := proofs[..|proofs| - 1], proofs[|proofs| - 1];
      assert proofs == init + [last];
      var before := ApprovedSlots(h, child, deps, t, cap, init);
      AscendingInit(init, last);
      TallyStep(h, child, deps, t, cap, init, last);
      TallyIsSlotWeight(h, child, deps, t, cap, init);
      SlotsGrow(h, child, deps, t, cap, init, last);
      JudgedWeight(h, child, deps, t, cap, last);
      EarnsMeansWeight(h, child, deps, t, cap, last);
      if Earns(h, child, deps, t, cap, last) {
        var e := EntryOfSlot(entries, last.slot).value;
        EntryOfSlotIs(entries, last.slot, e);
        SlotWeightAdd(entries, before, e);
        assert after == before + {e.slot};
      } else {
        assert after == before;
      }
    }
  }

  lemma {:induction false} NoSlotsNoWeight(entries: seq<State.Entry>)
    ensures SlotWeight(entries, {}) == 0
  {
    if entries != [] {
      NoSlotsNoWeight(entries[..|entries| - 1]);
    }
  }

  /** With at most 16 proofs the checked `u32` sum cannot overflow: only a failing proof fails the tally. */
  lemma {:induction false} TallyCannotOverflow(h: Hashes, child: Child, deps: seq<Cell>, t: Task, cap: nat,
                                               proofs: seq<Wit.Proof>)
    requires |proofs| <= AUTHENTICATOR_MAX_COUNT
    ensures Tally(h, child, deps, t, cap, proofs).Some? <==>
            forall p | p in proofs :: Judge(h, child, deps, t.state.authenticators, t.operation, cap, t.digest, p).Some?
    ensures Tally(h, child, deps, t, cap, proofs).Some? ==>
              Tally(h, child, deps, t, cap, proofs).value <= |proofs| * U16_MAX
  {
    hide Judge;
    if proofs != [] {
      var init, last := proofs[..|proofs| - 1], proofs[|proofs| - 1];
      assert proofs == init + [last];
      TallyCannotOverflow(h, child, deps, t, cap, init);
    }
  }

  // ----- The main result on one run -----

  lemma ValidStateFacts(s: State.AccountState, operation: Byte)
    requires State.ValidAccountState(s)
    requires operation == OP_RECOVERY ==> Bit(s.flags, FLAG_RECOVERY_ENABLED)
    requires CapabilityForOperation(operation).Some?
    ensures AscendingSlots(s.authenticators) && forall e | e in s.authenticators :: 0 < e.weight
    ensures var cap := CapabilityForOperation(operation).value;
            1 <= ThresholdFor(s, operation) <= State.CapWeight(s.authenticators, cap)
  {
    FramedAreAscending(s.authenticators, -1);
  }

  lemma TransitionFacts(tx: Transaction, operation: Byte, r: Resolved, current: State.StateHeader)
    requires ValidateTransition(tx, operation, r, current)
    ensures operation == OP_RECOVERY ==>
              && Bit(current.flags, FLAG_RECOVERY_ENABLED)
              && r.stateInput.Some? && r.stateInput.value < |tx.inputs|
              && tx.inputs[r.stateInput.value].since >= current.recoverySince
  {
  }

  lemma ResolvedOperation(h: Hashes, tx: Transaction, operation: Byte, id: Digest)
    requires Resolve(h, tx, operation, id).Some?
    ensures CapabilityForOperation(operation).Some?
  {
    hide IndicesWhere;
  }

  /** The transaction's first group witness holds `lock` in its lock field, and is within the cap. */
  predicate Carries(tx: Transaction, script: Bytes, lock: Bytes) {
    var first := GroupWitness(tx, Group(tx, script), 0);
    first.Some? && |first.value| <= MAX_WITNESS && WitnessLock(first.value) == Some(lock)
  }

  /** Preparation, field by field. */
  lemma PreparedFields(h: Hashes, tx: Transaction, script: Bytes, t: Task)
    ensures Prepare(h, tx, script) == Some(t) <==>
            && AccountOf(script) == Some(t.accountId)
            && Carries(tx, script, t.lock)
            && Wit.ParseHeader(t.lock) == Some(Wit.WitnessHeader(t.operation, t.proofCount, t.state.sequence))
            && t.proofCount <= AUTHENTICATOR_MAX_COUNT
            && Resolve(h, tx, t.operation, t.accountId) == Some(t.resolved)
            && State.DecodedState(t.resolved.current) == Some(t.state)
            && |t.state.authenticators| <= 0xff
            && ValidateTransition(tx, t.operation, t.resolved, State.HeaderOf(t.state))
            && GroupStream(tx, Group(tx, script)).Some?
            && t.digest == AuthorizationDigest(h, t.operation, t.accountId, t.state.sequence, t.resolved.current,
                                               h.ckb(GroupStream(tx, Group(tx, script)).value))
  {
    hide AccountOf;
    hide Group;
    hide GroupWitness;
    hide WitnessLock;
    hide Resolve;
    hide GroupStream;
    hide AuthorizationDigest;
    hide ValidateTransition;
    hide Wit.ParseHeader;
    hide State.DecodedState;
  }

  /** What every prepared task satisfies, whatever the proofs then do. */
  lemma PreparedTask(h: Hashes, tx: Transaction, script: Bytes, t: Task)
    requires Prepare(h, tx, script) == Some(t)
    ensures AccountOf(script) == Some(t.accountId)
    ensures CapabilityForOperation(t.operation).Some?
    ensures Resolve(h, tx, t.operation, t.accountId) == Some(t.resolved)
    ensures State.ValidAccountState(t.state) && t.resolved.current == State.StateBytes(t.state)
    ensures ValidateTransition(tx, t.operation, t.resolved, State.HeaderOf(t.state))
    ensures t.operation == OP_RECOVERY ==>
              && Bit(t.state.flags, FLAG_RECOVERY_ENABLED)
              && t.resolved.stateInput.Some? && t.resolved.stateInput.value < |tx.inputs|
              && tx.inputs[t.resolved.stateInput.value].since >= t.state.recoverySince
  {
    hide Prepare;
    hide AccountOf;
    hide Carries;
    hide Group;
    hide GroupStream;
    hide AuthorizationDigest;
    hide Resolve;
    hide ValidateTransition;
    hide Wit.ParseHeader;
    hide State.DecodedState;
    hide State.ValidAccountState;
    hide State.StateBytes;
    PreparedFields(h, tx, script, t);
    ResolvedOperation(h, tx, t.operation, t.accountId);
    State.DecodedIsEncoded(t.resolved.current, t.state);
    TransitionFacts(tx, t.operation, t.resolved, State.HeaderOf(t.state));
  }

  /**
   * A non-empty set of distinct slots of the state approved. Each holds the operation's capability and
   * is approved by its own child process; together they weigh what was tallied, which is at least the
   * operation's threshold and never more than the capability's usable weight.
   */
  ghost predicate ThresholdApproved(h: Hashes, child: Child, deps: seq<Cell>, a: Approval) {
    CapabilityForOperation(a.task.operation).Some? &&
    var cap := CapabilityForOperation(a.task.operation).value;
    var slots := ApprovedSlots(h, child, deps, a.task, cap, a.proofs);
    && slots != {}
    && (forall s | s in slots :: SlotApproved(h, child, deps, a.task, cap, a.proofs, s))
    && a.weight == SlotWeight(a.task.state.authenticators, slots)
    && ThresholdFor(a.task.state, a.task.operation) <= a.weight
    && a.weight <= UsableWeight(a.task.state.authenticators, cap) <= State.CapWeight(a.task.state.authenticators, cap)
  }

  lemma AcceptedRun(h: Hashes, child: Child, tx: Transaction, script: Bytes, a: Approval)
    requires Run(h, child, tx, script) == Some(a)
    ensures Prepare(h, tx, script) == Some(a.task) && CapabilityForOperation(a.task.operation).Some?
    ensures var cap := CapabilityForOperation(a.task.operation).value;
            Tally(h, child, tx.deps, a.task, cap, a.proofs) == Some(a.weight)
    ensures ThresholdFor(a.task.state, a.task.operation) <= a.weight && AscendingProofs(a.proofs)
  {
    hide Prepare;
    hide Tally;
    hide Wit.ProofsAt;
    Wit.ProofsAtGivesBytes(a.task.lock, WITNESS_HEADER_LEN, a.task.proofCount, -1, a.proofs);
    FramedProofsAscend(a.proofs, -1);
  }

  /** Every accepted run was approved under the thresholds of the state it read or consumed. */
  lemma AcceptedIsApproved(h: Hashes, child: Child, tx: Transaction, script: Bytes, a: Approval)
    requires Run(h, child, tx, script) == Some(a)
    ensures ThresholdApproved(h, child, tx.deps, a)
    ensures a.task.operation == OP_RECOVERY ==>
              && Bit(a.task.state.flags, FLAG_RECOVERY_ENABLED)
              && a.task.resolved.stateInput.Some? && a.task.resolved.stateInput.value < |tx.inputs|
              && tx.inputs[a.task.resolved.stateInput.value].since >= a.task.state.recoverySince
  {
    hide Run;
    hide Prepare;
    hide ApprovedSlots;
    hide SlotApproved;
    hide SlotWeight;
    hide UsableWeight;
    hide State.CapWeight;
    hide ThresholdFor;
    hide Tally;
    hide State.ValidAccountState;
    var t, proofs := a.task, a.proofs;
    AcceptedRun(h, child, tx, script, a);
    PreparedTask(h, tx, script, t);
    ValidStateFacts(t.state, t.operation);
    var cap := CapabilityForOperation(t.operation).value;
    TallyIsSlotWeight(h, child, tx.deps, t, cap, proofs);
    var slots := ApprovedSlots(h, child, tx.deps, t, cap, proofs);
    forall s | s in slots ensures SlotApproved(h, child, tx.deps, t, cap, proofs, s) {
      ApprovedSlotIsApproved(h, child, tx.deps, t, cap, proofs, s);
    }
    ApprovedSlotsAreUsable(h, child, tx.deps, t, cap, proofs);
    SlotWeightIsUsable(t.state.authenticators, slots, cap);
    UsableIsCapable(t.state.authenticators, cap);
    NoSlotsNoWeight(t.state.authenticators);
  }

  lemma ApprovedSlotIsApproved(h: Hashes, child: Child, deps: seq<Cell>, t: Task, cap: nat, proofs: seq<Wit.Proof>,
                               s: U16)
    requires AscendingSlots(t.state.authenticators) && forall e | e in t.state.authenticators :: 0 < e.weight
    requires s in ApprovedSlots(h, child, deps, t, cap, proofs)
    ensures SlotApproved(h, child, deps, t, cap, proofs, s)
  {
    hide Judge;
    hide ApprovedWith;
    var p :| p in proofs && Earns(h, child, deps, t, cap, p) && p.slot == s;
    EarnsIsApproved(h, child, deps, t, cap, p);
  }

  lemma EarningIsUsable(h: Hashes, child: Child, deps: seq<Cell>, t: Task, cap: nat, p: Wit.Proof)
    requires Judge(h, child, deps, t.state.authenticators, t.operation, cap, t.digest, p).Some?
    ensures EntryOfSlot(t.state.authenticators, p.slot).Some?
    ensures IsUsable(EntryOfSlot(t.state.authenticators, p.slot).value, cap)
  {
    hide VerifierDep;
    hide Req.RequestBytes;
  }

  lemma ApprovedSlotsAreUsable(h: Hashes, child: Child, deps: seq<Cell>, t: Task, cap: nat, proofs: seq<Wit.Proof>)
    requires AscendingSlots(t.state.authenticators)
    ensures forall e | e in t.state.authenticators && e.slot in ApprovedSlots(h, child, deps, t, cap, proofs) ::
              IsUsable(e, cap)
  {
    hide Judge;
    hide IsUsable;
    forall e | e in t.state.authenticators && e.slot in ApprovedSlots(h, child, deps, t, cap, proofs)
      ensures IsUsable(e, cap)
    {
      var p :| p in proofs && Earns(h, child, deps, t, cap, p) && p.slot == e.slot;
      EarningIsUsable(h, child, deps, t, cap, p);
      EntryOfSlotIs(t.state.authenticators, e.slot, e);
    }
  }

  // ----- What a state's weights allow -----

  /** No run is ever accepted on a state whose usable weight misses the operation's threshold. */
  lemma AcceptedNeedsUsable(h: Hashes, child: Child, tx: Transaction, script: Bytes, a: Approval)
    requires Run(h, child, tx, script) == Some(a)
    ensures CapabilityForOperation(a.task.operation).Some?
    ensures ThresholdFor(a.task.state, a.task.operation) <=
            UsableWeight(a.task.state.authenticators, CapabilityForOperation(a.task.operation).value)
  {
    hide Run;
    hide UsableWeight;
    hide ApprovedSlots;
    hide SlotWeight;
    hide SlotApproved;
    AcceptedIsApproved(h, child, tx, script, a);
  }

  function ProofSlots(proofs: seq<Wit.Proof>): set<U16> {
    set p | p in proofs :: p.slot
  }

  function UsableSlots(entries: seq<State.Entry>, cap: nat): set<U16> {
    set e | e in entries && IsUsable(e, cap) :: e.slot
  }

  function CapableSlots(entries: seq<State.Entry>, cap: nat): set<U16> {
    set e | e in entries && Bit(e.capabilities, cap) :: e.slot
  }

  /** Every named authenticator has an accepting verifier. */
  ghost predicate VerifiersAccept(h: Hashes, child: Child, deps: seq<Cell>, t: Task, proofs: seq<Wit.Proof>) {
    forall e, p | e in t.state.authenticators && p in proofs && e.slot == p.slot ::
      exists d: nat :: VerifierAccepts(h, child, deps, t, e, p, d)
  }

  lemma AcceptedProofEarns(h: Hashes, child: Child, deps: seq<Cell>, t: Task, cap: nat, p: Wit.Proof,
                           e: State.Entry, d: nat)
    requires AscendingSlots(t.state.authenticators)
    requires e in t.state.authenticators && e.slot == p.slot && Bit(e.capabilities, cap)
    requires VerifierAccepts(h, child, deps, t, e, p, d)
    ensures Judge(h, child, deps, t.state.authenticators, t.operation, cap, t.digest, p) == Some(e.weight)
  {
    hide VerifierDep;
    hide Req.RequestBytes;
    EntryOfSlotIs(t.state.authenticators, p.slot, e);
    VerifierDepIsOnly(h, deps, e, d);
  }

  lemma UsableSetEarns(h: Hashes, child: Child, deps: seq<Cell>, t: Task, cap: nat, proofs: seq<Wit.Proof>)
    requires AscendingSlots(t.state.authenticators) && forall e | e in t.state.authenticators :: 0 < e.weight
    requires ProofSlots(proofs) == UsableSlots(t.state.authenticators, cap)
    requires VerifiersAccept(h, child, deps, t, proofs)
    ensures forall p | p in proofs ::
              Judge(h, child, deps, t.state.authenticators, t.operation, cap, t.digest, p).Some?
    ensures ApprovedSlots(h, child, deps, t, cap, proofs) == ProofSlots(proofs)
  {
    hide Judge;
    hide VerifierAccepts;
    hide Bit;
    var entries := t.state.authenticators;
    forall p | p in proofs
      ensures Judge(h, child, deps, entries, t.operation, cap, t.digest, p).Some? && Earns(h, child, deps, t, cap, p)
    {
      assert p.slot in ProofSlots(proofs);
      var e :| e in entries && IsUsable(e, cap) && e.slot == p.slot;
      var d: nat :| VerifierAccepts(h, child, deps, t, e, p, d);
      AcceptedProofEarns(h, child, deps, t, cap, p, e, d);
    }
  }

  lemma UsableSlotsAreUsable(entries: seq<State.Entry>, cap: nat)
    requires AscendingSlots(entries)
    ensures forall e | e in entries :: e.slot in UsableSlots(entries, cap) <==> IsUsable(e, cap)
  {
    hide IsUsable;
    forall e | e in entries && e.slot in UsableSlots(entries, cap) ensures IsUsable(e, cap) {
      var f :| f in entries && IsUsable(f, cap) && f.slot == e.slot;
      EntryOfSlotIs(entries, e.slot, e);
      EntryOfSlotIs(entries, e.slot, f);
    }
  }

  /**
   * The full set of usable slots with accepting verifiers is accepted exactly when the usable weight meets
   * the threshold, and earns exactly that weight.
   */
  lemma UsableSetDecides(h: Hashes, child: Child, tx: Transaction, script: Bytes, t: Task, proofs: seq<Wit.Proof>)
    requires Prepare(h, tx, script) == Some(t)
    requires Wit.ProofsAt(t.lock, WITNESS_HEADER_LEN, t.proofCount, -1) == Some(proofs)
    requires CapabilityForOperation(t.operation).Some?
    requires ProofSlots(proofs) == UsableSlots(t.state.authenticators, CapabilityForOperation(t.operation).value)
    requires VerifiersAccept(h, child, tx.deps, t, proofs)
    ensures var usable := UsableWeight(t.state.authenticators, CapabilityForOperation(t.operation).value);
            && (Run(h, child, tx, script).Some? <==> ThresholdFor(t.state, t.operation) <= usable)
            && (Run(h, child, tx, script).Some? ==> Run(h, child, tx, script).value.weight == usable)
  {
    hide Prepare;
    hide Judge;
    hide VerifiersAccept;
    hide ThresholdFor;
    hide AccountOf;
    hide Carries;
    hide Group;
    hide GroupStream;
    hide AuthorizationDigest;
    hide Resolve;
    hide ValidateTransition;
    hide Wit.ParseHeader;
    hide Wit.ProofsAt;
    hide State.DecodedState;
    hide State.StateBytes;
    hide State.ValidAccountState;
    hide State.CapWeight;
    hide SlotWeight;
    hide UsableWeight;
    hide IsUsable;
    hide ApprovedSlots;
    hide ProofSlots;
    hide UsableSlots;
    var cap, entries := CapabilityForOperation(t.operation).value, t.state.authenticators;
    PreparedTask(h, tx, script, t);
    PreparedFields(h, tx, script, t);
    ValidStateFacts(t.state, t.operation);
    Wit.ProofsAtGivesBytes(t.lock, WITNESS_HEADER_LEN, t.proofCount, -1, proofs);
    UsableSetEarns(h, child, tx.deps, t, cap, proofs);
    TallyCannotOverflow(h, child, tx.deps, t, cap, proofs);
    FramedProofsAscend(proofs, -1);
    TallyIsSlotWeight(h, child, tx.deps, t, cap, proofs);
    UsableSlotsAreUsable(entries, cap);
    SlotWeightIsUsable(entries, UsableSlots(entries, cap), cap);
  }

  /**
   * When all capable slots are named and their verifiers accept, the run is accepted for every operation
   * of every state, and earns exactly the summary weight that validation compared the threshold with.
   */
  lemma FullSetIsAccepted(h: Hashes, child: Child, tx: Transaction, script: Bytes, t: Task, proofs: seq<Wit.Proof>)
    requires Prepare(h, tx, script) == Some(t)
    requires Wit.ProofsAt(t.lock, WITNESS_HEADER_LEN, t.proofCount, -1) == Some(proofs)
    requires CapabilityForOperation(t.operation).Some?
    requires ProofSlots(proofs) == CapableSlots(t.state.authenticators, CapabilityForOperation(t.operation).value)
    requires VerifiersAccept(h, child, tx.deps, t, proofs)
    ensures var cap := CapabilityForOperation(t.operation).value;
            && Run(h, child, tx, script).Some?
            && Run(h, child, tx, script).value.weight == State.CapWeight(t.state.authenticators, cap)
  {
    hide Run;
    hide Prepare;
    hide ThresholdFor;
    hide Resolve;
    hide ValidateTransition;
    hide Wit.ProofsAt;
    hide State.StateBytes;
    hide State.ValidAccountState;
    hide State.CapWeight;
    hide UsableWeight;
    hide Bit;
    var cap, entries := CapabilityForOperation(t.operation).value, t.state.authenticators;
    PreparedTask(h, tx, script, t);
    ValidStateFacts(t.state, t.operation);
    forall e | e in entries && Bit(e.capabilities, cap) ensures |e.aux| <= MAX_AUX_LEN {
      assert e.slot in CapableSlots(entries, cap);
      var p :| p in proofs && p.slot == e.slot;
      var d: nat :| VerifierAccepts(h, child, tx.deps, t, e, p, d);
    }
    assert UsableSlots(entries, cap) == CapableSlots(entries, cap);
    UsableIsCapable(entries, cap);
    UsableSetDecides(h, child, tx, script, t, proofs);
  }

  /** Each named authenticator has one verifier dep, and its proof fits a request. */
  ghost predicate VerifiersExist(h: Hashes, deps: seq<Cell>, t: Task, proofs: seq<Wit.Proof>) {
    forall e, p | e in t.state.authenticators && p in proofs && e.slot == p.slot ::
      |p.bytes| <= MAX_PROOF_LEN && exists d: nat :: OnlyAt(deps, RunsVerifier(h, e), d)
  }

  /** Verifiers that exit 0 whatever they are asked. */
  function AlwaysAccepting(): Child {
    (dep: nat, request: Bytes) => Some(0)
  }

  lemma AlwaysAcceptingAccepts(h: Hashes, deps: seq<Cell>, t: Task, cap: nat, proofs: seq<Wit.Proof>)
    requires State.ValidAccountState(t.state) && CapabilityForOperation(t.operation) == Some(cap)
    requires AscendingSlots(t.state.authenticators)
    requires ProofSlots(proofs) == UsableSlots(t.state.authenticators, cap)
    requires VerifiersExist(h, deps, t, proofs)
    ensures VerifiersAccept(h, AlwaysAccepting(), deps, t, proofs)
  {
    hide OnlyAt;
    hide Req.RequestBytes;
    hide State.CapWeight;
    hide Bit;
    var entries := t.state.authenticators;
    UsableSlotsAreUsable(entries, cap);
    forall e, p | e in entries && p in proofs && e.slot == p.slot
      ensures exists d: nat :: VerifierAccepts(h, AlwaysAccepting(), deps, t, e, p, d)
    {
      assert p.slot in ProofSlots(proofs) && IsUsable(e, cap) && State.UsableEntry(e);
      var d: nat :| OnlyAt(deps, RunsVerifier(h, e), d);
      assert VerifierAccepts(h, AlwaysAccepting(), deps, t, e, p, d);
    }
  }

  /**
   * Of a prepared transaction whose proofs name all usable slots, each with its one verifier dep: it is accepted
   * under some behaviour of the verifiers if and only if the usable weight meets the threshold. Which states have
   * such a transaction is the subject of `LockOut`.
   */
  lemma UnlockedExactly(h: Hashes, tx: Transaction, script: Bytes, t: Task, proofs: seq<Wit.Proof>)
    requires Prepare(h, tx, script) == Some(t)
    requires Wit.ProofsAt(t.lock, WITNESS_HEADER_LEN, t.proofCount, -1) == Some(proofs)
    requires CapabilityForOperation(t.operation).Some?
    requires ProofSlots(proofs) == UsableSlots(t.state.authenticators, CapabilityForOperation(t.operation).value)
    requires VerifiersExist(h, tx.deps, t, proofs)
    ensures (exists child :: Run(h, child, tx, script).Some?) <==>
            ThresholdFor(t.state, t.operation) <=
            UsableWeight(t.state.authenticators, CapabilityForOperation(t.operation).value)
  {
    hide Prepare;
    hide ThresholdFor;
    hide Resolve;
    hide ValidateTransition;
    hide VerifiersAccept;
    hide VerifiersExist;
    hide AlwaysAccepting;
    hide ProofSlots;
    hide UsableSlots;
    hide UsableWeight;
    hide Tally;
    hide Wit.ProofsAt;
    hide State.StateBytes;
    hide State.ValidAccountState;
    hide State.CapWeight;
    var cap := CapabilityForOperation(t.operation).value;
    PreparedTask(h, tx, script, t);
    ValidStateFacts(t.state, t.operation);
    AlwaysAcceptingAccepts(h, tx.deps, t, cap, proofs);
    UsableSetDecides(h, AlwaysAccepting(), tx, script, t, proofs);
    forall child | Run(h, child, tx, script).Some?
      ensures ThresholdFor(t.state, t.operation) <= UsableWeight(t.state.authenticators, cap)
    {
      AcceptedNeedsUsable(h, child, tx, script, Run(h, child, tx, script).value);
    }
  }

  // ----- A state that is locked out -----

  /** One authenticator that may do everything, with one byte of `aux` too many. */
  function OversizedEntry(): State.Entry {
    State.Entry(0, ALG_P256_WEBAUTHN, 7, 1, 0, VERIFIER_ABI_V1, seq(32, _ => 0), seq(32, _ => 0),
                seq(MAX_AUX_LEN + 1, _ => 1))
  }

  function OversizedState(): State.AccountState {
    State.AccountState(1, 0, 1, 1, 1, 0, [OversizedEntry()])
  }

  lemma OversizedIsValid()
    ensures State.ValidAccountState(OversizedState())
  {
    var s, e := OversizedState(), OversizedEntry();
    assert State.EntrySize(e) == 4177 && s.authenticators[1..] == [];
    assert State.EntriesSize(s.authenticators) == 4177;
    assert Bit(7, CAP_SPEND) && Bit(3, 0) && Bit(7, CAP_ROTATE) && Bit(3, 1) && Bit(7, CAP_RECOVERY);
    assert s.authenticators[..0] == [];
  }

  lemma OversizedIsUseless(cap: nat)
    ensures UsableWeight(OversizedState().authenticators, cap) == 0
  {
    hide Bit;
    var entries := OversizedState().authenticators;
    assert entries[..0] == [] && !IsUsable(entries[0], cap);
  }

  /**
   * The validator accepts a state that no transaction can ever use: it can be neither spent under, nor
   * rotated, nor recovered, whatever the hashes, the verifiers, the transaction and the script.
   */
  lemma OversizedIsLockedOut(h: Hashes, child: Child, tx: Transaction, script: Bytes)
    ensures State.ValidAccountState(OversizedState())
    ensures Run(h, child, tx, script).Some? ==> Run(h, child, tx, script).value.task.state != OversizedState()
  {
    hide Run;
    hide UsableWeight;
    hide OversizedEntry;
    hide State.ValidAccountState;
    OversizedIsValid();
    var run := Run(h, child, tx, script);
    if run.Some? && run.value.task.state == OversizedState() {
      AcceptedNeedsUsable(h, child, tx, script, run.value);
      OversizedIsUseless(CapabilityForOperation(run.value.task.operation).value);
    }
  }

  // ----- The witness of the full set -----

  /** One proof for each usable entry, in state order. */
  function UsableProofs(entries: seq<State.Entry>, cap: nat, proofOf: U16 -> Bytes): seq<Wit.Proof> {
    if entries == [] then []
    else
      (if IsUsable(entries[0], cap) then [Wit.Proof(entries[0].slot, proofOf(entries[0].slot))] else [])
      + UsableProofs(entries[1..], cap, proofOf)
  }

  lemma {:induction false} UsableProofsAreFull(entries: seq<State.Entry>, cap: nat, proofOf: U16 -> Bytes, prev: int)
    requires State.FramedEntries(entries, prev)
    requires forall s: U16 :: 0 < |proofOf(s)| <= MAX_PROOF_LEN
    ensures var proofs := UsableProofs(entries, cap, proofOf);
            && |proofs| <= |entries| && Wit.FramedProofs(proofs, prev)
            && (forall p | p in proofs :: p.bytes == proofOf(p.slot))
            && ProofSlots(proofs) == UsableSlots(entries, cap)
  {
    hide IsUsable;
    hide ProofSlots;
    hide UsableSlots;
    if entries == [] {
      SlotsOfNone(entries, cap);
    } else {
      var head, rest := entries[0], UsableProofs(entries[1..], cap, proofOf);
      UsableProofsAreFull(entries[1..], cap, proofOf, head.slot);
      UsableSlotsSplit(entries, cap);
      if IsUsable(head, cap) {
        var p := Wit.Proof(head.slot, proofOf(head.slot));
        ProofSlotsSplit(p, rest);
        assert ([p] + rest)[1..] == rest;
      } else {
        assert [] + rest == rest;
        LowerBound(rest, head.slot, prev);
      }
    }
  }

  lemma SlotsOfNone(entries: seq<State.Entry>, cap: nat)
    requires entries == []
    ensures ProofSlots([]) == UsableSlots(entries, cap)
  {
  }

  lemma UsableSlotsSplit(entries: seq<State.Entry>, cap: nat)
    requires entries != []
    ensures UsableSlots(entries, cap) ==
            (if IsUsable(entries[0], cap) then {entries[0].slot} else {}) + UsableSlots(entries[1..], cap)
  {
    assert entries == [entries[0]] + entries[1..];
    assert forall e :: e in entries <==> e == entries[0] || e in entries[1..];
  }

  lemma ProofSlotsSplit(p: Wit.Proof, rest: seq<Wit.Proof>)
    ensures ProofSlots([p] + rest) == {p.slot} + ProofSlots(rest)
  {
    assert forall q :: q in [p] + rest <==> q == p || q in rest;
  }

  lemma LowerBound(proofs: seq<Wit.Proof>, from: int, to: int)
    requires Wit.FramedProofs(proofs, from) && to <= from
    ensures Wit.FramedProofs(proofs, to)
  {
  }

  lemma {:induction false} ProofsFit(proofs: seq<Wit.Proof>, most: nat)
    requires Wit.AllSized(proofs) && forall p | p in proofs :: |p.bytes| <= most
    ensures |Wit.ProofsBytes(proofs)| <= |proofs| * (8 + most)
  {
    hide Wit.ProofBytes;
    if proofs != [] {
      var rest := proofs[1..];
      ProofsFit(rest, most);
      assert proofs[0] in proofs && |Wit.ProofsBytes(proofs)| == 8 + |proofs[0].bytes| + |Wit.ProofsBytes(rest)|;
      assert |proofs| * (8 + most) == |rest| * (8 + most) + (8 + most);
    }
  }

  /** The longest proof of which sixteen fit a witness. */
  const PROOF_LEN_FOR_ALL: nat := 8_183

  /**
   * For every valid state and operation the witness that names all usable slots is valid exactly when it
   * fits the witness limit, which it does whenever no proof is longer than 8183 bytes.
   */
  lemma FullWitnessExists(s: State.AccountState, operation: Byte, proofOf: U16 -> Bytes)
    requires State.ValidAccountState(s) && CapabilityForOperation(operation).Some?
    requires forall x: U16 :: 0 < |proofOf(x)| <= MAX_PROOF_LEN
    ensures var cap := CapabilityForOperation(operation).value;
            var w := Wit.AccountWitness(operation, s.sequence, UsableProofs(s.authenticators, cap, proofOf));
            && |w.proofs| <= AUTHENTICATOR_MAX_COUNT && Wit.Encodable(w)
            && ProofSlots(w.proofs) == UsableSlots(s.authenticators, cap)
            && (Wit.ValidWitness(w) <==> |Wit.WitnessBytes(w)| <= WITNESS_MAX_LOCK_LEN)
            && ((forall p | p in w.proofs :: |p.bytes| <= PROOF_LEN_FOR_ALL) ==> Wit.ValidWitness(w))
  {
    hide ProofSlots;
    hide UsableSlots;
    hide Wit.HeaderBytes;
    hide Wit.ProofsBytes;
    hide Wit.FramedProofs;
    hide State.CapWeight;
    var cap := CapabilityForOperation(operation).value;
    var proofs := UsableProofs(s.authenticators, cap, proofOf);
    UsableProofsAreFull(s.authenticators, cap, proofOf, -1);
    if forall p | p in proofs :: |p.bytes| <= PROOF_LEN_FOR_ALL {
      ProofsFit(proofs, PROOF_LEN_FOR_ALL);
    }
  }
}
