/**
 * Which operations a valid state can ever see accepted: exactly those whose threshold its usable weight meets,
 * unless the sequence is exhausted or recovery is not enabled. The transactions that show it are built for every
 * state, with a Type ID script, a dep for each named verifier, and hashes chosen for these cells.
 */
module LockOut {
  import opened Bytes
  import opened Protocol
  import opened Molecule
  import opened Transaction
  import opened Sighash
  import opened AccountLock
  import opened Policy
  import opened Scripts
  import opened Acceptance
  import State = StateCodec
  import Wit = WitnessCodec

  /** Some transaction is accepted for this operation on this state. */
  ghost predicate CanBeAccepted(s: State.AccountState, operation: Byte) {
    exists h, child, tx, script :: AcceptedOn(h, child, tx, script, s, operation)
  }

  predicate AcceptedOn(h: Hashes, child: Child, tx: Transaction, script: Bytes, s: State.AccountState,
                       operation: Byte)
  {
    var run := Run(h, child, tx, script);
    run.Some? && run.value.task.state == s && run.value.task.operation == operation
  }

  /** What a caller can read off the state before trying. */
  predicate Permits(s: State.AccountState, operation: Byte)
    requires CapabilityForOperation(operation).Some?
  {
    && ThresholdFor(s, operation) <= UsableWeight(s.authenticators, CapabilityForOperation(operation).value)
    && (operation != OP_SPEND ==> s.sequence < U64_MAX)
    && (operation == OP_RECOVERY ==> Bit(s.flags, FLAG_RECOVERY_ENABLED))
  }

  lemma AcceptedIsPermitted(h: Hashes, child: Child, tx: Transaction, script: Bytes, s: State.AccountState,
                            operation: Byte)
    requires AcceptedOn(h, child, tx, script, s, operation)
    ensures CapabilityForOperation(operation).Some? && Permits(s, operation)
  {
    hide Run;
    hide Prepare;
    hide Resolve;
    hide AccountOf;
    hide UsableWeight;
    hide ThresholdFor;
    hide State.ValidAccountState;
    hide State.StateBytes;
    hide State.Validated;
    var a := Run(h, child, tx, script).value;
    AcceptedNeedsUsable(h, child, tx, script, a);
    AcceptedRun(h, child, tx, script, a);
    PreparedTask(h, tx, script, a.task);
  }

  // ----- Hashes and verifiers for one state -----

  function OtherByte(b: Byte): Byte {
    if b == 0 then 1 else 0
  }

  /** A digest that differs from the code hash of entry `i` in byte `i`. */
  function Unnamed(es: seq<State.Entry>): Digest {
    seq(32, i requires 0 <= i < 32 => if i < |es| then OtherByte(es[i].verifierCodeHash[i]) else 0)
  }

  lemma UnnamedIsNew(es: seq<State.Entry>)
    requires |es| <= 32
    ensures forall e | e in es :: e.verifierCodeHash != Unnamed(es)
  {
    forall i | 0 <= i < |es| ensures es[i].verifierCodeHash != Unnamed(es) {
      assert Unnamed(es)[i] != es[i].verifierCodeHash[i];
    }
  }

  /** A script's hash is its code hash if it has no arguments, and `other` for anything else. */
  function ScriptHash(other: Digest, b: Bytes): Digest {
    var f := Table3Fields(b);
    if |b| == 53 && f.Some? && |f.value.first| == 32 then f.value.first else other
  }

  /** Data of 32 bytes is its own hash. */
  function ChosenHashes(other: Digest): Hashes {
    Hashes((b: Bytes) => ScriptHash(other, b), (b: Bytes) => if |b| == 32 then b else other)
  }

  function ZeroDigest(): Digest {
    seq(32, _ => 0)
  }

  function Owner(): Bytes {
    ScriptBytes(Script(ZeroDigest(), HASH_TYPE_TYPE, [0]))
  }

  function VerifierType(codeHash: Digest): Bytes {
    ScriptBytes(Script(codeHash, HASH_TYPE_TYPE, []))
  }

  /** The dep that runs an entry's verifier, by data hash or by type hash. */
  function VerifierCell(e: State.Entry): Cell {
    if e.verifierHashType == 0 then Cell(Owner(), None, e.verifierCodeHash)
    else Cell(Owner(), Some(VerifierType(e.verifierCodeHash)), [])
  }

  lemma VerifierTypeHash(other: Digest, codeHash: Digest)
    ensures ChosenHashes(other).ckb(VerifierType(codeHash)) == codeHash
  {
    hide Table3Fields;
    hide PackTable3;
    ScriptIsRead(Script(codeHash, HASH_TYPE_TYPE, []));
  }

  lemma VerifierCellsDiffer(other: Digest, e: State.Entry, f: State.Entry)
    requires e.verifierHashType <= 1 && f.verifierHashType <= 1 && e.verifierCodeHash != other
    ensures RunsVerifier(ChosenHashes(other), e)(VerifierCell(f)) <==> VerifierCell(f) == VerifierCell(e)
  {
    hide VerifierType;
    hide ScriptHash;
    var h, c := ChosenHashes(other), VerifierCell(f);
    VerifierTypeHash(other, f.verifierCodeHash);
    VerifierTypeHash(other, e.verifierCodeHash);
    assert h.data(c.data) == if f.verifierHashType == 0 then f.verifierCodeHash else other;
    assert TypeHash(h, c) == if f.verifierHashType == 0 then None else Some(f.verifierCodeHash);
    assert RunsVerifier(h, e)(c) <==>
           f.verifierHashType == e.verifierHashType && f.verifierCodeHash == e.verifierCodeHash;
  }

  /** One cell for each verifier named, whoever names it. */
  function VerifierCells(es: seq<State.Entry>): seq<Cell> {
    if es == [] then []
    else
      var init, last := VerifierCells(es[..|es| - 1]), VerifierCell(es[|es| - 1]);
      if last in init then init else init + [last]
  }

  lemma {:induction false} VerifierCellsAre(es: seq<State.Entry>)
    ensures forall c :: c in VerifierCells(es) <==> exists e :: e in es && c == VerifierCell(e)
    ensures forall i, j | 0 <= i < j < |VerifierCells(es)| :: VerifierCells(es)[i] != VerifierCells(es)[j]
  {
    hide VerifierCell;
    if es != [] {
      var init, last := es[..|es| - 1], es[|es| - 1];
      VerifierCellsAre(init);
      assert es == init + [last];
      assert forall e :: e in es <==> e in init || e == last;
    }
  }

  // ----- The transaction -----

  /** The state's cell: AccountLock's lock, a Type ID type script. */
  function Guard(other: Digest): Bytes {
    ScriptBytes(AccountScript(other, other))
  }

  function StateType(): Bytes {
    ScriptBytes(TypeIdScript(ZeroDigest()))
  }

  function StateCell(other: Digest, s: State.AccountState): Cell
    requires State.Encodable(s)
  {
    Cell(Guard(other), Some(StateType()), State.StateBytes(s))
  }

  function LockCodeCell(): Cell {
    Cell(Owner(), None, [])
  }

  function Deps(s: State.AccountState, operation: Byte): seq<Cell>
    requires State.ValidAccountState(s)
  {
    VerifierCells(s.authenticators) + [LockCodeCell()]
    + if operation == OP_SPEND then [StateCell(Unnamed(s.authenticators), s)] else []
  }

  function Next(s: State.AccountState): State.AccountState
    requires s.sequence < U64_MAX
  {
    s.(sequence := s.sequence + 1)
  }

  lemma NextIsValid(s: State.AccountState)
    requires State.ValidAccountState(s) && s.sequence < U64_MAX
    ensures State.ValidAccountState(Next(s))
  {
    hide State.CapWeight;
  }

  function ProofOf(): U16 -> Bytes {
    (slot: U16) => [1]
  }

  /** The witness that names every usable slot, with a one-byte proof each. */
  function FullWitness(s: State.AccountState, operation: Byte): Wit.AccountWitness
    requires CapabilityForOperation(operation).Some?
  {
    Wit.AccountWitness(operation, s.sequence,
                       UsableProofs(s.authenticators, CapabilityForOperation(operation).value, ProofOf()))
  }

  lemma FullWitnessIsValid(s: State.AccountState, operation: Byte)
    requires State.ValidAccountState(s) && CapabilityForOperation(operation).Some?
    ensures var w, cap := FullWitness(s, operation), CapabilityForOperation(operation).value;
            && Wit.ValidWitness(w) && |w.proofs| <= AUTHENTICATOR_MAX_COUNT
            && ProofSlots(w.proofs) == UsableSlots(s.authenticators, cap)
            && forall p | p in w.proofs :: |p.bytes| <= MAX_PROOF_LEN
  {
    hide ProofSlots;
    hide UsableSlots;
    hide UsableProofs;
    hide Wit.ValidWitness;
    hide State.CapWeight;
    FullWitnessExists(s, operation, ProofOf());
    UsableProofsAreFull(s.authenticators, CapabilityForOperation(operation).value, ProofOf(), -1);
  }

  /** A spend of an asset cell, or a change of the state cell, whose input waits for `since`. */
  function Usage(s: State.AccountState, operation: Byte, since: U64): Transaction
    requires State.ValidAccountState(s) && CapabilityForOperation(operation).Some?
    requires operation != OP_SPEND ==> s.sequence < U64_MAX
  {
    FullWitnessIsValid(s, operation);
    var other := Unnamed(s.authenticators);
    var sealed := [PackTable3(SealedWitness(FullWitness(s, operation), [], []))];
    var at := OutPoint(ZeroDigest(), 0);
    if operation == OP_SPEND then
      Transaction(ZeroDigest(), [Input(at, Cell(Guard(other), None, []), since)], [], Deps(s, operation), sealed)
    else
      NextIsValid(s);
      Transaction(ZeroDigest(), [Input(at, StateCell(other, s), since)], [StateCell(other, Next(s))],
                  Deps(s, operation), sealed)
  }

  lemma StateFits(s: State.AccountState)
    requires State.ValidAccountState(s)
    ensures State.Encodable(s) && 80 <= |State.StateBytes(s)| <= MAX_CELL_DATA
  {
    hide State.CapWeight;
    hide State.FramedEntries;
    assert State.EntriesSize(s.authenticators) >= 48;
  }

  /** The state's type script hashes to the account's id, and no other cell's does. */
  lemma TypeHashes(other: Digest, s: State.AccountState, e: State.Entry)
    requires State.Encodable(s) && e.verifierCodeHash != other
    ensures TypeHash(ChosenHashes(other), StateCell(other, s)) == Some(other)
    ensures TypeHash(ChosenHashes(other), VerifierCell(e)) != Some(other)
    ensures TypeHash(ChosenHashes(other), LockCodeCell()) == None
  {
    hide VerifierType;
    hide State.StateBytes;
    StateTypeHash(other, s);
    VerifierTypeHash(other, e.verifierCodeHash);
  }

  lemma StateTypeHash(other: Digest, s: State.AccountState)
    requires State.Encodable(s)
    ensures TypeHash(ChosenHashes(other), StateCell(other, s)) == Some(other)
  {
    hide Table3Fields;
    hide State.StateBytes;
    assert |StateType()| == 85;
  }

  lemma NotAVerifier(other: Digest, s: State.AccountState, e: State.Entry)
    requires State.ValidAccountState(s) && e.verifierHashType <= 1 && e.verifierCodeHash != other
    ensures !RunsVerifier(ChosenHashes(other), e)(LockCodeCell())
    ensures !RunsVerifier(ChosenHashes(other), e)(StateCell(other, s))
  {
    hide ScriptBytes;
    hide Table3Fields;
    hide State.StateBytes;
    hide State.ValidAccountState;
    StateFits(s);
    TypeHashes(other, s, e);
  }

  lemma {:induction false} FramedHashTypes(es: seq<State.Entry>, prev: int)
    requires State.FramedEntries(es, prev)
    ensures forall e | e in es :: e.verifierHashType <= 1
  {
    if es != [] {
      FramedHashTypes(es[1..], es[0].slot);
      assert es == [es[0]] + es[1..];
    }
  }

  lemma EntriesAre(s: State.AccountState)
    requires State.ValidAccountState(s)
    ensures 1 <= |s.authenticators| <= AUTHENTICATOR_MAX_COUNT && State.Encodable(s)
    ensures forall e | e in s.authenticators ::
              e.verifierHashType <= 1 && e.verifierCodeHash != Unnamed(s.authenticators)
  {
    hide Unnamed;
    hide State.CapWeight;
    FramedHashTypes(s.authenticators, -1);
    UnnamedIsNew(s.authenticators);
  }

  /** What the dep list is made of. */
  lemma DepsAre(s: State.AccountState, operation: Byte)
    requires State.ValidAccountState(s)
    ensures var n, deps := |VerifierCells(s.authenticators)|, Deps(s, operation);
            && n < |deps| && deps[..n] == VerifierCells(s.authenticators) && deps[n] == LockCodeCell()
            && (operation == OP_SPEND ==>
                  |deps| == n + 2 && deps[n + 1] == StateCell(Unnamed(s.authenticators), s))
            && (operation != OP_SPEND ==> |deps| == n + 1)
  {
    hide VerifierCells;
    hide StateCell;
    hide State.ValidAccountState;
  }

  /** Among different cells a property of one alone is found in one place, if no later cell has it. */
  lemma FoundOnce(deps: seq<Cell>, cells: seq<Cell>, p: Cell -> bool, cell: Cell)
    requires cells <= deps && cell in cells && p(cell)
    requires forall i, j | 0 <= i < j < |cells| :: cells[i] != cells[j]
    requires forall c | c in cells && p(c) :: c == cell
    requires forall j | |cells| <= j < |deps| :: !p(deps[j])
    ensures exists d: nat :: OnlyAt(deps, p, d)
  {
    var d: nat :| d < |cells| && cells[d] == cell;
    assert deps[d] == cell;
    forall j | 0 <= j < |deps| && p(deps[j]) ensures j == d {
      if j < |cells| {
        assert deps[j] == cells[j] && cells[j] in cells;
      }
    }
    assert OnlyAt(deps, p, d);
  }

  lemma NoLaterVerifier(s: State.AccountState, operation: Byte, e: State.Entry)
    requires State.ValidAccountState(s) && e.verifierHashType <= 1 && e.verifierCodeHash != Unnamed(s.authenticators)
    ensures forall j | |VerifierCells(s.authenticators)| <= j < |Deps(s, operation)| ::
              !RunsVerifier(ChosenHashes(Unnamed(s.authenticators)), e)(Deps(s, operation)[j])
  {
    hide State.ValidAccountState;
    hide VerifierCells;
    hide StateCell;
    hide Deps;
    hide RunsVerifier;
    hide ChosenHashes;
    hide Unnamed;
    DepsAre(s, operation);
    NotAVerifier(Unnamed(s.authenticators), s, e);
  }

  lemma VerifierIsFound(s: State.AccountState, operation: Byte, e: State.Entry)
    requires State.ValidAccountState(s) && e in s.authenticators
    ensures exists d: nat :: OnlyAt(Deps(s, operation), RunsVerifier(ChosenHashes(Unnamed(s.authenticators)), e), d)
  {
    hide State.ValidAccountState;
    hide VerifierCell;
    hide VerifierCells;
    hide StateCell;
    hide Deps;
    hide RunsVerifier;
    hide ChosenHashes;
    hide Unnamed;
    hide OnlyAt;
    var es, deps := s.authenticators, Deps(s, operation);
    var other, cells := Unnamed(es), VerifierCells(es);
    var p := RunsVerifier(ChosenHashes(other), e);
    EntriesAre(s);
    VerifierCellsAre(es);
    NoLaterVerifier(s, operation, e);
    DepsAre(s, operation);
    forall f | f in es ensures p(VerifierCell(f)) <==> VerifierCell(f) == VerifierCell(e) {
      VerifierCellsDiffer(other, e, f);
    }
    FoundOnce(deps, cells, p, VerifierCell(e));
  }

  lemma StateIsFound(s: State.AccountState)
    requires State.ValidAccountState(s)
    ensures var other, d := Unnamed(s.authenticators), |VerifierCells(s.authenticators)| + 1;
            && OnlyAt(Deps(s, OP_SPEND), HasType(ChosenHashes(other), other), d)
            && Deps(s, OP_SPEND)[d].data == State.StateBytes(s)
  {
    hide State.ValidAccountState;
    hide State.StateBytes;
    hide ScriptBytes;
    hide LockCodeCell;
    hide VerifierCell;
    hide VerifierCells;
    hide Deps;
    hide ChosenHashes;
    hide Unnamed;
    var es, deps := s.authenticators, Deps(s, OP_SPEND);
    var other, cells := Unnamed(es), VerifierCells(es);
    EntriesAre(s);
    VerifierCellsAre(es);
    DepsAre(s, OP_SPEND);
    assert es[0] in es;
    TypeHashes(other, s, es[0]);
    forall j | 0 <= j < |cells| ensures TypeHash(ChosenHashes(other), deps[j]) != Some(other) {
      assert deps[j] == cells[j] && cells[j] in cells;
      var f :| f in es && cells[j] == VerifierCell(f);
      TypeHashes(other, s, f);
    }
  }

  // ----- It is accepted -----

  function ResolvedUsage(s: State.AccountState, operation: Byte): Resolved
    requires State.ValidAccountState(s) && (operation != OP_SPEND ==> s.sequence < U64_MAX)
  {
    if operation == OP_SPEND then Resolved(State.StateBytes(s), None, None)
    else
      NextIsValid(s);
      Resolved(State.StateBytes(s), Some(State.StateBytes(Next(s))), Some(0))
  }

  lemma UsageResolves(s: State.AccountState, operation: Byte, since: U64)
    requires State.ValidAccountState(s) && CapabilityForOperation(operation).Some?
    requires operation != OP_SPEND ==> s.sequence < U64_MAX
    ensures var other := Unnamed(s.authenticators);
            Resolve(ChosenHashes(other), Usage(s, operation, since), operation, other) ==
            Some(ResolvedUsage(s, operation))
  {
    hide Resolve;
    hide IndicesWhere;
    hide ChosenHashes;
    hide Unnamed;
    hide Deps;
    hide VerifierCell;
    hide VerifierCells;
    hide ScriptBytes;
    hide PackTable3;
    hide SealedWitness;
    hide FullWitness;
    hide State.StateBytes;
    hide State.ValidAccountState;
    var other := Unnamed(s.authenticators);
    var h, tx, r := ChosenHashes(other), Usage(s, operation, since), ResolvedUsage(s, operation);
    StateFits(s);
    if operation == OP_SPEND {
      StateIsFound(s);
      ResolvedSpend(h, tx, other, r);
    } else {
      NextIsValid(s);
      StateFits(Next(s));
      StateTypeHash(other, s);
      StateTypeHash(other, Next(s));
      assert |StateType()| == 85;
      assert OnlyAt(InputCells(tx), HasType(h, other), 0) && OnlyAt(tx.outputs, HasType(h, other), 0);
      ResolvedChange(h, tx, operation, other, r);
    }
  }

  lemma UsageIsLegal(s: State.AccountState, operation: Byte, since: U64)
    requires State.ValidAccountState(s) && CapabilityForOperation(operation).Some? && Permits(s, operation)
    requires operation == OP_RECOVERY ==> since >= s.recoverySince
    ensures ValidateTransition(Usage(s, operation, since), operation, ResolvedUsage(s, operation), State.HeaderOf(s))
  {
    hide UsableWeight;
    hide Deps;
    hide StateCell;
    hide PackTable3;
    hide SealedWitness;
    hide FullWitness;
    hide State.StateBytes;
    hide State.Validated;
    hide State.DecodedState;
    hide State.CapWeight;
    if operation != OP_SPEND {
      NextIsValid(s);
      State.EncodedIsDecoded(Next(s));
      State.ValidatedAgreesWithDecoded(State.StateBytes(Next(s)));
    }
  }

  lemma UsageIsSealed(s: State.AccountState, operation: Byte, since: U64)
    requires State.ValidAccountState(s) && CapabilityForOperation(operation).Some?
    requires operation != OP_SPEND ==> s.sequence < U64_MAX
    ensures Wit.ValidWitness(FullWitness(s, operation))
    ensures Sealed(Usage(s, operation, since), Guard(Unnamed(s.authenticators)), FullWitness(s, operation), [], [])
    ensures Group(Usage(s, operation, since), Guard(Unnamed(s.authenticators))) == [0]
  {
    hide Unnamed;
    hide Deps;
    hide Guard;
    hide FullWitness;
    hide PackTable3;
    hide PackBytes;
    hide Wit.WitnessBytes;
    hide Wit.FramedProofs;
    hide State.StateBytes;
    hide State.ValidAccountState;
    FullWitnessIsValid(s, operation);
    var tx, guard, w := Usage(s, operation, since), Guard(Unnamed(s.authenticators)), FullWitness(s, operation);
    PackedLength(Wit.WitnessBytes(w));
    assert GroupFrom(tx.inputs, guard, 1) == [];
    assert [0][1..] == [] && ExtraWitnesses(tx) == [];
  }

  /** With verifiers that exit 0, the transaction is accepted, whatever its input waits for. */
  lemma UsageIsAccepted(s: State.AccountState, operation: Byte, since: U64)
    requires State.ValidAccountState(s) && CapabilityForOperation(operation).Some? && Permits(s, operation)
    requires operation == OP_RECOVERY ==> since >= s.recoverySince
    ensures var other := Unnamed(s.authenticators);
            AcceptedOn(ChosenHashes(other), AlwaysAccepting(), Usage(s, operation, since), Guard(other), s, operation)
    ensures operation == OP_RECOVERY ==>
              var other := Unnamed(s.authenticators);
              var run := Run(ChosenHashes(other), AlwaysAccepting(), Usage(s, operation, since), Guard(other));
              run.value.task.resolved.stateInput == Some(0)
  {
    hide Run;
    hide Prepare;
    hide Resolve;
    hide ValidateTransition;
    hide ChosenHashes;
    hide Unnamed;
    hide Usage;
    hide Sealed;
    hide FullWitness;
    hide ScriptBytes;
    hide AccountOf;
    hide ThresholdFor;
    hide UsableWeight;
    hide ProofSlots;
    hide UsableSlots;
    hide VerifiersExist;
    hide VerifiersAccept;
    hide AlwaysAccepting;
    hide Wit.ValidWitness;
    hide Wit.WitnessBytes;
    hide Wit.ProofsAt;
    hide State.ValidAccountState;
    hide State.StateBytes;
    hide State.CapWeight;
    var other := Unnamed(s.authenticators);
    var h, tx, guard, w := ChosenHashes(other), Usage(s, operation, since), Guard(other), FullWitness(s, operation);
    var cap, r := CapabilityForOperation(operation).value, ResolvedUsage(s, operation);
    FullWitnessIsValid(s, operation);
    AccountScriptIsRead(other, other);
    UsageIsSealed(s, operation, since);
    UsageResolves(s, operation, since);
    UsageIsLegal(s, operation, since);
    assert w.operation == operation && w.stateSequence == s.sequence by { WitnessNames(s, operation); }
    StateFits(s);
    SealedIsPrepared(h, tx, guard, other, w, [], [], r, s);
    var t := Prepare(h, tx, guard).value;
    VerifiersAreDeps(h, s, operation, since, t, w.proofs);
    ValidStateFacts(s, operation);
    AlwaysAcceptingAccepts(h, tx.deps, t, cap, w.proofs);
    UsableSetDecides(h, AlwaysAccepting(), tx, guard, t, w.proofs);
    AcceptedRun(h, AlwaysAccepting(), tx, guard, Run(h, AlwaysAccepting(), tx, guard).value);
  }

  lemma WitnessNames(s: State.AccountState, operation: Byte)
    requires CapabilityForOperation(operation).Some?
    ensures FullWitness(s, operation).operation == operation && FullWitness(s, operation).stateSequence == s.sequence
  {
  }

  lemma VerifiersAreDeps(h: Hashes, s: State.AccountState, operation: Byte, since: U64, t: Task,
                         proofs: seq<Wit.Proof>)
    requires State.ValidAccountState(s) && CapabilityForOperation(operation).Some?
    requires operation != OP_SPEND ==> s.sequence < U64_MAX
    requires t.state == s && h == ChosenHashes(Unnamed(s.authenticators))
    requires forall p | p in proofs :: |p.bytes| <= MAX_PROOF_LEN
    ensures VerifiersExist(h, Usage(s, operation, since).deps, t, proofs)
  {
    hide Deps;
    hide RunsVerifier;
    hide OnlyAt;
    hide ChosenHashes;
    hide Unnamed;
    hide StateCell;
    hide FullWitness;
    hide SealedWitness;
    hide PackTable3;
    hide State.ValidAccountState;
    forall e | e in s.authenticators ensures exists d: nat :: OnlyAt(Deps(s, operation), RunsVerifier(h, e), d) {
      VerifierIsFound(s, operation, e);
    }
    assert Usage(s, operation, since).deps == Deps(s, operation);
  }

  /**
   * Exactly when a valid state is not locked out of an operation: some transaction is accepted for it if and
   * only if the usable weight meets the threshold, the sequence can still grow where it must, and recovery is
   * enabled where it is asked for.
   */
  lemma AcceptedExactly(s: State.AccountState, operation: Byte)
    requires State.ValidAccountState(s) && CapabilityForOperation(operation).Some?
    ensures CanBeAccepted(s, operation) <==> Permits(s, operation)
  {
    hide AcceptedOn;
    hide Permits;
    hide State.ValidAccountState;
    forall h, child, tx, script | AcceptedOn(h, child, tx, script, s, operation) ensures Permits(s, operation) {
      AcceptedIsPermitted(h, child, tx, script, s, operation);
    }
    if Permits(s, operation) {
      UsageIsAccepted(s, operation, s.recoverySince);
    }
  }

  /** At the last sequence a state can be spent under but never changed again. */
  lemma LastSequenceOnlySpends(s: State.AccountState, operation: Byte)
    requires State.ValidAccountState(s) && s.sequence == U64_MAX
    ensures CanBeAccepted(s, operation) ==> operation == OP_SPEND
  {
    hide AcceptedOn;
    hide ThresholdFor;
    hide UsableWeight;
    hide State.ValidAccountState;
    forall h, child, tx, script | AcceptedOn(h, child, tx, script, s, operation) ensures operation == OP_SPEND {
      AcceptedIsPermitted(h, child, tx, script, s, operation);
    }
  }
}
