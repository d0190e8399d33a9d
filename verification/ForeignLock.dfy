/**
 * Why whole-run claims need every new state cell to be locked by AccountLock again: for any hash functions, any
 * lock and verifier code with different data hashes, any Type ID and any lock script other than the account's
 * own there is an accepted rotation that hands the state cell to that lock, after which the next transaction
 * destroys it without AccountLock being asked.
 */
module ForeignLock {
  import opened Bytes
  import opened Protocol
  import opened Molecule
  import opened Transaction
  import opened AccountLock
  import opened Policy
  import opened Scripts
  import opened Acceptance
  import opened AccountLedger
  import State = StateCodec
  import Wit = WitnessCodec
  import Req = RequestCodec

  // ----- The setting -----

  /** Everything the example leaves open. */
  datatype Setting = Setting(h: Hashes, lockCode: Bytes, verifierCode: Bytes, typeIdArgs: Digest, foreign: Script)

  function TypeScript(x: Setting): Bytes {
    ScriptBytes(TypeIdScript(x.typeIdArgs))
  }

  function GuardScript(x: Setting): Script {
    AccountScript(x.h.data(x.lockCode), x.h.ckb(TypeScript(x)))
  }

  function ExampleAccount(x: Setting): Account {
    Account(ScriptBytes(GuardScript(x)), TypeScript(x), x.h.ckb(TypeScript(x)))
  }

  /** The foreign lock is another script, and the two code cells can be told apart by their data hash. */
  predicate ValidSetting(x: Setting) {
    && Fits(x.foreign) && x.foreign != GuardScript(x)
    && x.h.data(x.lockCode) != x.h.data(x.verifierCode)
  }

  lemma ExampleAccountIsValid(x: Setting)
    ensures ValidAccount(x.h, ExampleAccount(x))
  {
    hide ScriptBytes;
    hide AccountOf;
    AccountScriptIsRead(x.h.data(x.lockCode), x.h.ckb(TypeScript(x)));
  }

  lemma ForeignIsNotGuard(x: Setting)
    requires ValidSetting(x)
    ensures ScriptBytes(x.foreign) != ExampleAccount(x).guard
  {
    hide ScriptBytes;
    if ScriptBytes(x.foreign) == ExampleAccount(x).guard {
      ScriptIsDetermined(x.foreign, GuardScript(x));
    }
  }

  // ----- The account's states -----

  function ZeroDigest(): Digest {
    seq(32, _ => 0)
  }

  function OneDigest(): Digest {
    seq(32, _ => 1)
  }

  function TwoDigest(): Digest {
    seq(32, _ => 2)
  }

  function ExampleEntry(x: Setting): State.Entry {
    State.Entry(0, ALG_MLDSA65, 3, 1, 0, VERIFIER_ABI_V1, x.h.data(x.verifierCode), ZeroDigest(), [PROFILE_V1])
  }

  /** One authenticator that may spend and rotate alone. */
  function ExampleState(x: Setting, sequence: U64): State.AccountState {
    State.AccountState(0, sequence, 1, 1, 0, 0, [ExampleEntry(x)])
  }

  lemma ExampleStateIsValid(x: Setting, sequence: U64)
    ensures State.ValidAccountState(ExampleState(x, sequence))
  {
    var s := ExampleState(x, sequence);
    var e := ExampleEntry(x);
    assert State.EntrySize(e) == 81;
    assert State.EntriesSize(s.authenticators) == 81;
    assert Bit(3, CAP_SPEND) && Bit(3, CAP_ROTATE);
    assert s.authenticators[..0] == [];
    assert State.CapWeight(s.authenticators, CAP_SPEND) == 1 && State.CapWeight(s.authenticators, CAP_ROTATE) == 1;
  }

  function ExampleWitness(): Wit.AccountWitness {
    Wit.AccountWitness(OP_ROTATE, 0, [Wit.Proof(0, [1])])
  }

  lemma ExampleWitnessIsValid()
    ensures Wit.ValidWitness(ExampleWitness()) && |Wit.WitnessBytes(ExampleWitness())| == 25
  {
    var w := ExampleWitness();
    assert Wit.ProofsBytes(w.proofs[1..]) == [];
    assert |Wit.ProofsBytes(w.proofs)| == 9;
  }

  // ----- The rotation -----

  function StatePoint(): OutPoint {
    OutPoint(ZeroDigest(), 0)
  }

  function LockCodePoint(): OutPoint {
    OutPoint(ZeroDigest(), 1)
  }

  function VerifierCodePoint(): OutPoint {
    OutPoint(ZeroDigest(), 2)
  }

  function CodeCell(x: Setting, code: Bytes): Cell
    requires Fits(x.foreign)
  {
    Cell(ScriptBytes(x.foreign), None, code)
  }

  function StateCell(x: Setting): Cell {
    ExampleStateIsValid(x, 0);
    Cell(ExampleAccount(x).guard, Some(TypeScript(x)), State.StateBytes(ExampleState(x, 0)))
  }

  /** The successor: the same type script and a valid next state, under the foreign lock. */
  function EscapedCell(x: Setting): Cell
    requires Fits(x.foreign)
  {
    ExampleStateIsValid(x, 1);
    Cell(ScriptBytes(x.foreign), Some(TypeScript(x)), State.StateBytes(ExampleState(x, 1)))
  }

  function Rotation(x: Setting): Transaction
    requires Fits(x.foreign)
  {
    ExampleWitnessIsValid();
    Transaction(OneDigest(), [Input(StatePoint(), StateCell(x), 0)], [EscapedCell(x)],
                [CodeCell(x, x.lockCode), CodeCell(x, x.verifierCode)],
                [PackTable3(SealedWitness(ExampleWitness(), [], []))])
  }

  lemma RotationResolves(x: Setting)
    requires Fits(x.foreign)
    ensures Resolve(x.h, Rotation(x), OP_ROTATE, ExampleAccount(x).id) ==
            Some(Resolved(StateCell(x).data, Some(EscapedCell(x).data), Some(0)))
  {
    hide Resolve;
    hide ScriptBytes;
    hide State.StateBytes;
    hide State.ValidAccountState;
    hide PackTable3;
    var tx, id := Rotation(x), ExampleAccount(x).id;
    ResolvedChange(x.h, tx, OP_ROTATE, id, Resolved(StateCell(x).data, Some(EscapedCell(x).data), Some(0)));
    ExampleStateIsValid(x, 0);
    ExampleStateIsValid(x, 1);
    StateBytesFit(ExampleState(x, 0));
    StateBytesFit(ExampleState(x, 1));
    assert |TypeScript(x)| == 85;
    assert OnlyAt(InputCells(tx), HasType(x.h, id), 0) && OnlyAt(tx.outputs, HasType(x.h, id), 0);
  }

  lemma StateBytesFit(s: State.AccountState)
    requires State.ValidAccountState(s)
    ensures |State.StateBytes(s)| <= MAX_CELL_DATA
  {
  }

  lemma RotationIsSealed(x: Setting)
    requires Fits(x.foreign)
    ensures Wit.ValidWitness(ExampleWitness())
    ensures Sealed(Rotation(x), ExampleAccount(x).guard, ExampleWitness(), [], [])
  {
    hide ScriptBytes;
    hide Wit.WitnessBytes;
    hide Wit.ValidWitness;
    hide PackTable3;
    hide PackBytes;
    hide State.StateBytes;
    ExampleWitnessIsValid();
    var tx, guard := Rotation(x), ExampleAccount(x).guard;
    PackedLength(Wit.WitnessBytes(ExampleWitness()));
    assert GroupFrom(tx.inputs, guard, 1) == [];
    assert Group(tx, guard) == [0];
  }

  lemma RotationSlots(x: Setting, t: Task)
    requires t.state == ExampleState(x, 0)
    ensures ProofSlots(ExampleWitness().proofs) == CapableSlots(t.state.authenticators, CAP_ROTATE)
  {
    assert Bit(3, CAP_ROTATE);
    assert ExampleEntry(x) in t.state.authenticators && Wit.Proof(0, [1]) in ExampleWitness().proofs;
  }

  lemma RotationIsVerified(x: Setting, t: Task)
    requires ValidSetting(x) && t.state == ExampleState(x, 0) && t.operation == OP_ROTATE
    ensures VerifiersAccept(x.h, AlwaysAccepting(), Rotation(x).deps, t, ExampleWitness().proofs)
  {
    hide ScriptBytes;
    hide Req.RequestBytes;
    hide State.StateBytes;
    hide State.ValidAccountState;
    hide PackTable3;
    var e, p, deps := ExampleEntry(x), Wit.Proof(0, [1]), Rotation(x).deps;
    assert OnlyAt(deps, RunsVerifier(x.h, e), 1);
    assert Req.ValidRequest(Req.RequestFor(e, t.operation, t.digest, p.bytes));
    assert VerifierAccepts(x.h, AlwaysAccepting(), deps, t, e, p, 1);
  }

  /** AccountLock accepts the rotation, although the successor's lock is foreign. */
  lemma RotationIsAccepted(x: Setting)
    requires ValidSetting(x)
    ensures Run(x.h, AlwaysAccepting(), Rotation(x), ExampleAccount(x).guard).Some?
  {
    hide State.ValidAccountState;
    hide State.StateBytes;
    hide State.DecodedState;
    hide State.Validated;
    hide Wit.ValidWitness;
    hide Wit.WitnessBytes;
    hide Wit.ProofsAt;
    hide ScriptBytes;
    hide PackTable3;
    hide PackBytes;
    hide AccountOf;
    hide Resolve;
    hide Prepare;
    hide Run;
    hide Sealed;
    hide VerifiersAccept;
    var a, tx, w := ExampleAccount(x), Rotation(x), ExampleWitness();
    var s0, s1 := ExampleState(x, 0), ExampleState(x, 1);
    ExampleStateIsValid(x, 0);
    ExampleStateIsValid(x, 1);
    ExampleAccountIsValid(x);
    ExampleWitnessIsValid();
    RotationResolves(x);
    var resolved := Resolved(State.StateBytes(s0), Some(State.StateBytes(s1)), Some(0));
    State.EncodedIsDecoded(s1);
    State.ValidatedAgreesWithDecoded(State.StateBytes(s1));
    RotationIsSealed(x);
    SealedIsPrepared(x.h, tx, a.guard, a.id, w, [], [], resolved, s0);
    var t := Prepare(x.h, tx, a.guard).value;
    RotationSlots(x, t);
    RotationIsVerified(x, t);
    FullSetIsAccepted(x.h, AlwaysAccepting(), tx, a.guard, t, w.proofs);
  }

  // ----- The escape -----

  /** The next transaction: it consumes the escaped cell and creates nothing. */
  function Destruction(x: Setting): Transaction
    requires Fits(x.foreign)
  {
    Transaction(TwoDigest(), [Input(OutPoint(OneDigest(), 0), EscapedCell(x), 0)], [], [], [])
  }

  function CodeCells(x: Setting): Ledger
    requires Fits(x.foreign)
  {
    map[LockCodePoint() := CodeCell(x, x.lockCode), VerifierCodePoint() := CodeCell(x, x.verifierCode)]
  }

  function Before(x: Setting): Ledger
    requires Fits(x.foreign)
  {
    CodeCells(x)[StatePoint() := StateCell(x)]
  }

  function AfterRotation(x: Setting): Ledger
    requires Fits(x.foreign)
  {
    CodeCells(x)[OutPoint(OneDigest(), 0) := EscapedCell(x)]
  }

  lemma OneInput(tx: Transaction)
    requires |tx.inputs| == 1
    ensures Consumed(tx) == {tx.inputs[0].previous}
  {
    var i := 0;
    assert 0 <= i < |tx.inputs| && tx.inputs[i].previous in Consumed(tx);
  }

  lemma NoOutputs(tx: Transaction)
    requires tx.outputs == []
    ensures Created(tx) == map[]
  {
  }

  lemma DigestsDiffer()
    ensures ZeroDigest() != OneDigest() && OneDigest() != TwoDigest() && TwoDigest() != ZeroDigest()
  {
    assert ZeroDigest()[0] == 0 && OneDigest()[0] == 1 && TwoDigest()[0] == 2;
  }

  lemma FirstStep(x: Setting)
    requires ValidSetting(x)
    ensures Step(x.h, ExampleAccount(x), Before(x), Event(Rotation(x), AlwaysAccepting()), AfterRotation(x))
  {
    hide Run;
    hide ExampleState;
    hide ScriptBytes;
    hide ZeroDigest;
    hide OneDigest;
    hide State.StateBytes;
    hide State.ValidAccountState;
    hide Wit.WitnessBytes;
    hide Wit.ValidWitness;
    hide PackTable3;
    hide SealedWitness;
    var a, l0, tx := ExampleAccount(x), Before(x), Rotation(x);
    RotationIsAccepted(x);
    DigestsDiffer();
    assert l0[LockCodePoint()] == tx.deps[0] && l0[VerifierCodePoint()] == tx.deps[1];
    OneInput(tx);
    assert Created(tx) == map[OutPoint(OneDigest(), 0) := EscapedCell(x)];
    assert Apply(l0, tx) == AfterRotation(x);
    assert OfType(tx.inputs[0].cell, a);
  }

  lemma SecondStep(x: Setting)
    requires ValidSetting(x)
    ensures Step(x.h, ExampleAccount(x), AfterRotation(x), Event(Destruction(x), AlwaysAccepting()), CodeCells(x))
  {
    hide Run;
    hide ScriptBytes;
    hide ExampleState;
    hide ZeroDigest;
    hide OneDigest;
    hide TwoDigest;
    hide State.StateBytes;
    hide State.ValidAccountState;
    hide ExampleAccount;
    hide CodeCell;
    hide Consumed;
    hide Created;
    var l1, tx := AfterRotation(x), Destruction(x);
    ForeignIsNotGuard(x);
    DigestsDiffer();
    OneInput(tx);
    assert Created(tx) == map[] by { NoOutputs(tx); }
    assert Apply(l1, tx) == CodeCells(x);
  }

  lemma CodeCellsAreNoState(x: Setting)
    requires ValidSetting(x)
    ensures StatePoint() !in CodeCells(x)
    ensures forall p | p in CodeCells(x) :: !OfType(CodeCells(x)[p], ExampleAccount(x))
  {
    hide ScriptBytes;
    hide State.StateBytes;
  }

  lemma EscapedIsOfType(x: Setting)
    requires ValidSetting(x)
    ensures |Rotation(x).outputs| == 1 && OfType(Rotation(x).outputs[0], ExampleAccount(x))
  {
    hide ScriptBytes;
    hide State.StateBytes;
    hide PackTable3;
  }

  /**
   * A two-step run from a guarded state cell to a ledger without any: the first step is accepted by
   * AccountLock but does not keep the guard, the second never asks it.
   */
  lemma StateCanEscape(x: Setting)
    requires ValidSetting(x)
    ensures var a := ExampleAccount(x);
            var es := [Event(Rotation(x), AlwaysAccepting()), Event(Destruction(x), AlwaysAccepting())];
            var ls := [Before(x), AfterRotation(x), CodeCells(x)];
            && ValidAccount(x.h, a) && IsRun(x.h, a, ls, es) && GuardedAt(a, ls[0], StatePoint())
            && Run(x.h, AlwaysAccepting(), Rotation(x), a.guard).Some? && !KeepsGuard(a, Rotation(x))
            && forall p | p in ls[2] :: !OfType(ls[2][p], a)
  {
    hide Run;
    hide Step;
    hide AccountOf;
    hide ScriptBytes;
    hide ZeroDigest;
    hide OneDigest;
    hide State.StateBytes;
    hide State.DecodedState;
    hide PackTable3;
    var a := ExampleAccount(x);
    ExampleAccountIsValid(x);
    ForeignIsNotGuard(x);
    RotationIsAccepted(x);
    ExampleStateIsValid(x, 0);
    State.EncodedIsDecoded(ExampleState(x, 0));
    FirstStep(x);
    SecondStep(x);
    CodeCellsAreNoState(x);
    EscapedIsOfType(x);
  }
}
