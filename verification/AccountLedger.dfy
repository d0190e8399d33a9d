/**
 * The ledger around AccountLock: live cells, transactions that consume and create them, and runs of
 * such steps. CKB itself contributes three rules, taken as given: inputs are live and distinct, new
 * outpoints are new, and the built-in Type ID script lets no cell of a type appear unless one is consumed.
 */
module AccountLedger {
  import opened Bytes
  import opened Protocol
  import opened Transaction
  import opened Sighash
  import opened AccountLock
  import opened Policy
  import State = StateCodec
  import Wit = WitnessCodec

  type Ledger = map<OutPoint, Cell>

  /** An account: its lock script, its Type ID script, and the id that names the latter in the former. */
  datatype Account = Account(guard: Bytes, typeScript: Bytes, id: Digest)

  predicate ValidAccount(h: Hashes, a: Account) {
    AccountOf(a.guard) == Some(a.id) && h.ckb(a.typeScript) == a.id
  }

  predicate OfType(c: Cell, a: Account) {
    c.typeScript == Some(a.typeScript)
  }

  // ----- Steps -----

  /** One transaction together with what its verifier children do. */
  datatype Event = Event(tx: Transaction, child: Child)

  ghost predicate InputsAreLive(l: Ledger, tx: Transaction) {
    && (forall i | 0 <= i < |tx.inputs| :: tx.inputs[i].previous in l && l[tx.inputs[i].previous] == tx.inputs[i].cell)
    && (forall i, j | 0 <= i < j < |tx.inputs| :: tx.inputs[i].previous != tx.inputs[j].previous)
    && (forall c | c in tx.deps :: exists p :: p in l && l[p] == c)
  }

  ghost predicate OutputsAreNew(l: Ledger, tx: Transaction) {
    forall p | p in l :: p.txHash != tx.hash
  }

  /** The built-in Type ID rule after creation. */
  ghost predicate TypeIdRule(a: Account, tx: Transaction) {
    && (forall o, p | 0 <= o < |tx.outputs| && 0 <= p < |tx.outputs| ::
          OfType(tx.outputs[o], a) && OfType(tx.outputs[p], a) ==> o == p)
    && ((exists o :: 0 <= o < |tx.outputs| && OfType(tx.outputs[o], a)) ==>
          exists i :: 0 <= i < |tx.inputs| && OfType(tx.inputs[i].cell, a))
  }

  function Consumed(tx: Transaction): set<OutPoint> {
    set i | 0 <= i < |tx.inputs| :: tx.inputs[i].previous
  }

  function Created(tx: Transaction): map<OutPoint, Cell> {
    map o: nat | 0 <= o < |tx.outputs| :: OutPoint(tx.hash, o) := tx.outputs[o]
  }

  function Apply(l: Ledger, tx: Transaction): Ledger {
    (l - Consumed(tx)) + Created(tx)
  }

  /** A step of the chain: whatever is locked by the account's guard is released by AccountLock alone. */
  ghost predicate Step(h: Hashes, a: Account, l: Ledger, e: Event, l': Ledger) {
    && InputsAreLive(l, e.tx) && OutputsAreNew(l, e.tx) && TypeIdRule(a, e.tx)
    && l' == Apply(l, e.tx)
    && ((exists i :: 0 <= i < |e.tx.inputs| && e.tx.inputs[i].cell.lock == a.guard) ==>
          Run(h, e.child, e.tx, a.guard).Some?)
  }

  // ----- The state cell -----

  /** `p` holds the one live cell of the account's type, and its data is a valid state. */
  ghost predicate StateAt(a: Account, l: Ledger, p: OutPoint) {
    && p in l && OfType(l[p], a) && State.DecodedState(l[p].data).Some?
    && forall q | q in l && OfType(l[q], a) :: q == p
  }

  /** The state cell is moreover locked by AccountLock. */
  ghost predicate GuardedAt(a: Account, l: Ledger, p: OutPoint) {
    StateAt(a, l, p) && l[p].lock == a.guard
  }

  function Sequence(l: Ledger, p: OutPoint): nat
    requires p in l && State.DecodedState(l[p].data).Some?
  {
    State.DecodedState(l[p].data).value.sequence
  }

  /** The transaction consumes the account's state cell. */
  predicate Changes(a: Account, tx: Transaction) {
    exists i :: 0 <= i < |tx.inputs| && OfType(tx.inputs[i].cell, a)
  }

  lemma ConsumedState(a: Account, l: Ledger, tx: Transaction, p: OutPoint)
    requires StateAt(a, l, p) && InputsAreLive(l, tx)
    ensures Changes(a, tx) <==> p in Consumed(tx)
    ensures forall i, j | 0 <= i < |tx.inputs| && 0 <= j < |tx.inputs| ::
              OfType(tx.inputs[i].cell, a) && OfType(tx.inputs[j].cell, a) ==> i == j
  {
  }

  /** A step that leaves the state cell alone leaves it the only one, unchanged. */
  lemma IdleStep(h: Hashes, a: Account, l: Ledger, e: Event, l': Ledger, p: OutPoint)
    requires StateAt(a, l, p) && Step(h, a, l, e, l') && !Changes(a, e.tx)
    ensures StateAt(a, l', p) && l'[p] == l[p]
  {
    hide Run;
    ConsumedState(a, l, e.tx, p);
    forall q | q in Created(e.tx) ensures !OfType(Created(e.tx)[q], a) {
      var o: nat :| o < |e.tx.outputs| && q == OutPoint(e.tx.hash, o);
      assert Created(e.tx)[q] == e.tx.outputs[o];
    }
  }

  /**
   * What a change of state was approved by and what it left behind: an accepted rotation or recovery,
   * judged by the state it consumed, whose output `o` is now the one state cell, one sequence further.
   */
  ghost predicate ChangedBy(h: Hashes, a: Account, l: Ledger, e: Event, l': Ledger, p: OutPoint, ap: Approval, o: nat)
    requires p in l
  {
    && Run(h, e.child, e.tx, a.guard) == Some(ap)
    && (ap.task.operation == OP_ROTATE || ap.task.operation == OP_RECOVERY)
    && State.DecodedState(l[p].data) == Some(ap.task.state)
    && ThresholdApproved(h, e.child, e.tx.deps, ap)
    && o < |e.tx.outputs| && e.tx.outputs[o].typeScript == l[p].typeScript
    && StateAt(a, l', OutPoint(e.tx.hash, o)) && l'[OutPoint(e.tx.hash, o)] == e.tx.outputs[o]
    && Sequence(l', OutPoint(e.tx.hash, o)) == ap.task.state.sequence + 1
  }

  /** An accepted run that consumes the account's own state cell is a rotation or a recovery of it. */
  lemma AcceptedChange(h: Hashes, a: Account, tx: Transaction, child: Child, ap: Approval, i: nat)
    requires ValidAccount(h, a) && Run(h, child, tx, a.guard) == Some(ap)
    requires i < |tx.inputs| && OfType(tx.inputs[i].cell, a)
    ensures ap.task.operation == OP_ROTATE || ap.task.operation == OP_RECOVERY
    ensures State.DecodedState(tx.inputs[i].cell.data) == Some(ap.task.state)
    ensures exists o: nat ::
              && OnlyAt(tx.outputs, HasType(h, a.id), o) && OfType(tx.outputs[o], a)
              && State.DecodedState(tx.outputs[o].data).Some?
              && State.DecodedState(tx.outputs[o].data).value.sequence == ap.task.state.sequence + 1
  {
    hide Run;
    hide Prepare;
    hide Resolve;
    hide AccountOf;
    hide State.DecodedState;
    hide State.Validated;
    hide State.ValidAccountState;
    hide State.StateBytes;
    hide Carries;
    hide Group;
    hide GroupStream;
    hide AuthorizationDigest;
    hide Wit.ParseHeader;
    var t := ap.task;
    AcceptedRun(h, child, tx, a.guard, ap);
    PreparedFields(h, tx, a.guard, t);
    ResolvedOperation(h, tx, t.operation, a.id);
    assert HasType(h, a.id)(InputCells(tx)[i]);
    if t.operation == OP_SPEND {
      ResolvedSpend(h, tx, a.id, t.resolved);
    } else {
      ResolvedChange(h, tx, t.operation, a.id, t.resolved);
      var j: nat, o: nat :|
        && OnlyAt(InputCells(tx), HasType(h, a.id), j) && OnlyAt(tx.outputs, HasType(h, a.id), o)
        && tx.inputs[j].cell.typeScript == tx.outputs[o].typeScript
        && t.resolved == Resolved(tx.inputs[j].cell.data, Some(tx.outputs[o].data), Some(j));
      assert i == j;
      State.ValidatedAgreesWithDecoded(tx.outputs[o].data);
    }
  }

  /** The one output of the account's type becomes the one live cell of that type. */
  lemma SuccessorIsState(h: Hashes, a: Account, l: Ledger, tx: Transaction, p: OutPoint, o: nat)
    requires ValidAccount(h, a) && StateAt(a, l, p) && InputsAreLive(l, tx) && Changes(a, tx)
    requires OnlyAt(tx.outputs, HasType(h, a.id), o) && OfType(tx.outputs[o], a)
    requires State.DecodedState(tx.outputs[o].data).Some?
    ensures var p' := OutPoint(tx.hash, o);
            StateAt(a, Apply(l, tx), p') && Apply(l, tx)[p'] == tx.outputs[o]
  {
    hide AccountOf;
    hide State.DecodedState;
    var l', p' := Apply(l, tx), OutPoint(tx.hash, o);
    ConsumedState(a, l, tx, p);
    assert p' in Created(tx) && l'[p'] == tx.outputs[o];
    forall q | q in l' && OfType(l'[q], a) ensures q == p' {
      if q in Created(tx) {
        var k: nat :| k < |tx.outputs| && q == OutPoint(tx.hash, k);
        assert l'[q] == tx.outputs[k];
      }
    }
  }

  lemma {:induction false} ChangeStep(h: Hashes, a: Account, l: Ledger, e: Event, l': Ledger, p: OutPoint)
    requires ValidAccount(h, a) && GuardedAt(a, l, p) && Step(h, a, l, e, l') && Changes(a, e.tx)
    ensures exists ap, o :: ChangedBy(h, a, l, e, l', p, ap, o)
  {
    hide Run;
    hide AccountOf;
    hide ThresholdApproved;
    hide State.DecodedState;
    ConsumedState(a, l, e.tx, p);
    var i :| 0 <= i < |e.tx.inputs| && OfType(e.tx.inputs[i].cell, a);
    var ap := Run(h, e.child, e.tx, a.guard).value;
    AcceptedIsApproved(h, e.child, e.tx, a.guard, ap);
    AcceptedChange(h, a, e.tx, e.child, ap, i);
    var o: nat :| && OnlyAt(e.tx.outputs, HasType(h, a.id), o) && OfType(e.tx.outputs[o], a)
                  && State.DecodedState(e.tx.outputs[o].data).Some?
                  && State.DecodedState(e.tx.outputs[o].data).value.sequence == ap.task.state.sequence + 1;
    SuccessorIsState(h, a, l, e.tx, p, o);
    assert ChangedBy(h, a, l, e, l', p, ap, o);
  }

  // ----- Keeping the guard -----

  /** Every state cell the transaction creates is locked by AccountLock again. */
  predicate KeepsGuard(a: Account, tx: Transaction) {
    forall o | 0 <= o < |tx.outputs| && OfType(tx.outputs[o], a) :: tx.outputs[o].lock == a.guard
  }

  /**
   * AccountLock compares the successor's type script, not its lock, so the state cell stays guarded
   * exactly when the transaction locks it again with AccountLock; nothing else can go wrong.
   */
  lemma GuardedStep(h: Hashes, a: Account, l: Ledger, e: Event, l': Ledger, p: OutPoint)
    requires ValidAccount(h, a) && GuardedAt(a, l, p) && Step(h, a, l, e, l')
    ensures (exists q :: GuardedAt(a, l', q)) <==> KeepsGuard(a, e.tx)
    ensures exists q ::
              && StateAt(a, l', q)
              && Sequence(l', q) == Sequence(l, p) + if Changes(a, e.tx) then 1 else 0
  {
    hide Run;
    hide AccountOf;
    hide ThresholdApproved;
    hide State.DecodedState;
    if Changes(a, e.tx) {
      ChangeStep(h, a, l, e, l', p);
      var ap, o :| ChangedBy(h, a, l, e, l', p, ap, o);
      var q := OutPoint(e.tx.hash, o);
      assert StateAt(a, l', q);
      assert GuardedAt(a, l', q) <==> KeepsGuard(a, e.tx);
    } else {
      IdleStep(h, a, l, e, l', p);
      assert GuardedAt(a, l', p);
    }
  }

  // ----- Whole runs -----

  ghost predicate IsRun(h: Hashes, a: Account, ls: seq<Ledger>, es: seq<Event>) {
    |ls| == |es| + 1 && forall k | 0 <= k < |es| :: Step(h, a, ls[k], es[k], ls[k + 1])
  }

  function ChangeCount(a: Account, es: seq<Event>): nat {
    if es == [] then 0
    else ChangeCount(a, es[..|es| - 1]) + if Changes(a, es[|es| - 1].tx) then 1 else 0
  }

  /**
   * Over every run in which each new state cell is locked by AccountLock, exactly one live cell carries
   * the account's type script, and its sequence is the first one plus the number of changes.
   */
  lemma {:induction false} RunKeepsState(h: Hashes, a: Account, ls: seq<Ledger>, es: seq<Event>, p: OutPoint)
    requires ValidAccount(h, a) && IsRun(h, a, ls, es) && GuardedAt(a, ls[0], p)
    requires forall e | e in es :: KeepsGuard(a, e.tx)
    ensures exists q :: && GuardedAt(a, ls[|es|], q)
                        && Sequence(ls[|es|], q) == Sequence(ls[0], p) + ChangeCount(a, es)
    ensures ChangeCount(a, es) <= U64_MAX - Sequence(ls[0], p)
  {
    hide Step;
    hide Changes;
    hide KeepsGuard;
    hide AccountOf;
    hide State.DecodedState;
    if es != [] {
      var n := |es| - 1;
      assert es[..n] + [es[n]] == es && ls[..|es|][0] == ls[0] && es[n] in es;
      assert forall e | e in es[..n] :: e in es;
      RunKeepsState(h, a, ls[..|es|], es[..n], p);
      var q :| GuardedAt(a, ls[n], q) && Sequence(ls[n], q) == Sequence(ls[0], p) + ChangeCount(a, es[..n]);
      GuardedStep(h, a, ls[n], es[n], ls[n + 1], q);
    }
  }

  ghost predicate ApprovedChange(h: Hashes, a: Account, l: Ledger, e: Event, l': Ledger) {
    exists p, ap, o :: GuardedAt(a, l, p) && ChangedBy(h, a, l, e, l', p, ap, o)
  }

  /** In such a run every change was approved under the state it replaced, at every point of the run. */
  lemma RunChangesAreApproved(h: Hashes, a: Account, ls: seq<Ledger>, es: seq<Event>, p: OutPoint, k: nat)
    requires ValidAccount(h, a) && IsRun(h, a, ls, es) && GuardedAt(a, ls[0], p)
    requires forall e | e in es :: KeepsGuard(a, e.tx)
    requires k < |es| && Changes(a, es[k].tx)
    ensures ApprovedChange(h, a, ls[k], es[k], ls[k + 1])
  {
    hide Step;
    hide Changes;
    hide KeepsGuard;
    hide AccountOf;
    hide ChangedBy;
    hide State.DecodedState;
    assert ls[..k + 1][0] == ls[0] && ls[..k + 1][k] == ls[k];
    assert forall e | e in es[..k] :: e in es;
    RunKeepsState(h, a, ls[..k + 1], es[..k], p);
    var q :| GuardedAt(a, ls[k], q);
    ChangeStep(h, a, ls[k], es[k], ls[k + 1], q);
  }

  /** A cell whose type script is not the account's but hashes to its id. */
  predicate Impostor(h: Hashes, a: Account, c: Cell) {
    c.typeScript.Some? && Collide(h, c.typeScript.value, a.typeScript)
  }

  /**
   * No stale state: whatever AccountLock accepts for the account was judged by the state cell live at
   * that moment, unless the transaction exhibits a type script that collides with the account's.
   */
  lemma AcceptedReadsLiveState(h: Hashes, a: Account, l: Ledger, tx: Transaction, child: Child, ap: Approval,
                               p: OutPoint)
    requires ValidAccount(h, a) && StateAt(a, l, p) && InputsAreLive(l, tx)
    requires Run(h, child, tx, a.guard) == Some(ap)
    ensures || ap.task.resolved.current == l[p].data
            || (exists c :: c in tx.deps && Impostor(h, a, c))
            || (exists i :: 0 <= i < |tx.inputs| && Impostor(h, a, tx.inputs[i].cell))
  {
    hide Run;
    hide Resolve;
    hide AccountOf;
    hide State.DecodedState;
    hide Prepare;
    hide ValidateTransition;
    hide Carries;
    hide Group;
    hide GroupStream;
    hide AuthorizationDigest;
    hide Wit.ParseHeader;
    var t := ap.task;
    AcceptedRun(h, child, tx, a.guard, ap);
    PreparedFields(h, tx, a.guard, t);
    ResolvedOperation(h, tx, t.operation, a.id);
    if t.operation == OP_SPEND {
      ResolvedSpend(h, tx, a.id, t.resolved);
      var d: nat :| OnlyAt(tx.deps, HasType(h, a.id), d) && tx.deps[d].data == t.resolved.current;
      assert tx.deps[d] in tx.deps;
      if OfType(tx.deps[d], a) {
        var q :| q in l && l[q] == tx.deps[d];
      } else {
        assert Impostor(h, a, tx.deps[d]);
      }
    } else {
      ResolvedChange(h, tx, t.operation, a.id, t.resolved);
      var i: nat, o: nat :|
        && OnlyAt(InputCells(tx), HasType(h, a.id), i) && OnlyAt(tx.outputs, HasType(h, a.id), o)
        && t.resolved == Resolved(tx.inputs[i].cell.data, Some(tx.outputs[o].data), Some(i));
      if !OfType(tx.inputs[i].cell, a) {
        assert Impostor(h, a, tx.inputs[i].cell);
      }
    }
  }
}
