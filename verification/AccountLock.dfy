/** AccountLock's `run`: state resolution, transition rules, digest, verifier resolution and weight accounting. */
module AccountLock {
  import opened Bytes
  import opened Protocol
  import opened Molecule
  import opened Transaction
  import opened Sighash
  import State = StateCodec
  import Wit = WitnessCodec
  import Req = RequestCodec

  const MAX_CELL_DATA: nat := STATE_MAX_LEN
  const MAX_SCRIPT: nat := 512
  const MAX_TYPE_SCRIPT: nat := 512

  /** What a spawned verifier does: given the dep it runs and the request, its exit code, or none if the
      transport fails. Nothing is assumed about it. */
  type Child = (nat, Bytes) -> Option<int>

  // ----- Script arguments -----

  function ParseLockArgs(args: Bytes): Option<Digest> {
    if |args| != ACCOUNT_LOCK_ARGS_LEN || args[0] != ACCOUNT_LOCK_VERSION then None else Some(args[1..])
  }

  function ScriptArgs(script: Bytes): Option<Bytes> {
    var f :- Table3Fields(script);
    MoleculeBytes(f.third)
  }

  /** The account a lock script guards. */
  function AccountOf(script: Bytes): Option<Digest> {
    if |script| > MAX_SCRIPT then None
    else
      var args :- ScriptArgs(script);
      ParseLockArgs(args)
  }

  // ----- Searching cells -----

  /** The indices from `from` on of the cells with a property, in order. */
  function IndicesWhere(cells: seq<Cell>, p: Cell -> bool, from: nat): seq<nat>
    decreases |cells| - from
  {
    if from >= |cells| then []
    else (if p(cells[from]) then [from] else []) + IndicesWhere(cells, p, from + 1)
  }

  function HasType(h: Hashes, id: Digest): Cell -> bool {
    (c: Cell) => TypeHash(h, c) == Some(id)
  }

  function RunsVerifier(h: Hashes, auth: State.Entry): Cell -> bool {
    (c: Cell) => if auth.verifierHashType == 0 then h.data(c.data) == auth.verifierCodeHash
         else TypeHash(h, c) == Some(auth.verifierCodeHash)
  }

  lemma {:induction false} IndicesWhereAre(cells: seq<Cell>, p: Cell -> bool, from: nat)
    ensures forall i :: i in IndicesWhere(cells, p, from) <==> from <= i < |cells| && p(cells[i])
    ensures forall j, k | 0 <= j < k < |IndicesWhere(cells, p, from)| ::
              IndicesWhere(cells, p, from)[j] < IndicesWhere(cells, p, from)[k]
    decreases |cells| - from
  {
    if from < |cells| {
      IndicesWhereAre(cells, p, from + 1);
      var rest := IndicesWhere(cells, p, from + 1);
      assert forall j | 0 <= j < |rest| :: rest[j] in rest;
    }
  }

  /** `i` is the only index of a cell with the property. */
  predicate OnlyAt(cells: seq<Cell>, p: Cell -> bool, i: nat) {
    i < |cells| && p(cells[i]) && forall j | 0 <= j < |cells| && p(cells[j]) :: j == i
  }

  lemma OneMatchIsOnly(cells: seq<Cell>, p: Cell -> bool, i: nat)
    ensures IndicesWhere(cells, p, 0) == [i] <==> OnlyAt(cells, p, i)
  {
    var found := IndicesWhere(cells, p, 0);
    IndicesWhereAre(cells, p, 0);
    assert |found| > 1 ==> found[0] < found[1];
    if found == [i] {
      assert i in found;
      forall j | 0 <= j < |cells| && p(cells[j]) ensures j == i {
        assert j in found;
      }
    }
    if OnlyAt(cells, p, i) {
      forall k | 0 <= k < |found| ensures found[k] == i {
        assert found[k] in found;
      }
      assert i in found;
    }
  }

  lemma NoMatchIsEmpty(cells: seq<Cell>, p: Cell -> bool)
    ensures IndicesWhere(cells, p, 0) == [] <==> forall i | 0 <= i < |cells| :: !p(cells[i])
  {
    var found := IndicesWhere(cells, p, 0);
    IndicesWhereAre(cells, p, 0);
    if found != [] {
      assert found[0] in found;
    }
  }

  /** `matching_type_indices`. */
  method MatchingTypeIndices(h: Hashes, cells: seq<Cell>, id: Digest) returns (matches: seq<nat>)
    ensures matches == IndicesWhere(cells, HasType(h, id), 0)
  {
    matches := [];
    var index := 0;
    while index < |cells|
      invariant index <= |cells|
      invariant IndicesWhere(cells, HasType(h, id), 0) == matches + IndicesWhere(cells, HasType(h, id), index)
    {
      if TypeHash(h, cells[index]) == Some(id) {
        matches := matches + [index];
      }
      index := index + 1;
    }
  }

  // ----- State resolution and transition -----

  datatype Resolved = Resolved(current: Bytes, successor: Option<Bytes>, stateInput: Option<nat>)

  function LoadData(c: Cell): Option<Bytes> {
    if |c.data| > MAX_CELL_DATA then None else Some(c.data)
  }

  /** What `resolve_state` finds; `ResolvedSpend` and `ResolvedChange` say which cells these are. */
  function Resolve(h: Hashes, tx: Transaction, operation: Byte, id: Digest): Option<Resolved> {
    var inputs := IndicesWhere(InputCells(tx), HasType(h, id), 0);
    if operation == OP_SPEND then
      var deps := IndicesWhere(tx.deps, HasType(h, id), 0);
      if inputs != [] || |deps| != 1 then None
      else
        IndicesWhereAre(tx.deps, HasType(h, id), 0);
        assert deps[0] in deps;
        var current :- LoadData(tx.deps[deps[0]]);
        Some(Resolved(current, None, None))
    else if operation == OP_ROTATE || operation == OP_RECOVERY then
      var outputs := IndicesWhere(tx.outputs, HasType(h, id), 0);
      if |inputs| != 1 || |outputs| != 1 then None
      else
        IndicesWhereAre(InputCells(tx), HasType(h, id), 0);
        IndicesWhereAre(tx.outputs, HasType(h, id), 0);
        assert inputs[0] in inputs && outputs[0] in outputs;
        var before, after := tx.inputs[inputs[0]].cell, tx.outputs[outputs[0]];
        if before.typeScript != after.typeScript || |before.typeScript.value| > MAX_TYPE_SCRIPT then None
        else
          var current :- LoadData(before);
          var successor :- LoadData(after);
          Some(Resolved(current, Some(successor), Some(inputs[0])))
    else None
  }

  method ResolveState(h: Hashes, tx: Transaction, operation: Byte, id: Digest) returns (r: Option<Resolved>)
    ensures r == Resolve(h, tx, operation, id)
  {
    var inputs := MatchingTypeIndices(h, InputCells(tx), id);
    if operation == OP_SPEND {
      if inputs != [] {
        return None;
      }
      var deps := MatchingTypeIndices(h, tx.deps, id);
      if |deps| != 1 {
        return None;
      }
      IndicesWhereAre(tx.deps, HasType(h, id), 0);
      assert deps[0] in deps;
      var current :- LoadData(tx.deps[deps[0]]);
      return Some(Resolved(current, None, None));
    } else if operation == OP_ROTATE || operation == OP_RECOVERY {
      if |inputs| != 1 {
        return None;
      }
      var outputs := MatchingTypeIndices(h, tx.outputs, id);
      if |outputs| != 1 {
        return None;
      }
      IndicesWhereAre(InputCells(tx), HasType(h, id), 0);
      IndicesWhereAre(tx.outputs, HasType(h, id), 0);
      assert inputs[0] in inputs && outputs[0] in outputs;
      var before, after := tx.inputs[inputs[0]].cell, tx.outputs[outputs[0]];
      // Both cells matched by type hash, so both have a type script.
      if |before.typeScript.value| > MAX_TYPE_SCRIPT || before.typeScript != after.typeScript {
        return None;
      }
      var current :- LoadData(before);
      var successor :- LoadData(after);
      return Some(Resolved(current, Some(successor), Some(inputs[0])));
    } else {
      return None;
    }
  }

  /** A spend reads its state from the one dep of the account's type, and consumes no such cell. */
  lemma ResolvedSpend(h: Hashes, tx: Transaction, id: Digest, r: Resolved)
    ensures Resolve(h, tx, OP_SPEND, id) == Some(r) <==>
            && r.successor.None? && r.stateInput.None? && |r.current| <= MAX_CELL_DATA
            && (forall i | 0 <= i < |tx.inputs| :: TypeHash(h, tx.inputs[i].cell) != Some(id))
            && exists d: nat :: OnlyAt(tx.deps, HasType(h, id), d) && tx.deps[d].data == r.current
  {
    hide IndicesWhere;
    hide OnlyAt;
    NoMatchIsEmpty(InputCells(tx), HasType(h, id));
    var deps := IndicesWhere(tx.deps, HasType(h, id), 0);
    forall d: nat ensures deps == [d] <==> OnlyAt(tx.deps, HasType(h, id), d) {
      OneMatchIsOnly(tx.deps, HasType(h, id), d);
    }
    if |deps| == 1 {
      assert deps == [deps[0]] && OnlyAt(tx.deps, HasType(h, id), deps[0]);
    }
  }

  /**
   * A rotation or recovery consumes the one input of the account's type and creates the one output
   * of that type, whose type script is the very same bytes. Nothing is said about the output's lock.
   */
  lemma ResolvedChange(h: Hashes, tx: Transaction, operation: Byte, id: Digest, r: Resolved)
    requires operation == OP_ROTATE || operation == OP_RECOVERY
    ensures Resolve(h, tx, operation, id) == Some(r) <==>
            exists i: nat, o: nat ::
              && OnlyAt(InputCells(tx), HasType(h, id), i) && OnlyAt(tx.outputs, HasType(h, id), o)
              && tx.inputs[i].cell.typeScript == tx.outputs[o].typeScript
              && |tx.outputs[o].typeScript.value| <= MAX_TYPE_SCRIPT
              && |tx.inputs[i].cell.data| <= MAX_CELL_DATA && |tx.outputs[o].data| <= MAX_CELL_DATA
              && r == Resolved(tx.inputs[i].cell.data, Some(tx.outputs[o].data), Some(i))
  {
    hide IndicesWhere;
    var inputs := IndicesWhere(InputCells(tx), HasType(h, id), 0);
    var outputs := IndicesWhere(tx.outputs, HasType(h, id), 0);
    forall i: nat ensures inputs == [i] <==> OnlyAt(InputCells(tx), HasType(h, id), i) {
      OneMatchIsOnly(InputCells(tx), HasType(h, id), i);
    }
    forall o: nat ensures outputs == [o] <==> OnlyAt(tx.outputs, HasType(h, id), o) {
      OneMatchIsOnly(tx.outputs, HasType(h, id), o);
    }
    if |inputs| == 1 && |outputs| == 1 {
      assert inputs == [inputs[0]] && outputs == [outputs[0]];
    }
  }

  function ValidateTransition(tx: Transaction, operation: Byte, resolved: Resolved, current: State.StateHeader): bool {
    operation == OP_SPEND ||
    (&& resolved.successor.Some?
     && var next := State.Validated(resolved.successor.value);
     && next.Some?
     && current.sequence < U64_MAX // checked_add
     && next.value.0.sequence == current.sequence + 1
     && (operation == OP_RECOVERY ==>
           && Bit(current.flags, FLAG_RECOVERY_ENABLED)
           && resolved.stateInput.Some? && resolved.stateInput.value < |tx.inputs|
           && tx.inputs[resolved.stateInput.value].since >= current.recoverySince))
  }

  // ----- Judging one proof -----

  /** The entry of a slot; with strictly increasing slots there is at most one. */
  function EntryOfSlot(entries: seq<State.Entry>, slot: U16): Option<State.Entry> {
    if entries == [] then None
    else if entries[|entries| - 1].slot == slot then Some(entries[|entries| - 1])
    else EntryOfSlot(entries[..|entries| - 1], slot)
  }

  /** `find_authenticator`: parses the state again and keeps the last entry of the slot. */
  method FindAuthenticator(state: Bytes, header: State.StateHeader, slot: U16) returns (r: Option<State.Entry>)
    ensures var entries := State.EntriesAt(state, STATE_HEADER_LEN, header.authenticatorCount, -1);
            r == if entries.None? then None else EntryOfSlot(entries.value, slot)
  {
    var parsed := State.ParseAuthenticators(state, header);
    var entries :- parsed;
    r := None;
    for i := 0 to |entries|
      invariant r == EntryOfSlot(entries[..i], slot)
    {
      assert entries[..i + 1][..i] == entries[..i];
      if entries[i].slot == slot {
        r := Some(entries[i]);
      }
    }
    assert entries[..|entries|] == entries;
  }

  /** The dep that runs an authenticator's verifier: the only one with the hash the state names. */
  function VerifierDep(h: Hashes, deps: seq<Cell>, auth: State.Entry): Option<nat> {
    var found := IndicesWhere(deps, RunsVerifier(h, auth), 0);
    if |found| == 1 then Some(found[0]) else None
  }

  lemma VerifierDepIsOnly(h: Hashes, deps: seq<Cell>, auth: State.Entry, d: nat)
    ensures VerifierDep(h, deps, auth) == Some(d) <==> OnlyAt(deps, RunsVerifier(h, auth), d)
  {
    var found := IndicesWhere(deps, RunsVerifier(h, auth), 0);
    OneMatchIsOnly(deps, RunsVerifier(h, auth), d);
    if |found| == 1 {
      assert found == [found[0]];
    }
  }

  /** `resolve_verifier`: a second match is an error as soon as it is met. */
  method ResolveVerifier(h: Hashes, deps: seq<Cell>, auth: State.Entry) returns (r: Option<nat>)
    ensures r == VerifierDep(h, deps, auth)
  {
    var found: Option<nat> := None;
    var index := 0;
    ghost var all := IndicesWhere(deps, RunsVerifier(h, auth), 0);
    while index < |deps|
      invariant index <= |deps|
      invariant all == (if found.None? then [] else [found.value]) + IndicesWhere(deps, RunsVerifier(h, auth), index)
    {
      if RunsVerifier(h, auth)(deps[index]) {
        if found.Some? {
          assert all[0] == found.value && all[1] == index;
          return None;
        }
        found := Some(index);
      }
      index := index + 1;
    }
    return found;
  }

  /** The weight one proof earns, or none if it makes the whole transaction fail. */
  function Judge(h: Hashes, child: Child, deps: seq<Cell>, entries: seq<State.Entry>, operation: Byte, cap: nat,
                 digest: Digest, p: Wit.Proof): Option<U16>
  {
    var auth :- EntryOfSlot(entries, p.slot);
    if !Bit(auth.capabilities, cap) then None
    else
      var dep :- VerifierDep(h, deps, auth);
      var request :- Req.LockRequest(auth, operation, digest, p.bytes);
      var exit :- child(dep, request);
      Some(if exit == 0 then auth.weight else 0)
  }

  // ----- The run -----

  /** Everything `run` fixes before it looks at the first proof. */
  datatype Task = Task(
    operation: Byte,
    accountId: Digest,
    state: State.AccountState,
    resolved: Resolved,
    lock: Bytes,
    proofCount: Byte,
    digest: Digest)

  function ThresholdFor(s: State.AccountState, operation: Byte): U16 {
    if operation == OP_SPEND then s.spendThreshold
    else if operation == OP_ROTATE then s.rotateThreshold
    else s.recoveryThreshold
  }

  function Prepare(h: Hashes, tx: Transaction, script: Bytes): Option<Task> {
    var id :- AccountOf(script);
    var group := Group(tx, script);
    var first :- GroupWitness(tx, group, 0);
    if |first| > MAX_WITNESS then None
    else
      var lock :- WitnessLock(first);
      var header :- Wit.ParseHeader(lock);
      if header.proofCount > AUTHENTICATOR_MAX_COUNT then None
      else
        var resolved :- Resolve(h, tx, header.operation, id);
        var state :- State.DecodedState(resolved.current);
        if header.stateSequence != state.sequence || |state.authenticators| > 0xff
           || !ValidateTransition(tx, header.operation, resolved, State.HeaderOf(state)) then None
        else
          var stream :- GroupStream(tx, group);
          var digest := AuthorizationDigest(h, header.operation, id, state.sequence, resolved.current, h.ckb(stream));
          Some(Task(header.operation, id, state, resolved, lock, header.proofCount, digest))
  }

  /** The checked sum of what the proofs earn, in order; any failing proof fails the whole. */
  function Tally(h: Hashes, child: Child, deps: seq<Cell>, t: Task, cap: nat, proofs: seq<Wit.Proof>): Option<U32> {
    if proofs == [] then Some(0)
    else
      var sum :- Tally(h, child, deps, t, cap, proofs[..|proofs| - 1]);
      var weight :- Judge(h, child, deps, t.state.authenticators, t.operation, cap, t.digest, proofs[|proofs| - 1]);
      CheckedAdd32(sum, weight)
  }

  /** What an accepted transaction was accepted on. */
  datatype Approval = Approval(task: Task, proofs: seq<Wit.Proof>, weight: U32)

  function Run(h: Hashes, child: Child, tx: Transaction, script: Bytes): Option<Approval> {
    var t :- Prepare(h, tx, script);
    var cap :- CapabilityForOperation(t.operation);
    var proofs :- Wit.ProofsAt(t.lock, WITNESS_HEADER_LEN, t.proofCount, -1);
    var weight :- Tally(h, child, tx.deps, t, cap, proofs);
    if weight < ThresholdFor(t.state, t.operation) then None else Some(Approval(t, proofs, weight))
  }

  lemma TallyPrefix(h: Hashes, child: Child, deps: seq<Cell>, t: Task, cap: nat, proofs: seq<Wit.Proof>, n: nat)
    requires n <= |proofs| && Tally(h, child, deps, t, cap, proofs[..n]).None?
    ensures Tally(h, child, deps, t, cap, proofs).None?
    decreases |proofs|
  {
    if n < |proofs| {
      assert proofs[..|proofs| - 1][..n] == proofs[..n];
      TallyPrefix(h, child, deps, t, cap, proofs[..|proofs| - 1], n);
    } else {
      assert proofs[..n] == proofs;
    }
  }

  /** The callback `run` gives to `parse_proofs`. */
  method JudgeProof(h: Hashes, child: Child, deps: seq<Cell>, ghost t: Task, current: Bytes,
                    header: State.StateHeader, operation: Byte, cap: nat, digest: Digest, p: Wit.Proof)
    returns (r: Option<U16>)
    requires State.DecodedState(current) == Some(t.state) && State.ParseHeader(current) == Some(header)
    ensures r == Judge(h, child, deps, t.state.authenticators, operation, cap, digest, p)
  {
    hide Bit;
    hide EntryOfSlot;
    hide VerifierDep;
    hide Req.LockRequest;
    hide State.ParseHeader;
    hide State.EntriesAt;
    hide State.Summarize;
    hide State.ThresholdsMet;
    var found := FindAuthenticator(current, header, p.slot);
    var auth :- found;
    if !Bit(auth.capabilities, cap) {
      return None;
    }
    var resolved := ResolveVerifier(h, deps, auth);
    var verifier :- resolved;
    var encoded := Req.EncodeRequest(auth, operation, digest, p.bytes);
    var request :- encoded;
    var exit :- child(verifier, request);
    return Some(if exit == 0 then auth.weight else 0);
  }

  method RunLock(h: Hashes, child: Child, tx: Transaction, script: Bytes) returns (r: Option<()>)
    ensures r.Some? <==> Run(h, child, tx, script).Some?
  {
    hide AccountOf;
    hide GroupFrom;
    hide GroupWitness;
    hide WitnessLock;
    hide Resolve;
    hide ValidateTransition;
    hide GroupStream;
    hide Judge;
    hide Wit.ParseHeader;
    hide Wit.ProofsAt;
    hide State.Validated;
    hide State.DecodedState;
    hide State.ParseHeader;
    var id :- AccountOf(script);
    var group := Group(tx, script);
    GroupIsAscending(tx.inputs, script, 0);
    var first :- GroupWitness(tx, group, 0);
    if |first| > MAX_WITNESS {
      return None;
    }
    var lock :- WitnessLock(first);
    var witnessHeader :- Wit.ParseHeader(lock);
    if witnessHeader.proofCount > AUTHENTICATOR_MAX_COUNT {
      return None;
    }
    var operation := witnessHeader.operation;
    var found := ResolveState(h, tx, operation, id);
    var resolved :- found;
    var validated := State.ValidateState(resolved.current);
    State.ValidatedAgreesWithDecoded(resolved.current);
    var valid :- validated;
    var stateHeader := valid.0;
    if witnessHeader.stateSequence != stateHeader.sequence {
      return None;
    }
    if !ValidateTransition(tx, operation, resolved, stateHeader) {
      return None;
    }
    var hashed := CanonicalGroupSighash(h, tx, group);
    var sighash :- hashed;
    var digest := AuthorizationDigest(h, operation, id, stateHeader.sequence, resolved.current, sighash);
    var cap :- CapabilityForOperation(operation);
    var threshold := if operation == OP_SPEND then stateHeader.spendThreshold
                     else if operation == OP_ROTATE then stateHeader.rotateThreshold
                     else stateHeader.recoveryThreshold;
    var parsed := Wit.ParseProofs(lock, witnessHeader);
    var proofs :- parsed;
    ghost var t := Prepare(h, tx, script).value;
    var weight: U32 := 0;
    for i := 0 to |proofs|
      invariant Tally(h, child, tx.deps, t, cap, proofs[..i]) == Some(weight)
    {
      assert proofs[..i + 1][..i] == proofs[..i];
      var judged := JudgeProof(h, child, tx.deps, t, resolved.current, stateHeader, operation, cap, digest, proofs[i]);
      if judged.None? {
        TallyPrefix(h, child, tx.deps, t, cap, proofs, i + 1);
        return None;
      }
      var sum := CheckedAdd32(weight, judged.value);
      if sum.None? {
        TallyPrefix(h, child, tx.deps, t, cap, proofs, i + 1);
        return None;
      }
      weight := sum.value;
    }
    assert proofs[..|proofs|] == proofs;
    if weight < threshold {
      return None;
    }
    return Some(());
  }
}
