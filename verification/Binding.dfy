/**
 * What the authorization digest of a run commits to, and exactly what it leaves free: the lock field of the
 * first group witness, and the witnesses of inputs that other scripts lock.
 */
module Binding {
  import opened Bytes
  import opened Molecule
  import opened Transaction
  import opened Sighash
  import opened AccountLock
  import State = StateCodec
  import Wit = WitnessCodec

  /** The context a run authorizes, read off the transaction and the prepared task. */
  function ContextOf(tx: Transaction, script: Bytes, t: Task): Context
    requires Covered(tx, Group(tx, script)).Some?
  {
    Context(t.operation, t.accountId, t.state.sequence, t.resolved.current, tx.hash,
            Covered(tx, Group(tx, script)).value)
  }

  lemma PreparedDigest(h: Hashes, tx: Transaction, script: Bytes, t: Task)
    requires Prepare(h, tx, script) == Some(t)
    ensures Covered(tx, Group(tx, script)).Some?
    ensures AllSized(ContextOf(tx, script, t).covered)
    ensures t.digest == ContextDigest(h, ContextOf(tx, script, t))
  {
    hide AccountOf;
    hide Group;
    hide GroupWitness;
    hide WitnessLock;
    hide Covered;
    hide Stream;
    hide Resolve;
    hide ValidateTransition;
    hide Wit.ParseHeader;
    hide State.DecodedState;
    CoveredAreSized(tx, Group(tx, script));
  }

  /**
   * Two runs that compute one digest authorize one operation on one account at one sequence and one
   * state, in one transaction, over one canonical first witness and one list of other covered
   * witnesses; or two different byte strings with one hash can be read off the two runs.
   */
  lemma EqualDigestsBindRuns(h: Hashes, tx1: Transaction, script1: Bytes, t1: Task,
                             tx2: Transaction, script2: Bytes, t2: Task)
    requires Prepare(h, tx1, script1) == Some(t1) && Prepare(h, tx2, script2) == Some(t2)
    requires t1.digest == t2.digest
    ensures Covered(tx1, Group(tx1, script1)).Some? && Covered(tx2, Group(tx2, script2)).Some?
    ensures var c1, c2 := ContextOf(tx1, script1, t1), ContextOf(tx2, script2, t2);
            && AllSized(c1.covered) && AllSized(c2.covered)
            && (|| c1 == c2
                || Collide(h, ContextPreimage(h, c1), ContextPreimage(h, c2))
                || Collide(h, c1.state, c2.state)
                || Collide(h, Stream(c1.txHash, c1.covered), Stream(c2.txHash, c2.covered)))
  {
    hide Prepare;
    hide Covered;
    hide Group;
    hide Stream;
    hide DigestPreimage;
    PreparedDigest(h, tx1, script1, t1);
    PreparedDigest(h, tx2, script2, t2);
    DigestBindsContext(h, ContextOf(tx1, script1, t1), ContextOf(tx2, script2, t2));
  }

  // ----- Sealing -----

  /** The transaction with one witness replaced; its hash does not cover witnesses. */
  function WithWitness(tx: Transaction, at: nat, sealed: Bytes): Transaction
    requires at < |tx.witnesses|
  {
    tx.(witnesses := tx.witnesses[at := sealed])
  }

  lemma {:induction false} WitnessesElsewhere(tx: Transaction, indices: seq<nat>, at: nat, sealed: Bytes)
    requires at < |tx.witnesses| && at !in indices
    ensures WitnessesAt(WithWitness(tx, at, sealed), indices) == WitnessesAt(tx, indices)
  {
    if indices != [] {
      WitnessesElsewhere(tx, indices[1..], at, sealed);
    }
  }

  /**
   * Sign, then seal: replacing nothing but the lock field of the first group witness changes nothing
   * the digest covers, whatever either lock field holds.
   */
  lemma SealingKeepsCovered(tx: Transaction, group: seq<nat>, before: Fields, after: Fields)
    requires group != [] && Ascending(group) && forall i | i in group :: i < |tx.inputs|
    requires group[0] < |tx.witnesses|
    requires TableSize(before) <= MAX_WITNESS && TableSize(after) <= MAX_WITNESS
    requires tx.witnesses[group[0]] == PackTable3(before)
    requires before.second == after.second && before.third == after.third
    ensures Covered(WithWitness(tx, group[0], PackTable3(after)), group) == Covered(tx, group)
  {
    hide PackTable3;
    hide CanonicalWitness;
    var sealed := WithWitness(tx, group[0], PackTable3(after));
    CanonicalIgnoresLock(before, after);
    assert group[0] !in group[1..];
    WitnessesElsewhere(tx, group[1..], group[0], PackTable3(after));
    assert group[0] in group;
    assert ExtraWitnesses(sealed) == ExtraWitnesses(tx);
  }

  // ----- The exact extent -----

  function WitnessAt(tx: Transaction, i: nat): Option<Bytes> {
    if i < |tx.witnesses| then Some(tx.witnesses[i]) else None
  }

  /** The first group witness as a table; there is one wherever something is covered. */
  function FirstFields(tx: Transaction, group: seq<nat>): Fields
    requires Covered(tx, group).Some?
  {
    CanonicalNeedsTable(GroupWitness(tx, group, 0).value);
    Table3Fields(GroupWitness(tx, group, 0).value).value
  }

  /** The same first group witness but for its lock, and the same witness, or none, at every other index of the
      group and past the inputs. */
  ghost predicate AgreeOnCovered(tx1: Transaction, tx2: Transaction, group: seq<nat>)
    requires group != [] && Covered(tx1, group).Some? && Covered(tx2, group).Some?
  {
    && FirstFields(tx1, group).second == FirstFields(tx2, group).second
    && FirstFields(tx1, group).third == FirstFields(tx2, group).third
    && forall i | i in group[1..] || i >= |tx1.inputs| :: WitnessAt(tx1, i) == WitnessAt(tx2, i)
  }

  lemma {:induction false} SameWitnesses(tx1: Transaction, tx2: Transaction, indices: seq<nat>)
    requires Ascending(indices)
    ensures WitnessesAt(tx1, indices) == WitnessesAt(tx2, indices) <==>
            forall i | i in indices :: WitnessAt(tx1, i) == WitnessAt(tx2, i)
  {
    if indices != [] {
      var i, rest := indices[0], indices[1..];
      assert indices == [i] + rest && i in indices;
      SameWitnesses(tx1, tx2, rest);
      if WitnessAt(tx1, i).None? {
        NoneBeyond(tx1, indices);
      }
      if WitnessAt(tx2, i).None? {
        NoneBeyond(tx2, indices);
      }
      assert forall w, ws: seq<Bytes> :: ([w] + ws)[1..] == ws && ([w] + ws)[0] == w;
    }
  }

  lemma SameExtras(tx1: Transaction, tx2: Transaction)
    requires |tx1.inputs| == |tx2.inputs|
    ensures ExtraWitnesses(tx1) == ExtraWitnesses(tx2) <==>
            forall i: nat | i >= |tx1.inputs| :: WitnessAt(tx1, i) == WitnessAt(tx2, i)
  {
    var n, x, y := |tx1.inputs|, ExtraWitnesses(tx1), ExtraWitnesses(tx2);
    if x == y {
      forall i: nat | i >= n ensures WitnessAt(tx1, i) == WitnessAt(tx2, i) {
        assert i < |tx1.witnesses| ==> tx1.witnesses[i] == x[i - n];
        assert i < |tx2.witnesses| ==> tx2.witnesses[i] == y[i - n];
      }
    }
    if forall i: nat | i >= n :: WitnessAt(tx1, i) == WitnessAt(tx2, i) {
      assert WitnessAt(tx1, n + |x|) == WitnessAt(tx2, n + |x|) && WitnessAt(tx1, n + |y|) == WitnessAt(tx2, n + |y|);
      forall k | 0 <= k < |x| && k < |y| ensures x[k] == y[k] {
        assert WitnessAt(tx1, n + k) == WitnessAt(tx2, n + k);
      }
    }
  }

  /** Witnesses past the inputs exist only when every input has its witness. */
  lemma {:induction false} ExtrasNeedAll(tx: Transaction, indices: seq<nat>)
    requires forall i | i in indices :: i < |tx.inputs|
    ensures |WitnessesAt(tx, indices)| <= |indices|
    ensures ExtraWitnesses(tx) != [] ==> |WitnessesAt(tx, indices)| == |indices|
  {
    if indices != [] {
      assert indices[0] in indices;
      forall i | i in indices[1..] ensures i < |tx.inputs| {
        assert i in indices;
      }
      ExtrasNeedAll(tx, indices[1..]);
    }
  }

  /** So although the stream does not mark where the group ends, the two lists can be told apart. */
  lemma ListsAreSeparate(tx1: Transaction, tx2: Transaction, indices: seq<nat>)
    requires |tx1.inputs| == |tx2.inputs| && forall i | i in indices :: i < |tx1.inputs|
    requires WitnessesAt(tx1, indices) + ExtraWitnesses(tx1) == WitnessesAt(tx2, indices) + ExtraWitnesses(tx2)
    ensures WitnessesAt(tx1, indices) == WitnessesAt(tx2, indices) && ExtraWitnesses(tx1) == ExtraWitnesses(tx2)
  {
    hide WitnessesAt;
    hide ExtraWitnesses;
    ExtrasNeedAll(tx1, indices);
    ExtrasNeedAll(tx2, indices);
    var r1, x1 := WitnessesAt(tx1, indices), ExtraWitnesses(tx1);
    var r2, x2 := WitnessesAt(tx2, indices), ExtraWitnesses(tx2);
    assert |r1| + |x1| == |r1 + x1| == |r2 + x2| == |r2| + |x2|;
    assert |r1| == |r2|;
    assert r1 == (r1 + x1)[..|r1|] && r2 == (r2 + x2)[..|r2|];
    assert x1 == (r1 + x1)[|r1|..] && x2 == (r2 + x2)[|r2|..];
  }

  /** Two canonical forms are equal exactly when the tables differ in nothing but the lock field. */
  lemma SameCanonical(x: Bytes, y: Bytes)
    requires |x| <= MAX_WITNESS && |y| <= MAX_WITNESS && Table3Fields(x).Some? && Table3Fields(y).Some?
    ensures CanonicalWitness(x) == CanonicalWitness(y) <==>
            && Table3Fields(x).value.second == Table3Fields(y).value.second
            && Table3Fields(x).value.third == Table3Fields(y).value.third
  {
    hide PackTable3;
    hide CanonicalWitness;
    hide Table3Fields;
    var f, g := Table3Fields(x).value, Table3Fields(y).value;
    CanonicalIsEmptyLock(x, f);
    CanonicalIsEmptyLock(y, g);
    var f', g' := f.(first := PackBytes([])), g.(first := PackBytes([]));
    assert TableSize(f') <= U32_MAX && TableSize(g') <= U32_MAX by {
      TableFits(x, f);
      TableFits(y, g);
    }
    Table3IsPacked(PackTable3(f'), f');
    Table3IsPacked(PackTable3(g'), g');
  }

  lemma TableFits(x: Bytes, f: Fields)
    requires |x| <= MAX_WITNESS && Table3Fields(x) == Some(f)
    ensures TableSize(f.(first := PackBytes([]))) <= U32_MAX
  {
    hide PackTable3;
    hide Table3Fields;
    Table3IsPacked(x, f);
    assert |PackBytes([])| == 4;
  }

  lemma CoveredParts(tx: Transaction, group: seq<nat>)
    requires Covered(tx, group).Some?
    ensures var first := GroupWitness(tx, group, 0);
            && group != [] && first.Some? && |first.value| <= MAX_WITNESS
            && CanonicalWitness(first.value).Some? && Table3Fields(first.value) == Some(FirstFields(tx, group))
            && Covered(tx, group).value[0] == CanonicalWitness(first.value).value
            && Covered(tx, group).value[1..] == WitnessesAt(tx, group[1..]) + ExtraWitnesses(tx)
            && |Covered(tx, group).value| > 0
  {
    hide CanonicalWitness;
    hide WitnessesAt;
    hide ExtraWitnesses;
    hide Table3Fields;
    CanonicalNeedsTable(GroupWitness(tx, group, 0).value);
  }

  /**
   * For two transactions with the same inputs the digest covers the same list exactly when they agree on the
   * first group witness but for its lock, on the rest of the group and on what lies past the inputs; and
   * with the same hash, it hashes the same stream exactly then.
   */
  lemma CoversExactly(tx1: Transaction, tx2: Transaction, script: Bytes)
    requires tx1.inputs == tx2.inputs
    requires Covered(tx1, Group(tx1, script)).Some? && Covered(tx2, Group(tx1, script)).Some?
    ensures Group(tx1, script) == Group(tx2, script) != []
    ensures var g := Group(tx1, script);
            && (Covered(tx1, g) == Covered(tx2, g) <==> AgreeOnCovered(tx1, tx2, g))
            && (tx1.hash == tx2.hash ==> (GroupStream(tx1, g) == GroupStream(tx2, g) <==> AgreeOnCovered(tx1, tx2, g)))
  {
    hide Covered;
    hide GroupFrom;
    hide FirstFields;
    hide WitnessesAt;
    hide ExtraWitnesses;
    hide CanonicalWitness;
    hide Table3Fields;
    hide Stream;
    var g := Group(tx1, script);
    var c1, c2 := Covered(tx1, g).value, Covered(tx2, g).value;
    CoveredParts(tx1, g);
    CoveredParts(tx2, g);
    GroupIsAscending(tx1.inputs, script, 0);
    forall i | i in g ensures i < |tx1.inputs| {
      GroupMembers(tx1.inputs, script, 0, i);
    }
    assert forall i | i in g[1..] :: i in g;
    SameCanonical(GroupWitness(tx1, g, 0).value, GroupWitness(tx2, g, 0).value);
    SameWitnesses(tx1, tx2, g[1..]);
    SameExtras(tx1, tx2);
    assert c1 == [c1[0]] + c1[1..] && c2 == [c2[0]] + c2[1..];
    if c1 == c2 {
      ListsAreSeparate(tx1, tx2, g[1..]);
    }
    CoveredAreSized(tx1, g);
    CoveredAreSized(tx2, g);
    if tx1.hash == tx2.hash && GroupStream(tx1, g) == GroupStream(tx2, g) {
      StreamIsInjective(tx1.hash, c1, tx2.hash, c2);
    }
  }

  /** In particular the digest does not cover the witness of an input that another script locks. */
  lemma OtherGroupIsFree(tx: Transaction, script: Bytes, at: nat, other: Bytes)
    requires at < |tx.inputs| && at < |tx.witnesses| && tx.inputs[at].cell.lock != script
    ensures var g := Group(tx, script);
            Covered(WithWitness(tx, at, other), g) == Covered(tx, g)
  {
    hide CanonicalWitness;
    hide GroupFrom;
    var g := Group(tx, script);
    GroupMembers(tx.inputs, script, 0, at);
    assert g != [] ==> g[0] in g && forall i | i in g[1..] :: i in g;
    if g != [] {
      WitnessesElsewhere(tx, g[1..], at, other);
    }
    assert ExtraWitnesses(WithWitness(tx, at, other)) == ExtraWitnesses(tx);
  }
}
