/** The group sighash and the authorization digest, as the lock and as the host compute them. */
module Sighash {
  import opened Bytes
  import opened Protocol
  import opened Molecule
  import opened Transaction

  const MAX_WITNESS: nat := WITNESS_MAX_LOCK_LEN + 1024

  // ----- The hashed stream -----

  predicate AllSized(ws: seq<Bytes>) {
    forall w | w in ws :: |w| <= U64_MAX
  }

  function Prefixed(w: Bytes): Bytes
    requires |w| <= U64_MAX
  {
    U64Le(|w|) + w
  }

  function PrefixedAll(ws: seq<Bytes>): Bytes
    requires AllSized(ws)
  {
    if ws == [] then [] else Prefixed(ws[0]) + PrefixedAll(ws[1..])
  }

  /** The bytes hashed for a transaction hash and a list of covered witnesses. */
  function Stream(txHash: Digest, covered: seq<Bytes>): Bytes
    requires AllSized(covered)
  {
    txHash + PrefixedAll(covered)
  }

  lemma {:induction false} PrefixedAllAppend(ws: seq<Bytes>, w: Bytes)
    requires AllSized(ws) && |w| <= U64_MAX
    ensures AllSized(ws + [w]) && PrefixedAll(ws + [w]) == PrefixedAll(ws) + Prefixed(w)
  {
    hide Prefixed;
    assert forall x | x in ws + [w] :: x in ws || x == w;
    if ws == [] {
      assert ws + [w] == [w];
    } else {
      assert (ws + [w])[1..] == ws[1..] + [w];
      PrefixedAllAppend(ws[1..], w);
    }
  }

  /** The stream determines the transaction hash and the whole ordered list of covered witnesses. */
  lemma StreamIsInjective(h1: Digest, ws1: seq<Bytes>, h2: Digest, ws2: seq<Bytes>)
    requires AllSized(ws1) && AllSized(ws2) && Stream(h1, ws1) == Stream(h2, ws2)
    ensures h1 == h2 && ws1 == ws2
  {
    assert Stream(h1, ws1)[..32] == h1 && Stream(h2, ws2)[..32] == h2;
    assert Stream(h1, ws1)[32..] == PrefixedAll(ws1) && Stream(h2, ws2)[32..] == PrefixedAll(ws2);
    PrefixedAllIsInjective(ws1, ws2);
  }

  lemma {:induction false} PrefixedAllIsInjective(ws1: seq<Bytes>, ws2: seq<Bytes>)
    requires AllSized(ws1) && AllSized(ws2) && PrefixedAll(ws1) == PrefixedAll(ws2)
    ensures ws1 == ws2
  {
    hide Le;
    hide FromLe;
    if ws1 != [] && ws2 != [] {
      var x, v, w := PrefixedAll(ws1), ws1[0], ws2[0];
      assert x[0..8] == U64Le(|v|) && x[0..8] == U64Le(|w|);
      assert |v| == |w|;
      var n := 8 + |v|;
      assert x[8..n] == v && x[8..n] == w;
      assert x[n..] == PrefixedAll(ws1[1..]) && x[n..] == PrefixedAll(ws2[1..]);
      PrefixedAllIsInjective(ws1[1..], ws2[1..]);
      assert ws1 == [v] + ws1[1..] && ws2 == [w] + ws2[1..];
    }
  }

  // ----- The lock -----

  /** The witnesses that exist at the given input indices. */
  function WitnessesAt(tx: Transaction, indices: seq<nat>): seq<Bytes> {
    if indices == [] then []
    else (if indices[0] < |tx.witnesses| then [tx.witnesses[indices[0]]] else []) + WitnessesAt(tx, indices[1..])
  }

  /** The witnesses past the inputs. */
  function ExtraWitnesses(tx: Transaction): seq<Bytes> {
    if |tx.inputs| <= |tx.witnesses| then tx.witnesses[|tx.inputs|..] else []
  }

  /** The `k`-th witness of the group, or none when the index is out of bounds. */
  function GroupWitness(tx: Transaction, group: seq<nat>, k: nat): Option<Bytes> {
    if k < |group| && group[k] < |tx.witnesses| then Some(tx.witnesses[group[k]]) else None
  }

  predicate AllCapped(ws: seq<Bytes>) {
    forall w | w in ws :: |w| <= MAX_WITNESS
  }

  /** Everything the sighash covers: the canonical first witness, then the rest of the group, then the extras. */
  function Covered(tx: Transaction, group: seq<nat>): Option<seq<Bytes>> {
    var first :- GroupWitness(tx, group, 0);
    var canonical :- CanonicalWitness(first);
    var others := WitnessesAt(tx, group[1..]) + ExtraWitnesses(tx);
    if |first| <= MAX_WITNESS && AllCapped(others) then Some([canonical] + others) else None
  }

  lemma CoveredAreSized(tx: Transaction, group: seq<nat>)
    requires Covered(tx, group).Some?
    ensures AllSized(Covered(tx, group).value)
  {
    hide CanonicalWitness;
    CanonicalNeedsTable(GroupWitness(tx, group, 0).value);
  }

  function GroupStream(tx: Transaction, group: seq<nat>): Option<Bytes> {
    var covered :- Covered(tx, group);
    CoveredAreSized(tx, group);
    Some(Stream(tx.hash, covered))
  }

  lemma {:induction false} WitnessesAtConcat(tx: Transaction, a: seq<nat>, b: seq<nat>)
    ensures WitnessesAt(tx, a + b) == WitnessesAt(tx, a) + WitnessesAt(tx, b)
  {
    if a == [] {
      assert a + b == b;
    } else {
      assert (a + b)[1..] == a[1..] + b;
      WitnessesAtConcat(tx, a[1..], b);
    }
  }

  lemma {:induction false} PrefixedAllConcat(a: seq<Bytes>, b: seq<Bytes>)
    requires AllSized(a) && AllSized(b)
    ensures AllSized(a + b) && PrefixedAll(a + b) == PrefixedAll(a) + PrefixedAll(b)
  {
    hide Prefixed;
    if a == [] {
      assert a + b == b;
    } else {
      assert (a + b)[1..] == a[1..] + b;
      PrefixedAllConcat(a[1..], b);
    }
  }

  /** The stream, in the order the loops feed it. */
  lemma StreamSplits(txHash: Digest, canonical: Bytes, rest: seq<Bytes>, extras: seq<Bytes>)
    requires |canonical| <= U64_MAX && AllSized(rest) && AllSized(extras)
    ensures AllSized([canonical] + (rest + extras))
    ensures Stream(txHash, [canonical] + (rest + extras)) ==
            txHash + Prefixed(canonical) + PrefixedAll(rest) + PrefixedAll(extras)
  {
    hide Prefixed;
    hide PrefixedAll;
    PrefixedAllConcat(rest, extras);
    PrefixedAllCons(canonical, rest + extras);
    Reassociate(txHash, Prefixed(canonical), PrefixedAll(rest), PrefixedAll(extras));
  }

  lemma PrefixedAllCons(w: Bytes, ws: seq<Bytes>)
    requires |w| <= U64_MAX && AllSized(ws)
    ensures AllSized([w] + ws) && PrefixedAll([w] + ws) == Prefixed(w) + PrefixedAll(ws)
  {
    hide Prefixed;
    assert ([w] + ws)[1..] == ws;
  }

  lemma Reassociate(a: Bytes, b: Bytes, c: Bytes, d: Bytes)
    ensures a + (b + (c + d)) == a + b + c + d
  {
  }

  /** Past an index without a witness no later, larger index has one. */
  lemma {:induction false} NoneBeyond(tx: Transaction, indices: seq<nat>)
    requires Ascending(indices)
    requires indices != [] ==> indices[0] >= |tx.witnesses|
    ensures WitnessesAt(tx, indices) == []
  {
    if indices != [] {
      NoneBeyond(tx, indices[1..]);
    }
  }

  /** What one turn of the group loop adds, or that nothing is left. */
  lemma GroupLoopTurn(tx: Transaction, group: seq<nat>, index: nat)
    requires Ascending(group) && 1 <= index <= |group|
    ensures match GroupWitness(tx, group, index)
            case None => WitnessesAt(tx, group[1..]) == WitnessesAt(tx, group[1..index])
            case Some(w) => && WitnessesAt(tx, group[1..index + 1]) == WitnessesAt(tx, group[1..index]) + [w]
                            && w in WitnessesAt(tx, group[1..])
  {
    assert group[1..] == group[1..index] + group[index..];
    WitnessesAtConcat(tx, group[1..index], group[index..]);
    if GroupWitness(tx, group, index).None? {
      NoneBeyond(tx, group[index..]);
    } else {
      assert group[1..index + 1] == group[1..index] + [group[index]];
      WitnessesAtConcat(tx, group[1..index], [group[index]]);
      assert WitnessesAt(tx, group[index..])[0] == tx.witnesses[group[index]];
    }
  }

  /** The first loop of the lock's sighash: the group's witnesses from the second on. */
  method HashGroupRest(tx: Transaction, group: seq<nat>, start: Bytes) returns (r: Option<Bytes>)
    requires group != [] && Ascending(group)
    ensures var rest := WitnessesAt(tx, group[1..]);
            r == if AllCapped(rest) then Some(start + PrefixedAll(rest)) else None
  {
    hide Prefixed;
    hide WitnessesAt;
    var hashed, index := start, 1;
    ghost var done: seq<Bytes> := [];
    assert done == WitnessesAt(tx, group[1..1]) by { NoWitnesses(tx, group[1..1]); }
    while true
      invariant 1 <= index <= |group|
      invariant done == WitnessesAt(tx, group[1..index]) && AllCapped(done)
      invariant hashed == start + PrefixedAll(done)
      decreases |group| - index
    {
      GroupLoopTurn(tx, group, index);
      var next := GroupWitness(tx, group, index);
      if next.None? {
        break;
      }
      if |next.value| > MAX_WITNESS {
        return None;
      }
      PrefixedAllAppend(done, next.value);
      hashed := hashed + Prefixed(next.value);
      done, index := done + [next.value], index + 1;
    }
    return Some(hashed);
  }

  lemma NoWitnesses(tx: Transaction, indices: seq<nat>)
    requires indices == []
    ensures WitnessesAt(tx, indices) == []
  {
  }

  /** The second loop: the witnesses past the inputs. */
  method HashExtras(tx: Transaction, start: Bytes) returns (r: Option<Bytes>)
    ensures var extras := ExtraWitnesses(tx);
            r == if AllCapped(extras) then Some(start + PrefixedAll(extras)) else None
  {
    hide Prefixed;
    var hashed, index := start, |tx.inputs|;
    ghost var extras, done: seq<Bytes> := ExtraWitnesses(tx), [];
    while index < |tx.witnesses|
      invariant |tx.inputs| <= |tx.witnesses| ==> index <= |tx.witnesses|
      invariant index == |tx.inputs| + |done| && done <= extras
      invariant AllCapped(done) && hashed == start + PrefixedAll(done)
    {
      var next := tx.witnesses[index];
      assert extras[|done|] == next;
      if |next| > MAX_WITNESS {
        return None;
      }
      PrefixedAllAppend(done, next);
      hashed := hashed + Prefixed(next);
      done, index := done + [next], index + 1;
    }
    assert done == extras;
    return Some(hashed);
  }

  /**
   * The lock's `canonical_group_sighash`. Each loop stops at the first index out of bounds; because
   * group indices ascend, no covered witness lies beyond that point.
   */
  method CanonicalGroupSighash(h: Hashes, tx: Transaction, group: seq<nat>) returns (r: Option<Digest>)
    requires Ascending(group)
    ensures r == match GroupStream(tx, group) case None => None case Some(stream) => Some(h.ckb(stream))
  {
    hide Prefixed;
    hide PrefixedAll;
    hide CanonicalWitness;
    hide WitnessesAt;
    hide ExtraWitnesses;
    var first :- GroupWitness(tx, group, 0);
    if |first| > MAX_WITNESS {
      return None;
    }
    var canonical :- CanonicalWitness(first);
    CanonicalNeedsTable(first);
    ghost var rest, extras := WitnessesAt(tx, group[1..]), ExtraWitnesses(tx);
    assert AllCapped(rest + extras) <==> AllCapped(rest) && AllCapped(extras);
    var hashed := tx.hash;
    hashed := hashed + Prefixed(canonical);
    var groupHashed := HashGroupRest(tx, group, hashed);
    hashed :- groupHashed;
    var allHashed := HashExtras(tx, hashed);
    hashed :- allHashed;
    StreamSplits(tx.hash, canonical, rest, extras);
    return Some(h.ckb(hashed));
  }

  // ----- The host -----

  /** The bytes the host hashes: it reads the first witness strictly and knows no size cap. */
  function HostStream(txHash: Digest, groupWitnesses: seq<Bytes>, extraWitnesses: seq<Bytes>): Option<Bytes> {
    if groupWitnesses == [] then None
    else
      var args :- UnpackWitnessArgs(groupWitnesses[0]);
      var others := groupWitnesses[1..] + extraWitnesses;
      if WitnessArgsSize(args.(lock := Some([]))) <= U32_MAX && AllSized(others) then
        var canonical := PackWitnessArgs(args.(lock := Some([])));
        Some(Stream(txHash, [canonical] + others))
      else None
  }

  /**
   * On every Molecule-valid first witness, group and extra witness list within the cap, the lock's
   * stream is the host's, byte for byte.
   */
  lemma LockStreamIsHostStream(tx: Transaction, group: seq<nat>, args: WitnessArgs)
    requires Ascending(group) && GroupWitness(tx, group, 0).Some?
    requires UnpackWitnessArgs(GroupWitness(tx, group, 0).value) == Some(args)
    requires AllCapped(WitnessesAt(tx, group)) && AllCapped(ExtraWitnesses(tx))
    ensures GroupStream(tx, group) == HostStream(tx.hash, WitnessesAt(tx, group), ExtraWitnesses(tx)) != None
  {
    hide CanonicalWitness;
    hide PackWitnessArgs;
    hide UnpackWitnessArgs;
    var first := GroupWitness(tx, group, 0).value;
    var all := WitnessesAt(tx, group);
    assert all == [first] + WitnessesAt(tx, group[1..]);
    assert first in all;
    WitnessArgsArePacked(first, args);
    CanonicalAgrees(args);
    assert all[1..] == WitnessesAt(tx, group[1..]);
    assert forall w | w in all[1..] :: w in all;
  }

  /** The host's `group_sighash`. */
  method GroupSighash(h: Hashes, txHash: Digest, groupWitnesses: seq<Bytes>, extraWitnesses: seq<Bytes>)
    returns (r: Option<Digest>)
    ensures r == match HostStream(txHash, groupWitnesses, extraWitnesses)
                 case None => None
                 case Some(stream) => Some(h.ckb(stream))
  {
    hide Prefixed;
    hide PrefixedAll;
    hide UnpackWitnessArgs;
    hide PackWitnessArgs;
    if groupWitnesses == [] {
      return None;
    }
    var args :- UnpackWitnessArgs(groupWitnesses[0]);
    var sealed := args.(lock := Some([]));
    if WitnessArgsSize(sealed) > U32_MAX {
      return None;
    }
    var canonical := PackWitnessArgs(sealed);
    ghost var rest := groupWitnesses[1..];
    assert AllSized(rest + extraWitnesses) <==> AllSized(rest) && AllSized(extraWitnesses);
    var hashed := txHash + Prefixed(canonical);
    var groupHashed := HashAll(groupWitnesses[1..], hashed);
    hashed :- groupHashed;
    var allHashed := HashAll(extraWitnesses, hashed);
    hashed :- allHashed;
    StreamSplits(txHash, canonical, rest, extraWitnesses);
    return Some(h.ckb(hashed));
  }

  /** The host's two loops over witness slices. */
  method HashAll(ws: seq<Bytes>, start: Bytes) returns (r: Option<Bytes>)
    ensures r == if AllSized(ws) then Some(start + PrefixedAll(ws)) else None
  {
    hide Prefixed;
    var hashed := start;
    for i := 0 to |ws|
      invariant AllSized(ws[..i])
      invariant hashed == start + PrefixedAll(ws[..i])
    {
      if |ws[i]| > U64_MAX {
        return None;
      }
      PrefixedAllAppend(ws[..i], ws[i]);
      assert ws[..i + 1] == ws[..i] + [ws[i]];
      hashed := hashed + Prefixed(ws[i]);
    }
    assert ws[..|ws|] == ws;
    return Some(hashed);
  }

  // ----- The authorization digest -----

  /** What a signature is meant to commit to. `covered` starts with the canonical first witness. */
  datatype Context = Context(
    operation: Byte,
    accountId: Digest,
    sequence: U64,
    state: Bytes,
    txHash: Digest,
    covered: seq<Bytes>)

  function DigestPreimage(operation: Byte, accountId: Digest, sequence: U64, stateHash: Digest, sighash: Digest)
    : Bytes
  {
    AUTH_DOMAIN + [operation] + accountId + U64Le(sequence) + stateHash + sighash
  }

  function AuthorizationDigest(h: Hashes, operation: Byte, accountId: Digest, sequence: U64, state: Bytes,
                               sighash: Digest): Digest
  {
    h.ckb(DigestPreimage(operation, accountId, sequence, h.ckb(state), sighash))
  }

  function ContextPreimage(h: Hashes, c: Context): Bytes
    requires AllSized(c.covered)
  {
    DigestPreimage(c.operation, c.accountId, c.sequence, h.ckb(c.state), h.ckb(Stream(c.txHash, c.covered)))
  }

  function ContextDigest(h: Hashes, c: Context): Digest
    requires AllSized(c.covered)
  {
    h.ckb(ContextPreimage(h, c))
  }

  predicate Collide(h: Hashes, x: Bytes, y: Bytes) {
    x != y && h.ckb(x) == h.ckb(y)
  }

  lemma PreimageIsInjective(o1: Byte, a1: Digest, q1: U64, s1: Digest, g1: Digest,
                            o2: Byte, a2: Digest, q2: U64, s2: Digest, g2: Digest)
    requires DigestPreimage(o1, a1, q1, s1, g1) == DigestPreimage(o2, a2, q2, s2, g2)
    ensures o1 == o2 && a1 == a2 && q1 == q2 && s1 == s2 && g1 == g2
  {
    hide Le;
    hide FromLe;
    var x, y := DigestPreimage(o1, a1, q1, s1, g1), DigestPreimage(o2, a2, q2, s2, g2);
    assert x[19] == o1 && y[19] == o2;
    assert x[20..52] == a1 && y[20..52] == a2;
    assert x[52..60] == U64Le(q1) && y[52..60] == U64Le(q2);
    assert x[60..92] == s1 && y[60..92] == s2;
    assert x[92..] == g1 && y[92..] == g2;
  }

  /**
   * The digest binds its whole context: if two contexts have one digest they are the same context,
   * or two different byte strings with one hash can be read off them.
   */
  lemma DigestBindsContext(h: Hashes, c1: Context, c2: Context)
    requires AllSized(c1.covered) && AllSized(c2.covered)
    requires ContextDigest(h, c1) == ContextDigest(h, c2)
    ensures || c1 == c2
            || Collide(h, ContextPreimage(h, c1), ContextPreimage(h, c2))
            || Collide(h, c1.state, c2.state)
            || Collide(h, Stream(c1.txHash, c1.covered), Stream(c2.txHash, c2.covered))
  {
    hide DigestPreimage;
    hide Stream;
    var g1, g2 := Stream(c1.txHash, c1.covered), Stream(c2.txHash, c2.covered);
    if ContextPreimage(h, c1) == ContextPreimage(h, c2) {
      PreimageIsInjective(c1.operation, c1.accountId, c1.sequence, h.ckb(c1.state), h.ckb(g1),
                          c2.operation, c2.accountId, c2.sequence, h.ckb(c2.state), h.ckb(g2));
      if g1 == g2 {
        StreamIsInjective(c1.txHash, c1.covered, c2.txHash, c2.covered);
      }
    }
  }
}
