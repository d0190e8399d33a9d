/** Building a spend in the frontend: prepare over a placeholder, sign, seal; and what the lock makes of the result. */
module Spend {
  import opened Bytes
  import opened Protocol
  import opened JsBytes
  import opened LiveState
  import opened Molecule
  import opened ProofCodec
  import opened Transaction
  import opened Sighash
  import opened AccountLock
  import Acceptance
  import Binding
  import Frontend
  import Policy
  import Req = RequestCodec
  import State = StateCodec
  import Wit = WitnessCodec

  const SHANNONS_PER_CKB: nat := 100_000_000
  const TRANSFER_CAPACITY: nat := 100 * SHANNONS_PER_CKB

  const MAX_AUTHENTICATOR_DATA: nat := 1024
  const MAX_CLIENT_DATA: nat := 2048
  const MAX_DER_SIGNATURE: nat := 72
  const MIN_DER_SIGNATURE: nat := 8

  // "http://localhost:5173"
  function ClientOrigin(): (b: Bytes)
    ensures |b| == 21
  {
    [0x68, 0x74, 0x74, 0x70, 0x3a, 0x2f, 0x2f, 0x6c, 0x6f, 0x63, 0x61, 0x6c, 0x68, 0x6f, 0x73, 0x74,
     0x3a, 0x35, 0x31, 0x37, 0x33]
  }

  // ----- The frontend's view of a transaction -----

  datatype Output = Output(capacity: nat, lock: Bytes)

  /** All that the transaction hash covers. */
  datatype Raw = Raw(deps: seq<Cell>, inputs: seq<Input>, outputs: seq<Output>)

  /** What the frontend takes from libraries; nothing is assumed about any of it. `authorizes` is the
      reading of client data by a general JSON parser. */
  datatype Library = Library(
    hashes: Hashes,
    rawHash: Raw -> Digest,
    estimateFee: (Raw, seq<Bytes>) -> nat,
    occupiedSize: Output -> nat,
    authorizes: (Digest, Bytes) -> bool)

  class SpendTransaction {
    var deps: seq<Cell>
    var inputs: seq<Input>
    var outputs: seq<Output>
    var witnesses: seq<Bytes>

    constructor (raw: Raw, witnesses: seq<Bytes>)
      ensures RawFields() == raw && this.witnesses == witnesses
    {
      this.deps, this.inputs, this.outputs, this.witnesses := raw.deps, raw.inputs, raw.outputs, witnesses;
    }

    function RawFields(): Raw
      reads this
    {
      Raw(deps, inputs, outputs)
    }
  }

  /** The transaction as the chain runs it: output capacities are no business of the lock. */
  function OnChain(lib: Library, raw: Raw, witnesses: seq<Bytes>): Transaction {
    Transaction(lib.rawHash(raw), raw.inputs,
                seq(|raw.outputs|, i requires 0 <= i < |raw.outputs| => Cell(raw.outputs[i].lock, None, [])),
                raw.deps, witnesses)
  }

  // ----- The account and its live cells -----

  /** The verified account: its scripts, code cells and live-state profile, and the out points in its manifest. */
  datatype Account = Account(lock: Bytes, stateType: Bytes, accountId: Digest, lockCode: Cell, verifierCode: Cell,
                             expected: Expected, stateOutPoint: OutPoint, assetOutPoint: OutPoint)

  datatype LiveCell = LiveCell(outPoint: OutPoint, cell: Cell, capacity: nat)

  /** The node: live cells by out point, and the indexer's answer to the scan for the account's lock. */
  datatype Client = Client(getLive: OutPoint -> Option<LiveCell>, found: seq<LiveCell>)

  datatype Passkey = Passkey(credentialId: string, publicKey: Bytes, keyId: Bytes)

  /** The state cell and the asset cell of an account, but for the state's data. */
  predicate IsLive(account: Account, state: Cell, asset: LiveCell) {
    && state.lock == account.lock && state.typeScript == Some(account.stateType)
    && asset.cell == Cell(account.lock, None, [])
  }

  /** `verifyStateCell`. */
  predicate IsStateCell(account: Account, c: LiveCell) {
    && c.outPoint == account.stateOutPoint
    && c.cell.lock == account.lock && c.cell.typeScript == Some(account.stateType)
    && ParseAccountState(c.cell.data, account.expected).Some?
  }

  /** What the scan demands of one cell it finds. */
  predicate IsExpected(account: Account, c: LiveCell) {
    && c.cell.lock == account.lock
    && if c.outPoint == account.stateOutPoint then IsStateCell(account, c)
       else c.cell.typeScript.None? && c.cell.data == []
  }

  /** The found cell at `k` is the only one besides the state cell. */
  predicate OnlyAsset(account: Account, found: seq<LiveCell>, k: nat) {
    && k < |found| && found[k].outPoint != account.stateOutPoint
    && forall j | 0 <= j < |found| && found[j].outPoint != account.stateOutPoint :: j == k
  }

  /** What discovery finds: the live state cell and the one asset cell, both as the manifest has them. */
  ghost predicate IsDiscovered(client: Client, account: Account, state: LiveCell, asset: LiveCell) {
    && client.getLive(account.stateOutPoint) == Some(state) && IsStateCell(account, state)
    && (forall c | c in client.found :: IsExpected(account, c))
    && (exists k: nat :: && OnlyAsset(account, client.found, k)
                         && client.found[k].outPoint == account.assetOutPoint
                         && client.found[k].capacity == asset.capacity)
    && client.getLive(account.assetOutPoint) == Some(asset)
    && asset.outPoint == account.assetOutPoint && asset.cell == Cell(account.lock, None, [])
  }

  lemma DiscoveredIsLive(client: Client, account: Account, state: LiveCell, asset: LiveCell)
    requires IsDiscovered(client, account, state, asset)
    ensures IsLive(account, state.cell, asset) && ParseAccountState(state.cell.data, account.expected).Some?
  {
    hide ParseAccountState;
  }

  /** The scan, which stops at a second asset: the index of the only one. */
  method ScanForAsset(account: Account, found: seq<LiveCell>) returns (r: Option<nat>)
    ensures forall k: nat :: r == Some(k) <==>
                             (forall c | c in found :: IsExpected(account, c)) && OnlyAsset(account, found, k)
  {
    hide ParseAccountState;
    var assets: seq<nat> := [];
    for i := 0 to |found|
      invariant |assets| <= 1
      invariant forall j | 0 <= j < i :: IsExpected(account, found[j])
      invariant forall j: nat :: j in assets <==> j < i && found[j].outPoint != account.stateOutPoint
    {
      assert found[i] in found;
      if !IsExpected(account, found[i]) {
        return None;
      }
      if found[i].outPoint == account.stateOutPoint {
        continue;
      }
      assets := assets + [i];
      if |assets| > 1 {
        assert assets[0] in assets[..1] && assets[0] < i;
        assert found[assets[0]].outPoint != account.stateOutPoint && found[i].outPoint != account.stateOutPoint;
        return None;
      }
    }
    if |assets| != 1 {
      forall k: nat ensures !OnlyAsset(account, found, k) {
        assert k < |found| && found[k].outPoint != account.stateOutPoint ==> k in assets;
      }
      return None;
    }
    var k := assets[0];
    assert k in assets;
    assert forall j | 0 <= j < |found| && found[j].outPoint != account.stateOutPoint :: j in assets;
    return Some(k);
  }

  method DiscoverAccountCells(client: Client, account: Account) returns (r: Option<(LiveCell, LiveCell)>)
    ensures forall state, asset :: r == Some((state, asset)) <==> IsDiscovered(client, account, state, asset)
  {
    hide ParseAccountState;
    hide IsExpected;
    hide IsStateCell;
    hide OnlyAsset;
    var state :- client.getLive(account.stateOutPoint);
    if !IsStateCell(account, state) {
      return None;
    }
    var scanned := ScanForAsset(account, client.found);
    if scanned.None? {
      return None;
    }
    assert OnlyAsset(account, client.found, scanned.value);
    AssetIsInFound(account, client.found, scanned.value);
    var asset := client.found[scanned.value];
    if asset.outPoint != account.assetOutPoint {
      return None;
    }
    var liveAsset :- client.getLive(account.assetOutPoint);
    if liveAsset.outPoint != account.assetOutPoint || liveAsset.cell.lock != account.lock
       || liveAsset.cell.typeScript != None || liveAsset.cell.data != [] || liveAsset.capacity != asset.capacity {
      return None;
    }
    return Some((state, liveAsset));
  }

  lemma AssetIsInFound(account: Account, found: seq<LiveCell>, k: nat)
    requires OnlyAsset(account, found, k)
    ensures k < |found|
  {
  }

  // ----- The sealed witness -----

  datatype Assertion = Assertion(credentialId: string, authenticatorData: Bytes, clientDataJson: Bytes,
                                 signature: Bytes)

  function SpendProof(publicKey: Bytes, a: Assertion): P256Proof {
    P256Proof(publicKey, ClientOrigin(), a.authenticatorData, a.clientDataJson, a.signature)
  }

  /** The account witness of a spend: one proof, for slot 0. */
  function SpendWitness(sequence: U64, proof: Bytes): Wit.AccountWitness {
    Wit.AccountWitness(OP_SPEND, sequence, [Wit.Proof(0, proof)])
  }

  predicate IsPublicKey(publicKey: Bytes) {
    |publicKey| == PUBLIC_KEY_LEN && publicKey[0] == 4
  }

  /** The lengths `finalizeSpend` lets pass; the placeholder has the largest of each. */
  predicate Bounded(a: Assertion) {
    && MIN_AUTHENTICATOR_DATA_LEN <= |a.authenticatorData| <= MAX_AUTHENTICATOR_DATA
    && 0 < |a.clientDataJson| <= MAX_CLIENT_DATA
    && MIN_DER_SIGNATURE <= |a.signature| <= MAX_DER_SIGNATURE
  }

  lemma BoundedProof(publicKey: Bytes, a: Assertion)
    requires IsPublicKey(publicKey) && Bounded(a)
    ensures ValidP256Proof(SpendProof(publicKey, a))
    ensures |P256ProofBytes(SpendProof(publicKey, a))| ==
            93 + |a.authenticatorData| + |a.clientDataJson| + |a.signature|
  {
  }

  /** The bytes of a bounded assertion's proof. */
  function ProofOf(publicKey: Bytes, a: Assertion): (b: Bytes)
    requires IsPublicKey(publicKey) && Bounded(a)
    ensures |b| == 93 + |a.authenticatorData| + |a.clientDataJson| + |a.signature|
  {
    BoundedProof(publicKey, a);
    P256ProofBytes(SpendProof(publicKey, a))
  }

  lemma SpendWitnessIsValid(sequence: U64, proof: Bytes)
    requires 0 < |proof| <= MAX_PROOF_LEN
    ensures Wit.ValidWitness(SpendWitness(sequence, proof))
    ensures |Wit.WitnessBytes(SpendWitness(sequence, proof))| == 24 + |proof|
  {
    var w := SpendWitness(sequence, proof);
    assert w.proofs[1..] == [];
    assert |Wit.ProofsBytes(w.proofs)| == 8 + |proof|;
  }

  /** The witness sealed into the transaction: the account witness in the lock field, nothing else. */
  function Sealed(publicKey: Bytes, sequence: U64, a: Assertion): (b: Bytes)
    requires IsPublicKey(publicKey) && Bounded(a)
    ensures |b| == 137 + |a.authenticatorData| + |a.clientDataJson| + |a.signature|
  {
    SpendWitnessIsValid(sequence, ProofOf(publicKey, a));
    PackTable3(Acceptance.SealedWitness(SpendWitness(sequence, ProofOf(publicKey, a)), [], []))
  }

  /** The three encoders in a row, as both `maximumWitness` and `finalizeSpend` call them. */
  method Seal(publicKey: Bytes, sequence: U64, a: Assertion) returns (r: Option<Bytes>)
    requires Bounded(a)
    ensures r.Some? <==> IsPublicKey(publicKey)
    ensures r.Some? ==> r.value == Sealed(publicKey, sequence, a)
  {
    hide P256ProofBytes;
    hide PackTable3;
    hide Wit.WitnessBytes;
    hide Wit.FramedProofs;
    if IsPublicKey(publicKey) {
      BoundedProof(publicKey, a);
      SpendWitnessIsValid(sequence, ProofOf(publicKey, a));
    }
    var encoded := Frontend.EncodeP256(SpendProof(publicKey, a));
    var proof :- encoded;
    OneSlot(proof);
    var witnessBytes := Frontend.EncodeAccountWitness(Finite(1.0), sequence, [Frontend.SlotProof(Finite(0.0), proof)]);
    assert witnessBytes.Some?; // a bounded proof always fits a witness, and a witness a table
    var packed := Frontend.PackAccountWitness(witnessBytes.value);
    Frontend.PackedWitnessIsRead(witnessBytes.value, packed.value);
    return packed;
  }

  lemma OneSlot(proof: Bytes)
    ensures Frontend.WithSlots([Frontend.SlotProof(Finite(0.0), proof)]) == Some([Wit.Proof(0, proof)])
    ensures Frontend.AsOperation(Finite(1.0)) == Some(OP_SPEND)
  {
    var proofs := [Frontend.SlotProof(Finite(0.0), proof)];
    assert proofs[..0] == [];
    assert Frontend.WithSlots(proofs[..0]) == Some([]);
    assert (0.0).Floor == 0 && (1.0).Floor == 1;
    assert AsNat(Finite(0.0), U16_MAX) == Some(0);
    assert [] + [Wit.Proof(0, proof)] == [Wit.Proof(0, proof)];
  }

  // ----- Preparing -----

  /** `maximumWitness`: every field as long as it may get, and a DER header that says so. */
  function Largest(): (a: Assertion)
    ensures Bounded(a)
    ensures |a.authenticatorData| == MAX_AUTHENTICATOR_DATA && |a.clientDataJson| == MAX_CLIENT_DATA
    ensures |a.signature| == MAX_DER_SIGNATURE
  {
    Assertion("", seq(MAX_AUTHENTICATOR_DATA, _ => 0), seq(MAX_CLIENT_DATA, _ => 0),
              [0x30, MAX_DER_SIGNATURE - 2] + seq(MAX_DER_SIGNATURE - 2, _ => 0))
  }

  /** Every sealed witness fits the space the placeholder reserves. */
  lemma ReservationSuffices(publicKey: Bytes, sequence: U64, a: Assertion)
    requires IsPublicKey(publicKey) && Bounded(a)
    ensures |Sealed(publicKey, sequence, a)| <= |Sealed(publicKey, sequence, Largest())| == 3281
  {
    hide Largest;
  }

  datatype PreparedSpend = PreparedSpend(
    transaction: SpendTransaction,
    digest: Digest,
    inputCapacity: nat,
    changeCapacity: nat,
    fee: nat,
    maxWitnessBytes: nat,
    sequence: U64,
    credentialId: string,
    publicKey: Bytes)

  /** The raw transaction of a spend that keeps `change` for the account. */
  function SpendRaw(account: Account, state: Cell, asset: LiveCell, funderLock: Bytes, change: nat): Raw {
    Raw([account.lockCode, account.verifierCode, state],
        [Input(asset.outPoint, asset.cell, 0)],
        [Output(TRANSFER_CAPACITY, funderLock), Output(change, account.lock)])
  }

  /** The fee is estimated on the draft, which carries the placeholder and pays no fee yet. */
  function EstimatedFee(lib: Library, account: Account, state: Cell, asset: LiveCell, funderLock: Bytes,
                        placeholder: Bytes): nat
    requires asset.capacity > TRANSFER_CAPACITY
  {
    lib.estimateFee(SpendRaw(account, state, asset, funderLock, asset.capacity - TRANSFER_CAPACITY), [placeholder])
  }

  predicate IsOccupied(lib: Library, o: Output) {
    o.capacity >= lib.occupiedSize(o) * SHANNONS_PER_CKB
  }

  /** The passkey is the one the live state names. */
  predicate IsAccountKey(lib: Library, state: Cell, passkey: Passkey, x: Expected) {
    && lib.hashes.ckb(passkey.publicKey) == passkey.keyId
    && ParseAccountState(state.data, x).Some?
    && ParseAccountState(state.data, x).value.keyId == passkey.keyId
  }

  /** When `prepareSpend` succeeds. */
  predicate CanPrepare(lib: Library, account: Account, state: Cell, asset: LiveCell, passkey: Passkey,
                       funderLock: Bytes)
  {
    && IsLive(account, state, asset)
    && IsAccountKey(lib, state, passkey, account.expected)
    && IsPublicKey(passkey.publicKey)
    && asset.capacity > TRANSFER_CAPACITY
    && var sequence := ParseAccountState(state.data, account.expected).value.sequence;
    && var fee := EstimatedFee(lib, account, state, asset, funderLock, Sealed(passkey.publicKey, sequence, Largest()));
    && asset.capacity > TRANSFER_CAPACITY + fee
    && IsOccupied(lib, Output(TRANSFER_CAPACITY, funderLock))
    && IsOccupied(lib, Output(asset.capacity - TRANSFER_CAPACITY - fee, account.lock))
  }

  /** What it then promises: nothing but the fee is lost, and the digest is that of this very transaction. */
  predicate IsPrepared(lib: Library, account: Account, state: Cell, asset: LiveCell, passkey: Passkey,
                       funderLock: Bytes, p: PreparedSpend, raw: Raw, witnesses: seq<Bytes>)
    requires CanPrepare(lib, account, state, asset, passkey, funderLock)
  {
    var placeholder := Sealed(passkey.publicKey, p.sequence, Largest());
    && p.sequence == ParseAccountState(state.data, account.expected).value.sequence
    && p.credentialId == passkey.credentialId && p.publicKey == passkey.publicKey
    && p.inputCapacity == asset.capacity == TRANSFER_CAPACITY + p.changeCapacity + p.fee
    && p.changeCapacity > 0
    && p.fee == EstimatedFee(lib, account, state, asset, funderLock, placeholder)
    && raw == SpendRaw(account, state, asset, funderLock, p.changeCapacity)
    && witnesses == [placeholder] && p.maxWitnessBytes == |placeholder|
    && GroupStream(OnChain(lib, raw, witnesses), [0]).Some?
    && p.digest == AuthorizationDigest(lib.hashes, OP_SPEND, account.accountId, p.sequence, state.data,
                                       lib.hashes.ckb(GroupStream(OnChain(lib, raw, witnesses), [0]).value))
  }

  /** The frontend's stream over one sealed witness is the one the lock reads off the transaction. */
  lemma SealedStream(lib: Library, raw: Raw, publicKey: Bytes, sequence: U64, a: Assertion)
    requires IsPublicKey(publicKey) && Bounded(a) && |raw.inputs| == 1
    ensures var w := Sealed(publicKey, sequence, a);
            && GroupStream(OnChain(lib, raw, [w]), [0]).Some?
            && GroupStream(OnChain(lib, raw, [w]), [0]) == Frontend.FrontendStream(lib.rawHash(raw), [w], [])
  {
    hide P256ProofBytes;
    hide PackTable3;
    hide PackBytes;
    hide UnpackWitnessArgs;
    hide PackWitnessArgs;
    hide CanonicalWitness;
    hide Wit.WitnessBytes;
    hide Wit.FramedProofs;
    hide Stream;
    hide Sealed;
    var w := Sealed(publicKey, sequence, a);
    var tx := OnChain(lib, raw, [w]);
    SealedArgs(publicKey, sequence, a);
    var args := UnpackWitnessArgs(w).value;
    WitnessArgsArePacked(w, args);
    assert WitnessesAt(tx, [0][1..]) == [] && WitnessesAt(tx, [0]) == [w] && ExtraWitnesses(tx) == [];
    LockStreamIsHostStream(tx, [0], args);
    SmallStream(lib.rawHash(raw), w, args);
  }

  lemma SealedArgs(publicKey: Bytes, sequence: U64, a: Assertion)
    requires IsPublicKey(publicKey) && Bounded(a)
    ensures UnpackWitnessArgs(Sealed(publicKey, sequence, a)).Some?
    ensures |Sealed(publicKey, sequence, a)| <= 3281
  {
    hide P256ProofBytes;
    hide PackTable3;
    hide Table3Fields;
    hide MoleculeBytes;
    hide Wit.WitnessBytes;
    hide Wit.FramedProofs;
    hide Largest;
    SpendWitnessIsValid(sequence, ProofOf(publicKey, a));
    var account := Wit.WitnessBytes(SpendWitness(sequence, ProofOf(publicKey, a)));
    var args := WitnessArgs(Some(account), None, None);
    WitnessArgsArePacked(PackWitnessArgs(args), args);
  }

  lemma SmallStream(txHash: Digest, w: Bytes, args: WitnessArgs)
    requires UnpackWitnessArgs(w) == Some(args) && |w| <= 3281
    requires HostStream(txHash, [w], []).Some?
    ensures |HostStream(txHash, [w], []).value| <= MAX_SAFE_INTEGER
  {
    hide PackWitnessArgs;
    hide UnpackWitnessArgs;
    WitnessArgsArePacked(w, args);
    var canonical := PackWitnessArgs(args.(lock := Some([])));
    assert [w][1..] + [] == [] && [canonical] + [] == [canonical];
    assert HostStream(txHash, [w], []) == Some(Stream(txHash, [canonical]));
    PrefixedAllCons(canonical, []);
    assert [canonical] + [] == [canonical];
  }

  /** `prepareSpend` on the cells discovered. */
  method PrepareOver(lib: Library, account: Account, state: Cell, asset: LiveCell, passkey: Passkey, funderLock: Bytes)
    returns (r: Option<PreparedSpend>)
    requires IsLive(account, state, asset) && lib.hashes.ckb(passkey.publicKey) == passkey.keyId
    ensures r.Some? <==> CanPrepare(lib, account, state, asset, passkey, funderLock)
    ensures r.Some? ==> fresh(r.value.transaction)
    ensures r.Some? ==> IsPrepared(lib, account, state, asset, passkey, funderLock, r.value,
                                   r.value.transaction.RawFields(), r.value.transaction.witnesses)
  {
    hide ParseAccountState;
    hide Sealed;
    hide Largest;
    hide AuthorizationDigest;
    hide GroupStream;
    hide HostStream;
    var parsed :- ParseAccountState(state.data, account.expected);
    if parsed.keyId != passkey.keyId {
      return None;
    }
    var inputCapacity := asset.capacity;
    if inputCapacity <= TRANSFER_CAPACITY {
      return None;
    }
    var maximum := Seal(passkey.publicKey, parsed.sequence, Largest());
    var placeholder :- maximum;
    var draft := SpendRaw(account, state, asset, funderLock, inputCapacity - TRANSFER_CAPACITY);
    var transaction := new SpendTransaction(draft, [placeholder]);
    var fee := lib.estimateFee(transaction.RawFields(), transaction.witnesses);
    var change: int := inputCapacity - TRANSFER_CAPACITY - fee;
    if change <= 0 {
      return None;
    }
    transaction.outputs := transaction.outputs[1 := transaction.outputs[1].(capacity := change)];
    if !IsOccupied(lib, transaction.outputs[0]) || !IsOccupied(lib, transaction.outputs[1]) {
      return None;
    }
    var raw := transaction.RawFields();
    assert raw == SpendRaw(account, state, asset, funderLock, change);
    var firstWitness := transaction.witnesses[0];
    SealedStream(lib, raw, passkey.publicKey, parsed.sequence, Largest());
    var sighash := Frontend.GroupSighashOf(lib.hashes, lib.rawHash(raw), [firstWitness], []);
    OneSlot([]);
    var digest := Frontend.AuthorizationDigestOf(lib.hashes, Finite(1.0), account.accountId, parsed.sequence,
                                                 state.data, sighash.value);
    return Some(PreparedSpend(transaction, digest.value, inputCapacity, change, fee, |placeholder|, parsed.sequence,
                              passkey.credentialId, passkey.publicKey));
  }

  /** The cells discovered, if any, are the only ones a spend can be prepared over. */
  ghost predicate Prepares(lib: Library, client: Client, account: Account, passkey: Passkey, funderLock: Bytes,
                           state: LiveCell, asset: LiveCell)
  {
    IsDiscovered(client, account, state, asset) && CanPrepare(lib, account, state.cell, asset, passkey, funderLock)
  }

  method PrepareSpend(lib: Library, client: Client, account: Account, passkey: Passkey, funderLock: Bytes)
    returns (r: Option<PreparedSpend>)
    ensures r.Some? <==> exists state, asset :: Prepares(lib, client, account, passkey, funderLock, state, asset)
    ensures r.Some? ==> fresh(r.value.transaction)
    ensures forall state, asset ::
              r.Some? && Prepares(lib, client, account, passkey, funderLock, state, asset) ==>
                IsPrepared(lib, account, state.cell, asset, passkey, funderLock, r.value,
                           r.value.transaction.RawFields(), r.value.transaction.witnesses)
  {
    hide IsDiscovered;
    hide IsPrepared;
    hide IsLive;
    hide ParseAccountState;
    hide Sealed;
    hide Largest;
    if lib.hashes.ckb(passkey.publicKey) != passkey.keyId {
      return None;
    }
    var discovered := DiscoverAccountCells(client, account);
    var cells :- discovered;
    var state, asset := cells.0, cells.1;
    assert IsDiscovered(client, account, state, asset);
    assert forall s, a :: IsDiscovered(client, account, s, a) ==> s == state && a == asset;
    DiscoveredIsLive(client, account, state, asset);
    r := PrepareOver(lib, account, state.cell, asset, passkey, funderLock);
    assert r.Some? ==> Prepares(lib, client, account, passkey, funderLock, state, asset);
  }

  // ----- Sealing -----

  predicate IsBoundedDer(signature: Bytes) {
    && MIN_DER_SIGNATURE <= |signature| <= MAX_DER_SIGNATURE
    && signature[0] == 0x30 && signature[1] == |signature| - 2
  }

  method ValidateDerSignature(signature: Bytes) returns (ok: bool)
    ensures ok <==> IsBoundedDer(signature)
  {
    if |signature| < MIN_DER_SIGNATURE || |signature| > MAX_DER_SIGNATURE {
      return false;
    }
    if signature[0] != 0x30 || signature[1] != |signature| - 2 {
      return false;
    }
    return true;
  }

  /** When `finalizeSpend` takes an assertion, apart from its size. */
  predicate CanFinalize(lib: Library, p: PreparedSpend, passkey: Passkey, a: Assertion) {
    && a.credentialId == passkey.credentialId == p.credentialId && passkey.publicKey == p.publicKey
    && Bounded(a) && IsBoundedDer(a.signature) && IsPublicKey(p.publicKey)
    && lib.authorizes(p.digest, a.clientDataJson)
  }

  method FinalizeSpend(lib: Library, p: PreparedSpend, passkey: Passkey, a: Assertion)
    returns (r: Option<SpendTransaction>)
    requires p.transaction.witnesses != []
    ensures r.Some? <==> CanFinalize(lib, p, passkey, a) && |Sealed(p.publicKey, p.sequence, a)| <= p.maxWitnessBytes
    ensures r.Some? ==>
              && fresh(r.value) && r.value.RawFields() == p.transaction.RawFields()
              && r.value.witnesses == p.transaction.witnesses[0 := Sealed(p.publicKey, p.sequence, a)]
  {
    hide Sealed;
    if a.credentialId != p.credentialId || passkey.credentialId != p.credentialId || passkey.publicKey != p.publicKey {
      return None;
    }
    if |a.authenticatorData| < MIN_AUTHENTICATOR_DATA_LEN || |a.authenticatorData| > MAX_AUTHENTICATOR_DATA {
      return None;
    }
    if a.clientDataJson == [] || |a.clientDataJson| > MAX_CLIENT_DATA {
      return None;
    }
    var wellFormed := ValidateDerSignature(a.signature);
    if !wellFormed || !lib.authorizes(p.digest, a.clientDataJson) {
      return None;
    }
    var sealed := Seal(passkey.publicKey, p.sequence, a);
    var packed :- sealed;
    if |packed| > p.maxWitnessBytes {
      return None;
    }
    var finalized := new SpendTransaction(p.transaction.RawFields(), p.transaction.witnesses);
    finalized.witnesses := finalized.witnesses[0 := packed];
    // The raw transaction is untouched, and with it its hash.
    assert lib.rawHash(finalized.RawFields()) == lib.rawHash(p.transaction.RawFields());
    return Some(finalized);
  }

  // ----- What the lock makes of it -----

  /** The account's one authenticator, as its live state names it. */
  function AccountEntry(state: Cell): State.Entry
    requires State.DecodedState(state.data).Some? && |State.DecodedState(state.data).value.authenticators| == 1
  {
    State.DecodedState(state.data).value.authenticators[0]
  }

  lemma LiveStateIsDecoded(lib: Library, account: Account, state: Cell, asset: LiveCell, passkey: Passkey,
                           funderLock: Bytes)
    requires CanPrepare(lib, account, state, asset, passkey, funderLock)
    ensures State.DecodedState(state.data).Some?
    ensures var s := State.DecodedState(state.data).value;
            && IsDemoState(s, account.expected) && State.ValidAccountState(s) && state.data == State.StateBytes(s)
            && s.sequence == ParseAccountState(state.data, account.expected).value.sequence
            && |state.data| == 177
  {
    hide ParseAccountState;
    hide State.DecodedState;
    hide State.Validated;
    hide State.ValidAccountState;
    hide State.StateBytes;
    hide IsDemoState;
    hide Sealed;
    hide Largest;
    var parsed := ParseAccountState(state.data, account.expected).value;
    ParsedIsValidDemoState(state.data, account.expected, parsed);
    ParsedIsDecoded(state.data, account.expected, parsed);
    State.DecodedIsEncoded(state.data, State.DecodedState(state.data).value);
  }

  /** What deployment and account creation establish about scripts and code cells. */
  predicate IsDeployed(h: Hashes, account: Account, state: Cell, e: State.Entry) {
    && AccountOf(account.lock) == Some(account.accountId)
    && h.ckb(account.stateType) == account.accountId
    && TypeHash(h, account.lockCode) != Some(account.accountId)
    && TypeHash(h, account.verifierCode) != Some(account.accountId)
    && h.data(account.verifierCode.data) == e.verifierCodeHash
    && h.data(account.lockCode.data) != e.verifierCodeHash
    && h.data(state.data) != e.verifierCodeHash
  }

  /** The state dep and the verifier dep are each the only one of their kind. */
  lemma DepsAreFound(lib: Library, account: Account, state: Cell, asset: LiveCell, funderLock: Bytes, change: nat,
                     e: State.Entry, sealed: Bytes)
    requires IsLive(account, state, asset) && IsDeployed(lib.hashes, account, state, e)
    requires |state.data| <= MAX_CELL_DATA && e.verifierHashType == 0
    ensures var tx := OnChain(lib, SpendRaw(account, state, asset, funderLock, change), [sealed]);
            && Resolve(lib.hashes, tx, OP_SPEND, account.accountId) == Some(Resolved(state.data, None, None))
            && VerifierDep(lib.hashes, tx.deps, e) == Some(1)
            && Group(tx, account.lock) == [0]
  {
    hide IndicesWhere;
    hide Resolve;
    hide VerifierDep;
    hide AccountOf;
    var h := lib.hashes;
    var tx := OnChain(lib, SpendRaw(account, state, asset, funderLock, change), [sealed]);
    assert tx.deps[2].data == state.data && OnlyAt(tx.deps, HasType(h, account.accountId), 2);
    ResolvedSpend(h, tx, account.accountId, Resolved(state.data, None, None));
    VerifierDepIsOnly(h, tx.deps, e, 1);
    assert GroupFrom(tx.inputs, account.lock, 1) == [];
  }

  lemma SealedIsSealed(lib: Library, raw: Raw, script: Bytes, publicKey: Bytes, sequence: U64, a: Assertion)
    requires IsPublicKey(publicKey) && Bounded(a) && |raw.inputs| == 1
    requires Group(OnChain(lib, raw, [Sealed(publicKey, sequence, a)]), script) == [0]
    ensures Wit.ValidWitness(SpendWitness(sequence, ProofOf(publicKey, a)))
    ensures Acceptance.Sealed(OnChain(lib, raw, [Sealed(publicKey, sequence, a)]), script,
                              SpendWitness(sequence, ProofOf(publicKey, a)), [], [])
  {
    hide P256ProofBytes;
    hide PackTable3;
    hide Wit.WitnessBytes;
    hide Wit.ValidWitness;
    hide Largest;
    SpendWitnessIsValid(sequence, ProofOf(publicKey, a));
    ReservationSuffices(publicKey, sequence, a);
    var tx := OnChain(lib, raw, [Sealed(publicKey, sequence, a)]);
    assert [0][1..] == [] && ExtraWitnesses(tx) == [];
  }

  /** Sealing over the placeholder leaves everything the digest covers as it was. */
  lemma SealingKeepsStream(lib: Library, raw: Raw, publicKey: Bytes, sequence: U64, a: Assertion, b: Assertion)
    requires IsPublicKey(publicKey) && Bounded(a) && Bounded(b) && |raw.inputs| == 1
    ensures var before, after := OnChain(lib, raw, [Sealed(publicKey, sequence, a)]),
                                 OnChain(lib, raw, [Sealed(publicKey, sequence, b)]);
            GroupStream(after, [0]) == GroupStream(before, [0])
  {
    hide P256ProofBytes;
    hide PackTable3;
    hide PackBytes;
    hide CanonicalWitness;
    hide Covered;
    hide Wit.WitnessBytes;
    hide Wit.FramedProofs;
    hide Largest;
    hide Stream;
    var tx := OnChain(lib, raw, [Sealed(publicKey, sequence, a)]);
    SpendWitnessIsValid(sequence, ProofOf(publicKey, a));
    SpendWitnessIsValid(sequence, ProofOf(publicKey, b));
    ReservationSuffices(publicKey, sequence, a);
    ReservationSuffices(publicKey, sequence, b);
    var before := Acceptance.SealedWitness(SpendWitness(sequence, ProofOf(publicKey, a)), [], []);
    var after := Acceptance.SealedWitness(SpendWitness(sequence, ProofOf(publicKey, b)), [], []);
    Binding.SealingKeepsCovered(tx, [0], before, after);
    assert Binding.WithWitness(tx, 0, PackTable3(after)) == OnChain(lib, raw, [Sealed(publicKey, sequence, b)]);
  }

  /** Everything before the proof succeeds, and the lock recomputes the digest that was signed. */
  lemma SealedSpendIsPrepared(lib: Library, account: Account, state: Cell, asset: LiveCell, passkey: Passkey,
                              funderLock: Bytes, p: PreparedSpend, raw: Raw, placeholder: Bytes, a: Assertion)
    requires CanPrepare(lib, account, state, asset, passkey, funderLock)
    requires IsPrepared(lib, account, state, asset, passkey, funderLock, p, raw, [placeholder])
    requires CanFinalize(lib, p, passkey, a)
    requires State.DecodedState(state.data).Some? && |State.DecodedState(state.data).value.authenticators| == 1
    requires IsDeployed(lib.hashes, account, state, AccountEntry(state))
    ensures var tx := OnChain(lib, raw, [Sealed(p.publicKey, p.sequence, a)]);
            var proof := ProofOf(p.publicKey, a);
            && Prepare(lib.hashes, tx, account.lock).Some?
            && var t := Prepare(lib.hashes, tx, account.lock).value;
            && t.operation == OP_SPEND && t.digest == p.digest && Some(t.state) == State.DecodedState(state.data)
            && t.proofCount == 1
            && Wit.ProofsAt(t.lock, WITNESS_HEADER_LEN, 1, -1) == Some([Wit.Proof(0, proof)])
  {
    hide Prepare;
    hide AccountOf;
    hide Policy.Carries;
    hide AuthorizationDigest;
    hide Wit.ParseHeader;
    hide Acceptance.Sealed;
    hide CanPrepare;
    hide EstimatedFee;
    hide Resolve;
    hide ParseAccountState;
    hide HexDigits;
    hide Sealed;
    hide Largest;
    hide P256ProofBytes;
    hide GroupStream;
    hide GroupFrom;
    hide State.DecodedState;
    hide State.StateBytes;
    hide State.ValidAccountState;
    hide Wit.ValidWitness;
    hide Wit.WitnessBytes;
    hide Wit.ProofsAt;
    var s := State.DecodedState(state.data).value;
    var e := AccountEntry(state);
    var sealed := Sealed(p.publicKey, p.sequence, a);
    var tx := OnChain(lib, raw, [sealed]);
    LiveStateIsDecoded(lib, account, state, asset, passkey, funderLock);
    assert IsLive(account, state, asset) by { PreparedIsLive(lib, account, state, asset, passkey, funderLock); }
    DepsAreFound(lib, account, state, asset, funderLock, p.changeCapacity, e, sealed);
    SealedIsSealed(lib, raw, account.lock, p.publicKey, p.sequence, a);
    Acceptance.SealedIsPrepared(lib.hashes, tx, account.lock, account.accountId,
                                SpendWitness(p.sequence, ProofOf(p.publicKey, a)), [], [],
                                Resolved(state.data, None, None), s);
    SealingKeepsStream(lib, raw, p.publicKey, p.sequence, Largest(), a);
    Policy.PreparedFields(lib.hashes, tx, account.lock, Prepare(lib.hashes, tx, account.lock).value);
  }

  lemma PreparedIsLive(lib: Library, account: Account, state: Cell, asset: LiveCell, passkey: Passkey,
                       funderLock: Bytes)
    requires CanPrepare(lib, account, state, asset, passkey, funderLock)
    ensures IsLive(account, state, asset)
  {
    hide Sealed;
    hide ParseAccountState;
  }

  /** With one authenticator of weight 1 and one proof for it, acceptance is the verdict of its child. */
  lemma OneProofDecides(h: Hashes, child: Child, tx: Transaction, script: Bytes, t: Task, e: State.Entry, proof: Bytes)
    requires Prepare(h, tx, script) == Some(t) && t.operation == OP_SPEND && t.proofCount == 1
    requires Wit.ProofsAt(t.lock, WITNESS_HEADER_LEN, 1, -1) == Some([Wit.Proof(0, proof)])
    requires t.state.authenticators == [e] && t.state.spendThreshold == 1
    requires e.slot == 0 && e.capabilities == 7 && e.weight == 1 && |e.keyId| == 32 && e.aux != []
    requires |e.aux| <= MAX_AUX_LEN && |proof| <= MAX_PROOF_LEN && VerifierDep(h, tx.deps, e) == Some(1)
    ensures Run(h, child, tx, script).Some? <==>
            child(1, Req.RequestBytes(Req.RequestFor(e, OP_SPEND, t.digest, proof))) == Some(0)
  {
    hide Prepare;
    hide VerifierDep;
    hide Req.RequestBytes;
    hide Wit.ProofsAt;
    var q, entries := Wit.Proof(0, proof), t.state.authenticators;
    assert EntryOfSlot(entries, 0) == Some(e);
    assert [q][..0] == [] && Tally(h, child, tx.deps, t, CAP_SPEND, []) == Some(0);
    assert Bit(7, CAP_SPEND);
    var judged := Judge(h, child, tx.deps, entries, OP_SPEND, CAP_SPEND, t.digest, q);
    assert Tally(h, child, tx.deps, t, CAP_SPEND, [q]) == if judged.None? then None else Some(judged.value);
  }

  /**
   * Sign, then seal: for every prepared spend and every assertion `finalizeSpend` takes, the reservation
   * check passes, the lock recomputes the digest that was signed over the placeholder, and it accepts
   * the sealed transaction exactly when the verifier child exits 0 on the request for that digest.
   */
  lemma SealedSpendIsAccepted(lib: Library, child: Child, account: Account, state: Cell, asset: LiveCell,
                              passkey: Passkey, funderLock: Bytes, p: PreparedSpend, raw: Raw, placeholder: Bytes,
                              a: Assertion)
    requires CanPrepare(lib, account, state, asset, passkey, funderLock)
    requires IsPrepared(lib, account, state, asset, passkey, funderLock, p, raw, [placeholder])
    requires CanFinalize(lib, p, passkey, a)
    requires State.DecodedState(state.data).Some? && |State.DecodedState(state.data).value.authenticators| == 1
    requires IsDeployed(lib.hashes, account, state, AccountEntry(state))
    ensures var sealed := Sealed(p.publicKey, p.sequence, a);
            var tx := OnChain(lib, raw, [sealed]);
            var e, proof := AccountEntry(state), ProofOf(p.publicKey, a);
            && |sealed| <= p.maxWitnessBytes
            && Prepare(lib.hashes, tx, account.lock).Some?
            && Prepare(lib.hashes, tx, account.lock).value.digest == p.digest
            && |e.keyId| == 32 && 0 < |e.aux| <= MAX_AUX_LEN
            && (Run(lib.hashes, child, tx, account.lock).Some? <==>
                child(1, Req.RequestBytes(Req.RequestFor(e, OP_SPEND, p.digest, proof))) == Some(0))
  {
    hide Run;
    hide Prepare;
    hide CanPrepare;
    hide EstimatedFee;
    hide AccountOf;
    hide ParseAccountState;
    hide Hex;
    hide HexDigits;
    hide Sealed;
    hide Largest;
    hide P256ProofBytes;
    hide GroupStream;
    hide GroupFrom;
    hide VerifierDep;
    hide Resolve;
    hide State.DecodedState;
    hide State.StateBytes;
    hide State.CapWeight;
    hide Wit.ProofsAt;
    hide Req.RequestBytes;
    ReservationSuffices(p.publicKey, p.sequence, a);
    LiveStateIsDecoded(lib, account, state, asset, passkey, funderLock);
    SealedSpendIsPrepared(lib, account, state, asset, passkey, funderLock, p, raw, placeholder, a);
    var s, e := State.DecodedState(state.data).value, AccountEntry(state);
    assert e in s.authenticators && State.UsableEntry(e);
    var sealed := Sealed(p.publicKey, p.sequence, a);
    var tx := OnChain(lib, raw, [sealed]);
    PreparedIsLive(lib, account, state, asset, passkey, funderLock);
    DepsAreFound(lib, account, state, asset, funderLock, p.changeCapacity, e, sealed);
    OneProofDecides(lib.hashes, child, tx, account.lock, Prepare(lib.hashes, tx, account.lock).value, e,
                    ProofOf(p.publicKey, a));
  }
}
