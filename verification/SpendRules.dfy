/**
 * What a spend of the frontend comes to in figures and bytes: which cells it is built from, what it pays, which
 * signatures it can be sealed with, and that an honest passkey can always seal it.
 */
module SpendRules {
  import opened Bytes
  import opened Protocol
  import opened JsBytes
  import opened LiveState
  import opened ProofCodec
  import opened RequestCodec
  import opened Transaction
  import opened Sighash
  import opened AccountLock
  import opened Spend
  import opened Words
  import Base64Url
  import BrowserData
  import ClientData
  import HonestPasskey
  import PasskeySpend
  import State = StateCodec
  import VerifierP256

  // ----- DER signatures -----

  /** A positive integer, the high byte first. */
  function BigEndian(v: nat): (b: Bytes)
    ensures b == [] <==> v == 0
    ensures b != [] ==> b[0] != 0
  {
    if v == 0 then [] else BigEndian(v / 256) + [v % 256]
  }

  lemma {:induction false} BigEndianLength(v: nat, n: nat)
    requires v < Pow2(8 * n)
    ensures |BigEndian(v)| <= n
  {
    if v > 0 {
      assert n > 0;
      EightBits(8 * n);
      BigEndianLength(v / 256, n - 1);
    }
  }

  lemma FourBits(k: nat)
    requires k >= 4
    ensures Pow2(k) == 16 * Pow2(k - 4)
  {
    assert Pow2(k) == 2 * Pow2(k - 1) && Pow2(k - 1) == 2 * Pow2(k - 2);
    assert Pow2(k - 2) == 2 * Pow2(k - 3) && Pow2(k - 3) == 2 * Pow2(k - 4);
  }

  lemma EightBits(k: nat)
    requires k >= 8
    ensures Pow2(k) == 256 * Pow2(k - 8)
  {
    FourBits(k - 4);
    FourBits(k);
  }

  /** Its contents octets in DER: two's complement, in as few bytes as possible (section 8.3 of X.690). */
  function DerInteger(v: nat): Bytes
    requires v > 0
  {
    var b := BigEndian(v);
    if b[0] >= 0x80 then [0] + b else b
  }

  predicate IsScalar(v: nat) {
    0 < v < Pow2(256)
  }

  lemma DerIntegerLength(v: nat)
    requires IsScalar(v)
    ensures 1 <= |DerInteger(v)| <= 33
  {
    hide Pow2;
    BigEndianLength(v, 32);
  }

  /** An ECDSA signature: the sequence of its two integers (section 2.2.3 of RFC 3279). */
  function Der(r: nat, s: nat): (b: Bytes)
    requires IsScalar(r) && IsScalar(s)
    ensures |b| == 6 + |DerInteger(r)| + |DerInteger(s)|
  {
    DerIntegerLength(r);
    DerIntegerLength(s);
    var x, y := DerInteger(r), DerInteger(s);
    [0x30, 4 + |x| + |y|] + [0x02, |x|] + x + [0x02, |y|] + y
  }

  /** Every signature of a 256-bit curve is of the size and form the frontend takes. */
  lemma DerIsBounded(r: nat, s: nat)
    requires IsScalar(r) && IsScalar(s)
    ensures 8 <= |Der(r, s)| <= 72 && IsBoundedDer(Der(r, s))
  {
    hide DerInteger;
    hide Pow2;
    DerIntegerLength(r);
    DerIntegerLength(s);
  }

  /** A byte string is taken as a signature exactly when it is a sequence that counts the 6 to 70 bytes behind it. */
  lemma BoundedDerIs(signature: Bytes)
    ensures IsBoundedDer(signature) <==>
            exists contents: Bytes :: 6 <= |contents| <= 70 && signature == [0x30, |contents|] + contents
  {
    if IsBoundedDer(signature) {
      assert signature == [0x30, |signature[2..]|] + signature[2..];
    }
  }

  /** When an assertion can be sealed, in figures. */
  lemma FinalizedExactly(lib: Library, p: PreparedSpend, passkey: Passkey, a: Assertion)
    ensures CanFinalize(lib, p, passkey, a) <==>
            && a.credentialId == p.credentialId && passkey.credentialId == p.credentialId
            && passkey.publicKey == p.publicKey && |p.publicKey| == 65 && p.publicKey[0] == 4
            && 37 <= |a.authenticatorData| <= 1024 && 1 <= |a.clientDataJson| <= 2048
            && (exists contents: Bytes :: 6 <= |contents| <= 70 && a.signature == [0x30, |contents|] + contents)
            && lib.authorizes(p.digest, a.clientDataJson)
  {
    hide IsBoundedDer;
    BoundedDerIs(a.signature);
    assert IsBoundedDer(a.signature) ==> 8 <= |a.signature| <= 72;
  }

  /** The second byte has to count the bytes behind it. */
  lemma MiscountedDerIsRefused(lib: Library, p: PreparedSpend, passkey: Passkey, a: Assertion)
    requires |a.signature| >= 2 && a.signature[1] != |a.signature| - 2
    ensures !CanFinalize(lib, p, passkey, a)
  {
    FinalizedExactly(lib, p, passkey, a);
  }

  // ----- What is paid -----

  function TotalCapacity(outputs: seq<Output>): nat {
    if outputs == [] then 0 else outputs[0].capacity + TotalCapacity(outputs[1..])
  }

  /** Conservation: the one input pays the outputs and the estimated fee; 100 CKB go to the funder, the rest comes
      back. */
  lemma SpendPays(lib: Library, account: Account, state: Cell, asset: LiveCell, passkey: Passkey, funderLock: Bytes,
                  p: PreparedSpend, raw: Raw, witnesses: seq<Bytes>)
    requires CanPrepare(lib, account, state, asset, passkey, funderLock)
    requires IsPrepared(lib, account, state, asset, passkey, funderLock, p, raw, witnesses)
    ensures asset.capacity == TotalCapacity(raw.outputs) + p.fee
    ensures raw.outputs == [Output(10_000_000_000, funderLock), Output(p.changeCapacity, account.lock)]
    ensures raw.inputs == [Input(asset.outPoint, asset.cell, 0)]
    ensures raw.deps == [account.lockCode, account.verifierCode, state]
    ensures forall o | o in raw.outputs :: 0 < o.capacity && lib.occupiedSize(o) * 100_000_000 <= o.capacity
    ensures |witnesses| == 1 && |witnesses[0]| == 3281 == p.maxWitnessBytes
  {
    hide ParseAccountState;
    hide Sealed;
    hide Largest;
    hide GroupStream;
    hide AuthorizationDigest;
    hide IsAccountKey;
    ReservationSuffices(passkey.publicKey, p.sequence, Largest());
    assert raw.outputs[1..] == [raw.outputs[1]] && raw.outputs[1..][1..] == [];
    assert TotalCapacity(raw.outputs[1..]) == raw.outputs[1].capacity;
    assert TotalCapacity(raw.outputs) == raw.outputs[0].capacity + raw.outputs[1].capacity;
  }

  /** A spend can be prepared exactly when the passkey is the live state's and the asset cell covers all it has to. */
  lemma PreparedExactly(lib: Library, account: Account, state: Cell, asset: LiveCell, passkey: Passkey,
                        funderLock: Bytes, placeholder: Bytes)
    requires state.lock == account.lock && state.typeScript == Some(account.stateType)
    requires asset.cell == Cell(account.lock, None, [])
    requires |passkey.publicKey| == 65 && passkey.publicKey[0] == 4
    requires ParseAccountState(state.data, account.expected).Some? ==>
               placeholder == Sealed(passkey.publicKey, ParseAccountState(state.data, account.expected).value.sequence,
                                     Largest())
    ensures CanPrepare(lib, account, state, asset, passkey, funderLock) <==>
            && ParseAccountState(state.data, account.expected).Some?
            && ParseAccountState(state.data, account.expected).value.keyId == lib.hashes.ckb(passkey.publicKey)
            && passkey.keyId == lib.hashes.ckb(passkey.publicKey)
            && asset.capacity > 10_000_000_000
            && var fee := lib.estimateFee(
                            Raw([account.lockCode, account.verifierCode, state],
                                [Input(asset.outPoint, asset.cell, 0)],
                                [Output(10_000_000_000, funderLock),
                                 Output(asset.capacity - 10_000_000_000, account.lock)]),
                            [placeholder]);
            && var change := asset.capacity - 10_000_000_000 - fee;
            && change > 0
            && lib.occupiedSize(Output(10_000_000_000, funderLock)) <= 100
            && lib.occupiedSize(Output(change, account.lock)) * 100_000_000 <= change
  {
    hide ParseAccountState;
    hide Sealed;
    hide Largest;
  }

  // ----- The live state -----

  /** The live state is accepted exactly when its 177 bytes say: one passkey of slot 0 and weight 1 for everything. */
  lemma LiveStateLayout(data: Bytes, x: Expected, p: ParsedState)
    ensures ParseAccountState(data, x) == Some(p) <==>
            && |data| == 177 == x.stateBytes
            && data[0] == 0x43 && data[1] == 0x4b && data[2] == 0x41 && data[3] == 0x53 // "CKAS"
            && data[4] == 1 && data[5] == 1 && W16(data, 6) == 32 && W64(data, 8) == p.sequence
            && W16(data, 16) == 1 && W16(data, 18) == 1 && W16(data, 20) == 1 // thresholds
            && data[22] == 1 && data[23] == 0 && W64(data, 24) == 0
            && W16(data, 32) == 145 && W16(data, 34) == 0 && W16(data, 36) == 1 // size, slot, algorithm
            && W16(data, 38) == 7 && W16(data, 40) == 1 && data[42] == 0 && data[43] == 1
            && W16(data, 76) == 32 && W16(data, 78) == 65
            && Hex(data[44..76]) == x.codeHash && data[80..112] == p.keyId && HexDigits(data[112..177]) == x.binding
  {
    hide W16;
    hide W64;
    hide U16At;
    hide U64At;
    hide Hex;
    hide HexDigits;
    if |data| == 177 {
      assert data[112..] == data[112..177];
      assert data[0..4] == STATE_MAGIC <==> data[0] == 0x43 && data[1] == 0x4b && data[2] == 0x41 && data[3] == 0x53;
      forall at: nat | at + 2 <= |data| ensures U16At(data, at) == W16(data, at) { U16AtIs(data, at); }
      U64AtIs(data, 8);
      U64AtIs(data, 24);
    }
  }

  // ----- What is discovered -----

  /** Whatever is found besides the state cell has to be one bare cell of the account. */
  lemma StrangeCellsAreRefused(client: Client, account: Account, c: LiveCell, state: LiveCell, asset: LiveCell)
    requires c in client.found
    requires c.cell.lock != account.lock
             || (c.outPoint != account.stateOutPoint && (c.cell.typeScript.Some? || c.cell.data != []))
    ensures !IsDiscovered(client, account, state, asset)
  {
    hide ParseAccountState;
  }

  lemma SecondAssetIsRefused(client: Client, account: Account, i: nat, j: nat, state: LiveCell, asset: LiveCell)
    requires i < j < |client.found|
    requires client.found[i].outPoint != account.stateOutPoint && client.found[j].outPoint != account.stateOutPoint
    ensures !IsDiscovered(client, account, state, asset)
  {
    hide ParseAccountState;
    forall k: nat ensures !OnlyAsset(account, client.found, k) {
    }
  }

  /** The found asset has to be the manifest's, with the capacity that the node reports for it. */
  lemma ChangedAssetIsRefused(client: Client, account: Account, c: LiveCell, state: LiveCell, asset: LiveCell)
    requires c in client.found && c.outPoint != account.stateOutPoint
    requires c.outPoint != account.assetOutPoint || c.capacity != asset.capacity
    ensures !IsDiscovered(client, account, state, asset)
  {
    hide ParseAccountState;
    hide IsExpected;
    hide IsStateCell;
    var i :| 0 <= i < |client.found| && client.found[i] == c;
    forall k: nat
      ensures !(OnlyAsset(account, client.found, k) && client.found[k].outPoint == account.assetOutPoint
                && client.found[k].capacity == asset.capacity)
    {
    }
  }

  lemma SpentCellsAreRefused(client: Client, account: Account, state: LiveCell, asset: LiveCell)
    requires client.getLive(account.stateOutPoint).None? || client.getLive(account.assetOutPoint).None?
    ensures !IsDiscovered(client, account, state, asset)
  {
    hide ParseAccountState;
  }

  /** The two cells as the manifest has them, found in either order, with the node's two views in agreement. */
  lemma LiveCellsAreDiscovered(client: Client, account: Account, state: LiveCell, asset: LiveCell)
    requires client.getLive(account.stateOutPoint) == Some(state)
    requires client.getLive(account.assetOutPoint) == Some(asset)
    requires state.outPoint == account.stateOutPoint != account.assetOutPoint == asset.outPoint
    requires state.cell.lock == account.lock && state.cell.typeScript == Some(account.stateType)
    requires ParseAccountState(state.cell.data, account.expected).Some?
    requires asset.cell == Cell(account.lock, None, [])
    requires client.found == [state, asset] || client.found == [asset, state]
    ensures IsDiscovered(client, account, state, asset)
  {
    hide ParseAccountState;
    assert OnlyAsset(account, client.found, if client.found[0] == state then 1 else 0);
  }

  // ----- An honest spend -----

  function OriginText(): (s: string)
    ensures |s| == 21
  {
    "http://localhost:5173"
  }

  lemma OriginStarts(i: nat)
    requires i < 10
    ensures ClientOrigin()[i] == OriginText()[i] as int
  {
  }

  lemma OriginEnds(i: nat)
    requires 10 <= i < 21
    ensures ClientOrigin()[i] == OriginText()[i] as int
  {
  }

  lemma OriginIsSpelled()
    ensures (forall c | c in OriginText() :: c < 0x80 as char) && ClientOrigin() == Ascii(OriginText())
  {
    hide OriginText;
    hide ClientOrigin;
    forall i | 0 <= i < 21 ensures ClientOrigin()[i] == OriginText()[i] as int {
      if i < 10 {
        OriginStarts(i);
      } else {
        OriginEnds(i);
      }
    }
    OriginIsText();
  }

  lemma OriginIsText()
    ensures ClientData.All(ClientOrigin(), ClientData.TextByte)
    ensures forall i | 0 <= i < 21 :: ClientOrigin()[i] < 0x80
  {
  }

  /** A key pair whose signatures are DER. */
  ghost predicate SignsInDer(sign: Digest -> Bytes) {
    forall m: Digest :: exists r: nat, s: nat :: IsScalar(r) && IsScalar(s) && sign(m) == Der(r, s)
  }

  /** What the passkey returns for a digest. */
  function HonestAssertion(c: VerifierP256.Crypto, passkey: Passkey, sign: Digest -> Bytes, rpIdHash: Digest,
                           counter: Bytes, digest: Digest): Assertion
    requires |counter| == 4
  {
    var made := HonestPasskey.Assertion(c, passkey.publicKey, sign, rpIdHash, ClientOrigin(), counter, digest);
    Assertion(passkey.credentialId, made.authenticatorData, made.clientDataJson, made.signature)
  }

  /** The browser's serialization is read by a general JSON parser as what it says. */
  ghost predicate ReadsSerialization(lib: Library) {
    forall digest: Digest ::
      lib.authorizes(digest, BrowserData.Written(Base64Url.Encoded(digest), ClientOrigin(), false))
  }

  lemma HonestAssertionIsSealed(lib: Library, c: VerifierP256.Crypto, passkey: Passkey, p: PreparedSpend,
                                sign: Digest -> Bytes, rpIdHash: Digest, counter: Bytes)
    requires p.credentialId == passkey.credentialId && p.publicKey == passkey.publicKey && |counter| == 4
    requires |p.publicKey| == 65 && p.publicKey[0] == 4 && SignsInDer(sign) && ReadsSerialization(lib)
    ensures CanFinalize(lib, p, passkey, HonestAssertion(c, passkey, sign, rpIdHash, counter, p.digest))
  {
    hide BrowserData.Written;
    hide Base64Url.Encoded;
    hide Der;
    hide IsScalar;
    hide IsBoundedDer;
    hide HonestPasskey.AuthenticatorData;
    var a := HonestAssertion(c, passkey, sign, rpIdHash, counter, p.digest);
    HonestPasskey.ChallengeLength(p.digest);
    HonestPasskey.ClientDataLength(Base64Url.Encoded(p.digest), ClientOrigin());
    var message := HonestPasskey.SignedMessage(c, a.authenticatorData, a.clientDataJson);
    var r: nat, t: nat :| IsScalar(r) && IsScalar(t) && sign(message) == Der(r, t);
    DerIsBounded(r, t);
  }

  /**
   * A prepared spend signed by the account's passkey can always be sealed, and the lock accepts it: the request that
   * reaches the verifier is one it exits 0 on.
   */
  lemma HonestSpendIsAccepted(lib: Library, c: VerifierP256.Crypto, child: Child, account: Account, state: Cell,
                              asset: LiveCell, passkey: Passkey, funderLock: Bytes, p: PreparedSpend, raw: Raw,
                              placeholder: Bytes, sign: Digest -> Bytes, rpIdHash: Digest, counter: Bytes)
    requires CanPrepare(lib, account, state, asset, passkey, funderLock)
    requires IsPrepared(lib, account, state, asset, passkey, funderLock, p, raw, [placeholder])
    requires State.DecodedState(state.data).Some? && |State.DecodedState(state.data).value.authenticators| == 1
    requires IsDeployed(lib.hashes, account, state, AccountEntry(state))
    requires PasskeySpend.NamesProfile(account.expected.binding) && PasskeySpend.RunsP256(c, child, 1)
    requires forall x :: c.ckbHash(x) == lib.hashes.ckb(x)
    requires HonestPasskey.IsKeyPair(c, passkey.publicKey, sign) && SignsInDer(sign) && |counter| == 4
    requires AccountEntry(state).aux == HonestPasskey.PasskeyAux(rpIdHash, c.sha256(ClientOrigin()))
    requires ReadsSerialization(lib)
    ensures var a := HonestAssertion(c, passkey, sign, rpIdHash, counter, p.digest);
            && CanFinalize(lib, p, passkey, a)
            && Run(lib.hashes, child, OnChain(lib, raw, [Sealed(p.publicKey, p.sequence, a)]), account.lock).Some?
  {
    hide Run;
    hide CanPrepare;
    hide IsPrepared;
    hide IsDeployed;
    hide PasskeySpend.RunsP256;
    hide OnChain;
    hide Sealed;
    hide Hex;
    hide P256ProofBytes;
    hide BrowserData.Written;
    hide Base64Url.Encoded;
    hide ReadsSerialization;
    hide SignsInDer;
    hide HonestPasskey.IsKeyPair;
    hide HonestPasskey.AuthenticatorData;
    hide State.DecodedState;
    hide VerifierP256.AcceptsRequest;
    hide VerifierP256.IsGoodAssertion;
    var a := HonestAssertion(c, passkey, sign, rpIdHash, counter, p.digest);
    var e := AccountEntry(state);
    PreparedKey(lib, account, state, asset, passkey, funderLock, p, raw, [placeholder]);
    HonestAssertionIsSealed(lib, c, passkey, p, sign, rpIdHash, counter);
    PasskeySpend.SpendNeedsThePasskey(lib, c, child, account, state, asset, passkey, funderLock, p, raw, placeholder,
                                      a);
    PasskeySpend.KeyIsTheAccounts(lib, account, state, asset, passkey, funderLock, p, raw, placeholder);
    var q := RequestFor(e, OP_SPEND, p.digest, ProofOf(p.publicKey, a));
    OriginIsText();
    EntryIsP256(lib, account, state, asset, passkey, funderLock);
    HonestPasskey.AssertionIsAccepted(c, q, passkey.publicKey, sign, rpIdHash, ClientOrigin(), counter);
    PasskeySpend.RequestIsDecided(c, e, p.digest, p.publicKey, a);
  }

  lemma PreparedKey(lib: Library, account: Account, state: Cell, asset: LiveCell, passkey: Passkey, funderLock: Bytes,
                    p: PreparedSpend, raw: Raw, witnesses: seq<Bytes>)
    requires CanPrepare(lib, account, state, asset, passkey, funderLock)
    requires IsPrepared(lib, account, state, asset, passkey, funderLock, p, raw, witnesses)
    ensures p.credentialId == passkey.credentialId && p.publicKey == passkey.publicKey && IsPublicKey(p.publicKey)
  {
    hide ParseAccountState;
    hide Sealed;
    hide Largest;
    hide GroupStream;
    hide AuthorizationDigest;
  }

  lemma EntryIsP256(lib: Library, account: Account, state: Cell, asset: LiveCell, passkey: Passkey, funderLock: Bytes)
    requires CanPrepare(lib, account, state, asset, passkey, funderLock)
    requires State.DecodedState(state.data).Some? && |State.DecodedState(state.data).value.authenticators| == 1
    ensures AccountEntry(state).algorithmId == 1
  {
    hide CanPrepare;
    hide State.DecodedState;
    hide State.StateBytes;
    hide State.ValidAccountState;
    hide HexDigits;
    hide Hex;
    LiveStateIsDecoded(lib, account, state, asset, passkey, funderLock);
  }
}
