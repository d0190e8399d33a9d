/** End to end: a spend prepared and sealed in the frontend, judged by the P-256 verifier AccountLock spawns. */
module PasskeySpend {
  import opened Bytes
  import opened Protocol
  import opened JsBytes
  import opened LiveState
  import opened ProofCodec
  import opened RequestCodec
  import opened Transaction
  import opened Sighash
  import opened AccountLock
  import opened Spend
  import Pipe
  import State = StateCodec
  import VerifierP256

  // ----- The spawned verifier -----

  /** The verifier's exit code on the bytes it has read: what `VerifierP256.Verify` promises of it. */
  ghost predicate IsVerdict(c: VerifierP256.Crypto, verdict: Bytes -> int) {
    forall data :: verdict(data) == VerifierP256.VALID <==>
                   ParseRequest(data).Some? && VerifierP256.AcceptsRequest(c, ParseRequest(data).value)
  }

  /** What the parent has when a transfer is over. */
  function Outcome(parent: Pipe.Parent): Option<int> {
    if parent.Done? then Some(parent.code) else None
  }

  ghost predicate IsTransfer(c: VerifierP256.Crypto, request: Bytes, s: Pipe.Setting, cs: seq<Pipe.Config>,
                             acts: seq<Pipe.Action>)
  {
    s.request == request && IsVerdict(c, s.verdict) && Pipe.IsTrace(s, cs, acts) && Pipe.AtRest(s, cs[|acts|])
  }

  /** However the processes interleave, the parent of a transfer learns whether the verifier accepts the request. */
  lemma TransferDecides(c: VerifierP256.Crypto, q: VerifierRequest, s: Pipe.Setting, cs: seq<Pipe.Config>,
                        acts: seq<Pipe.Action>)
    requires ValidRequest(q) && IsTransfer(c, RequestBytes(q), s, cs, acts)
    ensures Outcome(cs[|acts|].parent).Some?
    ensures Outcome(cs[|acts|].parent) == Some(VerifierP256.VALID) <==> VerifierP256.AcceptsRequest(c, q)
  {
    hide RequestBytes;
    hide ParseRequest;
    hide Pipe.Complete;
    hide Pipe.IsTrace;
    hide Pipe.AtRest;
    hide VerifierP256.AcceptsRequest;
    Pipe.TransferIsExact(s, cs, acts);
    Pipe.EncodedRequestIsComplete(q);
    ParsedRequestIsEncoded(RequestBytes(q), q);
  }

  /** The child at a dep is the P-256 verifier: on every request its answer is the outcome of some transfer. */
  ghost predicate RunsP256(c: VerifierP256.Crypto, child: Child, dep: nat) {
    forall q | ValidRequest(q) ::
      exists s: Pipe.Setting, cs: seq<Pipe.Config>, acts: seq<Pipe.Action> ::
        && IsTransfer(c, RequestBytes(q), s, cs, acts)
        && child(dep, RequestBytes(q)) == Outcome(cs[|acts|].parent)
  }

  lemma VerifierDecides(c: VerifierP256.Crypto, child: Child, dep: nat, q: VerifierRequest)
    requires RunsP256(c, child, dep) && ValidRequest(q)
    ensures child(dep, RequestBytes(q)) == Some(VerifierP256.VALID) <==> VerifierP256.AcceptsRequest(c, q)
  {
    hide RequestBytes;
    hide IsVerdict;
    hide Pipe.AtRest;
    hide VerifierP256.AcceptsRequest;
    var s: Pipe.Setting, cs: seq<Pipe.Config>, acts: seq<Pipe.Action> :|
      && IsTransfer(c, RequestBytes(q), s, cs, acts)
      && child(dep, RequestBytes(q)) == Outcome(cs[|acts|].parent);
    TransferDecides(c, q, s, cs, acts);
  }

  /** There is such a child at every dep: every transfer comes to rest. */
  lemma VerifierCanBeSpawned(c: VerifierP256.Crypto, dep: nat)
    ensures exists child :: RunsP256(c, child, dep)
  {
    hide RequestBytes;
    hide ParseRequest;
    hide Pipe.Complete;
    hide Pipe.AtRest;
    hide Pipe.Next;
    hide Pipe.Enabled;
    hide VerifierP256.AcceptsRequest;
    ghost var verdict: Bytes -> int :=
      data => if ParseRequest(data).Some? && VerifierP256.AcceptsRequest(c, ParseRequest(data).value) then 0 else 1;
    var child: Child := (d: nat, request: Bytes) => Some(verdict(request));
    forall q | ValidRequest(q)
      ensures exists s: Pipe.Setting, cs: seq<Pipe.Config>, acts: seq<Pipe.Action> ::
                && IsTransfer(c, RequestBytes(q), s, cs, acts)
                && child(dep, RequestBytes(q)) == Outcome(cs[|acts|].parent)
    {
      var s := Pipe.Setting(RequestBytes(q), 0, verdict);
      assert Pipe.IsTrace(s, [Pipe.Initial()], []);
      Pipe.TransferEnds(s, [Pipe.Initial()], []);
      var cs: seq<Pipe.Config>, acts: seq<Pipe.Action> :| Pipe.IsTrace(s, cs, acts) && Pipe.AtRest(s, cs[|acts|]);
      Pipe.TransferIsExact(s, cs, acts);
      Pipe.EncodedRequestIsComplete(q);
      assert IsTransfer(c, RequestBytes(q), s, cs, acts);
    }
    assert RunsP256(c, child, dep);
  }

  // ----- The spend -----

  /** A binding of profile version 1, in hex. */
  predicate NamesProfile(binding: string) {
    |binding| >= 2 && binding[0] == '0' && binding[1] == '1'
  }

  /** The binding the frontend expects is one. */
  lemma BindingNamesProfile()
    ensures NamesProfile(WebAuthnBinding())
  {
  }

  lemma BoundToProfile(aux: Bytes)
    requires |aux| == 65 && NamesProfile(HexDigits(aux))
    ensures aux[0] == PROFILE_V1
  {
    HexDigitsAt(aux, 0);
    HexDigitsCorrespond('0', aux[0] / 16);
    HexDigitsCorrespond('1', aux[0] % 16);
  }

  /** The request of a sealed spend is accepted exactly when its assertion proves possession of the passkey. */
  lemma RequestIsDecided(c: VerifierP256.Crypto, e: State.Entry, digest: Digest, publicKey: Bytes, a: Assertion)
    requires IsPublicKey(publicKey) && Bounded(a)
    requires |e.keyId| == 32 && |e.aux| == 65 && e.aux[0] == PROFILE_V1 && e.algorithmId == ALG_P256_WEBAUTHN
    ensures ValidP256Proof(SpendProof(publicKey, a))
    ensures var q := RequestFor(e, OP_SPEND, digest, ProofOf(publicKey, a));
            ValidRequest(q) && (VerifierP256.AcceptsRequest(c, q) <==>
                                VerifierP256.ProvesPossession(c, q, SpendProof(publicKey, a)))
  {
    hide P256ProofBytes;
    hide ParseP256Proof;
    hide VerifierP256.ProvesPossession;
    BoundedProof(publicKey, a);
    VerifierP256.ParsedProofIsTheOne(ProofOf(publicKey, a));
  }

  /**
   * The lock accepts a sealed spend exactly when its assertion is good for the digest that `prepareSpend`
   * computed: the client data carries that digest and the origin, the authenticator saw and verified the
   * user, and the signature is good. That the key is the account's was settled when the spend was prepared.
   */
  lemma SpendNeedsThePasskey(lib: Library, c: VerifierP256.Crypto, child: Child, account: Account, state: Cell,
                             asset: LiveCell, passkey: Passkey, funderLock: Bytes, p: PreparedSpend, raw: Raw,
                             placeholder: Bytes, a: Assertion)
    requires CanPrepare(lib, account, state, asset, passkey, funderLock)
    requires IsPrepared(lib, account, state, asset, passkey, funderLock, p, raw, [placeholder])
    requires CanFinalize(lib, p, passkey, a)
    requires State.DecodedState(state.data).Some? && |State.DecodedState(state.data).value.authenticators| == 1
    requires IsDeployed(lib.hashes, account, state, AccountEntry(state))
    requires NamesProfile(account.expected.binding) && RunsP256(c, child, 1)
    requires forall x :: c.ckbHash(x) == lib.hashes.ckb(x)
    ensures var tx := OnChain(lib, raw, [Sealed(p.publicKey, p.sequence, a)]);
            var e := AccountEntry(state);
            && |e.keyId| == 32 && |e.aux| == 65 && ValidP256Proof(SpendProof(p.publicKey, a))
            && (Run(lib.hashes, child, tx, account.lock).Some? <==>
                VerifierP256.IsGoodAssertion(c, RequestFor(e, OP_SPEND, p.digest, ProofOf(p.publicKey, a)),
                                             SpendProof(p.publicKey, a)))
  {
    hide Run;
    hide Prepare;
    hide CanPrepare;
    hide IsPrepared;
    hide IsDeployed;
    hide RunsP256;
    hide OnChain;
    hide Sealed;
    hide Hex;
    hide HexDigits;
    hide P256ProofBytes;
    hide RequestBytes;
    hide State.DecodedState;
    hide State.StateBytes;
    hide State.CapWeight;
    hide VerifierP256.AcceptsRequest;
    hide VerifierP256.IsGoodAssertion;
    LiveStateIsDecoded(lib, account, state, asset, passkey, funderLock);
    SealedSpendIsAccepted(lib, child, account, state, asset, passkey, funderLock, p, raw, placeholder, a);
    var e := AccountEntry(state);
    assert e in State.DecodedState(state.data).value.authenticators && State.UsableEntry(e);
    BoundToProfile(e.aux);
    RequestIsDecided(c, e, p.digest, p.publicKey, a);
    VerifierDecides(c, child, 1, RequestFor(e, OP_SPEND, p.digest, ProofOf(p.publicKey, a)));
    KeyIsTheAccounts(lib, account, state, asset, passkey, funderLock, p, raw, placeholder);
  }

  /** The key of a prepared spend is the one the account's entry names. */
  lemma KeyIsTheAccounts(lib: Library, account: Account, state: Cell, asset: LiveCell, passkey: Passkey,
                         funderLock: Bytes, p: PreparedSpend, raw: Raw, placeholder: Bytes)
    requires CanPrepare(lib, account, state, asset, passkey, funderLock)
    requires IsPrepared(lib, account, state, asset, passkey, funderLock, p, raw, [placeholder])
    requires State.DecodedState(state.data).Some? && |State.DecodedState(state.data).value.authenticators| == 1
    ensures lib.hashes.ckb(p.publicKey) == AccountEntry(state).keyId
  {
    hide ParseAccountState;
    hide Sealed;
    hide Largest;
    hide GroupStream;
    hide AuthorizationDigest;
    hide IsDemoState;
    hide State.DecodedState;
    hide State.Validated;
    ParsedIsValidDemoState(state.data, account.expected, ParseAccountState(state.data, account.expected).value);
  }
}
