# AccountLock, verified

CKB Crypto-Agile Accounts put an account's authenticators, weights and thresholds in a *state cell* and guard its
assets with one lock script, AccountLock. The lock parses the state and an account witness, computes a digest of the
whole transaction, spawns one verifier process per proof, adds up the weights of the proofs that verify, and compares
the sum with a threshold. This project models that system from bytes to ledger and proves what it promises.

The wire formats, from the bottom up:

- `Bytes`, `Protocol`: bounded integers, little-endian codecs, the protocol's constants.
- `StateCodec`, `WitnessCodec`, `RequestCodec`, `ProofCodec`: each parser against the separately written encoder. A
  parser accepts exactly the encodings of valid values, returns what was encoded, and no accepted byte string is a
  proper prefix of another.
- `Molecule`: the table, bytes and option layouts the lock reads by hand, against what a builder writes.

- `Words`, `Layouts`: what bit tests and little-endian fields are in arithmetic, and at which offset of each format each
  field stands, so that none can be exchanged with another.

The lock:

- `Transaction`, `Sighash`: transactions as system calls show them; the group sighash with its early-break loops
  against the host's, and the digest that binds everything it should or exhibits a hash collision.
- `AccountLock`, `Policy`: `run` itself, statement by statement; what an accepted run proves about who approved it; and
  what approval a state's weights allow.
- `Scripts`, `LockOut`: serialized scripts; and for every valid state and operation, whether any transaction can ever be
  accepted.
- `Since`: how long an accepted recovery has really waited.
- `Decision`: the lock's whole decision as one predicate over scripts, witnesses, states and sets of slots, and `run`
  exact against it.
- `Rules`: the protocol's numbers spelled out (algorithms, masks 1, 2 and 4, thresholds, limits), what valid states and
  witnesses are in these terms, and that a proof of an entry without the operation's mask is never judged.
- `Binding`, `Acceptance`: exactly what the digest covers, which is neither the lock field of the first group witness nor
  the witnesses of inputs under other locks; a properly sealed transaction is prepared.
- `AccountLedger`, `ForeignLock`: live cells, steps and whole runs; and the one way a state cell can leave AccountLock.
- `Pipe`: parent and child exchanging a request in chunks of any size, as interleaved steps.

The P-256 verifier:

- `ClientData`: a grammar for what the hand-written recogniser accepts, and the recogniser proved exact against it.
- `BrowserData`: client data as a conforming browser writes it is accepted; two ways in which the recogniser is stricter
  than JSON.
- `Base64Url`: the in-place 43-byte encoder, the general encoder and an unpadded decoder (section 5 of RFC 4648).
- `VerifierP256`, `HonestPasskey`: the verifier's checks around abstract cryptography; an honest assertion is accepted,
  and one that differs from it in a single respect is not.

Around it:

- `HostConfig`, `ConfigUse`: the bootstrap configuration, accepted exactly when its own checks and the validator's extra
  ones hold; and when the account it describes can be used.
- `ConfigMeaning`: what a configuration is encoded to in terms of its own fields and of how its hex strings are spelled.
- `JsBytes`, `Frontend`, `LiveState`, `Spend`: the TypeScript codecs against the Rust ones, the live-state reader, and
  sign-then-seal: prepare over a placeholder, sign, seal, and be accepted.
- `PasskeySpend`: end to end, with the verifier spawned over the pipe, the lock accepts a sealed spend exactly when its
  assertion is good for the prepared digest.
- `SpendRules`: what a spend is built from, pays and can be sealed with, down to DER signatures; a spend signed by the
  account's passkey can always be sealed and is accepted.
- `Archive`: a staged move over a failing file system, with rollback.
- `BootstrapService`, `BootstrapRuns`: every interleaving of single-flight account creation; every flight can end, and a
  creation can succeed whenever there is no manifest.

How the model is set up:

- Hashes are uninterpreted functions. Nothing assumes that they are injective; where a claim would need it, the claim is
  "equal, or these two different byte strings have one hash".
- A verifier child is an arbitrary function from the dep it runs and the request to an exit code, or to a failed
  transport. Signature checks, fee estimation, occupied size, the transaction hash and the frontend's general JSON
  parser are arbitrary functions too.
- Fallible operations return an `Option`. Which error a rejection reports is not modelled, but for the P-256 verifier's
  exit codes 0 to 4.
- Code that changes things step by step is a method with loops, proved equal to a specification function; the lemmas
  are about that function. The code's own limits (`u8`, `u16`, `u32`, `u64`, `as u32`, JavaScript's safe integers) are
  part of the functions.

Five observations about the code that the proofs make precise:

- `resolve_state` compares the successor's type script with the consumed cell's, but not its lock. An accepted rotation
  may hand the state cell to a foreign lock, after which AccountLock is no longer asked
  (`ForeignLock.StateCanEscape`). The state cell stays guarded exactly when the transaction locks it with AccountLock
  again (`AccountLedger.GuardedStep`), and the whole-run results range over runs that do.
- The client-data recogniser is looser than JSON: it allows a trailing comma, and takes any non-empty run without a
  comma, a closing brace or white space for an unquoted value. It is also stricter: strings have no escapes, and an
  object of several members is no value (`BrowserData.EscapesAreRefused`, `BrowserData.NestedObjectsAreRefused`). So
  `finalizeSpend`, which reads client data with a general JSON parser, takes assertions that the lock refuses.
- `validate_state` does not cap an authenticator's `aux`, and counts its weight; a verifier request caps it at 4096 bytes.
  So an authenticator above that can never be approved, and a state whose thresholds need it is valid and locked out for
  good (`Policy.OversizedIsLockedOut`). What counts is the *usable* weight, that of the capable entries within the cap:
  some transaction is accepted for an operation on a valid state if and only if the usable weight meets the threshold,
  the sequence is not exhausted (unless it is a spend), and recovery is enabled (if it is one)
  (`LockOut.AcceptedExactly`). The configuration encoder, which refuses accounts it calls permanently unusable, judges by
  the whole weight and accepts one that is (`ConfigUse.UnusableIsEncoded`).
- A recovery's `since` is compared as a 64-bit word, although the chain reads its top bits as kind and metric. The threat
  model lists premature recovery as prevented by this comparison (docs/THREAT_MODEL.md:67). It is prevented exactly when
  the state asks for a relative timestamp (`Since.RecoveryWaitsExactly`); a state that asks for an absolute block can be
  recovered at once with the word for "relative, zero blocks" (`Since.PrematureRecovery`).
- The digest does not cover the witness of an input that another script locks (`Binding.OtherGroupIsFree`). Although the
  stream does not mark where the group's witnesses end, nothing besides these witnesses and the one lock field is left
  open (`Binding.CoversExactly`).

## Model

| member | source | states |
|---|---|---|
| Bytes.U16At | crates/protocol/src/wire.rs:3-7 | A `u16` read at an offset is the one number whose little-endian encoding stands there |
| Bytes.U32At | crates/protocol/src/wire.rs:9-13 | The same for `u32` |
| Bytes.U64At | crates/protocol/src/wire.rs:15-22 | The same for `u64` |
| Words.BitIsDigit | contracts/account-lock/src/main.rs:488-493 | The bit test is the last binary digit of the word divided by a power of two |
| Words.PowerHasOneBit | contracts/account-lock/src/main.rs:488-493 | A power of two has one bit, at its exponent |
| Words.BitsAreMasks | crates/protocol/src/wire.rs:39-46 | The bits tested are those of the masks 1, 2 and 4 |
| Words.U16AtIs | crates/protocol/src/wire.rs:3-7 | A `u16` field is its two bytes to base 256, the low one first |
| Words.U32AtIs | crates/protocol/src/wire.rs:9-13 | The same for four bytes |
| Words.U64AtIs | crates/protocol/src/wire.rs:15-22 | The same for eight bytes |
| StateCodec.ParseHeaderIsEncoded | crates/protocol/src/wire.rs:83-116 | A header is parsed exactly when the first 32 bytes encode it, its fields are in range and the length is within bounds |
| StateCodec.ParseAuthenticators | crates/protocol/src/wire.rs:193-255 | The offset loop finds exactly the framed entries that end at the end of the data |
| StateCodec.SummarizeIsWeights | crates/protocol/src/wire.rs:129-156 | The checked sums succeed exactly when every entry is usable, and are then the total weights per capability |
| StateCodec.ValidateState | crates/protocol/src/wire.rs:125-178 | The validator computes the header and weights specified by `Validated` |
| StateCodec.ValidatedIsEncoded | crates/protocol/src/wire.rs:125-178 | A byte string is accepted exactly when it is the encoding of one valid state, whose header and weights are reported |
| StateCodec.AcceptedStatesArePrefixFree | crates/protocol/src/wire.rs:83-255 | No proper prefix or extension of an accepted state is accepted |
| StateCodec.StateIsDetermined | crates/host/src/lib.rs:47-93 | Encodings of states are injective and prefix-free |
| StateCodec.EncodeState | crates/host/src/lib.rs:47-93 | The encoder succeeds exactly on valid states, with their one encoding |
| Layouts.StateHeaderLayout | crates/protocol/src/wire.rs:83-116 | Offset by offset, where each field of the state stands in the header |
| Layouts.EntryLayout | crates/protocol/src/wire.rs:193-255 | Offset by offset, where each field of an authenticator stands; code hash, key identifier and `aux` follow in this order |
| Layouts.EntryPlace | crates/protocol/src/wire.rs:193-255 | The entries stand one behind the other, in the state's order |
| WitnessCodec.ParseProofs | crates/protocol/src/wire.rs:282-315 | The offset loop finds exactly the framed proofs that end at the end of the data |
| WitnessCodec.ParseHeaderIsEncoded | crates/protocol/src/wire.rs:264-279 | A witness header is parsed exactly when the first 16 bytes encode it and operation and length are valid |
| WitnessCodec.ParsedWitnessIsEncoded | crates/protocol/src/wire.rs:264-315 | A witness is accepted exactly when it is the encoding of a valid witness, which is what is returned |
| WitnessCodec.WitnessIsDetermined | crates/host/src/lib.rs:95-125 | Encodings of witnesses are injective and prefix-free |
| WitnessCodec.EncodeWitness | crates/host/src/lib.rs:95-125 | The encoder succeeds exactly on valid witnesses of at most 16 proofs |
| Layouts.WitnessHeaderLayout | crates/protocol/src/wire.rs:264-279 | Where each field of a witness stands in the header, and the proofs behind it |
| Layouts.ProofLayout | crates/protocol/src/wire.rs:282-315 | Where slot, length and bytes of a proof stand |
| Layouts.ProofPlace | crates/protocol/src/wire.rs:282-315 | The proofs stand one behind the other, in the witness's order |
| RequestCodec.ParsedRequestIsEncoded | crates/protocol/src/wire.rs:330-379 | A request is accepted exactly when it is the encoding of a valid request, which is what is returned |
| RequestCodec.RequestIsDetermined | crates/protocol/src/wire.rs:330-379 | Encodings of requests are injective and prefix-free |
| RequestCodec.EncodeVerifierRequest | crates/host/src/lib.rs:127-168 | The host encodes exactly the valid requests; the total-length check adds nothing to the limits on the parts |
| RequestCodec.EncodeRequest | contracts/account-lock/src/main.rs:395-425 | The lock encodes an authenticator's request exactly when the host does, to the same bytes |
| Layouts.RequestLayout | crates/protocol/src/wire.rs:330-379 | Where each field of a request stands |
| Layouts.LockRequestLayout | contracts/account-lock/src/main.rs:395-425 | The lock's request carries the authenticator's slot, algorithm, key and `aux`, the operation, the digest and the proof, each in its place |
| ProofCodec.ParsedPublicKeyProofIsEncoded | crates/protocol/src/wire.rs:387-409 | A public-key proof is accepted exactly when it is the encoding of two non-empty fields |
| ProofCodec.EncodePublicKeyProof | crates/host/src/lib.rs:201-216 | The encoder succeeds exactly on fields a `u16` can measure, and its self-check always passes |
| ProofCodec.ParseProof | contracts/verifier-p256/src/main.rs:39-81 | The cursor-based parser computes `ParseP256Proof` |
| ProofCodec.ParsedP256ProofIsEncoded | contracts/verifier-p256/src/main.rs:39-81 | A P-256 proof is accepted exactly when it is the encoding of a valid proof, which is what is returned |
| ProofCodec.EncodeP256Proof | crates/host/src/lib.rs:170-199 | The host encodes exactly the valid proofs whose key starts with 0x04 |
| Layouts.PublicKeyProofLayout | crates/protocol/src/wire.rs:387-409 | Where the two fields of a public-key proof stand |
| Layouts.P256ProofLayout | contracts/verifier-p256/src/main.rs:39-81 | Where the five fields of a P-256 proof stand |
| Molecule.Table3IsPacked | contracts/account-lock/src/main.rs:65-76 | The lock's table reader accepts exactly what a builder can write for three fields, and returns the fields |
| Molecule.MoleculeBytesIsPacked | contracts/account-lock/src/main.rs:78-87 | The lock's bytes reader accepts exactly a builder's encoding of the content it returns |
| Molecule.WitnessArgsArePacked | crates/host/src/lib.rs:298-301 | Strict reading of `WitnessArgs` accepts exactly what is packed |
| Molecule.CanonicalIsEmptyLock | contracts/account-lock/src/main.rs:97-116 | The canonical witness is the same table with an empty lock |
| Molecule.CanonicalIsIdempotent | contracts/account-lock/src/main.rs:97-116 | Canonicalising twice equals once |
| Molecule.CanonicalIgnoresLock | contracts/account-lock/src/main.rs:97-116 | Witnesses that differ in the lock field alone have one canonical form |
| Molecule.CanonicalAgrees | crates/host/src/lib.rs:298-306 | On Molecule-valid witnesses the lock's canonical form is the host's |
| Layouts.TableLayout | contracts/account-lock/src/main.rs:65-76 | Size, three offsets and three fields of a table |
| Layouts.OptionLayout | contracts/account-lock/src/main.rs:78-87 | An absent field is empty; a present one is its length and content |
| Transaction.GroupMembers | contracts/account-lock/src/main.rs:296-332 | The lock group is the indices of the inputs with the script |
| Transaction.GroupIsAscending | contracts/account-lock/src/main.rs:296-332 | Group indices ascend, which is why the early break is harmless |
| Sighash.GroupLoopTurn | contracts/account-lock/src/main.rs:306-316 | One turn of the group loop adds the next covered witness, or none is left beyond the break |
| Sighash.HashGroupRest | contracts/account-lock/src/main.rs:306-316 | The group loop hashes every witness of the group from the second on |
| Sighash.HashExtras | contracts/account-lock/src/main.rs:317-328 | The extra-witness loop hashes every witness past the inputs |
| Sighash.CanonicalGroupSighash | contracts/account-lock/src/main.rs:296-332 | The lock hashes exactly `GroupStream`, and fails exactly when it has none |
| Sighash.LockStreamIsHostStream | contracts/account-lock/src/main.rs:271-332 | On Molecule-valid first witnesses within the cap the lock's stream is the host's, byte for byte |
| Sighash.GroupSighash | crates/host/src/lib.rs:284-319 | The host hashes exactly `HostStream` |
| Sighash.StreamIsInjective | contracts/account-lock/src/main.rs:271-332 | The stream determines the transaction hash and the ordered list of covered witnesses |
| Sighash.PreimageIsInjective | contracts/account-lock/src/main.rs:334-355 | The digest's preimage determines each of its fields |
| Sighash.DigestBindsContext | contracts/account-lock/src/main.rs:271-355 | Equal digests mean equal contexts, or a collision can be read off them |
| Layouts.MessageLayout | contracts/account-lock/src/main.rs:334-355 | The preimage is the one sequence of 124 bytes with domain, operation, account, sequence, state hash and group sighash at their offsets |
| Layouts.LockDigest | contracts/account-lock/src/main.rs:334-355 | The lock's digest is the hash of a message with that layout |
| Layouts.HostDigest | crates/host/src/lib.rs:264-282 | So is the host's, which refuses unknown operations |
| Layouts.StreamLayout | contracts/account-lock/src/main.rs:271-332 | The stream starts with the transaction hash; before each covered witness stand eight bytes that are its length |
| Layouts.CoveredOrder | contracts/account-lock/src/main.rs:296-332 | The covered witnesses: the canonical first, the group's others in order, then those past the inputs |
| Rules.RunDigestIs | contracts/account-lock/src/main.rs:458-487 | The digest a run asks about is that of its own operation, account, sequence, state data and sighash |
| AccountLock.MatchingTypeIndices | contracts/account-lock/src/main.rs:156-170 | The scan returns the indices of the cells of a type, in order |
| AccountLock.ResolveState | contracts/account-lock/src/main.rs:178-226 | State resolution computes `Resolve` |
| AccountLock.ResolvedSpend | contracts/account-lock/src/main.rs:178-198 | A spend is resolved exactly when no input and one dep has the account's type; its state is that dep's data |
| AccountLock.ResolvedChange | contracts/account-lock/src/main.rs:199-226 | A rotation or recovery is resolved exactly when one input and one output have the type, with the same type script bytes |
| AccountLock.FindAuthenticator | contracts/account-lock/src/main.rs:357-370 | The second parse finds the entry of a slot |
| AccountLock.ResolveVerifier | contracts/account-lock/src/main.rs:372-393 | The scan that stops at a second match computes `VerifierDep` |
| AccountLock.VerifierDepIsOnly | contracts/account-lock/src/main.rs:372-393 | A verifier is resolved exactly when one dep alone runs it |
| AccountLock.JudgeProof | contracts/account-lock/src/main.rs:488-502 | One proof's lookup, capability check, request and child add up to `Judge` |
| Rules.AlgorithmsAre | crates/protocol/src/wire.rs:31-36 | Five algorithm numbers are supported and no others |
| Rules.OperationsAre | crates/protocol/src/wire.rs:39-46 | Operations 1, 2 and 3 ask for the masks 1, 2 and 4 and for the threshold of their name |
| Rules.ValidIsLegal | crates/protocol/src/wire.rs:83-255 | A valid state in numbers: limits, ascending slots, thresholds met by the weights of the entries with each mask |
| Rules.ValidWitnessIsLegal | crates/protocol/src/wire.rs:264-315 | A valid witness in numbers |
| Rules.ValidRequestIsLegal | crates/protocol/src/wire.rs:330-379 | A valid request in numbers |
| Rules.IncapableIsNotJudged | contracts/account-lock/src/main.rs:488-493 | A proof of an entry without the operation's mask makes the run fail, whatever its verifier says |
| Rules.AcceptedProofsHaveMask | contracts/account-lock/src/main.rs:481-506 | In an accepted run every proof is of an entry of the state with the operation's mask |
| AccountLock.RunLock | contracts/account-lock/src/main.rs:458-507 | `run` accepts exactly when the specification `Run` does |
| Policy.TallyIsSlotWeight | contracts/account-lock/src/main.rs:488-502 | The accumulated weight is the weight of the set of approved slots: no slot counts twice |
| Policy.TallyCannotOverflow | contracts/account-lock/src/main.rs:496-499 | With at most 16 proofs the checked sum never overflows; only a failing proof fails it |
| Policy.PreparedTask | contracts/account-lock/src/main.rs:458-480 | Whatever comes before the proofs holds of a valid state, a resolved cell and a legal transition |
| Policy.AcceptedIsApproved | contracts/account-lock/src/main.rs:458-507 | An accepted run has a non-empty set of distinct capable slots, each approved by its one verifier on its own request, whose weight meets the threshold and never exceeds the usable or the summary weight; recovery also has its flag and its `since` |
| Policy.AcceptedNeedsUsable | contracts/account-lock/src/main.rs:395-425 | Whatever is accepted, the entries that hold the capability with an `aux` of at most 4096 bytes weigh at least the threshold |
| Policy.UsableSetDecides | contracts/account-lock/src/main.rs:488-505 | The full set of usable slots with accepting verifiers is accepted exactly when the usable weight meets the threshold, and earns exactly that weight |
| Policy.UnlockedExactly | contracts/account-lock/src/main.rs:458-507 | A prepared transaction whose proofs name all usable slots, each with one verifier dep and a proof that fits a request, is accepted under some behaviour of the verifiers if and only if the usable weight meets the threshold |
| Policy.UsableIsCapable | crates/protocol/src/wire.rs:125-178 | The usable weight is at most the summary weight, and is it when every capable entry's `aux` fits a request |
| Policy.OversizedIsLockedOut | crates/protocol/src/wire.rs:125-178 | A state with a 4097-byte `aux` is valid, and no run whatever is accepted on it |
| Policy.FullWitnessExists | crates/protocol/src/wire.rs:282-315 | For every valid state and operation the witness that names all usable slots is valid exactly when it fits the length limit, as it does when no proof exceeds 8183 bytes |
| LockOut.AcceptedIsPermitted | contracts/account-lock/src/main.rs:228-269 | Whatever is accepted, the state's usable weight meets the threshold, its sequence can grow if it is changed, and recovery is enabled if it is recovered |
| LockOut.UsageIsAccepted | contracts/account-lock/src/main.rs:458-507 | For every valid state that permits an operation, a transaction with serialized scripts and a dep for each named verifier is accepted, whatever `since` its input has from the state's on |
| LockOut.AcceptedExactly | contracts/account-lock/src/main.rs:458-507 | For every valid state and operation some transaction is accepted if and only if the usable weight meets the threshold, the sequence is below 2^64 - 1 unless it is a spend, and recovery is enabled if it is one |
| LockOut.LastSequenceOnlySpends | contracts/account-lock/src/main.rs:239-245 | At sequence 2^64 - 1 nothing but a spend is ever accepted |
| Since.SameKindWaits | contracts/account-lock/src/main.rs:257-267 | Between block numbers, or between timestamps, of one kind the lock's comparison is a comparison of waits |
| Since.ComparisonEnforcesExactly | contracts/account-lock/src/main.rs:257-267 | Comparing whole words enforces a wait on every input exactly when it is a relative timestamp, or no wait |
| Since.PrematureRecovery | contracts/account-lock/src/main.rs:257-267 | A state that asks for an absolute block can be recovered at once on every chain, with the word for "relative, zero blocks" |
| Since.RecoveryWaitsExactly | contracts/account-lock/src/main.rs:228-269 | For a recoverable state, every accepted recovery that the chain lets in has waited as asked exactly when what is asked is a relative timestamp, or no wait |
| Binding.PreparedDigest | contracts/account-lock/src/main.rs:334-355 | The digest of a run is that of the context read off the transaction |
| Binding.EqualDigestsBindRuns | contracts/account-lock/src/main.rs:271-355 | Two runs with one digest authorize the same thing in the same transaction, or exhibit a collision |
| Binding.SealingKeepsCovered | contracts/account-lock/src/main.rs:97-116 | Replacing only the lock field of the first group witness changes nothing the digest covers |
| Binding.ListsAreSeparate | contracts/account-lock/src/main.rs:306-328 | With the same inputs, the group's witnesses and the extra ones can be told apart in the stream although it does not mark the boundary |
| Binding.CoversExactly | contracts/account-lock/src/main.rs:296-332 | With the same inputs, two transactions cover the same list, and with the same hash the same stream, exactly when they agree on the first group witness but for its lock, the rest of the group and the extras |
| Binding.OtherGroupIsFree | contracts/account-lock/src/main.rs:296-332 | The witness of an input under another lock is not covered |
| Decision.RanIsJudged | contracts/account-lock/src/main.rs:488-502 | A proof does not fail the run exactly when its slot is capable and its one verifier ended on the slot's request |
| Decision.TallyDecides | contracts/account-lock/src/main.rs:487-505 | The running sum meets the threshold exactly when the approving slots weigh enough |
| Decision.ActsOnIs | contracts/account-lock/src/main.rs:178-269 | Resolution and transition succeed exactly when one dep holds the state of a spend, or one input holds it and one output, under the same type script, a valid state one sequence further, with recovery's flag and `since` |
| Decision.AcceptsExactly | contracts/account-lock/src/main.rs:458-507 | The lock accepts exactly the transactions with an account script, an encoded witness, an encoded valid state, a legal change, a verifier that ended for every proof, and approving slots that weigh enough |
| Acceptance.SealedIsPrepared | contracts/account-lock/src/main.rs:458-480 | A sealed witness, a resolved valid state and a legal transition are enough to reach the proofs |
| AccountLedger.IdleStep | contracts/account-lock/src/main.rs:178-226 | A step that does not consume the state cell leaves it the only one, unchanged |
| AccountLedger.AcceptedChange | contracts/account-lock/src/main.rs:199-269 | An accepted run that consumes the account's state is a rotation or recovery of it, one sequence further |
| AccountLedger.SuccessorIsState | contracts/account-lock/src/main.rs:199-226 | The one output of the type becomes the one live cell of the type |
| AccountLedger.ChangeStep | contracts/account-lock/src/main.rs:458-507 | A change of a guarded state is approved under that very state |
| AccountLedger.GuardedStep | contracts/account-lock/src/main.rs:178-269 | One state cell is left with the right sequence, and is guarded exactly when the transaction guards it |
| AccountLedger.RunKeepsState | contracts/account-lock/src/main.rs:178-269 | Over every guarded run one live cell carries the type script, and its sequence counts the changes |
| AccountLedger.RunChangesAreApproved | contracts/account-lock/src/main.rs:458-507 | In such a run every change is approved by the state it replaces, never by its own |
| AccountLedger.AcceptedReadsLiveState | contracts/account-lock/src/main.rs:178-226 | Whatever is accepted was judged by the state live at that moment, or a type script collides |
| ForeignLock.RotationIsAccepted | contracts/account-lock/src/main.rs:199-226 | For any hash functions and Type ID, any lock and verifier code whose data hashes differ, and any lock script other than the account's own, a rotation that hands the state cell to that lock is accepted |
| ForeignLock.StateCanEscape | contracts/account-lock/src/main.rs:199-226 | In the same setting the next transaction destroys the state cell without AccountLock |
| Pipe.ChunksDoNotMatter | contracts/verifier-p256/src/main.rs:83-131 | Reading in two chunks is reading in one: the child's state depends on the bytes alone |
| Pipe.NextKeepsInv | contracts/account-lock/src/main.rs:427-456 | After every step the bytes read and in the pipe are what has been sent of the request |
| Pipe.AcceptedIsTheRequest | contracts/verifier-p256/src/main.rs:95-131 | A child that succeeds holds exactly the parent's request; missing or trailing bytes are refused |
| Pipe.SomeActionIsEnabled | contracts/account-lock/src/main.rs:427-456 | No reachable state is stuck |
| Pipe.EveryActionIsProgress | contracts/account-lock/src/main.rs:427-456 | Every step comes closer to the end |
| Pipe.TraceKeepsInv | contracts/account-lock/src/main.rs:427-456 | Every interleaving keeps the invariant and ends within `2 * length + 3` steps |
| Pipe.TransferIsExact | contracts/account-lock/src/main.rs:427-456 | Every finished transfer of a complete request ran the child on exactly that request, and reports its exit code |
| Pipe.TransferEnds | contracts/account-lock/src/main.rs:427-456 | Every transfer, wherever it has got to, can be brought to rest |
| Pipe.EncodedRequestIsComplete | contracts/account-lock/src/main.rs:395-425 | Every request the lock encodes is complete |
| ClientData.ParsedDocumentIsRead | contracts/verifier-p256/src/main.rs:164-260 | A byte string is read exactly when it is written by a valid document of the grammar, and by one only |
| ClientData.SkipWs | contracts/verifier-p256/src/main.rs:164-172 | The cursor passes the longest run of white space |
| ClientData.JsonString | contracts/verifier-p256/src/main.rs:174-192 | The string reader is `TakeText` at the cursor |
| ClientData.SkipPrimitive | contracts/verifier-p256/src/main.rs:194-207 | The primitive reader is `TakePrimitive` at the cursor |
| ClientData.ValidateClientData | contracts/verifier-p256/src/main.rs:209-260 | The recogniser accepts exactly the documents in which type, challenge and origin each occur once, with the expected values |
| BrowserData.WrittenIsAccepted | contracts/verifier-p256/src/main.rs:209-260 | Client data in the limited serialization (type, challenge, origin, crossOrigin) is accepted for its challenge and origin, if neither needs an escape |
| BrowserData.DigestIsAccepted | contracts/verifier-p256/src/main.rs:262-308 | So it is for every authorization digest |
| BrowserData.EscapesAreRefused | contracts/verifier-p256/src/main.rs:174-192 | A further member whose string starts with an escape makes such client data refused, whatever it is for |
| BrowserData.NestedObjectsAreRefused | contracts/verifier-p256/src/main.rs:194-207 | So does a further member that is an object of two members |
| BrowserData.NamesAreSpelled | contracts/verifier-p256/src/main.rs:209-260 | The member names and values looked for, as text |
| BrowserData.WrittenIsSpelled | contracts/verifier-p256/src/main.rs:209-260 | The limited serialization, as text |
| BrowserData.BytesAreClassified | contracts/verifier-p256/src/main.rs:164-207 | Which bytes are white space, end a string or end a primitive |
| BrowserData.AcceptedDocument | contracts/verifier-p256/src/main.rs:209-260 | A document is accepted exactly when the members type, challenge and origin occur once each, with the expected text |
| Base64Url.EncodingIsBijective | crates/host/examples/export_frontend_vectors.rs:33-51 | The encoding and an unpadded decoder of RFC 4648 undo each other |
| Base64Url.Base64Url | crates/host/examples/export_frontend_vectors.rs:33-51 | The chunk loop computes the encoding of any input |
| Base64Url.Base64UrlDigest | contracts/verifier-p256/src/main.rs:141-162 | The 43-byte array filled in place is the encoding of the 32 bytes |
| Base64Url.AlphabetIs | contracts/verifier-p256/src/main.rs:141-162 | The table is A-Z, a-z, 0-9, minus and underscore |
| Base64Url.ChunkIsNumber | contracts/verifier-p256/src/main.rs:141-162 | The four symbols of a chunk are the digits to base 64 of its bytes as one number, the high one first |
| Base64Url.RfcExamples | crates/host/examples/export_frontend_vectors.rs:33-51 | The examples of section 10 of RFC 4648, without padding |
| VerifierP256.Verify | contracts/verifier-p256/src/main.rs:262-308 | The verifier exits 0 exactly on requests whose proof proves possession of the key for the digest, 1 exactly if only the signature is wrong, 2 to 4 exactly on malformed requests, other algorithms and other profiles |
| VerifierP256.ClientDataFixesChallenge | contracts/verifier-p256/src/main.rs:209-260 | Client data is accepted for one challenge and one origin at most |
| VerifierP256.ClientDataFixesDigest | contracts/verifier-p256/src/main.rs:141-260 | Client data is accepted for one authorization digest at most |
| VerifierP256.AssertionIsGoodForOneContext | contracts/verifier-p256/src/main.rs:262-308 | One assertion approves one operation of one transaction, or a collision can be read off the two |
| HonestPasskey.FlagsAre | contracts/verifier-p256/src/main.rs:280-284 | The flags suffice exactly when the bits of 0x05 are set |
| HonestPasskey.AcceptsExactly | contracts/verifier-p256/src/main.rs:262-308 | The decision on an encoded proof, condition by condition, with the signature over authenticator data and client data hash in this order |
| HonestPasskey.AssertionIsAccepted | contracts/verifier-p256/src/main.rs:262-308 | What an honest browser and authenticator make of a digest is accepted, for every key pair, relying party, origin and counter |
| HonestPasskey.VerifyHonest | contracts/verifier-p256/src/main.rs:262-308 | And so the verifier exits 0 |
| HonestPasskey.OtherRelyingPartyIsRefused | contracts/verifier-p256/src/main.rs:280-284 | Authenticator data for another relying party is refused |
| HonestPasskey.OtherOriginIsRefused | contracts/verifier-p256/src/main.rs:276-279 | An origin of another hash is refused |
| HonestPasskey.MissingFlagIsRefused | contracts/verifier-p256/src/main.rs:280-284 | Without presence or without verification an assertion is refused |
| HonestPasskey.OtherMessageIsRefused | contracts/verifier-p256/src/main.rs:302-306 | A signature that does not verify for this very message is refused |
| HostConfig.SumsAgree | crates/host/src/config.rs:122-128 | The iterator sum is the validator's weight |
| HostConfig.CheckedIsValid | crates/host/src/config.rs:155-222 | Behind its own checks a configuration is valid exactly when algorithms, size and unused recovery fields are |
| HostConfig.Encode | crates/host/src/config.rs:155-222 | Encoding succeeds exactly when both sets of checks hold |
| HostConfig.EncodedConfigDecodes | crates/host/src/config.rs:155-222 | The bytes decode to the configuration with sequence 0, and the validator's weights are the configuration's sums |
| ConfigMeaning.ParsedIsSpelled | crates/host/src/config.rs:25-28 | A string is read as the bytes whose digits it spells in either case, behind an optional 0x |
| ConfigMeaning.PrintedIsParsed | crates/host/src/config.rs:25-28 | Printed bytes are read back, in lower or upper case, with or without 0x |
| ConfigMeaning.ConvertedExactly | crates/host/src/config.rs:62-120 | An authenticator is converted exactly to the entry with its numbers and the bytes its three strings spell, if these are in range |
| ConfigMeaning.EncodesExactly | crates/host/src/config.rs:155-222 | A configuration is accepted exactly when it describes a valid state, which is what is encoded |
| ConfigMeaning.DecodedConfigIs | crates/host/src/config.rs:155-222 | Field by field and entry by entry, what the produced bytes decode to: thresholds, flags and `recoverySince` are the configuration's, and code hash, key identifier and `aux` are what the strings of these names spell |
| ConfigUse.EncodedIsUsableExactly | crates/host/src/config.rs:130-222 | The account of an accepted configuration is usable for an operation exactly when its usable weight meets the threshold, and recovery, where asked for, is enabled |
| ConfigUse.P256IsAlwaysUsable | crates/host/src/config.rs:62-120 | It always is when every authenticator is P-256, recovery if enabled |
| ConfigUse.UnusableIsEncoded | crates/host/src/config.rs:130-222 | A configuration with one ML-DSA authenticator and 4097 bytes of `aux` is accepted, and nothing can ever be done with its account |
| JsBytes.BytesConcat | demo/src/shared/bytes.ts:20-35 | The buffer filled by offset holds all parts in order, or the length is no safe integer |
| JsBytes.HexFromBytes | demo/src/shared/bytes.ts:12-18 | Two lowercase digits a byte behind 0x |
| JsBytes.BytesFromHex | demo/src/shared/bytes.ts:1-10 | Exactly what is written for a non-empty byte string is accepted, and gives it back |
| JsBytes.HexIsPrinted | demo/src/shared/bytes.ts:12-18 | Digit by digit, what is printed |
| JsBytes.NumbersAre | demo/src/shared/bytes.ts:37-55 | A JavaScript number is taken for an unsigned integer exactly when it is a whole number within the limit |
| Frontend.EncodeP256 | demo/src/shared/protocol.ts:54-79 | The same inputs and bytes as the host's P-256 proof encoder |
| Frontend.EncodeSlotProofs | demo/src/shared/protocol.ts:90-108 | The loop accepts exactly the framed proofs and writes their bytes |
| Frontend.EncodeAccountWitness | demo/src/shared/protocol.ts:81-119 | The same inputs and bytes as the host's witness encoder |
| Frontend.GroupSighashOf | demo/src/shared/protocol.ts:121-150 | The host's group sighash, unless the stream exceeds JavaScript's safe integers |
| Frontend.AuthorizationDigestOf | demo/src/shared/protocol.ts:152-166 | The host's digest of fields of the right length |
| Frontend.OperationsAre | demo/src/shared/protocol.ts:37-41 | Exactly the numbers 1, 2 and 3 are operations |
| Frontend.PackedWitnessIsRead | demo/src/shared/protocol.ts:168-178 | A packed witness is read back by the frontend and by the lock |
| LiveState.ParsedIsDecoded | demo/src/client/chain.ts:116-169 | An accepted live state decodes to the one state with the values read |
| LiveState.ParsedIsValidDemoState | demo/src/client/chain.ts:116-169 | The frontend accepts exactly the validator's states of its profile, with their sequence and key identifier |
| SpendRules.LiveStateLayout | demo/src/client/chain.ts:116-169 | Byte by byte, the live state that is accepted |
| Spend.Seal | demo/src/client/chain.ts:253-265 | The three encoders in a row give the sealed witness for every key in SEC1 form |
| Spend.ReservationSuffices | demo/src/client/chain.ts:253-265 | No sealed witness is longer than the placeholder |
| Spend.SealedStream | demo/src/client/chain.ts:320-329 | The stream hashed over one sealed witness is the one the lock reads off the transaction |
| Spend.ScanForAsset | demo/src/client/chain.ts:201-225 | The scan that stops at a second asset finds a cell exactly when all cells are as expected and it is the only asset |
| Spend.DiscoverAccountCells | demo/src/client/chain.ts:184-251 | Discovery succeeds exactly when the manifest's state cell is live and verified and the one asset cell found is the manifest's, live and unchanged |
| Spend.PrepareOver | demo/src/client/chain.ts:283-368 | Over discovered cells a spend is prepared exactly when its checks hold; transfer, change and fee add up to the input, change is positive, and the digest is that of this transaction |
| Spend.PrepareSpend | demo/src/client/chain.ts:274-368 | A spend is prepared exactly when cells are discovered over which it can be, and is then that spend |
| Spend.FinalizeSpend | demo/src/client/chain.ts:408-455 | An assertion is sealed exactly when it is acceptable and fits; only the witness differs from what was prepared |
| Spend.ValidateDerSignature | demo/src/client/chain.ts:397-406 | The check accepts exactly `IsBoundedDer` |
| SpendRules.BoundedDerIs | demo/src/client/chain.ts:397-406 | That is a sequence whose second byte counts the 6 to 70 bytes behind it |
| SpendRules.DerIsBounded | demo/src/client/chain.ts:397-406 | The DER encoding of every pair of 256-bit integers is such a sequence, of 8 to 72 bytes |
| SpendRules.FinalizedExactly | demo/src/client/chain.ts:408-440 | When an assertion can be sealed, in figures |
| SpendRules.MiscountedDerIsRefused | demo/src/client/chain.ts:397-406 | A signature whose second byte does not count the bytes behind it is refused |
| SpendRules.SpendPays | demo/src/client/chain.ts:283-345 | The input pays the outputs and the fee, 100 CKB go to the funder, and each output covers what it occupies |
| SpendRules.PreparedExactly | demo/src/client/chain.ts:267-318 | When a spend can be prepared, in shannons |
| SpendRules.StrangeCellsAreRefused | demo/src/client/chain.ts:201-222 | A found cell under another lock, or besides the state cell one with a type or data, ends discovery |
| SpendRules.SecondAssetIsRefused | demo/src/client/chain.ts:220-225 | So does a second asset |
| SpendRules.ChangedAssetIsRefused | demo/src/client/chain.ts:226-249 | So does an asset at another out point or of another capacity than the node reports |
| SpendRules.LiveCellsAreDiscovered | demo/src/client/chain.ts:184-251 | The manifest's two cells are discovered in either order |
| Spend.SealingKeepsStream | demo/src/client/chain.ts:446-454 | Replacing one sealed witness by another leaves the hashed stream as it was |
| Spend.SealedSpendIsPrepared | contracts/account-lock/src/main.rs:458-480 | The lock reaches the proof of a sealed spend with the digest that was signed |
| Spend.OneProofDecides | contracts/account-lock/src/main.rs:481-506 | With one authenticator and one proof, acceptance is the child's verdict |
| Spend.SealedSpendIsAccepted | demo/src/client/chain.ts:408-455 | The reservation check never fires; and if the lock's arguments name the hash of the state's type script, no code dep has that type, and the verifier's code hash is that of its dep alone, the lock accepts the sealed spend exactly when the verifier exits 0 on the request for the signed digest |
| PasskeySpend.RequestIsDecided | contracts/verifier-p256/src/main.rs:262-308 | The request of a sealed spend is accepted exactly when its assertion proves possession of the passkey |
| PasskeySpend.TransferDecides | contracts/account-lock/src/main.rs:427-456 | However parent and child interleave, the parent learns exit code 0 exactly when the P-256 verifier accepts the request |
| PasskeySpend.VerifierCanBeSpawned | contracts/verifier-p256/src/main.rs:95-131 | There is a child whose every answer is the outcome of such a transfer |
| PasskeySpend.SpendNeedsThePasskey | demo/src/client/chain.ts:274-455 | Under the same deployment, with the P-256 verifier spawned over the pipe, the lock accepts a sealed spend exactly when its assertion is good for the prepared digest |
| SpendRules.HonestSpendIsAccepted | demo/src/client/chain.ts:274-455 | A prepared spend signed by the account's passkey, with signatures in DER, can be sealed, and the lock accepts it |
| Archive.WriteSummary | demo/test/support/real-testnet-state.ts:178-210 | A failed write leaves at most a summary or a temporary file in staging; a successful one leaves the summary |
| Archive.TryArchive | demo/test/support/real-testnet-state.ts:353-398 | Wherever it stops, every item is where the progress says; at the end the archive holds everything |
| Archive.Publish | demo/test/support/real-testnet-state.ts:377-398 | The same from the reservation of the archive on |
| Archive.RollBack | demo/test/support/real-testnet-state.ts:399-423 | A rollback is reported complete exactly when the file system is what it was; either way nothing is lost or duplicated |
| Archive.ArchiveRealTestnetState | demo/test/support/real-testnet-state.ts:327-423 | The four ways to end, each with the exact file system it leaves |
| Archive.ArchivableExactly | demo/test/support/real-testnet-state.ts:235-277 | What may be archived: a registered run alone, a manifest alone, or a later run with the manifest of its account |
| Archive.ValidateArchiveState | demo/test/support/real-testnet-state.ts:235-277 | The check accepts exactly these; run and manifest agree on account and creation hash |
| BootstrapService.NextKeepsInv | demo/src/server/service.ts:84-219 | Every step of every interleaving keeps single flight, and none overwrites a manifest |
| BootstrapService.RunsAreSingleFlight | demo/src/server/service.ts:191-219 | At most one creation in flight; callers share one of their own key only; broadcasts start on a verified deployment and without a manifest |
| BootstrapService.BroadcastsAreAccounted | demo/src/server/service.ts:113-189 | Every broadcast recorded the manifest, ended without one, or is under way |
| BootstrapRuns.PlayIsRun | demo/src/server/service.ts:84-219 | Events that can be played one after the other are a run |
| BootstrapRuns.CreationSucceeds | demo/src/server/service.ts:113-219 | Whenever no creation is in flight and there is no manifest, one can succeed: it broadcasts once, records its account and leaves the service free |
| BootstrapRuns.AccountCanBeCreated | demo/src/server/service.ts:113-219 | From the start of a service without an account there is a run that creates one |
| BootstrapRuns.FlightGoesOn | demo/src/server/service.ts:113-219 | However the deployment check and everything awaited turn out, the active flight can go on towards its end |
| BootstrapRuns.ServiceBecomesFree | demo/src/server/service.ts:191-219 | From wherever a run has come to, the service can become free again |
| BootstrapRuns.CallsWhileActive | demo/src/server/service.ts:191-219 | While a flight is active, a call for another key changes nothing and one for the same key joins it |
| BootstrapRuns.ExistingIsCompared | demo/src/server/service.ts:124-140 | A flight that finds a manifest compares it and never broadcasts |

## Left out

- Since.RecoveryWaitsExactly: how the chain compares epochs is an arbitrary predicate, and the other inputs' `since` values
  are not looked at.
- BrowserData.WrittenIsAccepted: origins that a browser would escape, and further members of the client data.
- LockOut.AcceptedExactly: the hash functions are chosen for the state; for given ones, whether code with a named hash
  exists is not for the lock to decide.
- Cryptography (P-256, ML-DSA, SLH-DSA, SHA-256, blake2b): hashes are uninterpreted, signature checks arbitrary.
- System calls beyond their results: partial loads in `load_bounded`, cycle and memory limits. An index out of bounds is
  an absent value.
- Error codes and their order: an operation succeeds or fails; which `ProtocolError` it reports is not modelled.
- The callbacks of `parse_authenticators` and `parse_proofs` run on the collected list after parsing instead of during
  it; since callbacks have no effect but their result, only the choice of error could differ.
- Type ID creation: the built-in script is a rule of `AccountLedger`, stated for transactions after the creation.
- Writes of zero bytes to a pipe, which the loop in `spawn_verifier` treats as an error, and file descriptor inheritance.
- `verifier-mldsa-adapter`, `verifier-slhdsa-adapter`, `verifier-fixture`: their request reading is the P-256 verifier's.
- AccountLock.RunLock: says when the program succeeds; what it succeeds on is said by `Policy.AcceptedIsApproved`.
- Policy.FullWitnessExists: sixteen proofs of more than 8183 bytes each do not fit a witness; the protocol has no other
  way to carry them.
- Molecule.WitnessArgsArePacked: packing is not defined beyond 2^32 - 1 bytes, where the host's library would misbehave.
- Frontend.GroupSighashOf: the library's reading of `WitnessArgs` is taken to be strict, as the Rust one is.
- Spend.PrepareSpend: deps come resolved, the indexer's answer is one list, and address parsing is not modelled; neither
  is any relation between the fee and the size.
- Spend.FinalizeSpend: the reading of client data by a general JSON parser is an arbitrary predicate (`authorizes`), as
  the parser is a foreign library; what the chain demands of client data is in `ClientData`. The check that the
  transaction hash did not change is an assertion, because it always holds.
- VerifierP256.Verify: exit codes 5 to 9 are not told apart.
- Archive.ArchiveRealTestnetState: nobody else touches these paths, apart from the hook, which may create the archive
  directory; a failing operation has no effect; symbolic links and file modes are not modelled.
- BootstrapService.RunsAreSingleFlight: about one process; a manifest written by another one in between is outside it.
- HTTP server, user interface, storage, browser calls, schemas, deployment tools, release scripts: single-branch checks
  and input or output.
- `mergeRun`, `decideNextAction`: finite tables.
