/** AccountStateV1: the state cell's bytes, their validator and their encoder. */
module StateCodec {
  import opened Bytes
  import opened Protocol

  datatype Entry = Entry(
    slot: U16,
    algorithmId: U16,
    capabilities: U16,
    weight: U16,
    verifierHashType: Byte,
    verifierAbi: Byte,
    verifierCodeHash: Digest,
    keyId: Bytes,
    aux: Bytes)

  datatype StateHeader = StateHeader(
    flags: Byte,
    sequence: U64,
    spendThreshold: U16,
    rotateThreshold: U16,
    recoveryThreshold: U16,
    authenticatorCount: Byte,
    recoverySince: U64)

  datatype StateSummary = StateSummary(spendWeight: U32, rotateWeight: U32, recoveryWeight: U32)

  datatype AccountState = AccountState(
    flags: Byte,
    sequence: U64,
    spendThreshold: U16,
    rotateThreshold: U16,
    recoveryThreshold: U16,
    recoverySince: U64,
    authenticators: seq<Entry>)

  // ----- What a valid state is -----

  function EntrySize(e: Entry): nat {
    ENTRY_FIXED_LEN + |e.keyId| + |e.aux|
  }

  function EntriesSize(es: seq<Entry>): nat {
    if es == [] then 0 else EntrySize(es[0]) + EntriesSize(es[1..])
  }

  /** What the framing loop demands of one entry that follows slot `prev` (-1 before the first). */
  predicate Framed(e: Entry, prev: int) {
    && EntrySize(e) <= U16_MAX
    && prev < e.slot
    && e.weight != 0
    && e.capabilities < CAP_KNOWN_LIMIT
    && e.verifierHashType <= 1
    && e.verifierAbi == VERIFIER_ABI_V1
  }

  predicate FramedEntries(es: seq<Entry>, prev: int) {
    es != [] ==> Framed(es[0], prev) && FramedEntries(es[1..], es[0].slot)
  }

  /** What the validator's callback demands of each entry besides its framing. */
  predicate UsableEntry(e: Entry) {
    IsSupportedAlgorithm(e.algorithmId) && |e.keyId| == 32 && e.aux != []
  }

  /** Total weight of the entries that hold a capability. */
  function CapWeight(es: seq<Entry>, cap: nat): nat {
    if es == [] then 0
    else CapWeight(es[..|es| - 1], cap) + if Bit(es[|es| - 1].capabilities, cap) then es[|es| - 1].weight else 0
  }

  predicate ThresholdsMet(h: StateHeader, spend: nat, rotate: nat, recovery: nat) {
    && 0 < h.spendThreshold <= spend
    && 0 < h.rotateThreshold <= rotate
    && if Bit(h.flags, FLAG_RECOVERY_ENABLED)
       then 0 < h.recoveryThreshold <= recovery
       else h.recoveryThreshold == 0 && h.recoverySince == 0
  }

  function HeaderOf(s: AccountState): StateHeader
    requires |s.authenticators| <= 0xff
  {
    StateHeader(s.flags, s.sequence, s.spendThreshold, s.rotateThreshold, s.recoveryThreshold,
                |s.authenticators|, s.recoverySince)
  }

  predicate AllSized(es: seq<Entry>) {
    forall e | e in es :: EntrySize(e) <= U16_MAX
  }

  predicate Encodable(s: AccountState) {
    |s.authenticators| <= 0xff && AllSized(s.authenticators)
  }

  predicate ValidAccountState(s: AccountState) {
    && Encodable(s)
    && s.flags < FLAGS_KNOWN_LIMIT
    && 1 <= |s.authenticators| <= AUTHENTICATOR_MAX_COUNT
    && STATE_HEADER_LEN + EntriesSize(s.authenticators) <= STATE_MAX_LEN
    && FramedEntries(s.authenticators, -1)
    && (forall e | e in s.authenticators :: UsableEntry(e))
    && ThresholdsMet(HeaderOf(s), CapWeight(s.authenticators, CAP_SPEND),
                     CapWeight(s.authenticators, CAP_ROTATE), CapWeight(s.authenticators, CAP_RECOVERY))
  }

  // ----- Encoding -----

  function HeaderBytes(h: StateHeader): (b: Bytes)
    ensures |b| == STATE_HEADER_LEN
  {
    STATE_MAGIC + [STATE_VERSION, h.flags] + U16Le(STATE_HEADER_LEN) + U64Le(h.sequence)
    + U16Le(h.spendThreshold) + U16Le(h.rotateThreshold) + U16Le(h.recoveryThreshold)
    + [h.authenticatorCount, 0] + U64Le(h.recoverySince)
  }

  function EntryFixedBytes(e: Entry): (b: Bytes)
    requires EntrySize(e) <= U16_MAX
    ensures |b| == ENTRY_FIXED_LEN
  {
    U16Le(EntrySize(e)) + U16Le(e.slot) + U16Le(e.algorithmId) + U16Le(e.capabilities) + U16Le(e.weight)
    + [e.verifierHashType, e.verifierAbi] + e.verifierCodeHash + U16Le(|e.keyId|) + U16Le(|e.aux|)
  }

  function EntryBytes(e: Entry): (b: Bytes)
    requires EntrySize(e) <= U16_MAX
    ensures |b| == EntrySize(e)
  {
    EntryFixedBytes(e) + e.keyId + e.aux
  }

  function EntriesBytes(es: seq<Entry>): (b: Bytes)
    requires AllSized(es)
    ensures |b| == EntriesSize(es)
  {
    if es == [] then [] else EntryBytes(es[0]) + EntriesBytes(es[1..])
  }

  function StateBytes(s: AccountState): Bytes
    requires Encodable(s)
  {
    HeaderBytes(HeaderOf(s)) + EntriesBytes(s.authenticators)
  }

  // ----- Parsing -----

  function ParseHeader(data: Bytes): Option<StateHeader> {
    if |data| < STATE_HEADER_LEN || |data| > STATE_MAX_LEN then None
    else if data[0..4] != STATE_MAGIC || data[4] != STATE_VERSION || data[5] >= FLAGS_KNOWN_LIMIT then None
    else if U16At(data, 6) != STATE_HEADER_LEN || data[23] != 0 then None
    else if data[22] == 0 || data[22] > AUTHENTICATOR_MAX_COUNT then None
    else Some(StateHeader(data[5], U64At(data, 8), U16At(data, 16), U16At(data, 18), U16At(data, 20),
                          data[22], U64At(data, 24)))
  }

  /** One turn of the framing loop: the entry at `off`, given the previous slot. */
  function EntryAt(data: Bytes, off: nat, prev: int): Option<Entry> {
    if off + ENTRY_FIXED_LEN > |data| then None
    else
      var keyLen, auxLen := U16At(data, off + 44), U16At(data, off + 46);
      var size := ENTRY_FIXED_LEN + keyLen + auxLen;
      if U16At(data, off) != size || off + size > |data| then None
      else
        var e := Entry(U16At(data, off + 2), U16At(data, off + 4), U16At(data, off + 6), U16At(data, off + 8),
                       data[off + 10], data[off + 11], data[off + 12..off + 44],
                       data[off + 48..off + 48 + keyLen], data[off + 48 + keyLen..off + size]);
        if Framed(e, prev) then Some(e) else None
  }

  /** The `count` entries from `off` to exactly the end of the data. */
  function EntriesAt(data: Bytes, off: nat, count: nat, prev: int): Option<seq<Entry>>
    decreases count
  {
    if count == 0 then
      if off == |data| then Some([]) else None
    else
      var e :- EntryAt(data, off, prev);
      var rest :- EntriesAt(data, off + EntrySize(e), count - 1, e.slot);
      Some([e] + rest)
  }

  /** `parse_authenticators`; the caller's callback sees the returned entries in order. */
  method ParseAuthenticators(data: Bytes, header: StateHeader) returns (r: Option<seq<Entry>>)
    ensures r == EntriesAt(data, STATE_HEADER_LEN, header.authenticatorCount, -1)
  {
    hide EntryAt;
    var off: nat, prev: int, entries := STATE_HEADER_LEN, -1, [];
    ghost var total := EntriesAt(data, STATE_HEADER_LEN, header.authenticatorCount, -1);
    assert total.Some? ==> [] + total.value == total.value;
    for i := 0 to header.authenticatorCount
      invariant total == match EntriesAt(data, off, header.authenticatorCount - i, prev)
                         case None => None
                         case Some(rest) => Some(entries + rest)
    {
      var e :- EntryAt(data, off, prev);
      ghost var rest := EntriesAt(data, off + EntrySize(e), header.authenticatorCount - i - 1, e.slot);
      assert rest.Some? ==> entries + ([e] + rest.value) == entries + [e] + rest.value;
      entries, prev, off := entries + [e], e.slot, off + EntrySize(e);
    }
    if off != |data| {
      return None;
    }
    assert entries + [] == entries;
    return Some(entries);
  }

  function AddWeight(sum: U32, e: Entry, cap: nat): Option<U32> {
    if Bit(e.capabilities, cap) then CheckedAdd32(sum, e.weight) else Some(sum)
  }

  /** The validator's callback on one entry. */
  function AddEntry(s: StateSummary, e: Entry): Option<StateSummary> {
    if !UsableEntry(e) then None
    else
      var spend :- AddWeight(s.spendWeight, e, CAP_SPEND);
      var rotate :- AddWeight(s.rotateWeight, e, CAP_ROTATE);
      var recovery :- AddWeight(s.recoveryWeight, e, CAP_RECOVERY);
      Some(StateSummary(spend, rotate, recovery))
  }

  function Summarize(es: seq<Entry>): Option<StateSummary> {
    if es == [] then Some(StateSummary(0, 0, 0))
    else
      var s :- Summarize(es[..|es| - 1]);
      AddEntry(s, es[|es| - 1])
  }

  /** What `validate_state` computes; its meaning is given by `ValidatedIsEncoded` below. */
  function Validated(data: Bytes): Option<(StateHeader, StateSummary)> {
    var h :- ParseHeader(data);
    var es :- EntriesAt(data, STATE_HEADER_LEN, h.authenticatorCount, -1);
    var s :- Summarize(es);
    if ThresholdsMet(h, s.spendWeight, s.rotateWeight, s.recoveryWeight) then Some((h, s)) else None
  }

  method SummarizeEntries(entries: seq<Entry>) returns (r: Option<StateSummary>)
    ensures r == Summarize(entries)
  {
    var summary := StateSummary(0, 0, 0);
    for i := 0 to |entries|
      invariant Summarize(entries[..i]) == Some(summary)
    {
      assert entries[..i + 1][..i] == entries[..i];
      var next := AddEntry(summary, entries[i]);
      if next.None? {
        SummarizePrefix(entries, i + 1);
        return None;
      }
      summary := next.value;
    }
    assert entries[..|entries|] == entries;
    return Some(summary);
  }

  method ValidateState(data: Bytes) returns (r: Option<(StateHeader, StateSummary)>)
    ensures r == Validated(data)
  {
    var header :- ParseHeader(data);
    var parsed := ParseAuthenticators(data, header);
    var entries :- parsed;
    var folded := SummarizeEntries(entries);
    var summary :- folded;
    if !ThresholdsMet(header, summary.spendWeight, summary.rotateWeight, summary.recoveryWeight) {
      return None;
    }
    return Some((header, summary));
  }

  /** Once the fold has failed it stays failed. */
  lemma {:induction false} SummarizePrefix(es: seq<Entry>, n: nat)
    requires n <= |es| && Summarize(es[..n]).None?
    ensures Summarize(es).None?
  {
    if n < |es| {
      assert es[..|es| - 1][..n] == es[..n];
      SummarizePrefix(es[..|es| - 1], n);
    } else {
      assert es[..n] == es;
    }
  }

  lemma {:induction false} CapWeightBound(es: seq<Entry>, cap: nat)
    ensures CapWeight(es, cap) <= |es| * U16_MAX
  {
    hide Bit;
    if es != [] {
      CapWeightBound(es[..|es| - 1], cap);
    }
  }

  /** With at most 16 entries no checked addition fails: the fold is the plain weight sums. */
  lemma {:induction false} SummarizeIsWeights(es: seq<Entry>)
    requires |es| <= AUTHENTICATOR_MAX_COUNT
    ensures Summarize(es).Some? <==> forall e | e in es :: UsableEntry(e)
    ensures Summarize(es).Some? ==>
              && Summarize(es).value.spendWeight == CapWeight(es, CAP_SPEND)
              && Summarize(es).value.rotateWeight == CapWeight(es, CAP_ROTATE)
              && Summarize(es).value.recoveryWeight == CapWeight(es, CAP_RECOVERY)
  {
    hide Bit;
    hide UsableEntry;
    if es != [] {
      var init := es[..|es| - 1];
      SummarizeIsWeights(init);
      CapWeightBound(init, CAP_SPEND);
      CapWeightBound(init, CAP_ROTATE);
      CapWeightBound(init, CAP_RECOVERY);
      assert es == init + [es[|es| - 1]];
    }
  }

  // ----- Parser and encoder undo each other -----

  /** Where each fixed field of an encoded entry lies. */
  lemma EntryFixedFields(e: Entry, data: Bytes, off: nat)
    requires EntrySize(e) <= U16_MAX && off + ENTRY_FIXED_LEN <= |data|
    requires data[off..off + ENTRY_FIXED_LEN] == EntryFixedBytes(e)
    ensures U16At(data, off) == EntrySize(e) && U16At(data, off + 2) == e.slot
    ensures U16At(data, off + 4) == e.algorithmId && U16At(data, off + 6) == e.capabilities
    ensures U16At(data, off + 8) == e.weight
    ensures data[off + 10] == e.verifierHashType && data[off + 11] == e.verifierAbi
    ensures data[off + 12..off + 44] == e.verifierCodeHash
    ensures U16At(data, off + 44) == |e.keyId| && U16At(data, off + 46) == |e.aux|
  {
    hide Le;
    hide FromLe;
    var end := off + ENTRY_FIXED_LEN;
    var d := data[off..end];
    assert d[0..2] == U16Le(EntrySize(e));
    assert d[2..4] == U16Le(e.slot);
    assert d[4..6] == U16Le(e.algorithmId);
    assert d[6..8] == U16Le(e.capabilities);
    assert d[8..10] == U16Le(e.weight);
    assert d[10] == e.verifierHashType && d[11] == e.verifierAbi;
    assert d[12..44] == e.verifierCodeHash;
    assert d[44..46] == U16Le(|e.keyId|);
    assert EntryFixedBytes(e)[46..] == U16Le(|e.aux|);
    assert d[46..48] == U16Le(|e.aux|);
    SliceOfSlice(data, off, end, 0, 2);
    SliceOfSlice(data, off, end, 2, 4);
    SliceOfSlice(data, off, end, 4, 6);
    SliceOfSlice(data, off, end, 6, 8);
    SliceOfSlice(data, off, end, 8, 10);
    SliceOfSlice(data, off, end, 12, 44);
    SliceOfSlice(data, off, end, 44, 46);
    SliceOfSlice(data, off, end, 46, 48);
  }

  lemma EntryAtGivesBytes(data: Bytes, off: nat, prev: int, e: Entry)
    requires EntryAt(data, off, prev) == Some(e)
    ensures Framed(e, prev) && off + EntrySize(e) <= |data|
    ensures data[off..off + EntrySize(e)] == EntryBytes(e)
  {
    hide Le;
    hide FromLe;
    var front := data[off..off + 2] + data[off + 2..off + 4] + data[off + 4..off + 6] + data[off + 6..off + 8]
                 + data[off + 8..off + 10] + [data[off + 10], data[off + 11]];
    assert front == data[off..off + 12];
    var back := data[off + 12..off + 44] + data[off + 44..off + 46] + data[off + 46..off + 48];
    assert back == data[off + 12..off + ENTRY_FIXED_LEN];
    assert EntryFixedBytes(e) == front + back;
    assert data[off..off + ENTRY_FIXED_LEN] == front + back;
    assert data[off..off + ENTRY_FIXED_LEN] == EntryFixedBytes(e);
  }

  lemma BytesGiveEntryAt(data: Bytes, off: nat, prev: int, e: Entry)
    requires Framed(e, prev) && off + EntrySize(e) <= |data|
    requires data[off..off + EntrySize(e)] == EntryBytes(e)
    ensures EntryAt(data, off, prev) == Some(e)
  {
    hide EntryFixedBytes;
    hide Le;
    hide FromLe;
    var d := data[off..off + EntrySize(e)];
    assert d[..ENTRY_FIXED_LEN] == EntryFixedBytes(e);
    assert d[..ENTRY_FIXED_LEN] == data[off..off + ENTRY_FIXED_LEN];
    EntryFixedFields(e, data, off);
    assert d[48..48 + |e.keyId|] == e.keyId;
    assert d[48 + |e.keyId|..] == e.aux;
    SliceOfSlice(data, off, off + EntrySize(e), 48, 48 + |e.keyId|);
    SliceOfSlice(data, off, off + EntrySize(e), 48 + |e.keyId|, EntrySize(e));
  }

  lemma {:induction false} EntriesAtGivesBytes(data: Bytes, off: nat, count: nat, prev: int, es: seq<Entry>)
    requires EntriesAt(data, off, count, prev) == Some(es)
    ensures |es| == count && FramedEntries(es, prev) && AllSized(es)
    ensures off <= |data| && data[off..] == EntriesBytes(es)
    decreases count
  {
    hide EntryAt;
    hide EntryBytes;
    if count != 0 {
      var e := EntryAt(data, off, prev).value;
      EntryAtGivesBytes(data, off, prev, e);
      EntriesAtGivesBytes(data, off + EntrySize(e), count - 1, e.slot, es[1..]);
      assert data[off..] == data[off..off + EntrySize(e)] + data[off + EntrySize(e)..];
    }
  }

  lemma {:induction false} BytesGiveEntriesAt(data: Bytes, off: nat, prev: int, es: seq<Entry>)
    requires FramedEntries(es, prev) && AllSized(es)
    requires off <= |data| && data[off..] == EntriesBytes(es)
    ensures EntriesAt(data, off, |es|, prev) == Some(es)
    decreases |es|
  {
    hide EntryAt;
    hide EntryBytes;
    hide Framed;
    if es == [] {
      assert |EntriesBytes(es)| == 0 && |data[off..]| == |data| - off;
      assert EntriesAt(data, off, 0, prev) == Some([]);
    } else {
      var size := EntrySize(es[0]);
      assert data[off..off + size] == EntriesBytes(es)[..size] == EntryBytes(es[0]);
      assert data[off + size..] == data[off..][size..] == EntriesBytes(es[1..]);
      BytesGiveEntryAt(data, off, prev, es[0]);
      BytesGiveEntriesAt(data, off + size, es[0].slot, es[1..]);
      assert es == [es[0]] + es[1..];
    }
  }

  predicate HeaderInRange(h: StateHeader) {
    h.flags < FLAGS_KNOWN_LIMIT && 1 <= h.authenticatorCount <= AUTHENTICATOR_MAX_COUNT
  }

  lemma HeaderFields(h: StateHeader, data: Bytes)
    requires STATE_HEADER_LEN <= |data| && data[..STATE_HEADER_LEN] == HeaderBytes(h)
    ensures data[0..4] == STATE_MAGIC && data[4] == STATE_VERSION && data[5] == h.flags
    ensures U16At(data, 6) == STATE_HEADER_LEN && U64At(data, 8) == h.sequence
    ensures U16At(data, 16) == h.spendThreshold && U16At(data, 18) == h.rotateThreshold
    ensures U16At(data, 20) == h.recoveryThreshold
    ensures data[22] == h.authenticatorCount && data[23] == 0 && U64At(data, 24) == h.recoverySince
  {
    hide Le;
    hide FromLe;
    var n := STATE_HEADER_LEN;
    var d := data[0..n];
    assert d == data[..n];
    assert d[0..4] == STATE_MAGIC && d[4] == STATE_VERSION && d[5] == h.flags;
    assert d[6..8] == U16Le(n) && d[8..16] == U64Le(h.sequence);
    assert d[16..18] == U16Le(h.spendThreshold) && d[18..20] == U16Le(h.rotateThreshold);
    assert d[20..22] == U16Le(h.recoveryThreshold);
    assert d[22] == h.authenticatorCount && d[23] == 0 && d[24..32] == U64Le(h.recoverySince);
    SliceOfSlice(data, 0, n, 0, 4);
    SliceOfSlice(data, 0, n, 6, 8);
    SliceOfSlice(data, 0, n, 8, 16);
    SliceOfSlice(data, 0, n, 16, 18);
    SliceOfSlice(data, 0, n, 18, 20);
    SliceOfSlice(data, 0, n, 20, 22);
    SliceOfSlice(data, 0, n, 24, 32);
  }

  lemma HeaderBytesAre(data: Bytes, h: StateHeader)
    requires ParseHeader(data) == Some(h)
    ensures data[..STATE_HEADER_LEN] == HeaderBytes(h)
  {
    hide Le;
    hide FromLe;
    var front := data[0..4] + [data[4], data[5]] + data[6..8] + data[8..16];
    assert front == data[..16];
    var back := data[16..18] + data[18..20] + data[20..22] + [data[22], data[23]] + data[24..32];
    assert back == data[16..STATE_HEADER_LEN];
    assert HeaderBytes(h) == front + back;
  }

  lemma ParseHeaderIsEncoded(data: Bytes, h: StateHeader)
    ensures ParseHeader(data) == Some(h) <==>
            && STATE_HEADER_LEN <= |data| <= STATE_MAX_LEN
            && HeaderInRange(h)
            && data[..STATE_HEADER_LEN] == HeaderBytes(h)
  {
    if STATE_HEADER_LEN <= |data| {
      if ParseHeader(data) == Some(h) {
        HeaderBytesAre(data, h);
      }
      if data[..STATE_HEADER_LEN] == HeaderBytes(h) {
        HeaderFields(h, data);
      }
    }
  }

  /** Entries that passed both loops are authenticators in the host's sense. */
  lemma UsableEntriesAt(data: Bytes, off: nat, count: nat, es: seq<Entry>)
    requires count <= AUTHENTICATOR_MAX_COUNT
    requires EntriesAt(data, off, count, -1) == Some(es) && Summarize(es).Some?
    ensures |es| == count && FramedEntries(es, -1)
    ensures forall e | e in es :: UsableEntry(e)
  {
    hide EntriesAt;
    EntriesAtGivesBytes(data, off, count, -1, es);
    SummarizeIsWeights(es);
  }

  function StateOf(h: StateHeader, es: seq<Entry>): AccountState {
    AccountState(h.flags, h.sequence, h.spendThreshold, h.rotateThreshold, h.recoveryThreshold,
                 h.recoverySince, es)
  }

  /** The account state a validated byte string stands for. */
  function DecodedState(data: Bytes): Option<AccountState> {
    var h :- ParseHeader(data);
    var es :- EntriesAt(data, STATE_HEADER_LEN, h.authenticatorCount, -1);
    var s :- Summarize(es);
    if ThresholdsMet(h, s.spendWeight, s.rotateWeight, s.recoveryWeight) then Some(StateOf(h, es)) else None
  }

  /** What validation reports about the bytes of a valid state. */
  predicate Summarizes(r: StateSummary, s: AccountState) {
    && r.spendWeight == CapWeight(s.authenticators, CAP_SPEND)
    && r.rotateWeight == CapWeight(s.authenticators, CAP_ROTATE)
    && r.recoveryWeight == CapWeight(s.authenticators, CAP_RECOVERY)
  }

  /** The header reported is the one parsed, and is that of the decoded state. */
  lemma ValidatedAgreesWithDecoded(data: Bytes)
    ensures Validated(data).Some? <==> DecodedState(data).Some?
    ensures Validated(data).Some? ==>
              && var s := DecodedState(data).value;
              && |s.authenticators| == Validated(data).value.0.authenticatorCount <= AUTHENTICATOR_MAX_COUNT
              && Validated(data).value.0 == HeaderOf(s)
              && ParseHeader(data) == Some(HeaderOf(s))
  {
    if Validated(data).Some? {
      DecodedIsEncoded(data, DecodedState(data).value);
    }
  }

  lemma DecodedIsEncoded(data: Bytes, s: AccountState)
    requires DecodedState(data) == Some(s)
    ensures ValidAccountState(s) && data == StateBytes(s)
    ensures Validated(data).Some? && Validated(data).value.0 == HeaderOf(s) && Summarizes(Validated(data).value.1, s)
  {
    hide EntriesAt;
    hide ParseHeader;
    hide HeaderBytes;
    hide Summarize;
    var h := ParseHeader(data).value;
    var es: seq<Entry> := s.authenticators;
    ParseHeaderIsEncoded(data, h);
    EntriesAtGivesBytes(data, STATE_HEADER_LEN, h.authenticatorCount, -1, es);
    UsableEntriesAt(data, STATE_HEADER_LEN, h.authenticatorCount, es);
    SummarizeIsWeights(es);
    assert data == data[..STATE_HEADER_LEN] + data[STATE_HEADER_LEN..];
  }

  lemma EncodedIsDecoded(s: AccountState)
    requires ValidAccountState(s)
    ensures DecodedState(StateBytes(s)) == Some(s)
  {
    hide EntriesAt;
    hide ParseHeader;
    hide HeaderBytes;
    hide Summarize;
    var data, h := StateBytes(s), HeaderOf(s);
    assert data[..STATE_HEADER_LEN] == HeaderBytes(h) && data[STATE_HEADER_LEN..] == EntriesBytes(s.authenticators);
    ParseHeaderIsEncoded(data, h);
    BytesGiveEntriesAt(data, STATE_HEADER_LEN, -1, s.authenticators);
    SummarizeIsWeights(s.authenticators);
  }

  /**
   * The validator accepts a byte string exactly when it is the encoding of a valid state; that state
   * is unique, and the header and weights reported are those of that state.
   */
  lemma ValidatedIsEncoded(data: Bytes, s: AccountState)
    ensures Validated(data).Some? <==> DecodedState(data).Some?
    ensures DecodedState(data) == Some(s) <==> ValidAccountState(s) && data == StateBytes(s)
    ensures DecodedState(data) == Some(s) ==>
              Validated(data).value.0 == HeaderOf(s) && Summarizes(Validated(data).value.1, s)
  {
    hide EntriesAt;
    hide Summarize;
    hide StateBytes;
    hide ParseHeader;
    if DecodedState(data) == Some(s) {
      DecodedIsEncoded(data, s);
    }
    if ValidAccountState(s) && data == StateBytes(s) {
      EncodedIsDecoded(s);
    }
  }

  // ----- The encoder -----

  lemma EntryIsDetermined(e: Entry, f: Entry, restE: Bytes, restF: Bytes)
    requires EntrySize(e) <= U16_MAX && EntrySize(f) <= U16_MAX
    requires EntryBytes(e) + restE <= EntryBytes(f) + restF
    ensures e == f && restE <= restF
  {
    hide Le;
    hide FromLe;
    hide EntryFixedBytes;
    var x, y := EntryBytes(e) + restE, EntryBytes(f) + restF;
    assert x[..ENTRY_FIXED_LEN] == EntryFixedBytes(e) && y[..ENTRY_FIXED_LEN] == EntryFixedBytes(f);
    assert x[..ENTRY_FIXED_LEN] == y[..ENTRY_FIXED_LEN];
    EntryFixedFields(e, x, 0);
    EntryFixedFields(f, y, 0);
    EntryFixedFields(e, y, 0);
    var n := EntrySize(e);
    assert x[48..48 + |e.keyId|] == e.keyId && y[48..48 + |f.keyId|] == f.keyId;
    assert x[48 + |e.keyId|..n] == e.aux && y[48 + |f.keyId|..n] == f.aux;
    assert x[n..] == restE && y[n..] == restF;
  }

  /** Entry lists of one length are prefix-free. */
  lemma {:induction false} EntriesAreDetermined(es: seq<Entry>, fs: seq<Entry>)
    requires |es| == |fs| && AllSized(es) && AllSized(fs)
    requires EntriesBytes(es) <= EntriesBytes(fs)
    ensures es == fs
  {
    hide EntryBytes;
    if es != [] {
      EntryIsDetermined(es[0], fs[0], EntriesBytes(es[1..]), EntriesBytes(fs[1..]));
      EntriesAreDetermined(es[1..], fs[1..]);
      assert es == [es[0]] + es[1..] && fs == [fs[0]] + fs[1..];
    }
  }

  lemma StateIsDetermined(s: AccountState, t: AccountState)
    requires Encodable(s) && Encodable(t)
    requires StateBytes(s) <= StateBytes(t)
    ensures s == t
  {
    hide Le;
    hide FromLe;
    hide HeaderBytes;
    hide EntriesBytes;
    var x, y := StateBytes(s), StateBytes(t);
    assert x[..STATE_HEADER_LEN] == HeaderBytes(HeaderOf(s)) && y[..STATE_HEADER_LEN] == HeaderBytes(HeaderOf(t));
    assert x[..STATE_HEADER_LEN] == y[..STATE_HEADER_LEN];
    HeaderFields(HeaderOf(s), x);
    HeaderFields(HeaderOf(t), y);
    HeaderFields(HeaderOf(s), y);
    assert EntriesBytes(s.authenticators) == x[STATE_HEADER_LEN..];
    assert EntriesBytes(t.authenticators) == y[STATE_HEADER_LEN..];
    EntriesAreDetermined(s.authenticators, t.authenticators);
  }

  /** No proper prefix, and so no proper extension, of an accepted state is accepted. */
  lemma AcceptedStatesArePrefixFree(x: Bytes, y: Bytes)
    requires Validated(x).Some? && Validated(y).Some? && x <= y
    ensures x == y
  {
    hide DecodedState;
    hide Validated;
    var s, t := DecodedState(x), DecodedState(y);
    ValidatedIsEncoded(x, if s.Some? then s.value else AccountState(0, 0, 0, 0, 0, 0, []));
    ValidatedIsEncoded(y, if t.Some? then t.value else AccountState(0, 0, 0, 0, 0, 0, []));
    StateIsDetermined(s.value, t.value);
  }

  lemma EncodableIsValid(s: AccountState)
    requires Encodable(s)
    ensures Validated(StateBytes(s)).Some? <==> ValidAccountState(s)
  {
    hide DecodedState;
    hide Validated;
    hide StateBytes;
    hide Encodable;
    ValidatedIsEncoded(StateBytes(s), s);
    var d := DecodedState(StateBytes(s));
    if d.Some? {
      ValidatedIsEncoded(StateBytes(s), d.value);
      StateIsDetermined(s, d.value);
    }
  }

  lemma {:induction false} EntriesBytesAppend(es: seq<Entry>, e: Entry)
    requires AllSized(es + [e])
    ensures AllSized(es) && EntrySize(e) <= U16_MAX
    ensures EntriesBytes(es + [e]) == EntriesBytes(es) + EntryBytes(e)
  {
    hide EntryBytes;
    assert e in es + [e];
    assert forall x | x in es :: x in es + [e];
    if es == [] {
      assert es + [e] == [e];
    } else {
      assert (es + [e])[1..] == es[1..] + [e];
      EntriesBytesAppend(es[1..], e);
    }
  }

  lemma ValidIsBounded(s: AccountState)
    requires ValidAccountState(s)
    ensures Encodable(s) && STATE_HEADER_LEN + EntriesSize(s.authenticators) <= STATE_MAX_LEN
  {
  }

  method EncodeHeader(state: AccountState) returns (out: Bytes)
    requires |state.authenticators| <= 0xff
    ensures out == HeaderBytes(HeaderOf(state))
  {
    out := STATE_MAGIC;
    out := out + [STATE_VERSION, state.flags];
    out := out + U16Le(STATE_HEADER_LEN);
    out := out + U64Le(state.sequence);
    out := out + U16Le(state.spendThreshold);
    out := out + U16Le(state.rotateThreshold);
    out := out + U16Le(state.recoveryThreshold);
    out := out + [|state.authenticators|, 0];
    out := out + U64Le(state.recoverySince);
  }

  /** One turn of the encoder's loop; once the entry length fits a `u16`, so do both parts of it. */
  method AppendEntry(out: Bytes, auth: Entry) returns (r: Option<Bytes>)
    ensures r == if EntrySize(auth) <= U16_MAX then Some(out + EntryBytes(auth)) else None
  {
    hide Le;
    hide FromLe;
    var entryLen := ENTRY_FIXED_LEN + |auth.keyId| + |auth.aux|;
    if entryLen > U16_MAX {
      return None;
    }
    var entry := U16Le(entryLen) + U16Le(auth.slot) + U16Le(auth.algorithmId) + U16Le(auth.capabilities);
    entry := entry + U16Le(auth.weight) + [auth.verifierHashType, auth.verifierAbi] + auth.verifierCodeHash;
    entry := entry + U16Le(|auth.keyId|) + U16Le(|auth.aux|) + auth.keyId + auth.aux;
    return Some(out + entry);
  }

  method Capacity(auths: seq<Entry>) returns (capacity: nat)
    ensures capacity == STATE_HEADER_LEN + EntriesSize(auths)
  {
    capacity := STATE_HEADER_LEN;
    for i := 0 to |auths|
      invariant capacity + EntriesSize(auths[i..]) == STATE_HEADER_LEN + EntriesSize(auths)
    {
      capacity := capacity + ENTRY_FIXED_LEN + |auths[i].keyId| + |auths[i].aux|;
    }
  }

  method EncodeState(state: AccountState) returns (r: Option<Bytes>)
    ensures r == if ValidAccountState(state) then Some(StateBytes(state)) else None
  {
    hide Validated;
    hide ValidAccountState;
    hide HeaderBytes;
    hide EntryBytes;
    hide EntrySize;
    if ValidAccountState(state) {
      ValidIsBounded(state);
    }
    var auths := state.authenticators;
    if |auths| > 0xff {
      return None;
    }
    var capacity := Capacity(auths);
    if capacity > STATE_MAX_LEN {
      return None;
    }
    var out := EncodeHeader(state);
    for i := 0 to |auths|
      invariant AllSized(auths[..i])
      invariant out == HeaderBytes(HeaderOf(state)) + EntriesBytes(auths[..i])
    {
      var next := AppendEntry(out, auths[i]);
      out :- next;
      assert auths[..i + 1] == auths[..i] + [auths[i]];
      EntriesBytesAppend(auths[..i], auths[i]);
    }
    assert auths[..|auths|] == auths;
    EncodableIsValid(state);
    var checked := ValidateState(out);
    if checked.None? {
      return None;
    }
    return Some(out);
  }
}
