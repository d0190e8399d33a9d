/** The frontend's reader of the live state cell: which states it accepts and what it takes from them. */
module LiveState {
  import opened Bytes
  import opened Protocol
  import opened JsBytes
  import opened StateCodec

  datatype ParsedState = ParsedState(sequence: U64, keyId: Bytes)

  /** The state's size in the account manifest, the verifier's code hash in the deployment, and the profile
      version with the two hashes a passkey is bound to, these last in hex. */
  datatype Expected = Expected(stateBytes: nat, codeHash: string, binding: string)

  /** The binding the frontend expects: profile version 1, its relying party and its origin. */
  function WebAuthnBinding(): string {
    "01" + "49960de5880e8c687434170f6476605b8fe4aeb9a28632c7995cf3ba831d9763"
    + "4e90ec8f9d9b8d5bd3877ac003797738ff48419fcf8f97821a875ea4671955b6"
  }

  predicate HeaderMatches(data: Bytes)
    requires |data| >= STATE_HEADER_LEN
  {
    && data[0..4] == STATE_MAGIC && data[4] == 1 && data[5] == 1
    && U16At(data, 6) == STATE_HEADER_LEN
    && U16At(data, 16) == 1 && U16At(data, 18) == 1 && U16At(data, 20) == 1
    && data[22] == 1 && data[23] == 0 && U64At(data, 24) == 0
  }

  predicate EntryMatches(data: Bytes)
    requires |data| >= 80
  {
    var keyIdLength, auxLength := U16At(data, 76), U16At(data, 78);
    && U16At(data, 32) == |data| - STATE_HEADER_LEN
    && U16At(data, 32) == ENTRY_FIXED_LEN + keyIdLength + auxLength
    && U16At(data, 34) == 0 && U16At(data, 36) == 1 && U16At(data, 38) == 7 && U16At(data, 40) == 1
    && data[42] == 0 && data[43] == 1
    && keyIdLength == 32 && auxLength == 65
  }

  /** `parseAccountState`; a read past the end of the data is an error. */
  function ParseAccountState(data: Bytes, x: Expected): Option<ParsedState> {
    if |data| != x.stateBytes || |data| < STATE_HEADER_LEN then None
    else if !HeaderMatches(data) || |data| < 80 || !EntryMatches(data) then None
    else if Hex(data[44..76]) != x.codeHash then None
    else if HexDigits(data[112..]) != x.binding then None
    else Some(ParsedState(U64At(data, 8), data[80..112]))
  }

  /** The account profile of the frontend: one P-256 passkey that alone may do everything. */
  predicate IsDemoEntry(e: Entry, x: Expected) {
    && e.slot == 0 && e.algorithmId == ALG_P256_WEBAUTHN && e.capabilities == 7 && e.weight == 1
    && e.verifierHashType == 0
    && Hex(e.verifierCodeHash) == x.codeHash
    && |e.aux| == 65 && HexDigits(e.aux) == x.binding
  }

  predicate IsDemoState(s: AccountState, x: Expected) {
    && s.flags == 1 && s.recoverySince == 0
    && s.spendThreshold == 1 && s.rotateThreshold == 1 && s.recoveryThreshold == 1
    && |s.authenticators| == 1 && IsDemoEntry(s.authenticators[0], x)
  }

  /** The one entry of a matching state. */
  function MatchedEntry(data: Bytes): Entry
    requires |data| == 177
  {
    Entry(0, 1, 7, 1, 0, 1, data[44..76], data[80..112], data[112..])
  }

  lemma MatchingEntryIsRead(data: Bytes)
    requires |data| == 177 && EntryMatches(data)
    ensures EntryAt(data, STATE_HEADER_LEN, -1) == Some(MatchedEntry(data))
    ensures EntriesAt(data, STATE_HEADER_LEN, 1, -1) == Some([MatchedEntry(data)])
  {
    hide U16At;
    assert data[112..177] == data[112..];
    assert Framed(MatchedEntry(data), -1);
    assert EntryAt(data, STATE_HEADER_LEN, -1) == Some(MatchedEntry(data));
    OneEntry(data, MatchedEntry(data));
  }

  lemma OneEntry(data: Bytes, e: Entry)
    ensures EntriesAt(data, STATE_HEADER_LEN, 1, -1) == Some([e]) <==>
            EntryAt(data, STATE_HEADER_LEN, -1) == Some(e) && STATE_HEADER_LEN + EntrySize(e) == |data|
  {
    hide EntryAt;
    var read := EntryAt(data, STATE_HEADER_LEN, -1);
    if read.Some? {
      var rest := EntriesAt(data, STATE_HEADER_LEN + EntrySize(read.value), 0, read.value.slot);
      assert [read.value] + [] == [read.value];
      assert [read.value][0] == read.value && [e][0] == e;
    }
  }

  lemma MatchingEntryCounts(e: Entry)
    requires UsableEntry(e) && e.capabilities == 7 && e.weight == 1
    ensures Summarize([e]) == Some(StateSummary(1, 1, 1))
    ensures Bit(1, FLAG_RECOVERY_ENABLED)
  {
    assert Bit(7, CAP_SPEND) && Bit(3, 0) && Bit(7, CAP_ROTATE) && Bit(3, 1) && Bit(7, CAP_RECOVERY);
    assert [e][..0] == [];
    assert Summarize([]) == Some(StateSummary(0, 0, 0));
  }

  lemma MatchingHeaderIsRead(data: Bytes)
    requires |data| == 177 && HeaderMatches(data)
    ensures ParseHeader(data) == Some(StateHeader(1, U64At(data, 8), 1, 1, 1, 1, 0))
  {
    hide U16At;
    hide U64At;
  }

  lemma ParsedIsDecoded(data: Bytes, x: Expected, p: ParsedState)
    requires ParseAccountState(data, x) == Some(p)
    ensures DecodedState(data) == Some(AccountState(1, p.sequence, 1, 1, 1, 0, [MatchedEntry(data)]))
    ensures |data| == 177 == x.stateBytes && IsDemoEntry(MatchedEntry(data), x) && p.keyId == data[80..112]
  {
    hide U16At;
    hide U64At;
    hide EntriesAt;
    hide EntryAt;
    hide Summarize;
    hide Hex;
    hide HexDigits;
    hide ParseHeader;
    hide HeaderMatches;
    MatchingHeaderIsRead(data);
    MatchingEntryIsRead(data);
    MatchingEntryCounts(MatchedEntry(data));
  }

  lemma DecodedHeaderMatches(data: Bytes, x: Expected, s: AccountState)
    requires DecodedState(data) == Some(s) && IsDemoState(s, x)
    ensures |data| >= STATE_HEADER_LEN && HeaderMatches(data) && U64At(data, 8) == s.sequence
    ensures EntriesAt(data, STATE_HEADER_LEN, 1, -1) == Some(s.authenticators)
  {
    hide U16At;
    hide U64At;
    hide StateBytes;
    hide ValidAccountState;
    hide EntriesAt;
    hide Summarize;
    hide IsDemoEntry;
    hide CapWeight;
    var h := ParseHeader(data).value;
    DecodedIsEncoded(data, s);
    assert h == HeaderOf(s);
  }

  /** What an entry read from behind the header says about the bytes it was read from. */
  lemma ReadFields(data: Bytes, e: Entry)
    requires EntryAt(data, STATE_HEADER_LEN, -1) == Some(e)
    ensures STATE_HEADER_LEN + EntrySize(e) <= |data| && U16At(data, 32) == EntrySize(e)
    ensures U16At(data, 34) == e.slot && U16At(data, 36) == e.algorithmId
    ensures U16At(data, 38) == e.capabilities && U16At(data, 40) == e.weight
    ensures data[42] == e.verifierHashType && data[43] == e.verifierAbi && data[44..76] == e.verifierCodeHash
    ensures U16At(data, 76) == |e.keyId| && U16At(data, 78) == |e.aux|
    ensures data[80..80 + |e.keyId|] == e.keyId
    ensures data[80 + |e.keyId|..32 + EntrySize(e)] == e.aux && Framed(e, -1)
  {
    hide U16At;
    hide U16Le;
    hide Framed;
  }

  lemma ReadEntryMatches(data: Bytes, x: Expected, e: Entry)
    requires EntriesAt(data, STATE_HEADER_LEN, 1, -1) == Some([e]) && IsDemoEntry(e, x) && |e.keyId| == 32
    ensures |data| == 177 && EntryMatches(data) && e == MatchedEntry(data)
  {
    hide U16At;
    hide U16Le;
    hide EntryAt;
    hide EntriesAt;
    hide Hex;
    hide HexDigits;
    OneEntry(data, e);
    ReadFields(data, e);
    assert data[112..177] == data[112..];
  }

  /**
   * The frontend accepts exactly the states the validator accepts that have the frontend's profile,
   * and takes their sequence and their one key identifier.
   */
  lemma ParsedIsValidDemoState(data: Bytes, x: Expected, p: ParsedState)
    ensures ParseAccountState(data, x) == Some(p) <==>
            && |data| == x.stateBytes
            && Validated(data).Some?
            && var s := DecodedState(data);
            && s.Some? && IsDemoState(s.value, x)
            && p == ParsedState(s.value.sequence, s.value.authenticators[0].keyId)
  {
    hide ParseAccountState;
    hide DecodedState;
    hide Validated;
    hide IsDemoEntry;
    hide HeaderOf;
    hide ParseHeader;
    ValidatedAgreesWithDecoded(data);
    if ParseAccountState(data, x) == Some(p) {
      ParsedIsDecoded(data, x, p);
    }
    var decoded := DecodedState(data);
    if decoded.Some? && IsDemoState(decoded.value, x) && |data| == x.stateBytes {
      DecodedIsParsed(data, x, decoded.value);
    }
  }

  lemma DecodedIsParsed(data: Bytes, x: Expected, s: AccountState)
    requires DecodedState(data) == Some(s) && IsDemoState(s, x) && |data| == x.stateBytes
    ensures ParseAccountState(data, x) == Some(ParsedState(s.sequence, s.authenticators[0].keyId))
  {
    hide U16At;
    hide U64At;
    hide StateBytes;
    hide CapWeight;
    hide DecodedState;
    hide EntriesAt;
    hide HexDigits;
    hide HeaderMatches;
    hide EntryMatches;
    var e := s.authenticators[0];
    assert s.authenticators == [e];
    DecodedHeaderMatches(data, x, s);
    DecodedIsEncoded(data, s);
    assert e in s.authenticators && UsableEntry(e);
    ReadEntryMatches(data, x, e);
  }
}
