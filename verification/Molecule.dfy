/** The Molecule layouts the protocol meets: a table of three fields, `Bytes`, `BytesOpt` and `WitnessArgs`. */
module Molecule {
  import opened Bytes

  datatype Fields = Fields(first: Bytes, second: Bytes, third: Bytes)

  datatype WitnessArgs = WitnessArgs(lock: Option<Bytes>, inputType: Option<Bytes>, outputType: Option<Bytes>)

  const TABLE3_HEADER_LEN: U32 := 16

  function TableSize(f: Fields): nat {
    TABLE3_HEADER_LEN + |f.first| + |f.second| + |f.third|
  }

  /** The table with these fields, as any Molecule builder writes it. */
  function PackTable3(f: Fields): (b: Bytes)
    requires TableSize(f) <= U32_MAX
    ensures |b| == TableSize(f)
  {
    U32Le(TableSize(f)) + U32Le(TABLE3_HEADER_LEN) + U32Le(TABLE3_HEADER_LEN + |f.first|)
    + U32Le(TABLE3_HEADER_LEN + |f.first| + |f.second|) + f.first + f.second + f.third
  }

  /** The lock's reader, `table3_fields`. */
  function Table3Fields(data: Bytes): Option<Fields> {
    if |data| < TABLE3_HEADER_LEN || U32At(data, 0) != |data| then None
    else
      var first, second, third := U32At(data, 4), U32At(data, 8), U32At(data, 12);
      if first != TABLE3_HEADER_LEN || first > second || second > third || third > |data| then None
      else Some(Fields(data[first..second], data[second..third], data[third..]))
  }

  lemma Table3Fieldwise(data: Bytes, f: Fields)
    requires TableSize(f) <= U32_MAX && data == PackTable3(f)
    ensures Table3Fields(data) == Some(f)
  {
    hide Le;
    hide FromLe;
    var second := TABLE3_HEADER_LEN + |f.first|;
    var third := second + |f.second|;
    assert data[0..4] == U32Le(TableSize(f)) && data[4..8] == U32Le(TABLE3_HEADER_LEN);
    assert data[8..12] == U32Le(second) && data[12..16] == U32Le(third);
    assert data[16..second] == f.first && data[second..third] == f.second && data[third..] == f.third;
  }

  /** The reader accepts exactly what a builder can write, and gives back the fields. */
  lemma Table3IsPacked(data: Bytes, f: Fields)
    ensures Table3Fields(data) == Some(f) <==> TableSize(f) <= U32_MAX && data == PackTable3(f)
  {
    hide Le;
    hide FromLe;
    if Table3Fields(data) == Some(f) {
      var header := data[0..4] + data[4..8] + data[8..12] + data[12..16];
      assert header == data[..16];
      assert data == header + f.first + f.second + f.third;
    } else if TableSize(f) <= U32_MAX && data == PackTable3(f) {
      Table3Fieldwise(data, f);
    }
  }

  function PackBytes(content: Bytes): Bytes
    requires |content| <= U32_MAX
  {
    U32Le(|content|) + content
  }

  /** The lock's reader, `molecule_bytes`. */
  function MoleculeBytes(field: Bytes): Option<Bytes> {
    if |field| < 4 || U32At(field, 0) != |field| - 4 then None else Some(field[4..])
  }

  lemma MoleculeBytesIsPacked(field: Bytes, content: Bytes)
    ensures MoleculeBytes(field) == Some(content) <==> |content| <= U32_MAX && field == PackBytes(content)
  {
    hide Le;
    hide FromLe;
    if MoleculeBytes(field) == Some(content) {
      assert field == field[0..4] + field[4..];
    }
    if |content| <= U32_MAX && field == PackBytes(content) {
      assert field[0..4] == U32Le(|content|) && field[4..] == content;
    }
  }

  function OptionSize(o: Option<Bytes>): nat {
    if o.None? then 0 else 4 + |o.value|
  }

  function WitnessArgsSize(w: WitnessArgs): nat {
    TABLE3_HEADER_LEN + OptionSize(w.lock) + OptionSize(w.inputType) + OptionSize(w.outputType)
  }

  function PackOption(o: Option<Bytes>): (b: Bytes)
    requires OptionSize(o) <= U32_MAX
    ensures |b| == OptionSize(o)
  {
    if o.None? then [] else PackBytes(o.value)
  }

  function UnpackOption(field: Bytes): Option<Option<Bytes>> {
    if field == [] then Some(None)
    else
      var content :- MoleculeBytes(field);
      Some(Some(content))
  }

  function PackedFields(w: WitnessArgs): (f: Fields)
    requires WitnessArgsSize(w) <= U32_MAX
    ensures TableSize(f) == WitnessArgsSize(w)
  {
    Fields(PackOption(w.lock), PackOption(w.inputType), PackOption(w.outputType))
  }

  function PackWitnessArgs(w: WitnessArgs): (b: Bytes)
    requires WitnessArgsSize(w) <= U32_MAX
    ensures |b| == WitnessArgsSize(w)
  {
    PackTable3(PackedFields(w))
  }

  /** Strict Molecule reading, `WitnessArgs::from_slice`: every field is verified. */
  function UnpackWitnessArgs(data: Bytes): Option<WitnessArgs> {
    var f :- Table3Fields(data);
    var lock :- UnpackOption(f.first);
    var inputType :- UnpackOption(f.second);
    var outputType :- UnpackOption(f.third);
    Some(WitnessArgs(lock, inputType, outputType))
  }

  lemma OptionIsPacked(field: Bytes, o: Option<Bytes>)
    requires |field| <= U32_MAX
    ensures UnpackOption(field) == Some(o) <==> OptionSize(o) <= U32_MAX && field == PackOption(o)
  {
    if field != [] && o.Some? {
      MoleculeBytesIsPacked(field, o.value);
    }
  }

  lemma WitnessArgsArePacked(data: Bytes, w: WitnessArgs)
    ensures UnpackWitnessArgs(data) == Some(w) <==> WitnessArgsSize(w) <= U32_MAX && data == PackWitnessArgs(w)
  {
    hide Table3Fields;
    hide PackTable3;
    hide UnpackOption;
    hide PackOption;
    if UnpackWitnessArgs(data) == Some(w) {
      var f := Table3Fields(data).value;
      Table3IsPacked(data, f);
      OptionIsPacked(f.first, w.lock);
      OptionIsPacked(f.second, w.inputType);
      OptionIsPacked(f.third, w.outputType);
    }
    if WitnessArgsSize(w) <= U32_MAX && data == PackWitnessArgs(w) {
      var f := PackedFields(w);
      Table3IsPacked(data, f);
      OptionIsPacked(f.first, w.lock);
      OptionIsPacked(f.second, w.inputType);
      OptionIsPacked(f.third, w.outputType);
    }
  }

  // ----- What the lock does with a witness -----

  /** `witness_lock`: the contents of the lock field, which must be present. */
  function WitnessLock(data: Bytes): Option<Bytes> {
    var f :- Table3Fields(data);
    if f.first == [] then None else MoleculeBytes(f.first)
  }

  /** `canonical_witness`: the same table with an empty lock; lengths go through a cast to `u32`. */
  function CanonicalWitness(data: Bytes): Option<Bytes> {
    var f :- Table3Fields(data);
    var total, second, third := 20 + |f.second| + |f.third|, 20, 20 + |f.second|;
    Some(U32Le(total % 0x1_0000_0000) + U32Le(16) + U32Le(second) + U32Le(third % 0x1_0000_0000) + U32Le(0)
         + f.second + f.third)
  }

  /** The size above which the canonical form of a witness could outgrow a `u32`. */
  const CANONICAL_LIMIT: nat := 0xffff_fffb

  /** The canonical form is the witness with an empty `Bytes` for its lock and the other fields untouched. */
  lemma CanonicalIsEmptyLock(data: Bytes, f: Fields)
    requires |data| <= CANONICAL_LIMIT && Table3Fields(data) == Some(f)
    ensures CanonicalWitness(data) == Some(PackTable3(f.(first := PackBytes([]))))
  {
    hide Le;
    hide FromLe;
    assert PackBytes([]) == U32Le(0);
  }

  /** Canonicalising again changes nothing. */
  lemma CanonicalIsIdempotent(data: Bytes)
    requires |data| < CANONICAL_LIMIT - 4 && CanonicalWitness(data).Some?
    ensures CanonicalWitness(CanonicalWitness(data).value) == CanonicalWitness(data)
  {
    hide PackTable3;
    hide CanonicalWitness;
    assert Table3Fields(data).Some? by { CanonicalNeedsTable(data); }
    var f := Table3Fields(data).value;
    CanonicalIsEmptyLock(data, f);
    var g := f.(first := PackBytes([]));
    Table3IsPacked(PackTable3(g), g);
    CanonicalIsEmptyLock(PackTable3(g), g);
  }

  lemma CanonicalNeedsTable(data: Bytes)
    ensures CanonicalWitness(data).Some? <==> Table3Fields(data).Some?
    ensures CanonicalWitness(data).Some? ==> |CanonicalWitness(data).value| <= |data| + 4
  {
  }

  /** Sealing: two witnesses that differ in the lock field alone have one canonical form. */
  lemma CanonicalIgnoresLock(f: Fields, g: Fields)
    requires TableSize(f) <= CANONICAL_LIMIT && TableSize(g) <= CANONICAL_LIMIT
    requires f.second == g.second && f.third == g.third
    ensures CanonicalWitness(PackTable3(f)) == CanonicalWitness(PackTable3(g)) != None
  {
    hide PackTable3;
    hide CanonicalWitness;
    Table3IsPacked(PackTable3(f), f);
    Table3IsPacked(PackTable3(g), g);
    CanonicalIsEmptyLock(PackTable3(f), f);
    CanonicalIsEmptyLock(PackTable3(g), g);
  }

  /** On Molecule-valid witnesses the lock's canonical form is the host's. */
  lemma CanonicalAgrees(w: WitnessArgs)
    requires WitnessArgsSize(w) <= CANONICAL_LIMIT
    ensures CanonicalWitness(PackWitnessArgs(w)) == Some(PackWitnessArgs(w.(lock := Some([]))))
  {
    hide PackTable3;
    hide CanonicalWitness;
    var f := PackedFields(w);
    Table3IsPacked(PackTable3(f), f);
    CanonicalIsEmptyLock(PackTable3(f), f);
  }
}
