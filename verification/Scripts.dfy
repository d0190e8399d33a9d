/** Serialized CKB scripts, and what AccountLock reads off them. */
module Scripts {
  import opened Bytes
  import opened Protocol
  import opened Molecule
  import opened AccountLock

  datatype Script = Script(codeHash: Digest, hashType: Byte, args: Bytes)

  predicate Fits(s: Script) {
    53 + |s.args| <= U32_MAX
  }

  /** A serialized CKB script. */
  function ScriptBytes(s: Script): (b: Bytes)
    requires Fits(s)
    ensures |b| == 53 + |s.args|
  {
    PackTable3(Fields(s.codeHash, [s.hashType], PackBytes(s.args)))
  }

  const HASH_TYPE_TYPE: Byte := 1
  const HASH_TYPE_DATA2: Byte := 4

  /** CKB's built-in Type ID: "TYPE_ID", padded on the left. */
  function TypeIdCodeHash(): Digest {
    seq(25, _ => 0) + [0x54, 0x59, 0x50, 0x45, 0x5f, 0x49, 0x44]
  }

  function TypeIdScript(args: Digest): Script {
    Script(TypeIdCodeHash(), HASH_TYPE_TYPE, args)
  }

  /** AccountLock's script for an account, under the code with this data hash. */
  function AccountScript(codeHash: Digest, id: Digest): Script {
    Script(codeHash, HASH_TYPE_DATA2, [ACCOUNT_LOCK_VERSION] + id)
  }

  lemma ScriptIsRead(s: Script)
    requires Fits(s)
    ensures Table3Fields(ScriptBytes(s)) == Some(Fields(s.codeHash, [s.hashType], PackBytes(s.args)))
    ensures ScriptArgs(ScriptBytes(s)) == Some(s.args)
  {
    hide PackTable3;
    hide PackBytes;
    hide Table3Fields;
    hide MoleculeBytes;
    PackedLength(s.args);
    var f := Fields(s.codeHash, [s.hashType], PackBytes(s.args));
    Table3IsPacked(PackTable3(f), f);
    MoleculeBytesIsPacked(PackBytes(s.args), s.args);
  }

  lemma ScriptIsDetermined(s: Script, u: Script)
    requires Fits(s) && Fits(u) && ScriptBytes(s) == ScriptBytes(u)
    ensures s == u
  {
    hide ScriptBytes;
    ScriptIsRead(s);
    ScriptIsRead(u);
    assert [s.hashType][0] == [u.hashType][0];
  }

  lemma PackedLength(content: Bytes)
    requires |content| <= U32_MAX
    ensures |PackBytes(content)| == 4 + |content|
  {
  }

  lemma AccountScriptIsRead(codeHash: Digest, id: Digest)
    ensures AccountOf(ScriptBytes(AccountScript(codeHash, id))) == Some(id)
  {
    hide ScriptBytes;
    hide ScriptArgs;
    ScriptIsRead(AccountScript(codeHash, id));
    assert AccountScript(codeHash, id).args[1..] == id;
  }
}
