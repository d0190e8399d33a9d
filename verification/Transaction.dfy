/** Transactions as AccountLock sees them through system calls: cells resolved, hashes uninterpreted. */
module Transaction {
  import opened Bytes

  datatype OutPoint = OutPoint(txHash: Digest, index: nat)

  /** A script is its serialized bytes; two scripts are the same when these are. */
  datatype Cell = Cell(lock: Bytes, typeScript: Option<Bytes>, data: Bytes)

  datatype Input = Input(previous: OutPoint, cell: Cell, since: U64)

  datatype Transaction = Transaction(
    hash: Digest,
    inputs: seq<Input>,
    outputs: seq<Cell>,
    deps: seq<Cell>,
    witnesses: seq<Bytes>)

  /** The two chain hashes: of any byte string, and of cell data. Nothing is assumed about either. */
  datatype Hashes = Hashes(ckb: Bytes -> Digest, data: Bytes -> Digest)

  function TypeHash(h: Hashes, c: Cell): Option<Digest> {
    if c.typeScript.None? then None else Some(h.ckb(c.typeScript.value))
  }

  function InputCells(tx: Transaction): (cells: seq<Cell>)
    ensures |cells| == |tx.inputs|
    ensures forall i | 0 <= i < |cells| :: cells[i] == tx.inputs[i].cell
  {
    seq(|tx.inputs|, i requires 0 <= i < |tx.inputs| => tx.inputs[i].cell)
  }

  /** The indices from `from` on of the inputs locked by `script`, in order. */
  function GroupFrom(inputs: seq<Input>, script: Bytes, from: nat): seq<nat>
    decreases |inputs| - from
  {
    if from >= |inputs| then []
    else (if inputs[from].cell.lock == script then [from] else []) + GroupFrom(inputs, script, from + 1)
  }

  /** The script's lock group. */
  function Group(tx: Transaction, script: Bytes): seq<nat> {
    GroupFrom(tx.inputs, script, 0)
  }

  predicate Ascending(indices: seq<nat>) {
    forall i, j | 0 <= i < j < |indices| :: indices[i] < indices[j]
  }

  lemma {:induction false} GroupMembers(inputs: seq<Input>, script: Bytes, from: nat, i: nat)
    ensures i in GroupFrom(inputs, script, from) <==> from <= i < |inputs| && inputs[i].cell.lock == script
    decreases |inputs| - from
  {
    if from < |inputs| {
      GroupMembers(inputs, script, from + 1, i);
    }
  }

  lemma {:induction false} GroupIsAscending(inputs: seq<Input>, script: Bytes, from: nat)
    ensures Ascending(GroupFrom(inputs, script, from))
    decreases |inputs| - from
  {
    if from < |inputs| {
      GroupIsAscending(inputs, script, from + 1);
      var rest := GroupFrom(inputs, script, from + 1);
      forall j | 0 <= j < |rest| ensures from < rest[j] {
        assert rest[j] in rest;
        GroupMembers(inputs, script, from + 1, rest[j]);
      }
    }
  }
}
