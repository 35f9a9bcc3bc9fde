/** One buffered row operation, as a modify callback leaves it for the ledger. */
module WriteOps {
  import opened Common
  import opened Opcodes

  datatype OpKind = Insert | Update | Delete

  /** A named payload. `None` is an explicit NULL: delete the field, or persist its expiry. */
  datatype Arg = Arg(name: Bytes, data: Option<Bytes>)

  /** A buffered tuple, compared and returned but never looked into. */
  type Row = Bytes

  datatype WriteOp = WriteOp(
    kind: OpKind,
    relid: nat,
    ttype: TableType,
    cid: nat,
    key: Bytes,
    oldkey: Option<Bytes>,
    member: Option<Bytes>,
    oldmember: Option<Bytes>,
    value: Option<Bytes>,
    score: Option<Bytes>,
    fields: seq<Arg>,
    ttls: seq<Arg>,
    packed: seq<Bytes>,
    packedShape: bool,
    row: Option<Row>,
    keyset: Option<Bytes>)

  type Log = seq<WriteOp>

  /** An UPDATE that changes its row's key. */
  predicate IsRename(op: WriteOp) {
    op.kind == Update && op.oldkey.Some? && op.oldkey.value != op.key
  }

  /** Only an UPDATE carries the identity its row had before. */
  predicate WellFormed(op: WriteOp) {
    op.kind != Update ==> op.oldkey.None? && op.oldmember.None?
  }

  predicate RenameFree(log: Log) {
    forall i :: 0 <= i < |log| ==> !IsRename(log[i])
  }

  /** All operations on one key come from tables of one type. */
  predicate TypeConsistent(log: Log) {
    forall i, j :: 0 <= i < |log| && 0 <= j < |log| && log[i].key == log[j].key ==> log[i].ttype == log[j].ttype
  }

  /** No keyset index is itself a key some operation writes. */
  predicate KeysetsApart(log: Log) {
    forall i, j :: 0 <= i < |log| && 0 <= j < |log| && log[i].keyset.Some? ==> log[i].keyset.value != log[j].key
  }
}
