/** The vocabulary the ledger writes and the Lua program reads: table types, checks and actions by number. */
module Opcodes {
  import opened Common

  /** Numbered 0 to 5 on the wire, in this order. */
  datatype TableType = StringTable | HashTable | ListTable | SetTable | ZSetTable | VectorTable

  function TableCode(t: TableType): nat {
    match t
    case StringTable => 0
    case HashTable => 1
    case ListTable => 2
    case SetTable => 3
    case ZSetTable => 4
    case VectorTable => 5
  }

  datatype Require = RequireAny | RequireAbsent | RequirePresent

  function RequireCode(r: Require): nat {
    match r
    case RequireAny => 0
    case RequireAbsent => 1
    case RequirePresent => 2
  }

  /** One check or one action: an opcode and its length-counted arguments. */
  datatype Step = Step(op: nat, args: seq<Bytes>)

  const CHK_KEY_ABSENT := 0
  const CHK_KEY_PRESENT := 1
  const CHK_TYPE_OK := 2
  const CHK_HFIELD_ABSENT := 3
  const CHK_HFIELD_PRESENT := 4
  const CHK_SMEMBER_ABSENT := 5
  const CHK_SMEMBER_PRESENT := 6
  const CHK_ZMEMBER_ABSENT := 7
  const CHK_ZMEMBER_PRESENT := 8
  const CHK_LVALUE_COUNT_GE := 9
  const CHK_KSET_ABSENT := 10
  const CHK_KSET_PRESENT := 11

  const ACT_SET := 0
  const ACT_DEL := 1
  const ACT_HSET := 2
  const ACT_HDEL := 3
  const ACT_SADD := 4
  const ACT_SREM := 5
  const ACT_ZADD := 6
  const ACT_ZREM := 7
  const ACT_RPUSH := 8
  const ACT_LREM1 := 9
  const ACT_RENAME := 10
  const ACT_KSET_ADD := 11
  const ACT_KSET_REM := 12
  const ACT_HPEXPIRE := 13
  const ACT_HPERSIST := 14

  /** The steps whose first argument names another key, and so travels as an index into KEYS. */
  predicate CheckNamesKey(op: nat) {
    op == CHK_KSET_ABSENT || op == CHK_KSET_PRESENT
  }

  predicate ActionNamesKey(op: nat) {
    op == ACT_RENAME || op == ACT_KSET_ADD || op == ACT_KSET_REM
  }
}
