/** The Lua program: decode every plan, check every plan, and only then write. */
module Script {
  import opened Common
  import opened Decimal
  import opened Opcodes
  import opened Keyspace

  datatype WirePlan = WirePlan(key: Bytes, ttype: nat, require: nat, checks: seq<Step>, actions: seq<Step>)

  /** Why the program rejects its own arguments. */
  datatype Fault = Version | PlanCount | PlanHeader | KeyIndex | CheckStep | ActionStep | Trailing | CheckOp

  /** Plans, checks and actions are counted from 1, as the program counts them. */
  datatype Reply =
    | Applied(nplans: nat)
    | Conflict(plan: nat, check: nat)
    | Missing(plan: nat, check: nat)
    | WrongKind(plan: nat)
    | BadProto(fault: Fault, plan: nat)
    | Internal(plan: nat, action: nat)
    | Raised(plan: nat, check: nat)

  // ----- The decoder -----

  /** nextarg followed by tonumber: nil past the end and nil on anything but digits. */
  function NumberAt(argv: seq<Bytes>, i: nat): Option<nat> {
    if i < |argv| then ToNumber(argv[i]) else None
  }

  /** `n` calls of nextarg: past the end they only move the cursor. */
  function ArgsAt(argv: seq<Bytes>, i: nat, n: nat): seq<Bytes> {
    if i >= |argv| then [] else if i + n <= |argv| then argv[i..i + n] else argv[i..]
  }

  /** The next `count` steps after those in `acc`, and the cursor behind them. */
  function DecodeSteps(argv: seq<Bytes>, i: nat, count: nat, acc: seq<Step>): Option<(seq<Step>, nat)>
    decreases count
  {
    if count == 0 then Some((acc, i))
    else
      var op, n := NumberAt(argv, i), NumberAt(argv, i + 1);
      if op.None? || n.None? then None
      else DecodeSteps(argv, i + 2 + n.value, count - 1, acc + [Step(op.value, ArgsAt(argv, i + 2, n.value))])
  }

  /** Plan number `p`, whose header starts at `i`. */
  function DecodePlan(keys: seq<Bytes>, argv: seq<Bytes>, i: nat, p: nat): Result<(WirePlan, nat), Reply> {
    var kx, tt, rq := NumberAt(argv, i), NumberAt(argv, i + 1), NumberAt(argv, i + 2);
    var nc, na := NumberAt(argv, i + 3), NumberAt(argv, i + 4);
    if kx.None? || tt.None? || rq.None? || nc.None? || na.None? then Failure(BadProto(PlanHeader, p))
    else if kx.value < 1 || kx.value > |keys| then Failure(BadProto(KeyIndex, p))
    else match DecodeSteps(argv, i + 5, nc.value, [])
      case None => Failure(BadProto(CheckStep, p))
      case Some((checks, j)) =>
        match DecodeSteps(argv, j, na.value, [])
        case None => Failure(BadProto(ActionStep, p))
        case Some((actions, k)) => Success((WirePlan(keys[kx.value - 1], tt.value, rq.value, checks, actions), k))
  }

  function DecodePlans(keys: seq<Bytes>, argv: seq<Bytes>, i: nat, count: nat,
                       acc: seq<WirePlan>): Result<(seq<WirePlan>, nat), Reply>
    decreases count
  {
    if count == 0 then Success((acc, i))
    else match DecodePlan(keys, argv, i, |acc| + 1)
      case Failure(r) => Failure(r)
      case Success((plan, j)) => DecodePlans(keys, argv, j, count - 1, acc + [plan])
  }

  function Decode(keys: seq<Bytes>, argv: seq<Bytes>): Result<seq<WirePlan>, Reply> {
    if argv == [] || argv[0] != "V1" then Failure(BadProto(Version, 0))
    else if NumberAt(argv, 1).None? then Failure(BadProto(PlanCount, 0))
    else match DecodePlans(keys, argv, 2, NumberAt(argv, 1).value, [])
      case Failure(r) => Failure(r)
      case Success((plans, i)) => if i == |argv| then Success(plans) else Failure(BadProto(Trailing, 0))
  }

  // ----- Key arguments -----

  /** KEYS[tonumber(a[1])] put back in place of the index; an index that names nothing leaves a nil argument. */
  function Resolve(keys: seq<Bytes>, s: Step, namesKey: bool): Step {
    if !namesKey || s.args == [] then s
    else match ToNumber(s.args[0])
      case Some(x) => if 1 <= x <= |keys| then s.(args := s.args[0 := keys[x - 1]]) else s.(args := [])
      case None => s.(args := [])
  }

  // ----- Phase 1 -----

  datatype Verdict = Pass | Clash | Gone | NoSuchCheck | LuaError

  function KindCode(v: Value): nat {
    match v
    case Str(_) => 0
    case Hash(_) => 1
    case List(_) => 2
    case Set(_) => 3
    case ZSet(_) => 4
  }

  /** The implicit TYPE_OK; code 5 is a vector table, whose keys TYPENAME calls strings. */
  predicate KindOk(c: Cell, code: nat) {
    c.Some? ==> KindCode(c.value) == code || (c.value.Str? && code == 5)
  }

  function Count(l: seq<Bytes>, v: Bytes): nat {
    if l == [] then 0 else (if l[0] == v then 1 else 0) + Count(l[1..], v)
  }

  function Absent(there: bool): Verdict {
    if there then Clash else Pass
  }

  function Present(there: bool): Verdict {
    if there then Pass else Gone
  }

  function CheckField(c: Cell, args: seq<Bytes>): Option<bool> {
    if args == [] then None else
    match c
    case None => Some(false)
    case Some(Hash(h)) => Some(args[0] in h)
    case Some(_) => None
  }

  function CheckMember(c: Cell, args: seq<Bytes>): Option<bool> {
    if args == [] then None else
    match c
    case None => Some(false)
    case Some(Set(e)) => Some(args[0] in e)
    case Some(_) => None
  }

  function CheckScore(c: Cell, args: seq<Bytes>): Option<bool> {
    if args == [] then None else
    match c
    case None => Some(false)
    case Some(ZSet(z)) => Some(args[0] in z)
    case Some(_) => None
  }

  function CheckCount(c: Cell, args: seq<Bytes>): Verdict {
    if |args| < 2 || ToNumber(args[1]).None? then LuaError else
    match c
    case None => Present(0 >= ToNumber(args[1]).value)
    case Some(List(l)) => Present(Count(l, args[0]) >= ToNumber(args[1]).value)
    case Some(_) => LuaError
  }

  function Judge(there: Option<bool>, wantAbsent: bool): Verdict {
    if there.None? then LuaError else if wantAbsent then Absent(there.value) else Present(there.value)
  }

  /** One check through the program's CHECK table. A command that fails here raises and ends the program. */
  function EvalCheck(db: Db, key: Bytes, s: Step): Verdict {
    var c := At(db, key);
    if s.op == CHK_TYPE_OK then Pass
    else if s.op == CHK_KEY_ABSENT then Absent(c.Some?)
    else if s.op == CHK_KEY_PRESENT then Present(c.Some?)
    else if s.op == CHK_HFIELD_ABSENT || s.op == CHK_HFIELD_PRESENT then
      Judge(CheckField(c, s.args), s.op == CHK_HFIELD_ABSENT)
    else if s.op == CHK_SMEMBER_ABSENT || s.op == CHK_SMEMBER_PRESENT then
      Judge(CheckMember(c, s.args), s.op == CHK_SMEMBER_ABSENT)
    else if s.op == CHK_ZMEMBER_ABSENT || s.op == CHK_ZMEMBER_PRESENT then
      Judge(CheckScore(c, s.args), s.op == CHK_ZMEMBER_ABSENT)
    else if s.op == CHK_LVALUE_COUNT_GE then CheckCount(c, s.args)
    else if s.op == CHK_KSET_ABSENT || s.op == CHK_KSET_PRESENT then
      (if |s.args| < 2 then LuaError
       else Judge(CheckMember(At(db, s.args[0]), s.args[1..]), s.op == CHK_KSET_ABSENT))
    else NoSuchCheck
  }

  function VerdictReply(v: Verdict, p: nat, c: nat): Reply
    requires !v.Pass?
  {
    match v
    case Clash => Conflict(p, c)
    case Gone => Missing(p, c)
    case NoSuchCheck => BadProto(CheckOp, p)
    case LuaError => Raised(p, c)
  }

  /** The first failing check of plan number `p` from check `c` on. */
  function CheckPlan(db: Db, keys: seq<Bytes>, plan: WirePlan, p: nat, c: nat): Option<Reply>
    requires c <= |plan.checks|
    decreases |plan.checks| - c
  {
    if c == |plan.checks| then None
    else
      var v := EvalCheck(db, plan.key, Resolve(keys, plan.checks[c], CheckNamesKey(plan.checks[c].op)));
      if v.Pass? then CheckPlan(db, keys, plan, p, c + 1) else Some(VerdictReply(v, p, c + 1))
  }

  /** Phase 1 from plan `p` on: the reply it exits with, or nothing. */
  function Phase1(db: Db, keys: seq<Bytes>, plans: seq<WirePlan>, p: nat): Option<Reply>
    requires p <= |plans|
    decreases |plans| - p
  {
    if p == |plans| then None
    else if !KindOk(At(db, plans[p].key), plans[p].ttype) then Some(WrongKind(p + 1))
    else match CheckPlan(db, keys, plans[p], p + 1, 0)
      case Some(r) => Some(r)
      case None => Phase1(db, keys, plans, p + 1)
  }

  // ----- Phase 2 -----

  /** The actions of one plan from action `c` on: where they leave the keyspace, and the one that failed, if any. */
  function Act(n: Numbers, db: Db, keys: seq<Bytes>, plan: WirePlan, c: nat): (Db, Option<nat>)
    requires c <= |plan.actions|
    decreases |plan.actions| - c
  {
    if c == |plan.actions| then (db, None)
    else match Exec(n, db, plan.key, Resolve(keys, plan.actions[c], ActionNamesKey(plan.actions[c].op)))
      case Failure(_) => (db, Some(c))
      case Success(db') => Act(n, db', keys, plan, c + 1)
  }

  function Phase2(n: Numbers, db: Db, keys: seq<Bytes>, plans: seq<WirePlan>, p: nat): (Db, Reply)
    requires p <= |plans|
    decreases |plans| - p
  {
    if p == |plans| then (db, Applied(|plans|))
    else
      var (db', failed) := Act(n, db, keys, plans[p], 0);
      match failed
      case Some(c) => (db', Internal(p + 1, c + 1))
      case None => Phase2(n, db', keys, plans, p + 1)
  }

  /** The whole program: the keyspace it leaves and the reply it sends. */
  function Eval(n: Numbers, db: Db, keys: seq<Bytes>, argv: seq<Bytes>): (Db, Reply) {
    match Decode(keys, argv)
    case Failure(r) => (db, r)
    case Success(plans) =>
      match Phase1(db, keys, plans, 0)
      case Some(r) => (db, r)
      case None => Phase2(n, db, keys, plans, 0)
  }
}
