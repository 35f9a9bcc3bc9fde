/**
 Folding a log of row operations into one plan per key: what the ledger computes, as functions of its state.

 The class in Ledger.dfy computes the same thing by mutation and is proved equal to `Note`.
 */
module Fold {
  import opened Common
  import opened Decimal
  import opened Opcodes
  import opened WriteOps

  datatype KeyState = Created | Live | Deleted

  datatype Plan = Plan(
    key: Bytes,
    ttype: TableType,
    require: Require,
    state: KeyState,
    checks: seq<Step>,
    actions: seq<Step>,
    relids: seq<nat>)

  /** `count` and `removals` are a list's: occurrences pushed, and occurrences that must have been there. */
  datatype Member = Member(present: bool, touched: bool, count: nat, removals: nat)

  type Members = map<(Bytes, Bytes), Member>

  datatype Book = Book(plans: seq<Plan>, members: Members)

  const EMPTY_BOOK := Book([], map[])

  datatype Refusal = DuplicateKey | DuplicateMember(sub: Bytes) | Unwritable

  /** The plan an operation is being folded into, with the member entries beside it. */
  datatype Draft = Draft(plan: Plan, members: Members)

  // ----- Steps -----

  function AddCheck(p: Plan, s: Step): Plan {
    p.(checks := p.checks + [s])
  }

  function AddAction(p: Plan, s: Step): Plan {
    p.(actions := p.actions + [s])
  }

  /** A plan starts with the type check and nothing else. */
  function NewPlan(key: Bytes, ttype: TableType): Plan {
    Plan(key, ttype, RequireAny, Created, [Step(CHK_TYPE_OK, [])], [], [])
  }

  function AddRelid(p: Plan, relid: nat): Plan {
    if relid in p.relids then p else p.(relids := p.relids + [relid])
  }

  function IndexOf(plans: seq<Plan>, key: Bytes): (i: nat)
    ensures i <= |plans|
    ensures i < |plans| ==> plans[i].key == key
    ensures forall j :: 0 <= j < i ==> plans[j].key != key
  {
    if plans == [] || plans[0].key == key then 0 else 1 + IndexOf(plans[1..], key)
  }

  function MemberAt(ms: Members, key: Bytes, sub: Bytes): Member {
    if (key, sub) in ms then ms[(key, sub)] else Member(false, false, 0, 0)
  }

  function KeysetSteps(op: WriteOp, key: Bytes, add: bool): seq<Step> {
    if op.keyset.None? then []
    else [Step(if add then ACT_KSET_ADD else ACT_KSET_REM, [op.keyset.value, key])]
  }

  // ----- The key: precondition, duplicate rule, rename -----

  /** The precondition comes from the first operation on a key; a rename's destination is created. */
  function Precondition(p: Plan, first: bool, kind: OpKind, renameTarget: bool): Plan {
    if !first then p
    else if kind == Insert || renameTarget then
      AddCheck(p, Step(CHK_KEY_ABSENT, [])).(require := RequireAbsent, state := Created)
    else
      AddCheck(p, Step(CHK_KEY_PRESENT, [])).(require := RequirePresent, state := Live)
  }

  predicate IsDuplicate(p: Plan, op: WriteOp, first: bool) {
    op.kind == Insert && !first && p.state != Deleted && p.ttype == StringTable
  }

  function RenameSteps(op: WriteOp): seq<Step>
    requires IsRename(op)
  {
    [Step(ACT_RENAME, [op.oldkey.value])]
    + KeysetSteps(op, op.oldkey.value, false) + KeysetSteps(op, op.key, true)
  }

  /** The source of a rename has a plan of its own, because a plan's checks are about its own key. */
  function TouchSource(plans: seq<Plan>, op: WriteOp): (r: seq<Plan>)
    requires IsRename(op)
    ensures |plans| <= |r|
  {
    var source := op.oldkey.value;
    var j := IndexOf(plans, source);
    if j == |plans| then
      plans + [Precondition(AddRelid(NewPlan(source, op.ttype), op.relid), true, Update, false)]
    else
      plans[j := AddRelid(plans[j], op.relid)]
  }

  // ----- Hash fields and expiries -----

  function FieldStep(f: Arg): Step {
    if f.data.None? then Step(ACT_HDEL, [f.name]) else Step(ACT_HSET, [f.name, f.data.value])
  }

  function FoldField(d: Draft, op: WriteOp, f: Arg): Result<Draft, Refusal> {
    var id := (op.key, f.name);
    var first := id !in d.members;
    var m := MemberAt(d.members, op.key, f.name);
    if !first && op.kind == Insert && m.present then Failure(DuplicateMember(f.name))
    else
      var p := if first && d.plan.state != Created
               then AddCheck(d.plan, Step(if op.kind == Insert then CHK_HFIELD_ABSENT
                 else CHK_HFIELD_PRESENT, [f.name]))
               else d.plan;
      Success(Draft(AddAction(p, FieldStep(f)),
                    d.members[id := m.(touched := m.touched || first, present := f.data.Some?)]))
  }

  /** The first `i` fields, in order. */
  function FoldFields(d: Draft, op: WriteOp, i: nat): Result<Draft, Refusal>
    requires i <= |op.fields|
  {
    if i == 0 then Success(d)
    else match FoldFields(d, op, i - 1)
      case Success(d') => FoldField(d', op, op.fields[i - 1])
      case Failure(e) => Failure(e)
  }

  function TtlStep(t: Arg): Step {
    if t.data.None? then Step(ACT_HPERSIST, [t.name]) else Step(ACT_HPEXPIRE, [t.name, t.data.value])
  }

  function TtlSteps(ttls: seq<Arg>): seq<Step> {
    seq(|ttls|, i requires 0 <= i < |ttls| => TtlStep(ttls[i]))
  }

  // ----- Set and zset members -----

  function RemoveStep(isZSet: bool, m: Bytes): Step {
    Step(if isZSet then ACT_ZREM else ACT_SREM, [m])
  }

  function AddStep(isZSet: bool, op: WriteOp): Step
    requires op.member.Some?
  {
    if isZSet then Step(ACT_ZADD, [if op.score.Some? then op.score.value else "0", op.member.value])
    else Step(ACT_SADD, [op.member.value])
  }

  /** The member whose prior existence is asked about: the one the row had. */
  function OldMember(op: WriteOp): Bytes
    requires op.member.Some?
  {
    if op.oldmember.Some? then op.oldmember.value else op.member.value
  }

  function MemberCheck(isZSet: bool, kind: OpKind, m: Bytes): Step {
    Step(if isZSet then (if kind == Insert then CHK_ZMEMBER_ABSENT else CHK_ZMEMBER_PRESENT)
         else (if kind == Insert then CHK_SMEMBER_ABSENT else CHK_SMEMBER_PRESENT), [m])
  }

  function MemberPrecondition(d: Draft, op: WriteOp): Result<Draft, Refusal>
    requires op.member.Some?
  {
    var idm := OldMember(op);
    var first := (op.key, idm) !in d.members;
    var m := MemberAt(d.members, op.key, idm);
    if !first && op.kind == Insert && m.present then Failure(DuplicateMember(idm))
    else
      var p := if first && d.plan.state != Created
               then AddCheck(d.plan, MemberCheck(d.plan.ttype == ZSetTable, op.kind, idm))
               else d.plan;
      Success(Draft(p, d.members[(op.key, idm) := m.(touched := m.touched || first)]))
  }

  predicate IsMemberRename(op: WriteOp) {
    op.kind == Update && op.member.Some? && op.oldmember.Some? && op.oldmember.value != op.member.value
  }

  function Renamed(d: Draft, op: WriteOp): Draft
    requires IsMemberRename(op)
  {
    var was, now := op.oldmember.value, op.member.value;
    var ms := d.members[(op.key, was) := MemberAt(d.members, op.key, was).(present := false)];
    Draft(AddAction(d.plan, RemoveStep(d.plan.ttype == ZSetTable, was)),
          ms[(op.key, now) := MemberAt(ms, op.key, now).(touched := true)])
  }

  function FoldMember(d: Draft, op: WriteOp): Result<Draft, Refusal> {
    if op.member.None? then Success(d)
    else match MemberPrecondition(d, op)
      case Failure(e) => Failure(e)
      case Success(d1) =>
        var z := d1.plan.ttype == ZSetTable;
        if op.kind == Delete then
          var id := (op.key, OldMember(op));
          Success(Draft(AddAction(d1.plan, RemoveStep(z, op.member.value)),
                        d1.members[id := MemberAt(d1.members, id.0, id.1).(present := false)]))
        else
          var d2 := if IsMemberRename(op) then Renamed(d1, op) else d1;
          var id := (op.key, if IsMemberRename(op) then op.member.value else OldMember(op));
          Success(Draft(AddAction(d2.plan, AddStep(z, op)),
                        d2.members[id := MemberAt(d2.members, id.0, id.1).(present := true)]))
  }

  // ----- Lists: an occurrence count instead of a yes or no -----

  function FoldList(d: Draft, op: WriteOp): Draft {
    if op.member.None? then d
    else
      var v := op.member.value;
      var m := MemberAt(d.members, op.key, v).(touched := true);
      if op.kind == Delete then
        if m.count > 0 then
          Draft(AddAction(d.plan, Step(ACT_LREM1, [v])), d.members[(op.key, v) := m.(count := m.count - 1)])
        else
          var r := m.removals + 1;
          Draft(AddAction(AddCheck(d.plan, Step(CHK_LVALUE_COUNT_GE, [v, Show(r)])), Step(ACT_LREM1, [v])),
                d.members[(op.key, v) := m.(removals := r)])
      else
        Draft(AddAction(d.plan, Step(ACT_RPUSH, [v])), d.members[(op.key, v) := m.(count := m.count + 1)])
  }

  // ----- Packed rows: the key's whole contents -----

  /** The steps the first `i` elements of a packed array become, after the DEL. */
  function PackedSteps(op: WriteOp, i: nat): seq<Step>
    requires i <= |op.packed|
  {
    if i == 0 then [] else PackedSteps(op, i - 1) + PackedStep(op, i - 1)
  }

  /** A packed hash alternates field and value, so only even positions with a successor write. */
  function PackedStep(op: WriteOp, i: nat): seq<Step>
    requires i < |op.packed|
  {
    match op.ttype
    case ListTable => [Step(ACT_RPUSH, [op.packed[i]])]
    case SetTable => [Step(ACT_SADD, [op.packed[i]])]
    case HashTable => if i % 2 == 0 && i + 1 < |op.packed| then [Step(ACT_HSET, [op.packed[i], op.packed[i + 1]])]
      else []
    case _ => []
  }

  predicate Packable(op: WriteOp) {
    op.packed == [] || op.ttype == ListTable || op.ttype == SetTable || op.ttype == HashTable
  }

  // ----- One operation -----

  /** The shapes whose row is the key: their DELETE removes the key itself. */
  predicate IsKeyDelete(op: WriteOp) {
    op.kind == Delete && (op.ttype == StringTable || op.ttype == HashTable || op.packedShape)
  }

  function AddActions(p: Plan, s: seq<Step>): Plan {
    p.(actions := p.actions + s)
  }

  /** What every operation but a whole-key delete ends with. */
  function Finish(d: Draft, op: WriteOp): Draft {
    var p := if op.kind == Insert then AddActions(d.plan, KeysetSteps(op, op.key, true)) else d.plan;
    d.(plan := if p.state == Deleted then p.(state := Live) else p)
  }

  function FoldShape(d: Draft, op: WriteOp): Result<Draft, Refusal> {
    if op.packedShape then
      if Packable(op) then
        Success(d.(plan := AddActions(d.plan, [Step(ACT_DEL, [])] + PackedSteps(op, |op.packed|))))
      else Failure(Unwritable)
    else match op.ttype
      case StringTable => Success(if op.value.Some? then d.(plan := AddAction(d.plan, Step(ACT_SET, [op.value.value])))
        else d)
      case HashTable =>
        (match FoldFields(d, op, |op.fields|)
         case Success(d') => Success(d'.(plan := AddActions(d'.plan, TtlSteps(op.ttls))))
         case Failure(e) => Failure(e))
      case SetTable => FoldMember(d, op)
      case ZSetTable => FoldMember(d, op)
      case ListTable => Success(FoldList(d, op))
      case VectorTable => Failure(Unwritable)
  }

  function FoldBody(d: Draft, op: WriteOp): Result<Draft, Refusal> {
    if IsKeyDelete(op) then
      Success(d.(plan := AddActions(d.plan, [Step(ACT_DEL, [])] + KeysetSteps(op, op.key, false)).(state := Deleted)))
    else match FoldShape(d, op)
      case Success(d') => Success(Finish(d', op))
      case Failure(e) => Failure(e)
  }

  /** The plan `op` meets: the one its key has, or a new one. */
  function PlanFor(b: Book, op: WriteOp): Plan {
    var i := IndexOf(b.plans, op.key);
    AddRelid(if i < |b.plans| then b.plans[i] else NewPlan(op.key, op.ttype), op.relid)
  }

  /** The plan after its key's rules, before the shape's own fold. */
  function Opened(b: Book, op: WriteOp): Plan {
    var p := Precondition(PlanFor(b, op), IndexOf(b.plans, op.key) == |b.plans|, op.kind, IsRename(op));
    if IsRename(op) then AddActions(p, RenameSteps(op)) else p
  }

  function SetPlan(plans: seq<Plan>, i: nat, p: Plan): (r: seq<Plan>)
    requires i <= |plans|
    ensures i < |r| && r[i] == p
  {
    if i < |plans| then plans[i := p] else plans + [p]
  }

  /** Fold one operation into the ledger, or refuse it. */
  function Note(b: Book, op: WriteOp): Result<Book, Refusal> {
    var i := IndexOf(b.plans, op.key);
    if IsDuplicate(PlanFor(b, op), op, i == |b.plans|) then Failure(DuplicateKey)
    else match FoldBody(Draft(Opened(b, op), b.members), op)
      case Failure(e) => Failure(e)
      case Success(d) =>
        var plans := SetPlan(b.plans, i, d.plan);
        Success(Book(if IsRename(op) then TouchSource(plans, op) else plans, d.members))
  }

  function FoldLog(log: Log): Result<Book, Refusal> {
    if log == [] then Success(EMPTY_BOOK)
    else match FoldLog(log[..|log| - 1])
      case Success(b) => Note(b, log[|log| - 1])
      case Failure(e) => Failure(e)
  }

  predicate DistinctKeys(plans: seq<Plan>) {
    forall i, j :: 0 <= i < j < |plans| ==> plans[i].key != plans[j].key
  }

  // ----- One plan per key -----

  lemma BodyKeepsKey(d: Draft, op: WriteOp)
    ensures FoldBody(d, op).Success? ==> FoldBody(d, op).value.plan.key == d.plan.key
  {
    hide FoldFields, FoldMember, FoldList, PackedSteps, TtlSteps;
    if !IsKeyDelete(op) && !op.packedShape {
      match op.ttype
      case HashTable => FieldsKeepKey(d, op, |op.fields|);
      case SetTable => MemberKeepsKey(d, op);
      case ZSetTable => MemberKeepsKey(d, op);
      case ListTable => ListKeepsKey(d, op);
      case _ =>
    }
  }

  lemma MemberKeepsKey(d: Draft, op: WriteOp)
    ensures FoldMember(d, op).Success? ==> FoldMember(d, op).value.plan.key == d.plan.key
  {}

  lemma ListKeepsKey(d: Draft, op: WriteOp)
    ensures FoldList(d, op).plan.key == d.plan.key
  {}

  lemma {:induction false} FieldsKeepKey(d: Draft, op: WriteOp, i: nat)
    requires i <= |op.fields|
    ensures FoldFields(d, op, i).Success? ==> FoldFields(d, op, i).value.plan.key == d.plan.key
  {
    if i == 0 {
    } else {
      FieldsKeepKey(d, op, i - 1);
    }
  }

  lemma IndexOfOther(plans: seq<Plan>, i: nat, key: Bytes)
    requires i < |plans| && plans[i].key != key
    ensures IndexOf(plans, key) != i
  {}

  /** Folding keeps one plan per key, renames included. */
  lemma {:induction false} NoteKeepsKeysDistinct(b: Book, op: WriteOp)
    requires DistinctKeys(b.plans) && Note(b, op).Success?
    ensures DistinctKeys(Note(b, op).value.plans)
  {
    hide FoldBody, RenameSteps;
    var d := FoldBody(Draft(Opened(b, op), b.members), op).value;
    assert Opened(b, op).key == op.key by { OpenedKey(b, op); }
    BodyKeepsKey(Draft(Opened(b, op), b.members), op);
    var plans := SetPlan(b.plans, IndexOf(b.plans, op.key), d.plan);
    assert DistinctKeys(plans);
  }

  lemma OpenedKey(b: Book, op: WriteOp)
    ensures Opened(b, op).key == op.key
  {}

  lemma {:induction false} FoldKeepsKeysDistinct(log: Log)
    requires FoldLog(log).Success?
    ensures DistinctKeys(FoldLog(log).value.plans)
  {
    if log == [] {
    } else {
      FoldKeepsKeysDistinct(log[..|log| - 1]);
      NoteKeepsKeysDistinct(FoldLog(log[..|log| - 1]).value, log[|log| - 1]);
    }
  }

  /** Storing one plan moves no other key's. */
  lemma IndexAfterSet(plans: seq<Plan>, i: nat, p: Plan, key: Bytes)
    requires i == IndexOf(plans, p.key)
    ensures var after := SetPlan(plans, i, p);
            if p.key == key then IndexOf(after, key) == i
            else if IndexOf(plans, key) < |plans| then IndexOf(after, key) == IndexOf(plans, key) != i
            else IndexOf(after, key) == |after|
  {
    var after := SetPlan(plans, i, p);
    var j := IndexOf(after, key);
    assert forall x :: 0 <= x < |plans| ==> after[x].key == plans[x].key;
  }
}
