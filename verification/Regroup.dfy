/** Grouping a log's commands by key, in first-touch order, means the same as running them in log order. */
module Regroup {
  import opened Common
  import opened Opcodes
  import opened Keyspace
  import opened WriteOps
  import opened Fold

  // ----- What one operation asks of the server, whatever the ledger already holds -----

  function FieldSteps(fields: seq<Arg>, i: nat): seq<Step>
    requires i <= |fields|
  {
    if i == 0 then [] else FieldSteps(fields, i - 1) + [FieldStep(fields[i - 1])]
  }

  function MemberSteps(op: WriteOp): seq<Step> {
    var z := op.ttype == ZSetTable;
    if op.member.None? then []
    else if op.kind == Delete then [RemoveStep(z, op.member.value)]
    else (if IsMemberRename(op) then [RemoveStep(z, op.oldmember.value)] else []) + [AddStep(z, op)]
  }

  function ListSteps(op: WriteOp): seq<Step> {
    if op.member.None? then []
    else [Step(if op.kind == Delete then ACT_LREM1 else ACT_RPUSH, [op.member.value])]
  }

  function ShapeSteps(op: WriteOp): seq<Step> {
    if op.packedShape then [Step(ACT_DEL, [])] + PackedSteps(op, |op.packed|)
    else match op.ttype
      case StringTable => if op.value.Some? then [Step(ACT_SET, [op.value.value])] else []
      case HashTable => FieldSteps(op.fields, |op.fields|) + TtlSteps(op.ttls)
      case SetTable => MemberSteps(op)
      case ZSetTable => MemberSteps(op)
      case ListTable => ListSteps(op)
      case VectorTable => []
  }

  /** The commands of one operation that moves no key. */
  function OpSteps(op: WriteOp): seq<Step> {
    if IsKeyDelete(op) then [Step(ACT_DEL, [])] + KeysetSteps(op, op.key, false)
    else ShapeSteps(op) + if op.kind == Insert then KeysetSteps(op, op.key, true) else []
  }

  /** The operations' commands, in log order. */
  function RunLog(n: Numbers, log: Log, db: Db): Db {
    if log == [] then db
    else var op := log[|log| - 1]; Run(n, RunLog(n, log[..|log| - 1], db), op.key, OpSteps(op))
  }

  /** The plans' actions, key by key. */
  function RunPlans(n: Numbers, plans: seq<Plan>, db: Db): Db {
    if plans == [] then db
    else var p := plans[|plans| - 1]; Run(n, RunPlans(n, plans[..|plans| - 1], db), p.key, p.actions)
  }

  // ----- The fold adds exactly an operation's own steps -----

  /** `q` is `p` with `steps` appended to its actions and possibly more checks. */
  predicate Grew(p: Plan, q: Plan, steps: seq<Step>) {
    && q.key == p.key && q.ttype == p.ttype
    && q.actions == p.actions + steps
    && p.checks <= q.checks
  }

  lemma {:induction false} FoldFieldsGrows(d: Draft, op: WriteOp, i: nat)
    requires i <= |op.fields| && FoldFields(d, op, i).Success?
    ensures Grew(d.plan, FoldFields(d, op, i).value.plan, FieldSteps(op.fields, i))
    ensures FoldFields(d, op, i).value.plan.state == d.plan.state
  {
    if i == 0 {
    } else {
      FoldFieldsGrows(d, op, i - 1);
    }
  }

  lemma FoldMemberGrows(d: Draft, op: WriteOp)
    requires d.plan.ttype == op.ttype && FoldMember(d, op).Success?
    ensures Grew(d.plan, FoldMember(d, op).value.plan, MemberSteps(op))
  {}

  lemma FoldShapeGrows(d: Draft, op: WriteOp)
    requires d.plan.ttype == op.ttype && FoldShape(d, op).Success?
    ensures Grew(d.plan, FoldShape(d, op).value.plan, ShapeSteps(op))
  {
    hide FoldFields, FieldSteps, FoldMember, MemberSteps, FoldList, ListSteps, PackedSteps, TtlSteps;
    if !op.packedShape {
      match op.ttype
      case HashTable => FoldFieldsGrows(d, op, |op.fields|);
      case SetTable => FoldMemberGrows(d, op);
      case ZSetTable => FoldMemberGrows(d, op);
      case ListTable => FoldListGrows(d, op);
      case _ =>
    }
  }

  lemma FoldListGrows(d: Draft, op: WriteOp)
    ensures Grew(d.plan, FoldList(d, op).plan, ListSteps(op))
  {}

  lemma FoldBodyGrows(d: Draft, op: WriteOp)
    requires d.plan.ttype == op.ttype && FoldBody(d, op).Success?
    ensures Grew(d.plan, FoldBody(d, op).value.plan, OpSteps(op))
  {
    if !IsKeyDelete(op) {
      FoldShapeGrows(d, op);
    }
  }

  /** Actions depend only on the operation; what the ledger already holds decides checks and refusals alone. */
  lemma {:induction false} NoteGrowsOnePlan(b: Book, op: WriteOp) returns (i: nat, p: Plan)
    requires Note(b, op).Success? && !IsRename(op)
    requires var i := IndexOf(b.plans, op.key); i < |b.plans| ==> b.plans[i].ttype == op.ttype
    ensures i == IndexOf(b.plans, op.key) && Note(b, op).value.plans == SetPlan(b.plans, i, p)
    ensures p.key == op.key && p.ttype == op.ttype
    ensures p.actions == (if i < |b.plans| then b.plans[i].actions else []) + OpSteps(op)
    ensures i < |b.plans| ==> b.plans[i].checks <= p.checks
  {
    i := IndexOf(b.plans, op.key);
    FoldBodyGrows(Draft(Opened(b, op), b.members), op);
    p := Note(b, op).value.plans[i];
  }

  // ----- Which steps a plan may hold -----

  /** `ty` names each key's one table type; no keyset is among those keys, and no operation moves a key. */
  predicate InScope(op: WriteOp, ty: map<Bytes, TableType>) {
    && !IsRename(op)
    && op.key in ty && ty[op.key] == op.ttype
    && (op.keyset.Some? ==> op.keyset.value !in ty)
  }

  predicate Scope(log: Log, ty: map<Bytes, TableType>) {
    forall i :: 0 <= i < |log| ==> InScope(log[i], ty)
  }

  /** A step of `key`'s plan writes `key`, or edits the member `key` of a keyset. */
  predicate Owned(s: Step, key: Bytes, ty: map<Bytes, TableType>) {
    && s.op != ACT_RENAME
    && (s.op == ACT_KSET_ADD || s.op == ACT_KSET_REM ==> |s.args| == 2 && s.args[1] == key && s.args[0] !in ty)
  }

  predicate AllOwned(steps: seq<Step>, key: Bytes, ty: map<Bytes, TableType>) {
    forall i :: 0 <= i < |steps| ==> Owned(steps[i], key, ty)
  }

  lemma OpStepsOwned(op: WriteOp, ty: map<Bytes, TableType>)
    requires InScope(op, ty)
    ensures AllOwned(OpSteps(op), op.key, ty)
  {
    hide Owned, ShapeSteps;
    ShapeStepsOwned(op, ty);
    KeysetStepsOwned(op, ty, true);
    KeysetStepsOwned(op, ty, false);
    assert Owned(Step(ACT_DEL, []), op.key, ty) by { DeleteOwned(op.key, ty); }
  }

  lemma DeleteOwned(key: Bytes, ty: map<Bytes, TableType>)
    ensures Owned(Step(ACT_DEL, []), key, ty)
  {}

  lemma KeysetStepsOwned(op: WriteOp, ty: map<Bytes, TableType>, add: bool)
    requires InScope(op, ty)
    ensures AllOwned(KeysetSteps(op, op.key, add), op.key, ty)
  {}

  lemma ShapeStepsOwned(op: WriteOp, ty: map<Bytes, TableType>)
    ensures AllOwned(ShapeSteps(op), op.key, ty)
  {
    hide ShapeSteps;
    ShapeStepsAreData(op);
  }

  predicate IsData(s: Step) {
    s.op != ACT_RENAME && s.op != ACT_KSET_ADD && s.op != ACT_KSET_REM
  }

  lemma {:induction false} FieldStepsAreData(fields: seq<Arg>, i: nat)
    requires i <= |fields|
    ensures forall x :: 0 <= x < |FieldSteps(fields, i)| ==> IsData(FieldSteps(fields, i)[x])
  {
    if i == 0 {
    } else {
      FieldStepsAreData(fields, i - 1);
    }
  }

  lemma {:induction false} PackedStepsAreData(op: WriteOp, i: nat)
    requires i <= |op.packed|
    ensures forall x :: 0 <= x < |PackedSteps(op, i)| ==> IsData(PackedSteps(op, i)[x])
  {
    if i == 0 {
    } else {
      PackedStepsAreData(op, i - 1);
    }
  }

  /** A row's own steps move no key and edit no keyset. */
  lemma ShapeStepsAreData(op: WriteOp)
    ensures forall x :: 0 <= x < |ShapeSteps(op)| ==> IsData(ShapeSteps(op)[x])
  {
    hide FieldSteps, PackedSteps;
    FieldStepsAreData(op.fields, |op.fields|);
    PackedStepsAreData(op, |op.packed|);
  }

  lemma OwnedApart(k1: Bytes, s1: seq<Step>, k2: Bytes, s2: seq<Step>, ty: map<Bytes, TableType>)
    requires k1 != k2 && k1 in ty && k2 in ty
    requires AllOwned(s1, k1, ty) && AllOwned(s2, k2, ty)
    ensures forall a, b :: a in s1 && b in s2 ==> Apart(k1, a, k2, b)
  {}

  // ----- The theorem -----

  predicate BookScope(plans: seq<Plan>, ty: map<Bytes, TableType>) {
    && DistinctKeys(plans)
    && forall i :: 0 <= i < |plans| ==>
         && plans[i].key in ty && plans[i].ttype == ty[plans[i].key]
         && AllOwned(plans[i].actions, plans[i].key, ty)
  }

  /** Each of `steps` on `key` is apart from every action of the plans after plan `i`. */
  ghost predicate ApartFromLater(key: Bytes, steps: seq<Step>, plans: seq<Plan>, i: nat) {
    forall j, a, b :: i < j < |plans| && a in steps && b in plans[j].actions ==> Apart(key, a, plans[j].key, b)
  }

  /** Steps appended to plan `i` may as well run after every plan. */
  lemma {:induction false} MovePast(n: Numbers, plans: seq<Plan>, i: nat, p: Plan, steps: seq<Step>, db: Db)
    requires i < |plans| && p.key == plans[i].key && p.actions == plans[i].actions + steps
    requires ApartFromLater(p.key, steps, plans, i)
    ensures RunPlans(n, plans[i := p], db) == Run(n, RunPlans(n, plans, db), p.key, steps)
  {
    hide Run, Apart;
    var front, last := plans[..|plans| - 1], plans[|plans| - 1];
    if i == |plans| - 1 {
      assert plans[i := p][..|plans| - 1] == front;
      RunAppend(n, RunPlans(n, front, db), p.key, last.actions, steps);
    } else {
      assert plans[i := p][..|plans| - 1] == front[i := p];
      assert forall j :: 0 <= j < |front| ==> front[j] == plans[j];
      MovePast(n, front, i, p, steps, db);
      RunsCommute(n, RunPlans(n, front, db), p.key, steps, last.key, last.actions);
    }
  }

  lemma OwnedApartFromLater(plans: seq<Plan>, i: nat, key: Bytes, steps: seq<Step>, ty: map<Bytes, TableType>)
    requires BookScope(plans, ty) && i < |plans| && plans[i].key == key && AllOwned(steps, key, ty)
    ensures ApartFromLater(key, steps, plans, i)
  {
    hide Apart, AllOwned;
    forall j | i < j < |plans|
      ensures forall a, b :: a in steps && b in plans[j].actions ==> Apart(key, a, plans[j].key, b) {
      OwnedApart(key, steps, plans[j].key, plans[j].actions, ty);
    }
  }

  lemma SetPlanInScope(plans: seq<Plan>, i: nat, p: Plan, steps: seq<Step>, ty: map<Bytes, TableType>)
    requires BookScope(plans, ty) && i == IndexOf(plans, p.key) && p.key in ty && ty[p.key] == p.ttype
    requires p.actions == (if i < |plans| then plans[i].actions else []) + steps && AllOwned(steps, p.key, ty)
    ensures BookScope(SetPlan(plans, i, p), ty)
  {
    hide Owned;
    assert AllOwned(p.actions, p.key, ty);
  }

  lemma NoteKeepsMeaning(n: Numbers, b: Book, op: WriteOp, db: Db, ty: map<Bytes, TableType>)
    requires BookScope(b.plans, ty) && InScope(op, ty) && Note(b, op).Success?
    ensures BookScope(Note(b, op).value.plans, ty)
    ensures RunPlans(n, Note(b, op).value.plans, db) == Run(n, RunPlans(n, b.plans, db), op.key, OpSteps(op))
  {
    hide Note, OpSteps, AllOwned, Run, RunPlans, BookScope, ApartFromLater;
    PlanInScope(b.plans, op, ty);
    var i, p := NoteGrowsOnePlan(b, op);
    OpStepsOwned(op, ty);
    SetPlanInScope(b.plans, i, p, OpSteps(op), ty);
    if i < |b.plans| {
      OwnedApartFromLater(b.plans, i, op.key, OpSteps(op), ty);
      MovePast(n, b.plans, i, p, OpSteps(op), db);
    } else {
      assert p.actions == [] + OpSteps(op) == OpSteps(op);
      LastPlanRunsLast(n, b.plans, p, db);
    }
  }

  lemma PlanInScope(plans: seq<Plan>, op: WriteOp, ty: map<Bytes, TableType>)
    requires BookScope(plans, ty) && InScope(op, ty)
    ensures var i := IndexOf(plans, op.key); i < |plans| ==> plans[i].ttype == op.ttype
  {}

  lemma LastPlanRunsLast(n: Numbers, plans: seq<Plan>, p: Plan, db: Db)
    ensures RunPlans(n, plans + [p], db) == Run(n, RunPlans(n, plans, db), p.key, p.actions)
  {
    hide Run;
    assert (plans + [p])[..|plans|] == plans;
  }

  lemma {:induction false} RegroupInScope(n: Numbers, log: Log, db: Db, ty: map<Bytes, TableType>)
    requires Scope(log, ty) && FoldLog(log).Success?
    ensures BookScope(FoldLog(log).value.plans, ty)
    ensures RunPlans(n, FoldLog(log).value.plans, db) == RunLog(n, log, db)
  {
    if log == [] {
    } else {
      var front, op := log[..|log| - 1], log[|log| - 1];
      RegroupInScope(n, front, db, ty);
      NoteKeepsMeaning(n, FoldLog(front).value, op, db, ty);
    }
  }

  /** The table type each key of a log is first written under. */
  function Typing(log: Log): map<Bytes, TableType> {
    if log == [] then map[]
    else var op := log[|log| - 1]; Typing(log[..|log| - 1])[op.key := op.ttype]
  }

  predicate WrittenAs(log: Log, k: Bytes, t: TableType) {
    exists i :: 0 <= i < |log| && log[i].key == k && log[i].ttype == t
  }

  lemma WrittenAsSnoc(log: Log, k: Bytes, t: TableType)
    requires log != []
    ensures WrittenAs(log[..|log| - 1], k, t) ==> WrittenAs(log, k, t)
    ensures WrittenAs(log, log[|log| - 1].key, log[|log| - 1].ttype)
  {
    var front := log[..|log| - 1];
    if WrittenAs(front, k, t) {
      var i :| 0 <= i < |front| && front[i].key == k && front[i].ttype == t;
      assert log[i] == front[i];
    }
  }

  lemma {:induction false} TypingIsOfTheLog(log: Log)
    ensures forall i :: 0 <= i < |log| ==> log[i].key in Typing(log)
    ensures forall k :: k in Typing(log) ==> WrittenAs(log, k, Typing(log)[k])
  {
    hide WrittenAs;
    if log == [] {
    } else {
      var front := log[..|log| - 1];
      TypingIsOfTheLog(front);
      forall k | k in Typing(log) ensures WrittenAs(log, k, Typing(log)[k]) {
        WrittenAsSnoc(log, k, Typing(log)[k]);
      }
    }
  }

  lemma TypingScopes(log: Log)
    requires RenameFree(log) && TypeConsistent(log) && KeysetsApart(log)
    ensures Scope(log, Typing(log))
  {
    TypingIsOfTheLog(log);
  }

  /**
   Regrouping preserves meaning: for every accepted log that renames no key, gives each key one table type and
   keeps its keysets apart from its data, the plans key by key end in the keyspace the log ends in, from anywhere.
   */
  lemma {:induction false} RegroupingPreservesMeaning(n: Numbers, log: Log, db: Db)
    requires RenameFree(log) && TypeConsistent(log) && KeysetsApart(log)
    requires FoldLog(log).Success?
    ensures RunPlans(n, FoldLog(log).value.plans, db) == RunLog(n, log, db)
  {
    TypingScopes(log);
    RegroupInScope(n, log, db, Typing(log));
  }
}
