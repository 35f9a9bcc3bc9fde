/** No accepted INSERT overwrites: what it writes was not there, however many operations came before it. */
module NoOverwrite {
  import opened Common
  import opened Opcodes
  import opened Keyspace
  import opened WriteOps
  import opened Fold
  import opened Regroup
  import opened Script
  import Commit

  // ----- One key's share of a run -----

  predicate IsKeysetStep(s: Step) {
    s.op == ACT_KSET_ADD || s.op == ACT_KSET_REM
  }

  /** What a plan's steps do to the plan's own key. */
  function RunCell(n: Numbers, c: Cell, steps: seq<Step>): Cell {
    if steps == [] then c
    else
      var before := RunCell(n, c, steps[..|steps| - 1]);
      var s := steps[|steps| - 1];
      if IsKeysetStep(s) then before else CellEffect(n, before, s)
  }

  lemma {:induction false} RunCellAppend(n: Numbers, c: Cell, a: seq<Step>, b: seq<Step>)
    ensures RunCell(n, c, a + b) == RunCell(n, RunCell(n, c, a), b)
  {
    if b == [] {
      assert a + b == a;
    } else {
      RunCellAppend(n, c, a, b[..|b| - 1]);
      assert (a + b)[..|a + b| - 1] == a + b[..|b| - 1];
    }
  }

  /** The step writes no key `k` that is not its plan's own. */
  predicate StepSpares(s: Step, k: Bytes) {
    s.op != ACT_RENAME && (IsKeysetStep(s) ==> s.args != [] && s.args[0] != k)
  }

  predicate StepsSpare(steps: seq<Step>, k: Bytes) {
    forall i :: 0 <= i < |steps| ==> StepSpares(steps[i], k)
  }

  /** Steps that edit no keyset `k` change `k` as their own cell or not at all. */
  lemma {:induction false} RunAt(n: Numbers, db: Db, key: Bytes, steps: seq<Step>, k: Bytes)
    requires StepsSpare(steps, k)
    ensures At(Run(n, db, key, steps), k) == if k == key then RunCell(n, At(db, key), steps) else At(db, k)
  {
    hide At, Put, CellEffect, Effect;
    if steps == [] {
    } else {
      var front, s := steps[..|steps| - 1], steps[|steps| - 1];
      RunAt(n, db, key, front, k);
      StepAt(n, Run(n, db, key, front), key, s, k);
    }
  }

  lemma StepAt(n: Numbers, db: Db, key: Bytes, s: Step, k: Bytes)
    requires StepSpares(s, k)
    ensures At(Effect(n, db, key, s), k)
            == if k == key && !IsKeysetStep(s) then CellEffect(n, At(db, key), s) else At(db, k)
  {
    hide At, Put, CellEffect, Effect;
    EffectIsLocal(n, db, key, s);
    PutAt(db, Target(key, s), CellEffect(n, At(db, Target(key, s)), Plain(s)), k);
  }

  /** The operation adds its row to the keyset `k`, or takes it out. */
  predicate EditsKeyset(op: WriteOp, k: Bytes) {
    op.keyset == Some(k) && (op.kind == Insert || IsKeyDelete(op))
  }

  predicate Spares(op: WriteOp, k: Bytes) {
    !IsRename(op) && !EditsKeyset(op, k)
  }

  predicate AllSpare(log: Log, k: Bytes) {
    forall i :: 0 <= i < |log| ==> Spares(log[i], k)
  }

  lemma ShapeStepsSpare(op: WriteOp, k: Bytes)
    ensures StepsSpare(ShapeSteps(op), k)
    ensures forall i :: 0 <= i < |ShapeSteps(op)| ==> !IsKeysetStep(ShapeSteps(op)[i])
  {
    hide ShapeSteps;
    ShapeStepsAreData(op);
  }

  lemma OpStepsSpare(op: WriteOp, k: Bytes)
    requires Spares(op, k)
    ensures StepsSpare(OpSteps(op), k)
  {
    hide ShapeSteps;
    ShapeStepsSpare(op, k);
  }

  /** One operation that spares `k`, on the keyspace. */
  lemma OpAt(n: Numbers, db: Db, op: WriteOp, k: Bytes)
    requires Spares(op, k)
    ensures At(Run(n, db, op.key, OpSteps(op)), k)
            == if k == op.key then RunCell(n, At(db, k), OpSteps(op)) else At(db, k)
  {
    hide OpSteps, Run, RunCell, Spares, StepSpares;
    OpStepsSpare(op, k);
    RunAt(n, db, op.key, OpSteps(op), k);
  }

  // ----- The invariant -----

  predicate Has(c: Cell, sub: Bytes) {
    match c
    case Some(Hash(h)) => sub in h
    case Some(Set(e)) => sub in e
    case Some(ZSet(z)) => sub in z
    case _ => false
  }

  /** A member recorded as gone is gone, and one never touched is there only if it was there at the start. */
  ghost predicate Tracked(ms: Members, key: Bytes, c0: Cell, c: Cell) {
    forall sub :: Has(c, sub) ==> if (key, sub) in ms then ms[(key, sub)].present else Has(c0, sub)
  }

  /** What a plan's state and member entries say about its key, `c0` at the start of the run and `c` now. */
  ghost predicate Inv(key: Bytes, t: TableType, state: KeyState, ms: Members, c0: Cell, c: Cell) {
    && TypeOk(c, t)
    && (state == Created ==> c0.None?)
    && (t == StringTable && state == Deleted ==> c.None?)
    && Tracked(ms, key, c0, c)
  }

  ghost predicate DraftInv(d: Draft, c0: Cell, c: Cell) {
    Inv(d.plan.key, d.plan.ttype, d.plan.state, d.members, c0, c)
  }

  predicate ChecksPass(db0: Db, p: Plan) {
    forall c :: 0 <= c < |p.checks| ==> EvalCheck(db0, p.key, p.checks[c]).Pass?
  }

  /** The steps that put something there find it absent. */
  predicate Fresh(c: Cell, s: Step) {
    && (s.op == ACT_SET ==> c.None?)
    && (s.op == ACT_HSET || s.op == ACT_SADD ==> s.args != [] && !Has(c, s.args[0]))
    && (s.op == ACT_ZADD ==> |s.args| == 2 && !Has(c, s.args[1]))
  }

  predicate AllFresh(n: Numbers, c: Cell, steps: seq<Step>) {
    forall j :: 0 <= j < |steps| ==> Fresh(RunCell(n, c, steps[..j]), steps[j])
  }

  lemma AllFreshAppend(n: Numbers, c: Cell, a: seq<Step>, b: seq<Step>)
    requires AllFresh(n, c, a) && AllFresh(n, RunCell(n, c, a), b)
    ensures AllFresh(n, c, a + b)
  {
    forall j | 0 <= j < |a + b| ensures Fresh(RunCell(n, c, (a + b)[..j]), (a + b)[j]) {
      if j < |a| {
        assert (a + b)[..j] == a[..j];
      } else {
        assert (a + b)[..j] == a + b[..j - |a|];
        RunCellAppend(n, c, a, b[..j - |a|]);
      }
    }
  }

  lemma SingleStep(n: Numbers, c: Cell, s: Step)
    requires !IsKeysetStep(s)
    ensures RunCell(n, c, [s]) == CellEffect(n, c, s)
    ensures Fresh(c, s) ==> AllFresh(n, c, [s])
  {
    assert [s][..0] == [];
  }

  lemma HarmlessSteps(n: Numbers, c: Cell, steps: seq<Step>)
    requires forall j :: 0 <= j < |steps| ==> steps[j].op !in {ACT_SET, ACT_HSET, ACT_SADD, ACT_ZADD}
    ensures AllFresh(n, c, steps)
  {}

  lemma KeysetStepsAreElsewhere(n: Numbers, c: Cell, op: WriteOp, key: Bytes, add: bool)
    ensures RunCell(n, c, KeysetSteps(op, key, add)) == c && AllFresh(n, c, KeysetSteps(op, key, add))
  {
    if op.keyset.Some? {
      assert KeysetSteps(op, key, add)[..0] == [];
    }
  }

  /** An absent key has no members, so an entry-free key is tracked from the start. */
  lemma NothingHas(ms: Members, key: Bytes, c0: Cell, c: Cell)
    requires c.None? || c.value.Str? || c.value.List?
    ensures Tracked(ms, key, c0, c)
  {}

  // ----- Hash fields -----

  lemma {:induction false} FieldKeepsInv(n: Numbers, d: Draft, op: WriteOp, f: Arg, db0: Db, c: Cell)
    requires d.plan.key == op.key && d.plan.ttype == HashTable && FoldField(d, op, f).Success?
    requires DraftInv(d, At(db0, op.key), c) && ChecksPass(db0, FoldField(d, op, f).value.plan)
    ensures DraftInv(FoldField(d, op, f).value, At(db0, op.key), CellEffect(n, c, FieldStep(f)))
    ensures op.kind == Insert ==> Fresh(c, FieldStep(f))
  {
    hide EvalCheck;
    var d' := FoldField(d, op, f).value;
    var c0 := At(db0, op.key);
    var c' := CellEffect(n, c, FieldStep(f));
    FieldEffect(n, c, f);
    if op.kind == Insert {
      if (op.key, f.name) !in d.members && d.plan.state != Created {
        var s := Step(CHK_HFIELD_ABSENT, [f.name]);
        assert d'.plan.checks[|d.plan.checks|] == s;
        FieldAbsentCheck(db0, op.key, f.name);
      }
      assert !Has(c, f.name);
    }
  }

  lemma OnlyKey<V>(h: map<Bytes, V>, f: Bytes)
    ensures h - {f} == map[] ==> forall sub :: sub in h ==> sub == f
  {
    if h - {f} == map[] {
      forall sub | sub in h ensures sub == f {
        assert sub != f ==> sub in h - {f};
      }
    }
  }

  lemma FieldEffect(n: Numbers, c: Cell, f: Arg)
    requires TypeOk(c, HashTable)
    ensures var c' := CellEffect(n, c, FieldStep(f));
            && TypeOk(c', HashTable) && (Has(c', f.name) <==> f.data.Some?)
            && forall sub :: sub != f.name ==> (Has(c', sub) <==> Has(c, sub))
  {
    if c.Some? && c.value.Hash? {
      OnlyKey(c.value.fields, f.name);
    }
  }

  lemma FieldAbsentCheck(db0: Db, key: Bytes, f: Bytes)
    ensures EvalCheck(db0, key, Step(CHK_HFIELD_ABSENT, [f])).Pass? ==> !Has(At(db0, key), f)
  {}

  lemma FieldsChecksGrow(d: Draft, op: WriteOp, i: nat)
    requires 0 < i <= |op.fields| && FoldFields(d, op, i).Success?
    ensures FoldFields(d, op, i - 1).Success?
    ensures FoldFields(d, op, i - 1).value.plan.checks <= FoldFields(d, op, i).value.plan.checks
    ensures FoldFields(d, op, i - 1).value.plan.key == FoldFields(d, op, i).value.plan.key
  {}

  lemma {:induction false} FieldsKeepInv(n: Numbers, d: Draft, op: WriteOp, i: nat, db0: Db, c: Cell)
    requires i <= |op.fields| && d.plan.key == op.key && d.plan.ttype == HashTable && FoldFields(d, op, i).Success?
    requires DraftInv(d, At(db0, op.key), c) && ChecksPass(db0, FoldFields(d, op, i).value.plan)
    ensures DraftInv(FoldFields(d, op, i).value, At(db0, op.key), RunCell(n, c, FieldSteps(op.fields, i)))
    ensures op.kind == Insert ==> AllFresh(n, c, FieldSteps(op.fields, i))
  {
    hide FoldField, EvalCheck, FieldStep, Fresh, Inv;
    if i == 0 {
    } else {
      FieldsChecksGrow(d, op, i);
      var before := FoldFields(d, op, i - 1).value;
      FieldsKeepInv(n, d, op, i - 1, db0, c);
      FoldFieldsGrows(d, op, i - 1);
      var c1 := RunCell(n, c, FieldSteps(op.fields, i - 1));
      var s := FieldStep(op.fields[i - 1]);
      FieldKeepsInv(n, before, op, op.fields[i - 1], db0, c1);
      FieldStepIsData(op.fields[i - 1]);
      SingleStep(n, c1, s);
      RunCellAppend(n, c, FieldSteps(op.fields, i - 1), [s]);
      if op.kind == Insert {
        AllFreshAppend(n, c, FieldSteps(op.fields, i - 1), [s]);
      }
    }
  }

  lemma FieldStepIsData(f: Arg)
    ensures !IsKeysetStep(FieldStep(f))
  {}

  lemma {:induction false} TtlsKeepMembers(n: Numbers, c: Cell, ttls: seq<Arg>)
    ensures forall sub :: Has(RunCell(n, c, TtlSteps(ttls)), sub) <==> Has(c, sub)
    ensures TypeOk(c, HashTable) ==> TypeOk(RunCell(n, c, TtlSteps(ttls)), HashTable)
    ensures AllFresh(n, c, TtlSteps(ttls))
  {
    hide AllFresh;
    HarmlessSteps(n, c, TtlSteps(ttls));
    if ttls == [] {
    } else {
      TtlsKeepMembers(n, c, ttls[..|ttls| - 1]);
      assert TtlSteps(ttls)[..|ttls| - 1] == TtlSteps(ttls[..|ttls| - 1]);
      TtlKeepsMembers(n, RunCell(n, c, TtlSteps(ttls[..|ttls| - 1])), ttls[|ttls| - 1]);
    }
  }

  lemma TtlKeepsMembers(n: Numbers, c: Cell, t: Arg)
    ensures forall sub :: Has(CellEffect(n, c, TtlStep(t)), sub) <==> Has(c, sub)
    ensures TypeOk(c, HashTable) ==> TypeOk(CellEffect(n, c, TtlStep(t)), HashTable)
  {}

  // ----- Set and zset members -----

  lemma MemberAbsentCheck(db0: Db, key: Bytes, m: Bytes, z: bool)
    ensures EvalCheck(db0, key, MemberCheck(z, Insert, m)).Pass? ==> !Has(At(db0, key), m)
  {}

  lemma MemberInsertIsFresh(d: Draft, op: WriteOp, db0: Db, c: Cell)
    requires d.plan.key == op.key && op.kind == Insert && op.member.Some? && op.oldmember.None?
    requires MemberPrecondition(d, op).Success? && ChecksPass(db0, MemberPrecondition(d, op).value.plan)
    requires DraftInv(d, At(db0, op.key), c)
    ensures !Has(c, op.member.value)
  {
    hide EvalCheck, MemberCheck;
    var m := op.member.value;
    var d' := MemberPrecondition(d, op).value;
    if (op.key, m) !in d.members && d.plan.state != Created {
      assert d'.plan.checks[|d.plan.checks|] == MemberCheck(d.plan.ttype == ZSetTable, Insert, m);
      MemberAbsentCheck(db0, op.key, m, d.plan.ttype == ZSetTable);
    }
  }

  lemma OnlyElement(e: set<Bytes>, m: Bytes)
    ensures e - {m} == {} ==> forall sub :: sub in e ==> sub == m
  {
    if e - {m} == {} {
      forall sub | sub in e ensures sub == m {
        assert sub != m ==> sub in e - {m};
      }
    }
  }

  lemma RemoveEffect(n: Numbers, c: Cell, t: TableType, m: Bytes)
    requires (t == SetTable || t == ZSetTable) && TypeOk(c, t)
    ensures var c' := CellEffect(n, c, RemoveStep(t == ZSetTable, m));
            TypeOk(c', t) && forall sub :: Has(c', sub) <==> Has(c, sub) && sub != m
  {
    match c
    case Some(ZSet(z)) => OnlyKey(z, m);
    case Some(Set(e)) => OnlyElement(e, m);
    case _ =>
  }

  lemma AddEffect(n: Numbers, c: Cell, t: TableType, op: WriteOp)
    requires (t == SetTable || t == ZSetTable) && TypeOk(c, t) && op.member.Some?
    ensures var c' := CellEffect(n, c, AddStep(t == ZSetTable, op));
            TypeOk(c', t) && forall sub :: Has(c', sub) ==> Has(c, sub) || sub == op.member.value
  {}

  lemma MemberRemoveKeepsInv(n: Numbers, d: Draft, op: WriteOp, c0: Cell, c: Cell)
    requires d.plan.key == op.key && op.kind == Delete && op.oldmember.None? && op.member.Some? &&
        d.plan.ttype == op.ttype
    requires op.ttype == SetTable || op.ttype == ZSetTable
    requires FoldMember(d, op).Success? && DraftInv(d, c0, c)
    ensures DraftInv(FoldMember(d, op).value, c0, RunCell(n, c, MemberSteps(op)))
  {
    hide Local, MemberCheck;
    SingleStep(n, c, RemoveStep(op.ttype == ZSetTable, op.member.value));
    RemoveEffect(n, c, op.ttype, op.member.value);
  }

  lemma MemberRenameEffect(n: Numbers, c: Cell, op: WriteOp)
    requires IsMemberRename(op) && (op.ttype == SetTable || op.ttype == ZSetTable) && TypeOk(c, op.ttype)
    ensures var c' := RunCell(n, c, MemberSteps(op));
            && TypeOk(c', op.ttype)
            && forall sub :: Has(c', sub) ==> sub == op.member.value || (Has(c, sub) && sub != op.oldmember.value)
  {
    hide CellEffect;
    var r, a := RemoveStep(op.ttype == ZSetTable, op.oldmember.value), AddStep(op.ttype == ZSetTable, op);
    SingleStep(n, c, r);
    var c1 := RunCell(n, c, [r]);
    RunCellAppend(n, c, [r], [a]);
    SingleStep(n, c1, a);
    RemoveEffect(n, c, op.ttype, op.oldmember.value);
    AddEffect(n, c1, op.ttype, op);
  }

  lemma MemberRenameKeepsInv(n: Numbers, d: Draft, op: WriteOp, c0: Cell, c: Cell)
    requires d.plan.key == op.key && IsMemberRename(op) && d.plan.ttype == op.ttype
    requires op.ttype == SetTable || op.ttype == ZSetTable
    requires FoldMember(d, op).Success? && DraftInv(d, c0, c)
    ensures DraftInv(FoldMember(d, op).value, c0, RunCell(n, c, MemberSteps(op)))
  {
    hide Has, RunCell, MemberSteps, MemberCheck, AddStep, RemoveStep, TypeOk;
    MemberRenameEffect(n, c, op);
  }

  lemma MemberAddKeepsInv(n: Numbers, d: Draft, op: WriteOp, c0: Cell, c: Cell)
    requires d.plan.key == op.key && op.kind != Delete && op.member.Some? && !IsMemberRename(op) &&
        d.plan.ttype == op.ttype
    requires op.ttype == SetTable || op.ttype == ZSetTable
    requires WellFormed(op) && FoldMember(d, op).Success? && DraftInv(d, c0, c)
    ensures DraftInv(FoldMember(d, op).value, c0, RunCell(n, c, MemberSteps(op)))
    ensures !Has(c, op.member.value) ==> AllFresh(n, c, MemberSteps(op))
  {
    hide Local, MemberCheck;
    var a := AddStep(op.ttype == ZSetTable, op);
    assert MemberSteps(op) == [a];
    SingleStep(n, c, a);
    AddEffect(n, c, op.ttype, op);
  }

  lemma {:induction false} MemberKeepsInv(n: Numbers, d: Draft, op: WriteOp, db0: Db, c: Cell)
    requires d.plan.key == op.key && WellFormed(op) && d.plan.ttype == op.ttype && FoldMember(d, op).Success?
    requires op.ttype == SetTable || op.ttype == ZSetTable
    requires DraftInv(d, At(db0, op.key), c) && ChecksPass(db0, FoldMember(d, op).value.plan)
    ensures DraftInv(FoldMember(d, op).value, At(db0, op.key), RunCell(n, c, MemberSteps(op)))
    ensures op.kind == Insert ==> AllFresh(n, c, MemberSteps(op))
  {
    hide EvalCheck, Local, MemberSteps, RunCell, MemberPrecondition, Inv, AllFresh;
    if op.member.None? {
      NoMember(n, d, op, c);
    } else if op.kind == Delete {
      MemberRemoveKeepsInv(n, d, op, At(db0, op.key), c);
    } else if IsMemberRename(op) {
      MemberRenameKeepsInv(n, d, op, At(db0, op.key), c);
    } else {
      MemberAddKeepsInv(n, d, op, At(db0, op.key), c);
      if op.kind == Insert {
        MemberInsertIsFresh(d, op, db0, c);
      }
    }
  }

  lemma NoMember(n: Numbers, d: Draft, op: WriteOp, c: Cell)
    requires op.member.None?
    ensures FoldMember(d, op) == Success(d) && RunCell(n, c, MemberSteps(op)) == c && AllFresh(n, c, MemberSteps(op))
  {}

  // ----- One operation -----

  lemma ListKeepsInv(n: Numbers, d: Draft, op: WriteOp, c0: Cell, c: Cell)
    requires d.plan.ttype == ListTable && DraftInv(d, c0, c)
    ensures DraftInv(FoldList(d, op), c0, RunCell(n, c, ListSteps(op))) && AllFresh(n, c, ListSteps(op))
  {
    if op.member.Some? {
      SingleStep(n, c, ListSteps(op)[0]);
      NothingHas(FoldList(d, op).members, d.plan.key, c0, CellEffect(n, c, ListSteps(op)[0]));
    }
  }

  lemma StringKeepsInv(n: Numbers, d: Draft, op: WriteOp, c0: Cell, c: Cell)
    requires op.ttype == StringTable && d.plan.ttype == StringTable && !op.packedShape && !IsKeyDelete(op)
    requires DraftInv(d, c0, c) && (op.kind == Insert ==> c.None?)
    ensures FoldBody(d, op).Success? && DraftInv(FoldBody(d, op).value, c0, RunCell(n, c, ShapeSteps(op)))
    ensures op.kind == Insert ==> AllFresh(n, c, ShapeSteps(op))
  {
    if op.value.Some? {
      SingleStep(n, c, Step(ACT_SET, [op.value.value]));
    }
    NothingHas(d.members, d.plan.key, c0, RunCell(n, c, ShapeSteps(op)));
  }

  /** Finishing an operation touches neither the key's contents nor its entries, and no longer calls the key deleted. */
  lemma FinishKeepsInv(d: Draft, op: WriteOp, c0: Cell, c: Cell)
    requires DraftInv(d, c0, c)
    ensures DraftInv(Finish(d, op), c0, c)
  {}

  lemma HashKeepsInv(n: Numbers, d: Draft, op: WriteOp, db0: Db, c: Cell)
    requires op.ttype == HashTable && !op.packedShape && d.plan.key == op.key && d.plan.ttype == HashTable
    requires FoldShape(d, op).Success? && DraftInv(d, At(db0, op.key), c) &&
        ChecksPass(db0, FoldShape(d, op).value.plan)
    ensures DraftInv(FoldShape(d, op).value, At(db0, op.key), RunCell(n, c, ShapeSteps(op)))
    ensures op.kind == Insert ==> AllFresh(n, c, ShapeSteps(op))
  {
    hide FoldFields, FieldSteps, TtlSteps, EvalCheck;
    var fs := FieldSteps(op.fields, |op.fields|);
    FieldsKeepInv(n, d, op, |op.fields|, db0, c);
    FoldFieldsGrows(d, op, |op.fields|);
    TtlsKeepMembers(n, RunCell(n, c, fs), op.ttls);
    RunCellAppend(n, c, fs, TtlSteps(op.ttls));
    if op.kind == Insert {
      AllFreshAppend(n, c, fs, TtlSteps(op.ttls));
    }
  }

  lemma ShapeKeepsInv(n: Numbers, d: Draft, op: WriteOp, db0: Db, c: Cell)
    requires d.plan.key == op.key && WellFormed(op) && d.plan.ttype == op.ttype && !op.packedShape && !IsKeyDelete(op)
    requires FoldBody(d, op).Success? && ChecksPass(db0, FoldBody(d, op).value.plan)
    requires DraftInv(d, At(db0, op.key), c)
    requires op.kind == Insert && op.ttype == StringTable ==> c.None?
    ensures DraftInv(FoldBody(d, op).value, At(db0, op.key), RunCell(n, c, ShapeSteps(op)))
    ensures op.kind == Insert ==> AllFresh(n, c, ShapeSteps(op))
  {
    hide FoldFields, FoldMember, FoldList, EvalCheck, Inv, ShapeSteps, RunCell;
    var shaped := FoldShape(d, op).value;
    assert shaped.plan.checks == FoldBody(d, op).value.plan.checks;
    assert shaped.plan.key == op.key by { FoldShapeGrows(d, op); }
    match op.ttype
    case StringTable => StringKeepsInv(n, d, op, At(db0, op.key), c);
    case HashTable =>
      HashKeepsInv(n, d, op, db0, c);
      FinishKeepsInv(shaped, op, At(db0, op.key), RunCell(n, c, ShapeSteps(op)));
    case ListTable =>
      ListKeepsInv(n, d, op, At(db0, op.key), c);
      ListShape(op);
      FinishKeepsInv(shaped, op, At(db0, op.key), RunCell(n, c, ShapeSteps(op)));
    case VectorTable =>
    case _ =>
      MemberKeepsInv(n, d, op, db0, c);
      MemberShape(op);
      FinishKeepsInv(shaped, op, At(db0, op.key), RunCell(n, c, ShapeSteps(op)));
  }

  lemma ListShape(op: WriteOp)
    requires !op.packedShape && op.ttype == ListTable
    ensures ShapeSteps(op) == ListSteps(op)
  {}

  lemma MemberShape(op: WriteOp)
    requires !op.packedShape && (op.ttype == SetTable || op.ttype == ZSetTable)
    ensures ShapeSteps(op) == MemberSteps(op)
  {}

  lemma DeleteKeepsInv(n: Numbers, d: Draft, op: WriteOp, c0: Cell, c: Cell)
    requires IsKeyDelete(op) && DraftInv(d, c0, c)
    ensures DraftInv(FoldBody(d, op).value, c0, RunCell(n, c, OpSteps(op)))
  {
    var del := [Step(ACT_DEL, [])];
    SingleStep(n, c, del[0]);
    RunCellAppend(n, c, del, KeysetSteps(op, op.key, false));
    KeysetStepsAreElsewhere(n, None, op, op.key, false);
    NothingHas(d.members, d.plan.key, c0, None);
  }

  lemma BodyKeepsInv(n: Numbers, d: Draft, op: WriteOp, db0: Db, c: Cell)
    requires d.plan.key == op.key && WellFormed(op) && d.plan.ttype == op.ttype && !op.packedShape
    requires FoldBody(d, op).Success? && ChecksPass(db0, FoldBody(d, op).value.plan)
    requires DraftInv(d, At(db0, op.key), c)
    requires op.kind == Insert && op.ttype == StringTable ==> c.None?
    ensures DraftInv(FoldBody(d, op).value, At(db0, op.key), RunCell(n, c, OpSteps(op)))
    ensures op.kind == Insert ==> AllFresh(n, c, OpSteps(op))
  {
    hide FoldBody, EvalCheck, Inv, ShapeSteps, RunCell, AllFresh;
    if IsKeyDelete(op) {
      DeleteKeepsInv(n, d, op, At(db0, op.key), c);
    } else {
      ShapeKeepsInv(n, d, op, db0, c);
      var c' := RunCell(n, c, ShapeSteps(op));
      if op.kind == Insert {
        RunCellAppend(n, c, ShapeSteps(op), KeysetSteps(op, op.key, true));
        KeysetStepsAreElsewhere(n, c', op, op.key, true);
        AllFreshAppend(n, c, ShapeSteps(op), KeysetSteps(op, op.key, true));
      } else {
        assert ShapeSteps(op) + [] == ShapeSteps(op);
      }
    }
  }

  // ----- The whole log -----

  /** An operation changes only the entries of its own key. */
  ghost predicate OnlyEntriesOf(key: Bytes, before: Members, after: Members) {
    forall id: (Bytes, Bytes) :: id.0 != key ==>
      (id in before <==> id in after) && (id in before ==> after[id] == before[id])
  }

  lemma {:induction false} FieldsTouchOwnEntries(d: Draft, op: WriteOp, i: nat)
    requires i <= |op.fields| && FoldFields(d, op, i).Success?
    ensures OnlyEntriesOf(op.key, d.members, FoldFields(d, op, i).value.members)
  {
    if i == 0 {
    } else {
      FieldsTouchOwnEntries(d, op, i - 1);
    }
  }

  lemma MemberTouchesOwnEntries(d: Draft, op: WriteOp)
    requires FoldMember(d, op).Success?
    ensures OnlyEntriesOf(op.key, d.members, FoldMember(d, op).value.members)
  {}

  lemma BodyTouchesOwnEntries(d: Draft, op: WriteOp)
    requires FoldBody(d, op).Success?
    ensures OnlyEntriesOf(op.key, d.members, FoldBody(d, op).value.members)
  {
    hide FoldFields, FoldMember;
    if !IsKeyDelete(op) && !op.packedShape {
      match op.ttype
      case HashTable => FieldsTouchOwnEntries(d, op, |op.fields|);
      case SetTable => MemberTouchesOwnEntries(d, op);
      case ZSetTable => MemberTouchesOwnEntries(d, op);
      case _ =>
    }
  }

  // ----- One key through the whole log -----

  /** What the ledger says of `key` is true of it; a key not yet named holds what it held, and has no entries. */
  ghost predicate KeyInv(b: Book, key: Bytes, db0: Db, db: Db) {
    var i := IndexOf(b.plans, key);
    if i < |b.plans|
    then Inv(key, b.plans[i].ttype, b.plans[i].state, b.members, At(db0, key), At(db, key))
    else At(db, key) == At(db0, key) && forall sub :: (key, sub) !in b.members
  }

  predicate PlanFits(b: Book, op: WriteOp) {
    var i := IndexOf(b.plans, op.key);
    i < |b.plans| ==> b.plans[i].ttype == op.ttype
  }

  lemma KeyAbsentCheck(db0: Db, p: Plan, c: nat)
    requires ChecksPass(db0, p) && c < |p.checks| && p.checks[c] == Step(CHK_KEY_ABSENT, [])
    ensures At(db0, p.key).None?
  {
    assert EvalCheck(db0, p.key, p.checks[c]).Pass?;
  }

  lemma NoEntries(ms: Members, key: Bytes, c: Cell)
    requires forall sub :: (key, sub) !in ms
    ensures Tracked(ms, key, c, c)
  {}

  /** The plan the shape's fold starts from satisfies the invariant, and a string INSERT finds its key absent. */
  lemma OpenedInv(b: Book, op: WriteOp, db0: Db, db: Db, q: Plan)
    requires KeyInv(b, op.key, db0, db) && PlanFits(b, op) && !IsRename(op)
    requires !IsDuplicate(PlanFor(b, op), op, IndexOf(b.plans, op.key) == |b.plans|)
    requires q.key == op.key && q.ttype == op.ttype && Opened(b, op).checks <= q.checks && Commit.PlanPasses(db0, q)
    ensures Opened(b, op).key == op.key && Opened(b, op).ttype == op.ttype
    ensures DraftInv(Draft(Opened(b, op), b.members), At(db0, op.key), At(db, op.key))
    ensures op.kind == Insert && op.ttype == StringTable ==> At(db, op.key).None?
  {
    hide EvalCheck, Tracked, TypeOk, At;
    var i, p := IndexOf(b.plans, op.key), Opened(b, op);
    if i == |b.plans| {
      NoEntries(b.members, op.key, At(db, op.key));
      if op.kind == Insert {
        assert q.checks[1] == p.checks[1];
        KeyAbsentCheck(db0, q, 1);
      }
    }
  }

  lemma NoteIsFresh(n: Numbers, b: Book, op: WriteOp, db0: Db, db: Db) returns (d: Draft)
    requires KeyInv(b, op.key, db0, db) && PlanFits(b, op) && !IsRename(op) && WellFormed(op) && !op.packedShape
    requires Note(b, op).Success? && Commit.Passes(db0, Note(b, op).value.plans)
    ensures Note(b, op).value == Book(SetPlan(b.plans, IndexOf(b.plans, op.key), d.plan), d.members) &&
        d.plan.key == op.key
    ensures DraftInv(d, At(db0, op.key), RunCell(n, At(db, op.key), OpSteps(op)))
    ensures op.kind == Insert ==> AllFresh(n, At(db, op.key), OpSteps(op))
  {
    hide FoldBody, Opened, KeyInv, Inv, EvalCheck, RunCell, OpSteps, PlanFor, At, AllFresh, IsDuplicate;
    var i := IndexOf(b.plans, op.key);
    var i', q := NoteGrowsOnePlan(b, op);
    var start := Draft(Opened(b, op), b.members);
    d := FoldBody(start, op).value;
    assert Note(b, op).value.plans[i] == q == d.plan;
    assert Commit.PlanPasses(db0, q);
    OpenedType(b, op);
    FoldBodyGrows(start, op);
    OpenedInv(b, op, db0, db, q);
    BodyKeepsInv(n, start, op, db0, At(db, op.key));
  }

  lemma OpenedType(b: Book, op: WriteOp)
    requires PlanFits(b, op)
    ensures Opened(b, op).ttype == op.ttype
  {}

  lemma InvFrame(key: Bytes, other: Bytes, t: TableType, state: KeyState, before: Members, after: Members, c0: Cell,
                 c: Cell)
    requires key != other && OnlyEntriesOf(other, before, after) && Inv(key, t, state, before, c0, c)
    ensures Inv(key, t, state, after, c0, c)
  {
    hide Has, TypeOk;
    forall sub | Has(c, sub) ensures if (key, sub) in after then after[(key, sub)].present else Has(c0, sub) {
      var id := (key, sub);
      assert id in before <==> id in after;
    }
  }

  lemma OtherKeyKept(b: Book, op: WriteOp, key: Bytes, db0: Db, db: Db, db': Db)
    requires KeyInv(b, key, db0, db) && op.key != key && !IsRename(op) && Note(b, op).Success? &&
        At(db', key) == At(db, key)
    ensures KeyInv(Note(b, op).value, key, db0, db')
  {
    hide FoldBody, Opened, Inv, At;
    var d := Draft(Opened(b, op), b.members);
    var d' := FoldBody(d, op).value;
    OpenedKey(b, op);
    BodyKeepsKey(d, op);
    BodyTouchesOwnEntries(d, op);
    IndexAfterSet(b.plans, IndexOf(b.plans, op.key), d'.plan, key);
    var i := IndexOf(b.plans, key);
    if i < |b.plans| {
      InvFrame(key, op.key, b.plans[i].ttype, b.plans[i].state, b.members, d'.members, At(db0, key), At(db, key));
    } else {
      forall sub ensures (key, sub) !in d'.members {
        var id := (key, sub);
        assert id in b.members <==> id in d'.members;
      }
    }
  }

  lemma {:induction false} NoteKeepsKeyInv(n: Numbers, b: Book, op: WriteOp, key: Bytes, db0: Db, db: Db)
    requires KeyInv(b, key, db0, db) && PlanFits(b, op) && Spares(op, key)
    requires op.key == key ==> WellFormed(op) && !op.packedShape
    requires Note(b, op).Success? && Commit.Passes(db0, Note(b, op).value.plans)
    ensures KeyInv(Note(b, op).value, key, db0, Run(n, db, op.key, OpSteps(op)))
    ensures op.key == key && op.kind == Insert ==> AllFresh(n, At(db, key), OpSteps(op))
  {
    hide Note, Inv, RunCell, OpSteps, Run, At, AllFresh, PlanFits, Commit.Passes;
    OpAt(n, db, op, key);
    if op.key == key {
      var d := NoteIsFresh(n, b, op, db0, db);
      IndexAfterSet(b.plans, IndexOf(b.plans, op.key), d.plan, key);
    } else {
      OtherKeyKept(b, op, key, db0, db, Run(n, db, op.key, OpSteps(op)));
    }
  }

  /** The operations on `key` are mapped rows. */
  predicate Unpacked(log: Log, key: Bytes) {
    forall i :: 0 <= i < |log| && log[i].key == key ==> WellFormed(log[i]) && !log[i].packedShape
  }

  lemma {:induction false} FoldKeepsKeyInv(n: Numbers, log: Log, key: Bytes, db0: Db)
    requires RenameFree(log) && TypeConsistent(log) && AllSpare(log, key) && Unpacked(log, key)
    requires FoldLog(log).Success? && Commit.Passes(db0, FoldLog(log).value.plans)
    ensures KeyInv(FoldLog(log).value, key, db0, RunLog(n, log, db0))
  {
    hide Note, KeyInv, OpSteps, Spares, Commit.Passes, Run;
    if log == [] {
      EmptyKeyInv(key, db0);
    } else {
      var front, op := log[..|log| - 1], log[|log| - 1];
      Commit.PlanOfTheLast(log);
      Commit.PassesEarlier(FoldLog(front).value, op, db0);
      FoldKeepsKeyInv(n, front, key, db0);
      NoteKeepsKeyInv(n, FoldLog(front).value, op, key, db0, RunLog(n, front, db0));
    }
  }

  lemma EmptyKeyInv(key: Bytes, db0: Db)
    ensures KeyInv(EMPTY_BOOK, key, db0, db0)
  {}

  /**
   In any accepted log without renames, run in order from a keyspace its plans' checks hold of, an INSERT of a mapped
   row finds absent what it writes, the string key, each non-null field or the member, if no operation before it edited
   its key as a keyset.
   */
  lemma {:induction false} InsertsNeverOverwrite(n: Numbers, log: Log, db0: Db, i: nat)
    requires RenameFree(log) && TypeConsistent(log) && FoldLog(log).Success? &&
        Commit.Passes(db0, FoldLog(log).value.plans)
    requires i < |log| && log[i].kind == Insert
    requires AllSpare(log[..i], log[i].key) && Unpacked(log[..i + 1], log[i].key)
    ensures AllFresh(n, At(RunLog(n, log[..i], db0), log[i].key), OpSteps(log[i]))
  {
    hide FoldLog, RunLog, AllFresh, OpSteps, Commit.Passes, Note, At, KeyInv, Spares;
    var upTo, op := log[..i + 1], log[i];
    assert upTo[..|upTo| - 1] == log[..i] && upTo[|upTo| - 1] == op;
    Commit.PassesPrefix(log, db0, i + 1);
    Commit.PassesPrefix(log, db0, i);
    assert Unpacked(log[..i], op.key);
    FoldKeepsKeyInv(n, log[..i], op.key, db0);
    Commit.PlanOfTheLast(upTo);
    NoteOfTheLast(upTo);
    var d := NoteIsFresh(n, FoldLog(log[..i]).value, op, db0, RunLog(n, log[..i], db0));
  }

  lemma NoteOfTheLast(log: Log)
    requires log != [] && FoldLog(log).Success?
    ensures FoldLog(log[..|log| - 1]).Success? && FoldLog(log) == Note(FoldLog(log[..|log| - 1]).value, log[|log| - 1])
  {}
}
