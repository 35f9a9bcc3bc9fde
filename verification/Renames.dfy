/** Logs that move keys: phase 2 runs a key's renames together, and is applied whole when each finds its source. */
module Renames {
  import opened Common
  import opened Opcodes
  import opened Keyspace
  import opened WriteOps
  import opened Fold
  import opened Regroup
  import opened Cells
  import opened Commit
  import Script

  // ----- Which keys are there, command by command -----

  predicate Creates(op: nat) {
    op == ACT_SET || op == ACT_HSET || op == ACT_SADD || op == ACT_ZADD || op == ACT_RPUSH
  }

  predicate LeavesThere(op: nat) {
    op == ACT_KSET_ADD || op == ACT_KSET_REM || op == ACT_HPEXPIRE || op == ACT_HPERSIST
  }

  /**
   A write makes its key live, a removal may have emptied it, and a rename moves life from its source, if it is there.
   */
  function LiveAfter(live: set<Bytes>, c: Command): Option<set<Bytes>> {
    if c.step.op == ACT_RENAME then
      if c.step.args != [] && c.step.args[0] in live then Some(live - {c.step.args[0]} + {c.key}) else None
    else if Creates(c.step.op) then Some(live + {c.key})
    else if LeavesThere(c.step.op) then Some(live)
    else Some(live - {c.key})
  }

  /** The keys surely there after the commands, or `None` where a rename may miss its source. */
  function LiveKeys(cmds: seq<Command>, start: set<Bytes>): Option<set<Bytes>> {
    if cmds == [] then Some(start)
    else match LiveKeys(cmds[..|cmds| - 1], start)
      case None => None
      case Some(live) => LiveAfter(live, cmds[|cmds| - 1])
  }

  /** The keys a folded log's plans take to be there: those whose precondition is KEY_PRESENT. */
  function Start(plans: seq<Plan>): set<Bytes> {
    set p | p in plans && p.require == RequirePresent :: p.key
  }

  function KeysOf(plans: seq<Plan>): set<Bytes> {
    set p | p in plans :: p.key
  }

  // ----- What the fold guarantees, renames included -----

  /** A plan's second check is its precondition, and agrees with `require`. */
  predicate Asked(p: Plan) {
    && |p.checks| >= 2
    && ((p.require == RequirePresent && p.checks[1] == Step(CHK_KEY_PRESENT, []))
        || (p.require == RequireAbsent && p.checks[1] == Step(CHK_KEY_ABSENT, [])))
  }

  /** A step the key's type can take, a keyset edit, or a rename from a key of `from` of the same type. */
  predicate Moves(n: Numbers, key: Bytes, s: Step, ty: map<Bytes, TableType>, ks: set<Bytes>, from: set<Bytes>) {
    if s.op == ACT_RENAME
    then |s.args| == 1 && s.args[0] in from && s.args[0] in ty && key in ty && ty[s.args[0]] == ty[key]
    else Sits(n, key, s, ty, ks)
  }

  predicate AllMove(n: Numbers, key: Bytes, steps: seq<Step>, ty: map<Bytes, TableType>, ks: set<Bytes>,
                    from: set<Bytes>) {
    forall i :: 0 <= i < |steps| ==> Moves(n, key, steps[i], ty, ks, from)
  }

  predicate PlanMoves(n: Numbers, p: Plan, ty: map<Bytes, TableType>, ks: set<Bytes>, from: set<Bytes>) {
    Asked(p) && p.key in ty && ty[p.key] == p.ttype && AllMove(n, p.key, p.actions, ty, ks, from)
  }

  predicate BookMoves(n: Numbers, plans: seq<Plan>, ty: map<Bytes, TableType>, ks: set<Bytes>, from: set<Bytes>) {
    forall i :: 0 <= i < |plans| ==> PlanMoves(n, plans[i], ty, ks, from)
  }

  /** One type per key, a moved key keeping its type, and numbers the server parses. */
  predicate MoveTyped(n: Numbers, op: WriteOp, ty: map<Bytes, TableType>, ks: set<Bytes>) {
    && Typed(op, ty, ks) && NumbersOk(n, op)
    && (IsRename(op) ==> op.oldkey.value in ty && ty[op.oldkey.value] == op.ttype)
  }

  lemma {:induction false} FieldsKeepRequire(d: Draft, op: WriteOp, i: nat)
    requires i <= |op.fields|
    ensures FoldFields(d, op, i).Success? ==> FoldFields(d, op, i).value.plan.require == d.plan.require
  {
    if i == 0 {
    } else {
      FieldsKeepRequire(d, op, i - 1);
    }
  }

  lemma BodyKeepsRequire(d: Draft, op: WriteOp)
    requires FoldBody(d, op).Success?
    ensures FoldBody(d, op).value.plan.require == d.plan.require
  {
    hide FoldFields;
    FieldsKeepRequire(d, op, |op.fields|);
  }

  lemma RenameStepsMove(n: Numbers, op: WriteOp, ty: map<Bytes, TableType>, ks: set<Bytes>, from: set<Bytes>)
    requires MoveTyped(n, op, ty, ks) && IsRename(op) && op.oldkey.value in from
    ensures AllMove(n, op.key, RenameSteps(op), ty, ks, from)
  {}

  lemma OpenedMoves(n: Numbers, b: Book, op: WriteOp, ty: map<Bytes, TableType>, ks: set<Bytes>, from: set<Bytes>)
    requires BookMoves(n, b.plans, ty, ks, from) && MoveTyped(n, op, ty, ks)
    requires IsRename(op) ==> op.oldkey.value in from
    ensures Opened(b, op).ttype == op.ttype && PlanMoves(n, Opened(b, op), ty, ks, from)
  {
    hide Moves, RenameSteps;
    if IsRename(op) {
      RenameStepsMove(n, op, ty, ks, from);
    }
    var i := IndexOf(b.plans, op.key);
    assert i < |b.plans| ==> PlanMoves(n, b.plans[i], ty, ks, from);
  }

  lemma OpStepsMove(n: Numbers, op: WriteOp, ty: map<Bytes, TableType>, ks: set<Bytes>, from: set<Bytes>)
    requires MoveTyped(n, op, ty, ks)
    ensures AllMove(n, op.key, OpSteps(op), ty, ks, from)
  {
    hide OpSteps, NumbersOk;
    OpStepsSit(n, op, ty, ks);
    forall i | 0 <= i < |OpSteps(op)| ensures Moves(n, op.key, OpSteps(op)[i], ty, ks, from) {
      assert Sits(n, op.key, OpSteps(op)[i], ty, ks);
    }
  }

  lemma BodyMoves(n: Numbers, d: Draft, op: WriteOp, ty: map<Bytes, TableType>, ks: set<Bytes>, from: set<Bytes>)
    requires PlanMoves(n, d.plan, ty, ks, from) && d.plan.key == op.key && d.plan.ttype == op.ttype
    requires MoveTyped(n, op, ty, ks) && FoldBody(d, op).Success?
    ensures PlanMoves(n, FoldBody(d, op).value.plan, ty, ks, from) && FoldBody(d, op).value.plan.key == op.key
  {
    hide FoldBody, OpSteps, Moves, MoveTyped;
    FoldBodyGrows(d, op);
    BodyKeepsRequire(d, op);
    OpStepsMove(n, op, ty, ks, from);
    assert FoldBody(d, op).value.plan.checks[1] == d.plan.checks[1];
  }

  lemma TouchedSourceMoves(n: Numbers, plans: seq<Plan>, op: WriteOp, ty: map<Bytes, TableType>, ks: set<Bytes>,
                           from: set<Bytes>)
    requires BookMoves(n, plans, ty, ks, from) && MoveTyped(n, op, ty, ks) && IsRename(op)
    ensures BookMoves(n, TouchSource(plans, op), ty, ks, from)
  {
    hide Moves;
    var j := IndexOf(plans, op.oldkey.value);
    assert j < |plans| ==> PlanMoves(n, plans[j], ty, ks, from);
  }

  lemma NoteMoves(n: Numbers, b: Book, op: WriteOp, ty: map<Bytes, TableType>, ks: set<Bytes>, from: set<Bytes>)
    requires BookMoves(n, b.plans, ty, ks, from) && MoveTyped(n, op, ty, ks) && Note(b, op).Success?
    requires IsRename(op) ==> op.oldkey.value in from
    ensures BookMoves(n, Note(b, op).value.plans, ty, ks, from)
  {
    hide FoldBody, Opened, PlanMoves, MoveTyped, TouchSource;
    var d := Draft(Opened(b, op), b.members);
    OpenedMoves(n, b, op, ty, ks, from);
    OpenedKey(b, op);
    BodyMoves(n, d, op, ty, ks, from);
    var plans := SetPlan(b.plans, IndexOf(b.plans, op.key), FoldBody(d, op).value.plan);
    assert BookMoves(n, plans, ty, ks, from);
    if IsRename(op) {
      TouchedSourceMoves(n, plans, op, ty, ks, from);
    }
  }

  predicate AllMoveTyped(n: Numbers, log: Log, ty: map<Bytes, TableType>, ks: set<Bytes>) {
    forall i :: 0 <= i < |log| ==> MoveTyped(n, log[i], ty, ks)
  }

  function Sources(log: Log): set<Bytes> {
    set i | 0 <= i < |log| && IsRename(log[i]) :: log[i].oldkey.value
  }

  lemma {:induction false} FoldMoves(n: Numbers, log: Log, i: nat, ty: map<Bytes, TableType>, ks: set<Bytes>)
    requires i <= |log| && AllMoveTyped(n, log, ty, ks) && FoldLog(log[..i]).Success?
    ensures BookMoves(n, FoldLog(log[..i]).value.plans, ty, ks, Sources(log))
  {
    hide Note, MoveTyped, PlanMoves;
    if i == 0 {
      assert log[..i] == [];
    } else {
      assert log[..i][..i - 1] == log[..i - 1];
      FoldMoves(n, log, i - 1, ty, ks);
      assert IsRename(log[i - 1]) ==> log[i - 1].oldkey.value in Sources(log);
      NoteMoves(n, FoldLog(log[..i - 1]).value, log[i - 1], ty, ks, Sources(log));
    }
  }

  // ----- Every source has a plan -----

  predicate HasKey(plans: seq<Plan>, k: Bytes) {
    exists i :: 0 <= i < |plans| && plans[i].key == k
  }

  lemma SetPlanKeeps(plans: seq<Plan>, i: nat, p: Plan, k: Bytes)
    requires i <= |plans| && (i < |plans| ==> plans[i].key == p.key)
    ensures HasKey(plans, k) || p.key == k ==> HasKey(SetPlan(plans, i, p), k)
  {
    var after := SetPlan(plans, i, p);
    assert after[i].key == p.key;
    if HasKey(plans, k) {
      var j :| 0 <= j < |plans| && plans[j].key == k;
      assert after[j].key == k;
    }
  }

  lemma NoteKeepsKeys(b: Book, op: WriteOp, k: Bytes)
    requires Note(b, op).Success?
    ensures HasKey(b.plans, k) || k == op.key || (IsRename(op) && k == op.oldkey.value) ==>
              HasKey(Note(b, op).value.plans, k)
  {
    hide FoldBody, Opened, HasKey;
    var d := Draft(Opened(b, op), b.members);
    OpenedKey(b, op);
    BodyKeepsKey(d, op);
    var i, p := IndexOf(b.plans, op.key), FoldBody(d, op).value.plan;
    SetPlanKeeps(b.plans, i, p, k);
    if IsRename(op) {
      var plans := SetPlan(b.plans, i, p);
      var j := IndexOf(plans, op.oldkey.value);
      var touched := TouchSource(plans, op);
      assert touched == SetPlan(plans, j, touched[j]);
      SetPlanKeeps(plans, j, touched[j], k);
    }
  }

  function RowKeys(log: Log): set<Bytes> {
    set i | 0 <= i < |log| :: log[i].key
  }

  /** Every key a row is under, or is moved from, has a plan. */
  lemma {:induction false} KeysHavePlans(log: Log, k: Bytes)
    requires FoldLog(log).Success? && k in RowKeys(log) + Sources(log)
    ensures HasKey(FoldLog(log).value.plans, k)
  {
    hide Note, HasKey;
    if log == [] {
    } else {
      var front, op := log[..|log| - 1], log[|log| - 1];
      var i :| 0 <= i < |log| && (log[i].key == k || (IsRename(log[i]) && log[i].oldkey.value == k));
      if i < |front| {
        assert front[i] == log[i] && k in RowKeys(front) + Sources(front);
        KeysHavePlans(front, k);
      }
      NoteKeepsKeys(FoldLog(front).value, op, k);
    }
  }

  // ----- What passing says of the start -----

  lemma {:induction false} PassingFixesTheStart(n: Numbers, db: Db, plans: seq<Plan>, ty: map<Bytes, TableType>,
                                                ks: set<Bytes>,
                                                from: set<Bytes>)
    requires Passes(db, plans) && BookMoves(n, plans, ty, ks, from)
    ensures Start(plans) == db.Keys * KeysOf(plans)
  {
    hide AllMove;
    forall p | p in plans ensures p.require == RequirePresent <==> p.key in db {
      var i :| 0 <= i < |plans| && plans[i] == p;
      assert PlanPasses(db, plans[i]) && PlanMoves(n, plans[i], ty, ks, from);
      assert Script.EvalCheck(db, p.key, p.checks[1]).Pass?;
    }
    forall k | k in db.Keys * KeysOf(plans) ensures k in Start(plans) {
      var p :| p in plans && p.key == k;
      assert p.require == RequirePresent;
    }
  }

  // ----- String tables without keysets: exactly -----

  predicate StringCommand(c: Command, known: set<Bytes>) {
    && c.key in known
    && (|| (c.step.op == ACT_SET && |c.step.args| >= 1)
        || c.step.op == ACT_DEL
        || (c.step.op == ACT_RENAME && |c.step.args| == 1 && c.step.args[0] in known))
  }

  lemma StringStep(n: Numbers, db: Db, c: Command, known: set<Bytes>)
    requires StringCommand(c, known)
    ensures Exec(n, db, c.key, c.step).Success? <==> LiveAfter(db.Keys * known, c).Some?
    ensures Exec(n, db, c.key, c.step).Success? ==>
              LiveAfter(db.Keys * known, c).value == Effect(n, db, c.key, c.step).Keys * known
  {}

  /** The commands are all taken exactly when no rename misses, and the live keys are then the keys that are there. */
  lemma {:induction false} LiveIsExact(n: Numbers, db: Db, cmds: seq<Command>, known: set<Bytes>)
    requires forall i :: 0 <= i < |cmds| ==> StringCommand(cmds[i], known)
    ensures Clean(n, db, cmds) <==> LiveKeys(cmds, db.Keys * known).Some?
    ensures Clean(n, db, cmds) ==> LiveKeys(cmds, db.Keys * known).value == RunAll(n, db, cmds).Keys * known
  {
    hide StringCommand, LiveAfter, Exec, Effect;
    if cmds == [] {
    } else {
      var front, c := cmds[..|cmds| - 1], cmds[|cmds| - 1];
      LiveIsExact(n, db, front, known);
      StringStep(n, RunAll(n, db, front), c, known);
    }
  }

  predicate StringRow(op: WriteOp) {
    op.ttype == StringTable && op.keyset.None?
  }

  const ANY_NUMBER := Numbers((_: Bytes) => true, (_: Bytes) => true)

  function StringTyping(log: Log): map<Bytes, TableType> {
    var keys := RowKeys(log) + Sources(log);
    map k | k in keys :: StringTable
  }

  lemma StringLogsMove(log: Log)
    requires forall i :: 0 <= i < |log| ==> StringRow(log[i])
    ensures AllMoveTyped(ANY_NUMBER, log, StringTyping(log), {})
  {
    forall i | 0 <= i < |log| ensures MoveTyped(ANY_NUMBER, log[i], StringTyping(log), {}) {
      assert log[i].key in RowKeys(log);
      assert IsRename(log[i]) ==> log[i].oldkey.value in Sources(log);
    }
  }

  lemma MovingStringStep(key: Bytes, s: Step, log: Log, from: set<Bytes>, known: set<Bytes>)
    requires Moves(ANY_NUMBER, key, s, StringTyping(log), {}, from) && from <= known && key in known
    ensures StringCommand(Command(key, s), known)
  {}

  lemma {:induction false} PlansAreStringCommands(log: Log, plans: seq<Plan>, from: set<Bytes>, known: set<Bytes>)
    requires BookMoves(ANY_NUMBER, plans, StringTyping(log), {}, from) && from <= known
    requires forall i :: 0 <= i < |plans| ==> plans[i].key in known
    ensures forall i :: 0 <= i < |AllCommands(plans)| ==> StringCommand(AllCommands(plans)[i], known)
  {
    hide Moves, StringCommand, StringTyping;
    if plans == [] {
    } else {
      var front, p := plans[..|plans| - 1], plans[|plans| - 1];
      PlansAreStringCommands(log, front, from, known);
      assert PlanMoves(ANY_NUMBER, p, StringTyping(log), {}, from);
      forall i | 0 <= i < |p.actions| ensures StringCommand(CommandsOf(p.key, p.actions)[i], known) {
        MovingStringStep(p.key, p.actions[i], log, from, known);
      }
    }
  }

  /** A string log's plans hold string commands on their own keys, and passing fixes which of those are there. */
  lemma StringPlansAreKnown(log: Log, db: Db)
    requires FoldLog(log).Success? && Passes(db, FoldLog(log).value.plans)
    requires forall i :: 0 <= i < |log| ==> StringRow(log[i])
    ensures var plans := FoldLog(log).value.plans;
            && Start(plans) == db.Keys * KeysOf(plans)
            && forall i :: 0 <= i < |AllCommands(plans)| ==> StringCommand(AllCommands(plans)[i], KeysOf(plans))
  {
    hide FoldLog, StringRow, AllCommands, Passes, StringTyping, PlanMoves, MoveTyped, StringCommand;
    var plans, from := FoldLog(log).value.plans, Sources(log);
    var known := KeysOf(plans);
    StringLogsMove(log);
    assert log[..|log|] == log;
    FoldMoves(ANY_NUMBER, log, |log|, StringTyping(log), {});
    forall k | k in from ensures k in known {
      KeysHavePlans(log, k);
      var i :| 0 <= i < |plans| && plans[i].key == k;
      assert plans[i] in plans;
    }
    forall i | 0 <= i < |plans| ensures plans[i].key in known {
      assert plans[i] in plans;
    }
    PlansAreStringCommands(log, plans, from, known);
    PassingFixesTheStart(ANY_NUMBER, db, plans, StringTyping(log), {}, from);
  }

  lemma StringLogIsCleanWhenLive(n: Numbers, log: Log, db: Db)
    requires FoldLog(log).Success? && Passes(db, FoldLog(log).value.plans)
    requires forall i :: 0 <= i < |log| ==> StringRow(log[i])
    ensures var plans := FoldLog(log).value.plans;
            Clean(n, db, AllCommands(plans)) <==> LiveKeys(AllCommands(plans), Start(plans)).Some?
  {
    hide FoldLog, StringRow, AllCommands, Passes, LiveKeys, Clean, StringCommand;
    StringPlansAreKnown(log, db);
    var plans := FoldLog(log).value.plans;
    LiveIsExact(n, db, AllCommands(plans), KeysOf(plans));
  }

  /**
   All or nothing with renames, exactly: a string log that passes its checks is applied whole if and only if, in plan
   order, every rename finds its source among the keys live at that point, which the log alone decides.
   */
  lemma {:induction false} RenamesAreExact(n: Numbers, log: Log, db: Db)
    requires FoldLog(log).Success? && forall i :: 0 <= i < |log| ==> StringRow(log[i])
    ensures var plans := FoldLog(log).value.plans;
            var (db', r) := Flushed(n, db, plans);
            if !Passes(db, plans) then db' == db && !r.Applied? && !r.Internal?
            else if LiveKeys(AllCommands(plans), Start(plans)).Some? then r == Script.Applied(|plans|) &&
              db' == RunPlans(n, plans, db)
            else StoppedInPart(n, db, plans, db', r)
  {
    hide Flushed, FoldLog, RunPlans, Clean, AllCommands, Passes, LiveKeys, StringRow;
    FoldKeepsKeysDistinct(log);
    FlushedRuns(n, db, FoldLog(log).value.plans);
    if Passes(db, FoldLog(log).value.plans) {
      StringLogIsCleanWhenLive(n, log, db);
    }
  }

  // ----- Every table type: sufficiently -----

  /** Every key holds its type or nothing, and every keyset a set or nothing. */
  predicate Sound(db: Db, ty: map<Bytes, TableType>, ks: set<Bytes>) {
    (forall k :: k in ty ==> TypeOk(At(db, k), ty[k])) && (forall s :: s in ks ==> TypeOk(At(db, s), SetTable))
  }

  lemma CreatingLeavesAValue(n: Numbers, c: Cell, s: Step)
    requires Local(n, c, s).Success?
    ensures Creates(s.op) ==> Local(n, c, s).value.Some?
    ensures s.op == ACT_HPEXPIRE || s.op == ACT_HPERSIST ==> (Local(n, c, s).value.Some? <==> c.Some?)
  {}

  lemma PutIsSound(db: Db, k: Bytes, c: Cell, ty: map<Bytes, TableType>, ks: set<Bytes>)
    requires Sound(db, ty, ks) && (k in ty ==> TypeOk(c, ty[k])) && (k in ks ==> TypeOk(c, SetTable))
    ensures Sound(Put(db, k, c), ty, ks)
  {
    hide TypeOk;
    forall x ensures At(Put(db, k, c), x) == if x == k then c else At(db, x) {
      PutAt(db, k, c, x);
    }
  }

  lemma DataStepIsClean(n: Numbers, db: Db, key: Bytes, s: Step, ty: map<Bytes, TableType>, ks: set<Bytes>,
                        live: set<Bytes>)
    requires s.op != ACT_RENAME && Sits(n, key, s, ty, ks) && ty.Keys !! ks && Sound(db, ty, ks)
    requires live <= db.Keys && live <= ty.Keys
    ensures Exec(n, db, key, s).Success? && Sound(Effect(n, db, key, s), ty, ks)
    ensures LiveAfter(live, Command(key, s)).Some? &&
        LiveAfter(live, Command(key, s)).value <= Effect(n, db, key, s).Keys
  {
    hide Local, Fits, TypeOk;
    var t := Target(key, s);
    var want := if IsKeysetEdit(s) then SetTable else ty[key];
    assert Fits(n, Plain(s), want) by { PlainFits(n, key, s, ty, ks); }
    LocalFits(n, At(db, t), Plain(s), want);
    CreatingLeavesAValue(n, At(db, t), Plain(s));
    PutIsSound(db, t, Local(n, At(db, t), Plain(s)).value, ty, ks);
  }

  lemma PlainFits(n: Numbers, key: Bytes, s: Step, ty: map<Bytes, TableType>, ks: set<Bytes>)
    requires Sits(n, key, s, ty, ks)
    ensures Fits(n, Plain(s), if IsKeysetEdit(s) then SetTable else ty[key])
  {}

  lemma RenameIsClean(n: Numbers, db: Db, key: Bytes, s: Step, ty: map<Bytes, TableType>, ks: set<Bytes>,
                      from: set<Bytes>, live: set<Bytes>)
    requires s.op == ACT_RENAME && Moves(n, key, s, ty, ks, from) && ty.Keys !! ks && Sound(db, ty, ks)
    requires live <= db.Keys && s.args[0] in live
    ensures Exec(n, db, key, s).Success? && Sound(Effect(n, db, key, s), ty, ks)
    ensures LiveAfter(live, Command(key, s)).Some? &&
        LiveAfter(live, Command(key, s)).value <= Effect(n, db, key, s).Keys
  {
    hide TypeOk;
    var source := s.args[0];
    assert TypeOk(At(db, source), ty[source]);
    assert TypeOk(None, ty[source]) by { NothingSuits(ty[source]); }
    PutIsSound(db, source, None, ty, ks);
    PutIsSound(Put(db, source, None), key, Some(db[source]), ty, ks);
  }

  lemma NothingSuits(t: TableType)
    ensures TypeOk(None, t)
  {}

  predicate CommandsMove(n: Numbers, cmds: seq<Command>, ty: map<Bytes, TableType>, ks: set<Bytes>, from: set<Bytes>) {
    forall i :: 0 <= i < |cmds| ==> Moves(n, cmds[i].key, cmds[i].step, ty, ks, from)
  }

  lemma {:induction false} LiveIsEnough(n: Numbers, db: Db, cmds: seq<Command>, start: set<Bytes>, ty: map<Bytes,
                                        TableType>, ks: set<Bytes>, from: set<Bytes>)
    requires CommandsMove(n, cmds, ty, ks, from) && ty.Keys !! ks && Sound(db, ty, ks)
    requires start <= db.Keys && start <= ty.Keys && LiveKeys(cmds, start).Some?
    ensures Clean(n, db, cmds) && Sound(RunAll(n, db, cmds), ty, ks)
    ensures LiveKeys(cmds, start).value <= RunAll(n, db, cmds).Keys && LiveKeys(cmds, start).value <= ty.Keys
  {
    hide Moves, LiveAfter, Exec, Effect, Sound;
    if cmds == [] {
    } else {
      var front, c := cmds[..|cmds| - 1], cmds[|cmds| - 1];
      LiveIsEnough(n, db, front, start, ty, ks, from);
      var before, live := RunAll(n, db, front), LiveKeys(front, start).value;
      StepIsClean(n, before, c.key, c.step, ty, ks, from, live);
    }
  }

  lemma StepIsClean(n: Numbers, db: Db, key: Bytes, s: Step, ty: map<Bytes, TableType>, ks: set<Bytes>,
                    from: set<Bytes>, live: set<Bytes>)
    requires Moves(n, key, s, ty, ks, from) && ty.Keys !! ks && Sound(db, ty, ks)
    requires live <= db.Keys && live <= ty.Keys && LiveAfter(live, Command(key, s)).Some?
    ensures Exec(n, db, key, s).Success? && Sound(Effect(n, db, key, s), ty, ks)
    ensures LiveAfter(live, Command(key, s)).value <= Effect(n, db, key, s).Keys
    ensures LiveAfter(live, Command(key, s)).value <= ty.Keys
  {
    hide Exec, Effect, Sound, Fits;
    if s.op == ACT_RENAME {
      RenameIsClean(n, db, key, s, ty, ks, from, live);
    } else {
      DataStepIsClean(n, db, key, s, ty, ks, live);
    }
  }

  lemma {:induction false} PlansMove(n: Numbers, plans: seq<Plan>, ty: map<Bytes, TableType>, ks: set<Bytes>,
                                     from: set<Bytes>)
    requires BookMoves(n, plans, ty, ks, from)
    ensures CommandsMove(n, AllCommands(plans), ty, ks, from)
  {
    hide Moves;
    if plans == [] {
    } else {
      PlansMove(n, plans[..|plans| - 1], ty, ks, from);
      assert PlanMoves(n, plans[|plans| - 1], ty, ks, from);
    }
  }

  /**
   For every table type and with keysets apart from the data: a log that moves keys, each keeping its type, is applied
   whole if it passes its checks and every rename finds its source among the keys surely live at that point.
   */
  lemma {:induction false} LiveRenamesAreApplied(n: Numbers, log: Log, db: Db, ty: map<Bytes, TableType>,
                                                 ks: set<Bytes>)
    requires FoldLog(log).Success? && AllMoveTyped(n, log, ty, ks) && ty.Keys !! ks && Sound(db, ty, ks)
    requires var plans := FoldLog(log).value.plans;
             Passes(db, plans) && LiveKeys(AllCommands(plans), Start(plans)).Some?
    ensures var plans := FoldLog(log).value.plans;
            Flushed(n, db, plans) == (RunPlans(n, plans, db), Script.Applied(|plans|))
  {
    hide Flushed, FoldLog, RunPlans, Clean, AllCommands, Passes, LiveKeys, Sound, PlanMoves, MoveTyped;
    var plans := FoldLog(log).value.plans;
    assert log[..|log|] == log;
    FoldMoves(n, log, |log|, ty, ks);
    PassingFixesTheStart(n, db, plans, ty, ks, Sources(log));
    StartIsTyped(n, plans, ty, ks, Sources(log));
    PlansMove(n, plans, ty, ks, Sources(log));
    LiveIsEnough(n, db, AllCommands(plans), Start(plans), ty, ks, Sources(log));
    FoldKeepsKeysDistinct(log);
    FlushedRuns(n, db, plans);
  }

  lemma StartIsTyped(n: Numbers, plans: seq<Plan>, ty: map<Bytes, TableType>, ks: set<Bytes>, from: set<Bytes>)
    requires BookMoves(n, plans, ty, ks, from)
    ensures Start(plans) <= ty.Keys
  {
    hide AllMove, Asked;
    forall k | k in Start(plans) ensures k in ty {
      var p :| p in plans && p.key == k;
      var i :| 0 <= i < |plans| && plans[i] == p;
      assert PlanMoves(n, plans[i], ty, ks, from);
    }
  }
}
