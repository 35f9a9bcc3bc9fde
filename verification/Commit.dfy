/**
 All or nothing: what the program does with a folded log, from the fold to the keyspace it leaves.

 A refusal writes nothing; past the checks, the program is applied whole or in part, and which of the two is settled
 by the commands aimed at each keyset.
 */
module Commit {
  import opened Common
  import opened Decimal
  import opened Opcodes
  import opened Keyspace
  import opened WriteOps
  import opened Fold
  import opened Regroup
  import opened Cells
  import opened Script
  import opened Encode

  // ----- Phase 2 -----

  /** The wire form's steps stand for the plan's own. */
  predicate Decoded(keys: seq<Bytes>, w: WirePlan, p: Plan) {
    && w.key == p.key && w.ttype == TableCode(p.ttype)
    && |w.checks| == |p.checks| && |w.actions| == |p.actions|
    && (forall c :: 0 <= c < |p.checks| ==> Resolve(keys, w.checks[c], CheckNamesKey(w.checks[c].op)) == p.checks[c])
    && (forall c :: 0 <= c < |p.actions| ==>
          Resolve(keys, w.actions[c], ActionNamesKey(w.actions[c].op)) == p.actions[c])
  }

  predicate AllDecoded(keys: seq<Bytes>, ws: seq<WirePlan>, plans: seq<Plan>) {
    |ws| == |plans| && forall i :: 0 <= i < |plans| ==> Decoded(keys, ws[i], plans[i])
  }

  lemma {:induction false} CleanUpTo(n: Numbers, db: Db, a: seq<Command>, b: seq<Command>)
    requires Clean(n, db, a + b)
    ensures Clean(n, db, a)
  {
    RunAllAppend(n, db, a, b);
  }

  /** One more command of a plan. */
  lemma CommandsSnoc(n: Numbers, db: Db, key: Bytes, steps: seq<Step>, c: nat)
    requires c < |steps|
    ensures var done, more := CommandsOf(key, steps[..c]), CommandsOf(key, steps[..c + 1]);
            && RunAll(n, db, more) == Effect(n, RunAll(n, db, done), key, steps[c])
            && (Clean(n, db, more) <==> Clean(n, db, done) && Exec(n, RunAll(n, db, done), key, steps[c]).Success?)
            && (Clean(n, db, CommandsOf(key, steps)) ==> Clean(n, db, more))
  {
    hide Effect, Exec;
    var more := CommandsOf(key, steps[..c + 1]);
    assert more[..c] == CommandsOf(key, steps[..c]) && more[c] == Command(key, steps[c]);
    if Clean(n, db, CommandsOf(key, steps)) {
      assert CommandsOf(key, steps) == more + CommandsOf(key, steps[c + 1..]);
      CleanUpTo(n, db, more, CommandsOf(key, steps[c + 1..]));
    }
  }

  /** The actions before the one numbered `a` were taken, left `after`, and action `a` is refused there. */
  predicate StopsAt(n: Numbers, db: Db, key: Bytes, steps: seq<Step>, a: nat, after: Db) {
    && a < |steps| && Clean(n, db, CommandsOf(key, steps[..a])) && after == RunAll(n, db, CommandsOf(key, steps[..a]))
    && Exec(n, after, key, steps[a]).Failure?
  }

  /** One plan's actions, `c` of them taken: all of them when none is refused, and otherwise up to the first refused. */
  lemma {:induction false} ActRuns(n: Numbers, db: Db, keys: seq<Bytes>, w: WirePlan, p: Plan, c: nat)
    requires Decoded(keys, w, p) && c <= |p.actions| && Clean(n, db, CommandsOf(p.key, p.actions[..c]))
    ensures var (after, failed) := Act(n, RunAll(n, db, CommandsOf(p.key, p.actions[..c])), keys, w, c);
            var cmds := CommandsOf(p.key, p.actions);
            if Clean(n, db, cmds) then after == RunAll(n, db, cmds) && failed == None
            else failed.Some? && StopsAt(n, db, p.key, p.actions, failed.value, after)
    decreases |p.actions| - c
  {
    hide Exec, Resolve, Clean, RunAll;
    if c == |p.actions| {
      assert p.actions[..c] == p.actions;
    } else {
      assert Resolve(keys, w.actions[c], ActionNamesKey(w.actions[c].op)) == p.actions[c];
      CommandsSnoc(n, db, p.key, p.actions, c);
      var before := RunAll(n, db, CommandsOf(p.key, p.actions[..c]));
      if Exec(n, before, p.key, p.actions[c]).Success? {
        ActRuns(n, db, keys, w, p, c + 1);
      }
    }
  }

  /** The commands phase 2 has run when it comes to action `a` of plan `p`, both counted from 0. */
  function Before(plans: seq<Plan>, p: nat, a: nat): seq<Command>
    requires p < |plans| && a <= |plans[p].actions|
  {
    AllCommands(plans[..p]) + CommandsOf(plans[p].key, plans[p].actions[..a])
  }

  /** INTERNAL names the first command the server refuses, and leaves what the commands before it wrote. */
  predicate StoppedInPart(n: Numbers, db: Db, plans: seq<Plan>, after: Db, r: Reply) {
    && r.Internal? && 1 <= r.plan <= |plans| && 1 <= r.action <= |plans[r.plan - 1].actions|
    && var p, done := plans[r.plan - 1], Before(plans, r.plan - 1, r.action - 1);
       Clean(n, db, done) && after == RunAll(n, db, done) && Exec(n, after, p.key, p.actions[r.action - 1]).Failure?
  }

  lemma StopIsInPart(n: Numbers, db: Db, plans: seq<Plan>, p: nat, a: nat, after: Db)
    requires p < |plans| && Clean(n, db, AllCommands(plans[..p]))
    requires StopsAt(n, RunAll(n, db, AllCommands(plans[..p])), plans[p].key, plans[p].actions, a, after)
    ensures StoppedInPart(n, db, plans, after, Internal(p + 1, a + 1))
  {
    hide Clean, RunAll, Exec, AllCommands;
    RunAllAppend(n, db, AllCommands(plans[..p]), CommandsOf(plans[p].key, plans[p].actions[..a]));
  }

  lemma {:induction false} CleanPrefix(n: Numbers, db: Db, plans: seq<Plan>, p: nat)
    requires p <= |plans| && Clean(n, db, AllCommands(plans))
    ensures Clean(n, db, AllCommands(plans[..p]))
    decreases |plans|
  {
    hide Clean;
    if p == |plans| {
      assert plans[..p] == plans;
    } else {
      var front, last := plans[..|plans| - 1], plans[|plans| - 1];
      CleanUpTo(n, db, AllCommands(front), CommandsOf(last.key, last.actions));
      CleanPrefix(n, db, front, p);
      assert front[..p] == plans[..p];
    }
  }

  /**
   Phase 2, `p` plans done, answers OK exactly when the server refuses none of the plans' commands, and then it has run
   them all; otherwise it stops at the first refused.
   */
  lemma {:induction false} Phase2Runs(n: Numbers, db: Db, keys: seq<Bytes>, ws: seq<WirePlan>, plans: seq<Plan>, p: nat)
    requires AllDecoded(keys, ws, plans) && p <= |plans| && Clean(n, db, AllCommands(plans[..p]))
    ensures var (after, r) := Phase2(n, RunAll(n, db, AllCommands(plans[..p])), keys, ws, p);
            if Clean(n, db, AllCommands(plans)) then after == RunAll(n, db, AllCommands(plans)) && r == Applied(|plans|)
            else StoppedInPart(n, db, plans, after, r)
    decreases |plans| - p
  {
    hide Act, Decoded, Clean, RunAll, StopsAt, StoppedInPart;
    if p == |plans| {
      assert plans[..p] == plans;
    } else {
      assert Decoded(keys, ws[p], plans[p]);
      var before, mine := RunAll(n, db, AllCommands(plans[..p])), CommandsOf(plans[p].key, plans[p].actions);
      assert CommandsOf(plans[p].key, plans[p].actions[..0]) == [];
      NoCommands(n, before);
      ActRuns(n, before, keys, ws[p], plans[p], 0);
      assert plans[..p + 1][..p] == plans[..p];
      RunAllAppend(n, db, AllCommands(plans[..p]), mine);
      if Clean(n, before, mine) {
        Phase2Runs(n, db, keys, ws, plans, p + 1);
      } else {
        var (after, failed) := Act(n, before, keys, ws[p], 0);
        StopIsInPart(n, db, plans, p, failed.value, after);
        if Clean(n, db, AllCommands(plans)) {
          CleanPrefix(n, db, plans, p + 1);
        }
      }
    }
  }

  // ----- The whole of phase 1 -----

  predicate PlanPasses(db: Db, p: Plan) {
    TypeOk(At(db, p.key), p.ttype) && forall c :: 0 <= c < |p.checks| ==> EvalCheck(db, p.key, p.checks[c]).Pass?
  }

  /** Every plan's type check and every one of its checks hold of the keyspace. */
  predicate Passes(db: Db, plans: seq<Plan>) {
    forall i :: 0 <= i < |plans| ==> PlanPasses(db, plans[i])
  }

  lemma KindIsType(c: Cell, t: TableType)
    ensures KindOk(c, TableCode(t)) <==> TypeOk(c, t)
  {}

  /** A check the fold can have put on a plan of type `t`: with the type right, it cannot raise. */
  predicate CheckFits(s: Step, t: TableType) {
    if s.op == CHK_KEY_ABSENT || s.op == CHK_KEY_PRESENT || s.op == CHK_TYPE_OK then true
    else if s.op == CHK_HFIELD_ABSENT || s.op == CHK_HFIELD_PRESENT then t == HashTable && s.args != []
    else if s.op == CHK_SMEMBER_ABSENT || s.op == CHK_SMEMBER_PRESENT then t == SetTable && s.args != []
    else if s.op == CHK_ZMEMBER_ABSENT || s.op == CHK_ZMEMBER_PRESENT then t == ZSetTable && s.args != []
    else if s.op == CHK_LVALUE_COUNT_GE then t == ListTable && |s.args| == 2 && ToNumber(s.args[1]).Some?
    else false
  }

  predicate ChecksFit(p: Plan) {
    forall c :: 0 <= c < |p.checks| ==> CheckFits(p.checks[c], p.ttype)
  }

  lemma CheckCannotRaise(db: Db, key: Bytes, s: Step, t: TableType)
    requires CheckFits(s, t) && TypeOk(At(db, key), t)
    ensures EvalCheck(db, key, s) in {Pass, Clash, Gone}
  {}

  lemma {:induction false} ChecksDecide(db: Db, keys: seq<Bytes>, w: WirePlan, p: Plan, number: nat, c: nat)
    requires Decoded(keys, w, p) && c <= |p.checks| && TypeOk(At(db, p.key), p.ttype)
    requires forall i :: 0 <= i < c ==> EvalCheck(db, p.key, p.checks[i]).Pass?
    ensures CheckPlan(db, keys, w, number, c).None? <==> PlanPasses(db, p)
    ensures CheckPlan(db, keys, w, number, c).Some? && ChecksFit(p) ==>
              CheckPlan(db, keys, w, number, c).value.Conflict? || CheckPlan(db, keys, w, number, c).value.Missing?
    decreases |p.checks| - c
  {
    hide EvalCheck, Resolve, CheckFits, TypeOk, At;
    if c < |p.checks| {
      assert Resolve(keys, w.checks[c], CheckNamesKey(w.checks[c].op)) == p.checks[c];
      if EvalCheck(db, p.key, p.checks[c]).Pass? {
        ChecksDecide(db, keys, w, p, number, c + 1);
      } else if ChecksFit(p) {
        CheckCannotRaise(db, p.key, p.checks[c], p.ttype);
      }
    }
  }

  /** Phase 1 lets a program through exactly when every check of every plan holds. */
  lemma {:induction false} Phase1Decides(db: Db, keys: seq<Bytes>, ws: seq<WirePlan>, plans: seq<Plan>, p: nat)
    requires AllDecoded(keys, ws, plans) && p <= |plans|
    requires forall i :: 0 <= i < p ==> PlanPasses(db, plans[i])
    ensures Phase1(db, keys, ws, p).None? <==> Passes(db, plans)
    ensures Phase1(db, keys, ws, p).Some? && (forall i :: 0 <= i < |plans| ==> ChecksFit(plans[i])) ==>
              var r := Phase1(db, keys, ws, p).value; r.Conflict? || r.Missing? || r.WrongKind?
    decreases |plans| - p
  {
    hide CheckPlan, KindOk, ChecksFit, TypeOk, At;
    if p == |plans| {
    } else {
      assert Decoded(keys, ws[p], plans[p]);
      KindIsType(At(db, plans[p].key), plans[p].ttype);
      if KindOk(At(db, ws[p].key), ws[p].ttype) {
        ChecksDecide(db, keys, ws[p], plans[p], p + 1, 0);
        if CheckPlan(db, keys, ws[p], p + 1, 0).None? {
          Phase1Decides(db, keys, ws, plans, p + 1);
        }
      }
    }
  }

  /** What the program answers to one EVALSHA of a folded log. */
  function Flushed(n: Numbers, db: Db, plans: seq<Plan>): (Db, Reply) {
    Eval(n, db, KeyTable(plans), Argv(plans))
  }

  lemma FlushedIsPhases(n: Numbers, db: Db, plans: seq<Plan>) returns (ws: seq<WirePlan>)
    requires DistinctKeys(plans)
    ensures AllDecoded(KeyTable(plans), ws, plans)
    ensures Flushed(n, db, plans) ==
            match Phase1(db, KeyTable(plans), ws, 0)
            case Some(r) => (db, r)
            case None => Phase2(n, db, KeyTable(plans), ws, 0)
  {
    hide Phase1, Phase2, KeyTable, Argv, Resolve;
    RoundTrip(plans);
    ws := WirePlans(KeyTable(plans), plans);
  }

  /** Whatever the log: refused with nothing written, applied whole, or applied in part when a command is refused. */
  lemma {:induction false} FlushedRuns(n: Numbers, db: Db, plans: seq<Plan>)
    requires DistinctKeys(plans)
    ensures var (db', r) := Flushed(n, db, plans);
            if !Passes(db, plans) then db' == db && !r.Applied? && !r.Internal?
            else if Clean(n, db, AllCommands(plans)) then r == Applied(|plans|) && db' == RunPlans(n, plans, db)
            else StoppedInPart(n, db, plans, db', r)
  {
    hide Flushed, KeyTable, Phase1, Phase2, RunPlans, Clean, RunAll, Passes, StoppedInPart;
    var ws := FlushedIsPhases(n, db, plans);
    Phase1Decides(db, KeyTable(plans), ws, plans, 0);
    RefusalsOnly(db, KeyTable(plans), ws, 0);
    assert plans[..0] == [];
    NoCommands(n, db);
    Phase2Runs(n, db, KeyTable(plans), ws, plans, 0);
    RunAllIsRunPlans(n, db, plans);
  }

  lemma {:induction false} RefusalsOnly(db: Db, keys: seq<Bytes>, ws: seq<WirePlan>, p: nat)
    requires p <= |ws|
    ensures Phase1(db, keys, ws, p).Some? ==>
              !Phase1(db, keys, ws, p).value.Applied? && !Phase1(db, keys, ws, p).value.Internal?
    decreases |ws| - p
  {
    hide CheckPlan;
    if p == |ws| {
    } else {
      PlanRefusalsOnly(db, keys, ws[p], p + 1, 0);
      RefusalsOnly(db, keys, ws, p + 1);
    }
  }

  lemma {:induction false} PlanRefusalsOnly(db: Db, keys: seq<Bytes>, w: WirePlan, number: nat, c: nat)
    requires c <= |w.checks|
    ensures var r := CheckPlan(db, keys, w, number, c); r.Some? ==> !r.value.Applied? && !r.value.Internal?
    decreases |w.checks| - c
  {
    hide EvalCheck, Resolve;
    if c == |w.checks| {
    } else {
      PlanRefusalsOnly(db, keys, w, number, c + 1);
    }
  }

  // ----- Steps that cannot fail on a key of their own type -----

  /** The step is one a key of table type `t` can take, with numbers the server parses. */
  predicate Fits(n: Numbers, s: Step, t: TableType) {
    && |s.args| >= Arity(s.op)
    && (if s.op == ACT_SET then t == StringTable
        else if s.op == ACT_DEL then true
        else if s.op == ACT_HSET || s.op == ACT_HDEL || s.op == ACT_HPERSIST then t == HashTable
        else if s.op == ACT_HPEXPIRE then t == HashTable && n.duration(s.args[1])
        else if s.op == ACT_SADD || s.op == ACT_SREM then t == SetTable
        else if s.op == ACT_ZADD then t == ZSetTable && n.score(s.args[0])
        else if s.op == ACT_ZREM then t == ZSetTable
        else if s.op == ACT_RPUSH || s.op == ACT_LREM1 then t == ListTable
        else false)
  }

  lemma LocalFits(n: Numbers, c: Cell, s: Step, t: TableType)
    requires Fits(n, s, t) && TypeOk(c, t)
    ensures Local(n, c, s).Success? && TypeOk(Local(n, c, s).value, t)
  {}

  predicate AllFit(n: Numbers, steps: seq<Step>, t: TableType) {
    forall i :: 0 <= i < |steps| ==> Fits(n, steps[i], t)
  }

  lemma {:induction false} FittingIsSmooth(n: Numbers, c: Cell, steps: seq<Step>, t: TableType)
    requires AllFit(n, steps, t) && TypeOk(c, t)
    ensures Smooth(n, c, steps) && TypeOk(CellRun(n, c, steps), t)
  {
    hide Fits, Local, TypeOk;
    if steps == [] {
    } else {
      var front, s := steps[..|steps| - 1], steps[|steps| - 1];
      FittingIsSmooth(n, c, front, t);
      LocalFits(n, CellRun(n, c, front), s, t);
    }
  }

  predicate IsKeysetEdit(s: Step) {
    s.op == ACT_KSET_ADD || s.op == ACT_KSET_REM
  }

  /** A plan's step fits its key's type, or edits one of the keysets `ks`. */
  predicate Sits(n: Numbers, key: Bytes, s: Step, ty: map<Bytes, TableType>, ks: set<Bytes>) {
    if IsKeysetEdit(s) then |s.args| == 2 && s.args[0] in ks else key in ty && Fits(n, s, ty[key])
  }

  predicate AllSit(n: Numbers, key: Bytes, steps: seq<Step>, ty: map<Bytes, TableType>, ks: set<Bytes>) {
    forall i :: 0 <= i < |steps| ==> Sits(n, key, steps[i], ty, ks)
  }

  predicate BookSits(n: Numbers, plans: seq<Plan>, ty: map<Bytes, TableType>, ks: set<Bytes>) {
    forall i :: 0 <= i < |plans| ==>
      && plans[i].key in ty && plans[i].ttype == ty[plans[i].key]
      && AllSit(n, plans[i].key, plans[i].actions, ty, ks)
  }

  // ----- What the fold guarantees about its own plans -----

  predicate ScoreOk(n: Numbers, op: WriteOp) {
    op.ttype == ZSetTable ==> n.score(if op.score.Some? then op.score.value else "0")
  }

  /** A zset row's score, or the one a row without gets, and every duration are numbers the server parses. */
  predicate NumbersOk(n: Numbers, op: WriteOp) {
    && ScoreOk(n, op)
    && (forall i :: 0 <= i < |op.ttls| && op.ttls[i].data.Some? ==> n.duration(op.ttls[i].data.value))
  }

  predicate Typed(op: WriteOp, ty: map<Bytes, TableType>, ks: set<Bytes>) {
    op.key in ty && ty[op.key] == op.ttype && (op.keyset.Some? ==> op.keyset.value in ks)
  }

  lemma {:induction false} FieldStepsSit(n: Numbers, key: Bytes, fields: seq<Arg>, i: nat, ty: map<Bytes, TableType>,
                                         ks: set<Bytes>)
    requires i <= |fields| && key in ty && ty[key] == HashTable
    ensures AllSit(n, key, FieldSteps(fields, i), ty, ks)
  {
    if i == 0 {
    } else {
      FieldStepsSit(n, key, fields, i - 1, ty, ks);
    }
  }

  lemma {:induction false} PackedStepsSit(n: Numbers, op: WriteOp, i: nat, ty: map<Bytes, TableType>, ks: set<Bytes>)
    requires i <= |op.packed| && op.key in ty && ty[op.key] == op.ttype
    ensures AllSit(n, op.key, PackedSteps(op, i), ty, ks)
  {
    if i == 0 {
    } else {
      PackedStepsSit(n, op, i - 1, ty, ks);
    }
  }

  lemma ShapeStepsSit(n: Numbers, op: WriteOp, ty: map<Bytes, TableType>, ks: set<Bytes>)
    requires Typed(op, ty, ks) && NumbersOk(n, op)
    ensures AllSit(n, op.key, ShapeSteps(op), ty, ks)
  {
    hide FieldSteps, PackedSteps;
    if op.packedShape {
      PackedStepsSit(n, op, |op.packed|, ty, ks);
    } else if op.ttype == HashTable {
      FieldStepsSit(n, op.key, op.fields, |op.fields|, ty, ks);
    }
  }

  lemma OpStepsSit(n: Numbers, op: WriteOp, ty: map<Bytes, TableType>, ks: set<Bytes>)
    requires Typed(op, ty, ks) && NumbersOk(n, op)
    ensures AllSit(n, op.key, OpSteps(op), ty, ks)
  {
    hide ShapeSteps;
    ShapeStepsSit(n, op, ty, ks);
  }

  lemma {:induction false} FoldFieldsChecksFit(d: Draft, op: WriteOp, i: nat)
    requires i <= |op.fields| && d.plan.ttype == HashTable && ChecksFit(d.plan) && FoldFields(d, op, i).Success?
    ensures ChecksFit(FoldFields(d, op, i).value.plan) && FoldFields(d, op, i).value.plan.ttype == HashTable
  {
    if i == 0 {
    } else {
      FoldFieldsChecksFit(d, op, i - 1);
    }
  }

  lemma FoldMemberChecksFit(d: Draft, op: WriteOp)
    requires (d.plan.ttype == SetTable || d.plan.ttype == ZSetTable) && ChecksFit(d.plan) && FoldMember(d, op).Success?
    ensures ChecksFit(FoldMember(d, op).value.plan)
  {}

  lemma FoldListChecksFit(d: Draft, op: WriteOp)
    requires d.plan.ttype == ListTable && ChecksFit(d.plan)
    ensures ChecksFit(FoldList(d, op).plan)
  {
    if op.member.Some? {
      ToNumberOfShow(MemberAt(d.members, op.key, op.member.value).removals + 1);
    }
  }

  lemma FoldBodyChecksFit(d: Draft, op: WriteOp)
    requires d.plan.ttype == op.ttype && ChecksFit(d.plan) && FoldBody(d, op).Success?
    ensures ChecksFit(FoldBody(d, op).value.plan)
  {
    hide FoldFields, FoldMember, FoldList, CheckFits;
    if !IsKeyDelete(op) && !op.packedShape {
      match op.ttype
      case HashTable => FoldFieldsChecksFit(d, op, |op.fields|);
      case SetTable => FoldMemberChecksFit(d, op);
      case ZSetTable => FoldMemberChecksFit(d, op);
      case ListTable => FoldListChecksFit(d, op);
      case _ =>
    }
  }

  predicate BookFits(plans: seq<Plan>) {
    forall i :: 0 <= i < |plans| ==> ChecksFit(plans[i])
  }

  lemma NoteSits(n: Numbers, b: Book, op: WriteOp, ty: map<Bytes, TableType>, ks: set<Bytes>)
    requires BookSits(n, b.plans, ty, ks) && BookFits(b.plans)
    requires Typed(op, ty, ks) && NumbersOk(n, op) && !IsRename(op) && Note(b, op).Success?
    ensures BookSits(n, Note(b, op).value.plans, ty, ks) && BookFits(Note(b, op).value.plans)
  {
    hide FoldBody, OpSteps, Sits, CheckFits;
    var i, p := NoteGrowsOnePlan(b, op);
    OpStepsSit(n, op, ty, ks);
    OpenedFits(b, op);
    FoldBodyChecksFit(Draft(Opened(b, op), b.members), op);
  }

  lemma {:induction false} OpenedFits(b: Book, op: WriteOp)
    requires BookFits(b.plans) && !IsRename(op)
    requires var i := IndexOf(b.plans, op.key); i < |b.plans| ==> b.plans[i].ttype == op.ttype
    ensures Opened(b, op).ttype == op.ttype && ChecksFit(Opened(b, op))
  {}

  predicate AllTyped(n: Numbers, log: Log, ty: map<Bytes, TableType>, ks: set<Bytes>) {
    forall i :: 0 <= i < |log| ==> Typed(log[i], ty, ks) && NumbersOk(n, log[i]) && !IsRename(log[i])
  }

  lemma {:induction false} FoldSits(n: Numbers, log: Log, ty: map<Bytes, TableType>, ks: set<Bytes>)
    requires AllTyped(n, log, ty, ks) && FoldLog(log).Success?
    ensures BookSits(n, FoldLog(log).value.plans, ty, ks) && BookFits(FoldLog(log).value.plans)
  {
    hide Note, Typed, NumbersOk;
    if log == [] {
    } else {
      var front := log[..|log| - 1];
      FoldSits(n, front, ty, ks);
      NoteSits(n, FoldLog(front).value, log[|log| - 1], ty, ks);
    }
  }

  // ----- Each key's share of a folded log -----

  /** What `key`'s plan aims at `k`: its data steps at its own key, its keyset edits at the keyset. */
  predicate AimsWell(n: Numbers, s: Step, k: Bytes, ty: map<Bytes, TableType>, ks: set<Bytes>) {
    (k in ty && Fits(n, s, ty[k])) || (k in ks && Fits(n, s, SetTable))
  }

  predicate CommandsSit(n: Numbers, cmds: seq<Command>, ty: map<Bytes, TableType>, ks: set<Bytes>) {
    forall i :: 0 <= i < |cmds| ==> Sits(n, cmds[i].key, cmds[i].step, ty, ks)
  }

  lemma {:induction false} PlansSit(n: Numbers, plans: seq<Plan>, ty: map<Bytes, TableType>, ks: set<Bytes>)
    requires BookSits(n, plans, ty, ks)
    ensures CommandsSit(n, AllCommands(plans), ty, ks)
  {
    hide Sits;
    if plans == [] {
    } else {
      PlansSit(n, plans[..|plans| - 1], ty, ks);
    }
  }

  lemma SittingAims(n: Numbers, key: Bytes, s: Step, ty: map<Bytes, TableType>, ks: set<Bytes>)
    requires Sits(n, key, s, ty, ks)
    ensures s.op != ACT_RENAME && AimsWell(n, Plain(s), Target(key, s), ty, ks)
  {}

  lemma {:induction false} AimedWell(n: Numbers, cmds: seq<Command>, k: Bytes, ty: map<Bytes, TableType>,
                                     ks: set<Bytes>)
    requires CommandsSit(n, cmds, ty, ks)
    ensures forall i :: 0 <= i < |Aimed(cmds, k)| ==> AimsWell(n, Aimed(cmds, k)[i], k, ty, ks)
  {
    hide Sits, AimsWell, Plain, Target;
    if cmds == [] {
    } else {
      var c := cmds[|cmds| - 1];
      AimedWell(n, cmds[..|cmds| - 1], k, ty, ks);
      SittingAims(n, c.key, c.step, ty, ks);
    }
  }

  lemma SittingRenamesNothing(n: Numbers, cmds: seq<Command>, ty: map<Bytes, TableType>, ks: set<Bytes>)
    requires CommandsSit(n, cmds, ty, ks)
    ensures NoRenames(cmds)
  {
    hide Sits;
    forall i | 0 <= i < |cmds| ensures cmds[i].step.op != ACT_RENAME {
      SittingAims(n, cmds[i].key, cmds[i].step, ty, ks);
    }
  }

  /** A key that is no keyset, and a keyset no table of another type writes, are smooth from a cell of their type. */
  lemma OwnTypeIsSmooth(n: Numbers, cmds: seq<Command>, k: Bytes, ty: map<Bytes, TableType>, ks: set<Bytes>, c: Cell)
    requires CommandsSit(n, cmds, ty, ks)
    requires k in ty ==> TypeOk(c, ty[k])
    requires k in ks ==> TypeOk(c, SetTable) && (k in ty ==> ty[k] == SetTable)
    ensures Smooth(n, c, Aimed(cmds, k))
  {
    hide Aimed, Smooth, Fits, TypeOk;
    AimedWell(n, cmds, k, ty, ks);
    var steps := Aimed(cmds, k);
    if k in ty {
      assert AllFit(n, steps, ty[k]);
      FittingIsSmooth(n, c, steps, ty[k]);
    } else if k in ks {
      assert AllFit(n, steps, SetTable);
      FittingIsSmooth(n, c, steps, SetTable);
    } else {
      assert |steps| > 0 ==> AimsWell(n, steps[0], k, ty, ks);
      NothingToRun(n, c);
    }
  }

  predicate HasPlan(plans: seq<Plan>, k: Bytes, t: TableType) {
    exists i :: 0 <= i < |plans| && plans[i].key == k && plans[i].ttype == t
  }

  /** The plans are one per typed key, each of its key's type. */
  predicate Matches(plans: seq<Plan>, ty: map<Bytes, TableType>) {
    && (forall k :: k in ty ==> HasPlan(plans, k, ty[k]))
    && (forall i :: 0 <= i < |plans| ==> plans[i].key in ty && plans[i].ttype == ty[plans[i].key])
  }

  lemma SetPlanMatches(plans: seq<Plan>, ty: map<Bytes, TableType>, p: Plan)
    requires Matches(plans, ty) && (p.key in ty ==> ty[p.key] == p.ttype)
    ensures Matches(SetPlan(plans, IndexOf(plans, p.key), p), ty[p.key := p.ttype])
  {
    var i := IndexOf(plans, p.key);
    var plans', ty' := SetPlan(plans, i, p), ty[p.key := p.ttype];
    forall k | k in ty' ensures HasPlan(plans', k, ty'[k]) {
      if k == p.key {
        assert plans'[i].key == k;
      } else {
        var x :| 0 <= x < |plans| && plans[x].key == k && plans[x].ttype == ty[k];
        assert plans'[x] == plans[x];
      }
    }
  }

  /** Every key the log writes has a plan, of the type the log gives it. */
  lemma {:induction false} EveryKeyHasItsPlan(log: Log)
    requires RenameFree(log) && TypeConsistent(log) && FoldLog(log).Success?
    ensures Matches(FoldLog(log).value.plans, Typing(log))
  {
    hide Note, Matches;
    if log == [] {
      EmptyMatches();
    } else {
      var front, op := log[..|log| - 1], log[|log| - 1];
      EveryKeyHasItsPlan(front);
      KeyKeepsItsType(log);
      var b := FoldLog(front).value;
      PlanHasItsType(b.plans, Typing(front), op);
      var i, p := NoteGrowsOnePlan(b, op);
      SetPlanMatches(b.plans, Typing(front), p);
    }
  }

  lemma EmptyMatches()
    ensures Matches([], map[])
  {}

  lemma PlanHasItsType(plans: seq<Plan>, ty: map<Bytes, TableType>, op: WriteOp)
    requires Matches(plans, ty) && (op.key in ty ==> ty[op.key] == op.ttype)
    ensures IndexOf(plans, op.key) < |plans| ==> plans[IndexOf(plans, op.key)].ttype == op.ttype
  {}

  lemma KeyKeepsItsType(log: Log)
    requires TypeConsistent(log) && log != []
    ensures var front, op := log[..|log| - 1], log[|log| - 1];
            TypeConsistent(front) && (op.key in Typing(front) ==> Typing(front)[op.key] == op.ttype)
  {
    var front, op := log[..|log| - 1], log[|log| - 1];
    TypingIsOfTheLog(front);
    if op.key in Typing(front) {
      var j :| 0 <= j < |front| && front[j].key == op.key && front[j].ttype == Typing(front)[op.key];
      assert log[j] == front[j];
    }
  }

  /** The plan an accepted log's last operation met had its type. */
  lemma PlanOfTheLast(log: Log)
    requires log != [] && RenameFree(log) && TypeConsistent(log) && FoldLog(log[..|log| - 1]).Success?
    ensures var plans, op := FoldLog(log[..|log| - 1]).value.plans, log[|log| - 1];
            IndexOf(plans, op.key) < |plans| ==> plans[IndexOf(plans, op.key)].ttype == op.ttype
  {
    hide FoldLog, Typing, Matches;
    var front := log[..|log| - 1];
    KeyKeepsItsType(log);
    EveryKeyHasItsPlan(front);
    PlanHasItsType(FoldLog(front).value.plans, Typing(front), log[|log| - 1]);
  }

  lemma PlanPassesEarlier(db: Db, p: Plan, q: Plan)
    requires p.key == q.key && p.ttype == q.ttype && p.checks <= q.checks && PlanPasses(db, q)
    ensures PlanPasses(db, p)
  {
    hide EvalCheck;
    forall c | 0 <= c < |p.checks| ensures EvalCheck(db, p.key, p.checks[c]).Pass? {
      assert p.checks[c] == q.checks[c];
    }
  }

  /** Checks are only ever added, so a keyspace that passes the longer log passes the shorter. */
  lemma {:induction false} PassesEarlier(b: Book, op: WriteOp, db: Db)
    requires !IsRename(op) && Note(b, op).Success? && Passes(db, Note(b, op).value.plans)
    requires var i := IndexOf(b.plans, op.key); i < |b.plans| ==> b.plans[i].ttype == op.ttype
    ensures Passes(db, b.plans)
  {
    hide Note, PlanPasses, OpSteps;
    var i, p := NoteGrowsOnePlan(b, op);
    var after := SetPlan(b.plans, i, p);
    forall j | 0 <= j < |b.plans| ensures PlanPasses(db, b.plans[j]) {
      assert PlanPasses(db, after[j]);
      if j == i {
        PlanPassesEarlier(db, b.plans[j], p);
      } else {
        assert after[j] == b.plans[j];
      }
    }
  }

  lemma {:induction false} PassesPrefix(log: Log, db: Db, i: nat)
    requires i <= |log| && RenameFree(log) && TypeConsistent(log)
    requires FoldLog(log).Success? && Passes(db, FoldLog(log).value.plans)
    ensures FoldLog(log[..i]).Success? && Passes(db, FoldLog(log[..i]).value.plans)
    decreases |log|
  {
    hide Note, Passes;
    if i == |log| {
      assert log[..i] == log;
    } else {
      var front := log[..|log| - 1];
      PlanOfTheLast(log);
      PassesEarlier(FoldLog(front).value, log[|log| - 1], db);
      PassesPrefix(front, db, i);
      assert front[..i] == log[..i];
    }
  }

  // ----- The theorems -----

  predicate NumbersParse(n: Numbers, log: Log) {
    forall i :: 0 <= i < |log| ==> NumbersOk(n, log[i])
  }

  predicate KeysetsHoldSets(db: Db, log: Log) {
    forall i :: 0 <= i < |log| && log[i].keyset.Some? ==> TypeOk(At(db, log[i].keyset.value), SetTable)
  }

  function Keysets(log: Log): set<Bytes> {
    set i | 0 <= i < |log| && log[i].keyset.Some? :: log[i].keyset.value
  }

  lemma LogTypes(n: Numbers, log: Log)
    requires RenameFree(log) && TypeConsistent(log) && NumbersParse(n, log)
    ensures AllTyped(n, log, Typing(log), Keysets(log))
  {
    TypingIsOfTheLog(log);
    forall i | 0 <= i < |log| ensures Typed(log[i], Typing(log), Keysets(log)) {
      assert log[i].keyset.Some? ==> log[i].keyset.value in Keysets(log);
      assert log[i].key in Typing(log);
    }
  }

  /** A keyspace that passes has every written key absent or of its table's type, because every plan carries TYPE_OK. */
  lemma {:induction false} PassesIsSound(db: Db, log: Log, plans: seq<Plan>, k: Bytes)
    requires Passes(db, plans) && Matches(plans, Typing(log)) && k in Typing(log)
    ensures TypeOk(At(db, k), Typing(log)[k])
  {
    assert HasPlan(plans, k, Typing(log)[k]);
    var i :| 0 <= i < |plans| && plans[i].key == k && plans[i].ttype == Typing(log)[k];
    assert PlanPasses(db, plans[i]);
  }

  /** The commands aimed at each keyset, in plan order, all fit what they find there. */
  predicate KeysetsSmooth(n: Numbers, log: Log, plans: seq<Plan>, db: Db) {
    forall s :: s in Keysets(log) ==> Smooth(n, At(db, s), Aimed(AllCommands(plans), s))
  }

  lemma CleanWhenKeysetsSmooth(n: Numbers, log: Log, db: Db)
    requires RenameFree(log) && TypeConsistent(log) && NumbersParse(n, log)
    requires FoldLog(log).Success? && Passes(db, FoldLog(log).value.plans)
    ensures var plans := FoldLog(log).value.plans;
            Clean(n, db, AllCommands(plans)) <==> KeysetsSmooth(n, log, plans, db)
  {
    hide FoldLog, Passes, Typing, AllCommands, Clean, Smooth, Aimed, Matches, AllTyped, Sits, At, TypeOk;
    var plans, ty, ks := FoldLog(log).value.plans, Typing(log), Keysets(log);
    var cmds := AllCommands(plans);
    LogTypes(n, log);
    FoldSits(n, log, ty, ks);
    PlansSit(n, plans, ty, ks);
    SittingRenamesNothing(n, cmds, ty, ks);
    CleanWhenSmooth(n, db, cmds);
    EveryKeyHasItsPlan(log);
    forall k | k !in ks ensures Smooth(n, At(db, k), Aimed(cmds, k)) {
      if k in ty { PassesIsSound(db, log, plans, k); }
      OwnTypeIsSmooth(n, cmds, k, ty, ks, At(db, k));
    }
  }

  /**
   The whole outcome, for every accepted log that renames no key, gives each key one type and has numbers the server
   parses: refused with nothing written when a check fails; applied, with what the plans say and, with keysets apart
   from the data, the log in log order, exactly when the commands aimed at each keyset fit; and otherwise up to the
   first refused command, which the reply names.
   */
  lemma {:induction false} CommitIsExact(n: Numbers, log: Log, db: Db)
    requires RenameFree(log) && TypeConsistent(log) && NumbersParse(n, log) && FoldLog(log).Success?
    ensures var plans := FoldLog(log).value.plans;
            var (db', r) := Flushed(n, db, plans);
            if !Passes(db, plans) then (r.Conflict? || r.Missing? || r.WrongKind?) && db' == db
            else if KeysetsSmooth(n, log, plans, db)
            then r == Applied(|plans|) && db' == RunPlans(n, plans, db) &&
              (KeysetsApart(log) ==> db' == RunLog(n, log, db))
            else StoppedInPart(n, db, plans, db', r)
  {
    hide Flushed, FoldLog, RunPlans, RunLog, Clean, AllCommands, KeysetsSmooth, Passes, AllTyped, StoppedInPart;
    var plans := FoldLog(log).value.plans;
    FoldKeepsKeysDistinct(log);
    FlushedRuns(n, db, plans);
    if Passes(db, plans) {
      CleanWhenKeysetsSmooth(n, log, db);
      if KeysetsApart(log) {
        RegroupingPreservesMeaning(n, log, db);
      }
    } else {
      LogTypes(n, log);
      FoldSits(n, log, Typing(log), Keysets(log));
      RefusedOpenly(n, db, plans);
    }
  }

  lemma RefusedOpenly(n: Numbers, db: Db, plans: seq<Plan>)
    requires DistinctKeys(plans) && BookFits(plans) && !Passes(db, plans)
    ensures var r := Flushed(n, db, plans).1; r.Conflict? || r.Missing? || r.WrongKind?
  {
    hide Flushed, KeyTable, Phase1, Phase2, Passes, ChecksFit;
    var ws := FlushedIsPhases(n, db, plans);
    Phase1Decides(db, KeyTable(plans), ws, plans, 0);
  }

  // ----- The same, from the log alone -----

  /**
   A keyset that is also the key of a table of another type takes its commands smoothly from nothing: such a keyset
   is absent in every keyspace that passes with keysets holding sets.
   */
  predicate KeysetsTakeTurns(n: Numbers, log: Log, plans: seq<Plan>) {
    forall s :: s in Keysets(log) && s in Typing(log) && Typing(log)[s] != SetTable ==>
      Smooth(n, None, Aimed(AllCommands(plans), s))
  }

  lemma TwoTypesHoldNothing(c: Cell, t: TableType)
    requires TypeOk(c, t) && TypeOk(c, SetTable) && t != SetTable
    ensures c == None
  {}

  lemma SmoothWhenTakingTurns(n: Numbers, log: Log, db: Db)
    requires RenameFree(log) && TypeConsistent(log) && NumbersParse(n, log)
    requires FoldLog(log).Success? && Passes(db, FoldLog(log).value.plans) && KeysetsHoldSets(db, log)
    ensures var plans := FoldLog(log).value.plans; KeysetsSmooth(n, log, plans, db) <==> KeysetsTakeTurns(n, log, plans)
  {
    hide FoldLog, Passes, Typing, AllCommands, Smooth, Aimed, Matches, AllTyped, Sits, At, TypeOk;
    var plans, ty, ks := FoldLog(log).value.plans, Typing(log), Keysets(log);
    LogTypes(n, log);
    FoldSits(n, log, ty, ks);
    PlansSit(n, plans, ty, ks);
    EveryKeyHasItsPlan(log);
    forall s | s in ks
      ensures if s in ty && ty[s] != SetTable then At(db, s) == None
          else Smooth(n, At(db, s), Aimed(AllCommands(plans), s))
    {
      KeysetHoldsASet(db, log, s);
      if s in ty { PassesIsSound(db, log, plans, s); }
      if s in ty && ty[s] != SetTable {
        TwoTypesHoldNothing(At(db, s), ty[s]);
      } else {
        OwnTypeIsSmooth(n, AllCommands(plans), s, ty, ks, At(db, s));
      }
    }
  }

  lemma KeysetHoldsASet(db: Db, log: Log, s: Bytes)
    requires KeysetsHoldSets(db, log) && s in Keysets(log)
    ensures TypeOk(At(db, s), SetTable)
  {
    var i :| 0 <= i < |log| && log[i].keyset.Some? && log[i].keyset.value == s;
  }

  /**
   All or nothing, exactly: over keysets holding sets or nothing, a commit that passes its checks is applied whole if
   and only if the keysets take turns, which is a matter of the log alone; a commit that does not pass writes nothing.
   */
  lemma {:induction false} CommitIsAllOrNothing(n: Numbers, log: Log, db: Db)
    requires RenameFree(log) && TypeConsistent(log) && NumbersParse(n, log)
    requires FoldLog(log).Success? && KeysetsHoldSets(db, log)
    ensures var plans := FoldLog(log).value.plans;
            var (db', r) := Flushed(n, db, plans);
            if !Passes(db, plans) then (r.Conflict? || r.Missing? || r.WrongKind?) && db' == db
            else if KeysetsTakeTurns(n, log, plans)
            then r == Applied(|plans|) && db' == RunPlans(n, plans, db) &&
              (KeysetsApart(log) ==> db' == RunLog(n, log, db))
            else StoppedInPart(n, db, plans, db', r)
  {
    hide Flushed, FoldLog, RunPlans, RunLog, KeysetsSmooth, KeysetsTakeTurns, Passes, StoppedInPart;
    CommitIsExact(n, log, db);
    if Passes(db, FoldLog(log).value.plans) {
      SmoothWhenTakingTurns(n, log, db);
    }
  }

  /** In particular when every keyset that is also a data key is a set table's key: INTERNAL is then unreachable. */
  predicate KeysetsAreSets(log: Log) {
    forall i, j :: 0 <= i < |log| && 0 <= j < |log| && log[i].keyset == Some(log[j].key) ==> log[j].ttype == SetTable
  }

  lemma {:induction false} SetKeysetsTakeTurns(n: Numbers, log: Log, plans: seq<Plan>)
    requires KeysetsAreSets(log)
    ensures KeysetsTakeTurns(n, log, plans)
  {
    hide Smooth, Aimed, AllCommands;
    TypingIsOfTheLog(log);
    forall s | s in Keysets(log) && s in Typing(log) ensures Typing(log)[s] == SetTable {
      var i :| 0 <= i < |log| && log[i].keyset.Some? && log[i].keyset.value == s;
      var j :| 0 <= j < |log| && log[j].key == s && log[j].ttype == Typing(log)[s];
      assert log[i].keyset == Some(log[j].key);
    }
  }
}
