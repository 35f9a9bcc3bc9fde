/** String logs that move keys: exactly when the plans, applied whole, leave what the log in order would. */
module Traces {
  import opened Common
  import opened Opcodes
  import opened Keyspace
  import opened WriteOps
  import opened Fold
  import opened Regroup
  import opened Cells
  import opened Commit
  import opened Renames
  import opened MovedLogs
  import Script

  // ----- Where each key's value comes from, command by command -----

  /** The value a key had at the start, or a text the log wrote. */
  datatype Origin = Was(key: Bytes) | Written(text: Bytes)

  type Trace = map<Bytes, Origin>

  function Follow(t: Trace, c: Command): Trace {
    var args := c.step.args;
    if c.step.op == ACT_RENAME then
      if args != [] && args[0] in t then (t - {args[0]})[c.key := t[args[0]]] else t
    else if c.step.op == ACT_SET && args != [] then t[c.key := Written(args[0])]
    else t - {c.key}
  }

  function TraceOf(cmds: seq<Command>, start: Trace): Trace {
    if cmds == [] then start else Follow(TraceOf(cmds[..|cmds| - 1], start), cmds[|cmds| - 1])
  }

  /** At the start each key the plans require holds its own value. */
  function Begin(plans: seq<Plan>): Trace {
    map k | k in Start(plans) :: Was(k)
  }

  function Reading(db: Db, o: Origin): Cell {
    match o
    case Was(k) => At(db, k)
    case Written(v) => Some(Str(v))
  }

  /**
   `db` is what the trace says it has become of `db0`: the known keys hold their origins, the others are untouched.
   */
  ghost predicate Tells(t: Trace, db0: Db, db: Db, known: set<Bytes>) {
    && t.Keys <= known
    && (forall k :: At(db, k) == if k in t then Reading(db0, t[k]) else if k in known then None else At(db0, k))
    && (forall k :: k in t && t[k].Was? ==> t[k].key in db0)
  }

  lemma WriteTells(n: Numbers, t: Trace, db0: Db, db: Db, c: Command, known: set<Bytes>)
    requires StringCommand(c, known) && c.step.op != ACT_RENAME && Tells(t, db0, db, known)
    ensures Tells(Follow(t, c), db0, Effect(n, db, c.key, c.step), known)
  {
    hide At, Put;
    EffectIsLocal(n, db, c.key, c.step);
    var cell := CellEffect(n, At(db, c.key), c.step);
    forall k ensures At(Put(db, c.key, cell), k) == if k == c.key then cell else At(db, k) {
      PutAt(db, c.key, cell, k);
    }
  }

  lemma SourceIsThere(t: Trace, db0: Db, db: Db, known: set<Bytes>, x: Bytes)
    requires Tells(t, db0, db, known) && x in known
    ensures x in db <==> x in t
    ensures x in t ==> Some(db[x]) == Reading(db0, t[x])
  {
    assert At(db, x) == if x in t then Reading(db0, t[x]) else None;
  }

  lemma RenameTells(n: Numbers, t: Trace, db0: Db, db: Db, c: Command, known: set<Bytes>)
    requires StringCommand(c, known) && c.step.op == ACT_RENAME && Tells(t, db0, db, known)
    ensures Tells(Follow(t, c), db0, Effect(n, db, c.key, c.step), known)
  {
    hide At, Put, Reading;
    var x := c.step.args[0];
    SourceIsThere(t, db0, db, known, x);
    if x in t {
      var left := Put(db, x, None);
      forall k ensures At(Put(left, c.key, Some(db[x])), k)
                       == if k == c.key then Some(db[x]) else if k == x then None else At(db, k)
      {
        PutAt(db, x, None, k);
        PutAt(left, c.key, Some(db[x]), k);
      }
    }
  }

  lemma {:induction false} RunTells(n: Numbers, t: Trace, db0: Db, db: Db, cmds: seq<Command>, known: set<Bytes>)
    requires (forall i :: 0 <= i < |cmds| ==> StringCommand(cmds[i], known)) && Tells(t, db0, db, known)
    ensures Tells(TraceOf(cmds, t), db0, RunAll(n, db, cmds), known)
  {
    hide StringCommand, Tells, Follow, Effect;
    if cmds == [] {
    } else {
      var front, c := cmds[..|cmds| - 1], cmds[|cmds| - 1];
      RunTells(n, t, db0, db, front, known);
      var before, now := RunAll(n, db, front), TraceOf(front, t);
      if c.step.op == ACT_RENAME {
        RenameTells(n, now, db0, before, c, known);
      } else {
        WriteTells(n, now, db0, before, c, known);
      }
    }
  }

  lemma BeginTells(db: Db, plans: seq<Plan>, known: set<Bytes>)
    requires Start(plans) == db.Keys * known
    ensures Tells(Begin(plans), db, db, known)
  {}

  /** Two keyspaces told from one start agree exactly when every key's origin reads the same. */
  lemma SameReadings(t1: Trace, t2: Trace, db0: Db, db1: Db, db2: Db, known: set<Bytes>)
    requires Tells(t1, db0, db1, known) && Tells(t2, db0, db2, known)
    ensures t1 == t2 ==> db1 == db2
    ensures db1 == db2 ==> ReadAlike(t1, t2, db0)
  {
    if t1 == t2 {
      forall k ensures At(db1, k) == At(db2, k) {}
      SameCells(db1, db2);
    }
    if db1 == db2 {
      forall k | k in known ensures k in t1 <==> k in t2 {
        SourceIsThere(t1, db0, db1, known, k);
        SourceIsThere(t2, db0, db2, known, k);
      }
      assert t1.Keys == t2.Keys;
      forall k | k in t1 && k in t2 ensures Reading(db0, t1[k]) == Reading(db0, t2[k]) {
        assert At(db1, k) == At(db2, k);
      }
    }
  }

  lemma SameCells(db1: Db, db2: Db)
    requires forall k :: At(db1, k) == At(db2, k)
    ensures db1 == db2
  {
    forall k ensures k in db1 <==> k in db2 {
      assert At(db1, k) == At(db2, k);
    }
    forall k | k in db1 ensures db1[k] == db2[k] {
      assert At(db1, k) == At(db2, k);
    }
  }

  // ----- The log's own commands -----

  function LogCommands(log: Log): seq<Command> {
    if log == [] then []
    else var op := log[|log| - 1]; LogCommands(log[..|log| - 1]) + CommandsOf(op.key, MovedSteps(op))
  }

  lemma {:induction false} RunAllIsRunMoved(n: Numbers, db: Db, log: Log)
    ensures RunAll(n, db, LogCommands(log)) == RunMoved(n, log, db)
  {
    hide RunAll, Run, MovedSteps;
    if log == [] {
      NoCommands(n, db);
    } else {
      var front, op := log[..|log| - 1], log[|log| - 1];
      RunAllIsRunMoved(n, db, front);
      RunAllAppend(n, db, LogCommands(front), CommandsOf(op.key, MovedSteps(op)));
      RunAllIsRun(n, RunMoved(n, front, db), op.key, MovedSteps(op));
    }
  }

  lemma {:induction false} NothingPacked(op: WriteOp, i: nat)
    requires op.ttype == StringTable && i <= |op.packed|
    ensures PackedSteps(op, i) == []
  {
    if i == 0 {
    } else {
      NothingPacked(op, i - 1);
    }
  }

  lemma StringOpCommands(op: WriteOp, known: set<Bytes>)
    requires StringRow(op) && op.key in known && (IsRename(op) ==> op.oldkey.value in known)
    ensures forall i :: 0 <= i < |MovedSteps(op)| ==> StringCommand(Command(op.key, MovedSteps(op)[i]), known)
  {
    hide PackedSteps;
    NothingPacked(op, |op.packed|);
  }

  lemma {:induction false} LogCommandsAreStrings(log: Log, known: set<Bytes>)
    requires forall i :: 0 <= i < |log| ==>
               StringRow(log[i]) && log[i].key in known && (IsRename(log[i]) ==> log[i].oldkey.value in known)
    ensures forall i :: 0 <= i < |LogCommands(log)| ==> StringCommand(LogCommands(log)[i], known)
  {
    hide StringCommand, MovedSteps, StringRow;
    if log == [] {
    } else {
      LogCommandsAreStrings(log[..|log| - 1], known);
      StringOpCommands(log[|log| - 1], known);
    }
  }

  predicate StringLog(log: Log) {
    forall i :: 0 <= i < |log| ==> StringRow(log[i])
  }

  lemma LogKeysAreKnown(log: Log)
    requires StringLog(log) && FoldLog(log).Success?
    ensures var known := KeysOf(FoldLog(log).value.plans);
            forall i :: 0 <= i < |log| ==>
              StringRow(log[i]) && log[i].key in known && (IsRename(log[i]) ==> log[i].oldkey.value in known)
  {
    hide FoldLog, StringRow;
    var plans := FoldLog(log).value.plans;
    forall k | k in RowKeys(log) + Sources(log) ensures k in KeysOf(plans) {
      KeysHavePlans(log, k);
      var j :| 0 <= j < |plans| && plans[j].key == k;
      assert plans[j] in plans;
    }
    forall i | 0 <= i < |log|
      ensures log[i].key in RowKeys(log) && (IsRename(log[i]) ==> log[i].oldkey.value in Sources(log)) {}
  }

  /** What the plans and the log make of a passing keyspace, told from the same beginning. */
  lemma BothAreTold(n: Numbers, log: Log, db: Db)
    requires StringLog(log) && FoldLog(log).Success? && Passes(db, FoldLog(log).value.plans)
    ensures var plans := FoldLog(log).value.plans;
            && Tells(TraceOf(AllCommands(plans), Begin(plans)), db, RunPlans(n, plans, db), KeysOf(plans))
            && Tells(TraceOf(LogCommands(log), Begin(plans)), db, RunMoved(n, log, db), KeysOf(plans))
  {
    hide FoldLog, StringRow, AllCommands, LogCommands, Passes, RunPlans, RunMoved, RunAll, TraceOf, Tells,
      StringCommand;
    var plans := FoldLog(log).value.plans;
    var known := KeysOf(plans);
    StringPlansAreKnown(log, db);
    LogKeysAreKnown(log);
    LogCommandsAreStrings(log, known);
    BeginTells(db, plans, known);
    RunTells(n, Begin(plans), db, db, AllCommands(plans), known);
    RunTells(n, Begin(plans), db, db, LogCommands(log), known);
    RunAllIsRunPlans(n, db, plans);
    RunAllIsRunMoved(n, db, log);
  }

  // ----- A keyspace that passes, with values of our choosing -----

  /** A string plan asks for nothing but its key's type and presence. */
  predicate Plainly(p: Plan) {
    p.ttype == StringTable && |p.checks| == 2 && p.checks[0] == Step(CHK_TYPE_OK, []) && Asked(p)
  }

  lemma StringBodyAsksNothing(d: Draft, op: WriteOp)
    requires StringRow(op) && FoldBody(d, op).Success?
    ensures var p := FoldBody(d, op).value.plan;
            p.key == d.plan.key && p.ttype == d.plan.ttype && p.checks == d.plan.checks && p.require == d.plan.require
  {}

  predicate AllPlainly(plans: seq<Plan>) {
    forall i :: 0 <= i < |plans| ==> Plainly(plans[i])
  }

  lemma OpenedPlainly(b: Book, op: WriteOp)
    requires StringRow(op) && AllPlainly(b.plans)
    ensures Plainly(Opened(b, op))
  {
    hide RenameSteps, IndexOf;
    var i := IndexOf(b.plans, op.key);
    assert i < |b.plans| ==> Plainly(b.plans[i]);
  }

  lemma TouchedPlainly(plans: seq<Plan>, op: WriteOp)
    requires StringRow(op) && IsRename(op) && AllPlainly(plans)
    ensures AllPlainly(TouchSource(plans, op))
  {
    hide IndexOf;
    var j := IndexOf(plans, op.oldkey.value);
    assert j < |plans| ==> Plainly(plans[j]);
  }

  lemma NotePlainly(b: Book, op: WriteOp)
    requires StringRow(op) && Note(b, op).Success? && AllPlainly(b.plans)
    ensures AllPlainly(Note(b, op).value.plans)
  {
    hide FoldBody, Opened, TouchSource, StringRow;
    var d := Draft(Opened(b, op), b.members);
    OpenedPlainly(b, op);
    StringBodyAsksNothing(d, op);
    var plans := SetPlan(b.plans, IndexOf(b.plans, op.key), FoldBody(d, op).value.plan);
    assert AllPlainly(plans);
    if IsRename(op) {
      TouchedPlainly(plans, op);
    }
  }

  lemma {:induction false} StringPlansArePlain(log: Log)
    requires StringLog(log) && FoldLog(log).Success?
    ensures AllPlainly(FoldLog(log).value.plans)
  {
    hide Note, Plainly, StringRow;
    if log == [] {
    } else {
      StringPlansArePlain(log[..|log| - 1]);
      NotePlainly(FoldLog(log[..|log| - 1]).value, log[|log| - 1]);
    }
  }

  function Holding(plans: seq<Plan>, text: Bytes -> Bytes): Db {
    map k | k in Start(plans) :: Str(text(k))
  }

  lemma HoldingPasses(plans: seq<Plan>, text: Bytes -> Bytes)
    requires DistinctKeys(plans) && AllPlainly(plans)
    ensures Passes(Holding(plans, text), plans)
  {
    var db := Holding(plans, text);
    forall i | 0 <= i < |plans| ensures PlanPasses(db, plans[i]) {
      var p := plans[i];
      assert p.key in Start(plans) <==> p.require == RequirePresent by {
        if q :| q in plans && q.require == RequirePresent && q.key == p.key {
          var j :| 0 <= j < |plans| && plans[j] == q;
          assert i == j;
        }
      }
      assert forall c :: 0 <= c < 2 ==> Script.EvalCheck(db, p.key, p.checks[c]).Pass?;
    }
  }

  /** Every value a trace takes from the start is of a key that was there. */
  predicate Grounded(t: Trace, db: Db) {
    forall k :: k in t && t[k].Was? ==> t[k].key in db
  }

  /** Two traces with the same keys read the same from a keyspace. */
  predicate ReadAlike(t1: Trace, t2: Trace, db: Db) {
    t1.Keys == t2.Keys && forall k :: k in t1 && k in t2 ==> Reading(db, t1[k]) == Reading(db, t2[k])
  }

  /** Two different traces read differently from some keyspace that passes. */
  lemma DifferentTracesShow(t1: Trace, t2: Trace, plans: seq<Plan>) returns (text: Bytes -> Bytes)
    requires t1 != t2
    ensures var db := Holding(plans, text); Grounded(t1, db) && Grounded(t2, db) ==> !ReadAlike(t1, t2, db)
  {
    text := k => k;
    if t1.Keys == t2.Keys {
      var k :| k in t1 && k in t2 && t1[k] != t2[k];
      match (t1[k], t2[k])
      case (Was(_), Written(v)) => text := _ => v + [NUL];
      case (Written(v), Was(_)) => text := _ => v + [NUL];
      case _ =>
      assert forall v: Bytes :: |v + [NUL]| != |v|;
    }
  }

  // ----- The theorems -----

  /** The plans leave each key the origin the log in order leaves it. */
  predicate OrderIsKept(log: Log, plans: seq<Plan>) {
    TraceOf(AllCommands(plans), Begin(plans)) == TraceOf(LogCommands(log), Begin(plans))
  }

  /**
   Order, exactly: a string log's plans end where the log in order ends, from every keyspace that passes their checks,
   if and only if the two leave every key the same origin, which the log alone decides.
   */
  lemma {:induction false} OrderIsKeptExactly(n: Numbers, log: Log)
    requires StringLog(log) && FoldLog(log).Success?
    ensures var plans := FoldLog(log).value.plans;
            (forall db :: Passes(db, plans) ==> RunPlans(n, plans, db) == RunMoved(n, log, db)) <==>
              OrderIsKept(log, plans)
  {
    hide FoldLog, StringLog, AllCommands, LogCommands, Passes, RunPlans, RunMoved, TraceOf, Tells, AllPlainly, Holding;
    var plans := FoldLog(log).value.plans;
    var t1, t2 := TraceOf(AllCommands(plans), Begin(plans)), TraceOf(LogCommands(log), Begin(plans));
    if t1 == t2 {
      forall db | Passes(db, plans) ensures RunPlans(n, plans, db) == RunMoved(n, log, db) {
        BothAreTold(n, log, db);
        SameReadings(t1, t2, db, RunPlans(n, plans, db), RunMoved(n, log, db), KeysOf(plans));
      }
    } else {
      var text := DifferentTracesShow(t1, t2, plans);
      var db := Holding(plans, text);
      FoldKeepsKeysDistinct(log);
      StringPlansArePlain(log);
      HoldingPasses(plans, text);
      BothAreTold(n, log, db);
      ToldIsGrounded(t1, db, RunPlans(n, plans, db), KeysOf(plans));
      ToldIsGrounded(t2, db, RunMoved(n, log, db), KeysOf(plans));
      SameReadings(t1, t2, db, RunPlans(n, plans, db), RunMoved(n, log, db), KeysOf(plans));
      assert Passes(db, plans) && RunPlans(n, plans, db) != RunMoved(n, log, db);
    }
  }

  lemma ToldIsGrounded(t: Trace, db0: Db, db: Db, known: set<Bytes>)
    requires Tells(t, db0, db, known)
    ensures Grounded(t, db0)
  {}

  /**
   A string log that moves keys: a commit that passes is the log in order, from every passing keyspace, if and only if
   every rename finds its source in plan order and the order is kept.
   */
  lemma {:induction false} MovesAreDeliveredExactly(n: Numbers, log: Log)
    requires StringLog(log) && FoldLog(log).Success?
    ensures var plans := FoldLog(log).value.plans;
            (forall db :: Passes(db, plans) ==>
               Flushed(n, db, plans) == (RunMoved(n, log, db), Script.Applied(|plans|))) <==>
            LiveKeys(AllCommands(plans), Start(plans)).Some? && OrderIsKept(log, plans)
  {
    hide FoldLog, StringRow, Passes, Flushed, RunPlans, RunMoved, LiveKeys, OrderIsKept, StoppedInPart, AllPlainly,
      Holding, AllCommands;
    var plans := FoldLog(log).value.plans;
    OrderIsKeptExactly(n, log);
    forall db | Passes(db, plans)
      ensures if LiveKeys(AllCommands(plans), Start(plans)).Some?
              then Flushed(n, db, plans) == (RunPlans(n, plans, db), Script.Applied(|plans|))
              else !Flushed(n, db, plans).1.Applied?
    {
      RenamesAreExact(n, log, db);
      if LiveKeys(AllCommands(plans), Start(plans)).None? {
        InPartIsNotApplied(n, db, plans, Flushed(n, db, plans).0, Flushed(n, db, plans).1);
      }
    }
    var text := (k: Bytes) => k;
    FoldKeepsKeysDistinct(log);
    StringPlansArePlain(log);
    HoldingPasses(plans, text);
    assert Passes(Holding(plans, text), plans);
  }

  lemma InPartIsNotApplied(n: Numbers, db: Db, plans: seq<Plan>, after: Db, r: Script.Reply)
    requires StoppedInPart(n, db, plans, after, r)
    ensures !r.Applied?
  {}
}
