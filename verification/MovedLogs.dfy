/** Logs that move keys, regrouped: when running the plans key by key means what running the log in order means. */
module MovedLogs {
  import opened Common
  import opened Opcodes
  import opened Keyspace
  import opened WriteOps
  import opened Fold
  import opened Regroup
  import opened Renames

  /** The commands of one operation: a row that changes its key is moved first. */
  function MovedSteps(op: WriteOp): seq<Step> {
    if IsRename(op) then RenameSteps(op) + OpSteps(op) else OpSteps(op)
  }

  /** The operations' commands, renames included, in log order. */
  function RunMoved(n: Numbers, log: Log, db: Db): Db {
    if log == [] then db
    else var op := log[|log| - 1]; Run(n, RunMoved(n, log[..|log| - 1], db), op.key, MovedSteps(op))
  }

  /** Without renames this is the run of the log. */
  lemma {:induction false} NothingMoved(n: Numbers, log: Log, db: Db)
    requires RenameFree(log)
    ensures RunMoved(n, log, db) == RunLog(n, log, db)
  {
    if log == [] {
    } else {
      NothingMoved(n, log[..|log| - 1], db);
    }
  }

  // ----- The condition -----

  /** A row moves to a key no earlier operation wrote. */
  predicate TargetsAreNew(log: Log) {
    forall i, j :: 0 <= j < i < |log| && IsRename(log[i]) ==> log[j].key != log[i].key
  }

  /** A key a row was moved from is not written again. */
  predicate SourcesAreLeft(log: Log) {
    forall i, j :: 0 <= j < i < |log| && IsRename(log[j]) ==> log[j].oldkey.value != log[i].key
  }

  /** No keyset is a key the log writes or moves a row from. */
  predicate KeysetsApartFromMoves(log: Log) {
    forall i :: 0 <= i < |log| && log[i].keyset.Some? ==> log[i].keyset.value !in RowKeys(log) + Sources(log)
  }

  // ----- What a plan's steps may name -----

  /** Its own key, keysets, and keys already moved away. */
  predicate Belongs(s: Step, key: Bytes, keys: set<Bytes>, gone: set<Bytes>) {
    if s.op == ACT_RENAME then |s.args| == 1 && s.args[0] in gone
    else if s.op == ACT_KSET_ADD || s.op == ACT_KSET_REM
    then |s.args| == 2 && s.args[0] !in keys && (s.args[1] == key || s.args[1] in gone)
    else true
  }

  predicate AllBelong(steps: seq<Step>, key: Bytes, keys: set<Bytes>, gone: set<Bytes>) {
    forall i :: 0 <= i < |steps| ==> Belongs(steps[i], key, keys, gone)
  }

  /** An operation that keeps to `keys`, its keyset outside them. */
  predicate Within(op: WriteOp, keys: set<Bytes>) {
    && op.key in keys && (IsRename(op) ==> op.oldkey.value in keys)
    && (op.keyset.Some? ==> op.keyset.value !in keys)
  }

  lemma OpStepsBelong(op: WriteOp, keys: set<Bytes>, gone: set<Bytes>)
    requires Within(op, keys)
    ensures AllBelong(OpSteps(op), op.key, keys, gone)
    ensures forall s :: s in OpSteps(op) ==> s.op != ACT_RENAME
    ensures AllBelong(OpSteps(op), op.key, keys, {})
  {
    hide ShapeSteps;
    ShapeStepsAreData(op);
  }

  lemma RenameStepsBelong(op: WriteOp, keys: set<Bytes>, gone: set<Bytes>)
    requires Within(op, keys) && IsRename(op) && op.oldkey.value in gone
    ensures AllBelong(RenameSteps(op), op.key, keys, gone)
  {}

  /** A key not moved away: its own operations are apart from every other plan's actions. */
  lemma OwnApartFromBelonging(key: Bytes, a: Step, other: Bytes, b: Step, keys: set<Bytes>, gone: set<Bytes>)
    requires key != other && key in keys && other in keys && gone <= keys && key !in gone
    requires a.op != ACT_RENAME && Belongs(a, key, keys, {}) && Belongs(b, other, keys, gone)
    ensures Apart(key, a, other, b)
  {}

  // ----- The invariant -----

  predicate PlanBelongs(p: Plan, log: Log, keys: set<Bytes>) {
    && p.key in keys && AllBelong(p.actions, p.key, keys, Sources(log))
    && (p.key in Sources(log) || (p.key in Typing(log) && p.ttype == Typing(log)[p.key]))
  }

  predicate BookBelongs(plans: seq<Plan>, log: Log, keys: set<Bytes>) {
    DistinctKeys(plans) && Sources(log) <= keys && forall i :: 0 <= i < |plans| ==> PlanBelongs(plans[i], log, keys)
  }

  lemma LongerLog(front: Log, op: WriteOp)
    ensures Sources(front + [op]) == Sources(front) + if IsRename(op) then {op.oldkey.value} else {}
    ensures Typing(front + [op]) == Typing(front)[op.key := op.ttype]
  {
    var log := front + [op];
    assert log[..|front|] == front && log[|front|] == op;
    forall k | k in Sources(front) ensures k in Sources(log) {
      var i :| 0 <= i < |front| && IsRename(front[i]) && front[i].oldkey.value == k;
      assert log[i] == front[i];
    }
    forall k | k in Sources(log) ensures k in Sources(front) || (IsRename(op) && k == op.oldkey.value) {
      var i :| 0 <= i < |log| && IsRename(log[i]) && log[i].oldkey.value == k;
      assert i < |front| ==> log[i] == front[i];
    }
    if IsRename(op) {
      assert IsRename(log[|front|]);
    }
  }

  lemma BelongsLater(p: Plan, front: Log, op: WriteOp, keys: set<Bytes>)
    requires PlanBelongs(p, front, keys) && (op.key in Typing(front) ==> Typing(front)[op.key] == op.ttype)
    ensures PlanBelongs(p, front + [op], keys)
  {
    LongerLog(front, op);
  }

  /** The operation's key has not been moved away, a rename's target has not been written, and types are kept. */
  predicate Fresh(op: WriteOp, front: Log) {
    && op.key !in Sources(front)
    && (IsRename(op) ==> op.key !in Typing(front))
    && (op.key in Typing(front) ==> Typing(front)[op.key] == op.ttype)
  }

  lemma NoteInPlace(n: Numbers, b: Book, front: Log, op: WriteOp, keys: set<Bytes>, db: Db)
    requires BookBelongs(b.plans, front, keys) && Within(op, keys) && Fresh(op, front)
    requires !IsRename(op) && Note(b, op).Success?
    ensures BookBelongs(Note(b, op).value.plans, front + [op], keys)
    ensures RunPlans(n, Note(b, op).value.plans, db) == Run(n, RunPlans(n, b.plans, db), op.key, OpSteps(op))
  {
    hide Note, OpSteps, Run, Belongs, Typing;
    var i0 := IndexOf(b.plans, op.key);
    assert i0 < |b.plans| ==> PlanBelongs(b.plans[i0], front, keys);
    var i, p := NoteGrowsOnePlan(b, op);
    var plans := SetPlan(b.plans, i, p);
    OpStepsBelong(op, keys, Sources(front));
    LongerLog(front, op);
    assert Sources(front + [op]) == Sources(front) + {} == Sources(front);
    GrownBelongs(if i < |b.plans| then b.plans[i].actions else [], OpSteps(op), op.key, keys, Sources(front));
    assert PlanBelongs(p, front + [op], keys);
    forall j | 0 <= j < |plans| ensures PlanBelongs(plans[j], front + [op], keys) {
      if j != i {
        assert plans[j] == b.plans[j];
        BelongsLater(b.plans[j], front, op, keys);
      }
    }
    if i < |b.plans| {
      OwnApartFromLater(b.plans, i, front, op, keys);
      MovePast(n, b.plans, i, p, OpSteps(op), db);
    } else {
      assert plans[..|b.plans|] == b.plans && p.actions == OpSteps(op);
    }
  }

  lemma GrownBelongs(actions: seq<Step>, steps: seq<Step>, key: Bytes, keys: set<Bytes>, gone: set<Bytes>)
    requires AllBelong(actions, key, keys, gone) && AllBelong(steps, key, keys, gone)
    ensures AllBelong(actions + steps, key, keys, gone)
  {
    hide Belongs;
  }

  lemma OwnApartFromLater(plans: seq<Plan>, i: nat, front: Log, op: WriteOp, keys: set<Bytes>)
    requires BookBelongs(plans, front, keys) && i < |plans| && plans[i].key == op.key
    requires Within(op, keys) && op.key !in Sources(front)
    ensures ApartFromLater(op.key, OpSteps(op), plans, i)
  {
    hide OpSteps, Belongs, Apart;
    OpStepsBelong(op, keys, {});
    forall j, a, b | i < j < |plans| && a in OpSteps(op) && b in plans[j].actions
      ensures Apart(op.key, a, plans[j].key, b)
    {
      assert PlanBelongs(plans[j], front, keys);
      OwnApartFromBelonging(op.key, a, plans[j].key, b, keys, Sources(front));
    }
  }

  // ----- A rename: a new plan at the end, and a source that is left -----

  lemma {:induction false} SameActions(n: Numbers, plans: seq<Plan>, j: nat, q: Plan, db: Db)
    requires j < |plans| && q.key == plans[j].key && q.actions == plans[j].actions
    ensures RunPlans(n, plans[j := q], db) == RunPlans(n, plans, db)
  {
    hide Run;
    var front := plans[..|plans| - 1];
    if j == |plans| - 1 {
      assert plans[j := q][..|plans| - 1] == front;
    } else {
      assert plans[j := q][..|plans| - 1] == front[j := q];
      SameActions(n, front, j, q, db);
    }
  }

  lemma NothingRuns(n: Numbers, db: Db, key: Bytes)
    ensures Run(n, db, key, []) == db
  {}

  lemma TouchedSourceRuns(n: Numbers, plans: seq<Plan>, op: WriteOp, db: Db)
    requires IsRename(op)
    ensures RunPlans(n, TouchSource(plans, op), db) == RunPlans(n, plans, db)
  {
    hide Run, IndexOf;
    var j := IndexOf(plans, op.oldkey.value);
    var after := TouchSource(plans, op);
    if j == |plans| {
      assert after[..|plans|] == plans && after[|plans|].actions == [];
      NothingRuns(n, RunPlans(n, plans, db), after[|plans|].key);
    } else {
      SameActions(n, plans, j, after[j], db);
    }
  }

  lemma TouchedSourceBelongs(plans: seq<Plan>, op: WriteOp, log: Log, keys: set<Bytes>)
    requires IsRename(op) && BookBelongs(plans, log, keys) && op.oldkey.value in Sources(log)
    ensures BookBelongs(TouchSource(plans, op), log, keys)
  {
    hide Belongs, Typing;
    var j := IndexOf(plans, op.oldkey.value);
    assert j < |plans| ==> PlanBelongs(plans[j], log, keys);
  }

  lemma NewPlanGrows(b: Book, op: WriteOp) returns (p: Plan)
    requires IsRename(op) && IndexOf(b.plans, op.key) == |b.plans| && Note(b, op).Success?
    ensures Note(b, op).value.plans == TouchSource(b.plans + [p], op)
    ensures p.key == op.key && p.ttype == op.ttype && p.actions == MovedSteps(op)
  {
    hide TouchSource, OpSteps, RenameSteps, FoldBody;
    var d := Draft(Opened(b, op), b.members);
    assert d.plan.actions == [] + RenameSteps(op) == RenameSteps(op);
    FoldBodyGrows(d, op);
    p := FoldBody(d, op).value.plan;
  }

  lemma NoteMove(n: Numbers, b: Book, front: Log, op: WriteOp, keys: set<Bytes>, db: Db)
    requires BookBelongs(b.plans, front, keys) && Within(op, keys) && Fresh(op, front)
    requires IsRename(op) && Note(b, op).Success?
    ensures BookBelongs(Note(b, op).value.plans, front + [op], keys)
    ensures RunPlans(n, Note(b, op).value.plans, db) == Run(n, RunPlans(n, b.plans, db), op.key, MovedSteps(op))
  {
    hide Note, OpSteps, RenameSteps, Run, Belongs, Typing, TouchSource;
    var i := IndexOf(b.plans, op.key);
    assert i < |b.plans| ==> PlanBelongs(b.plans[i], front, keys);
    var p := NewPlanGrows(b, op);
    var plans, log := b.plans + [p], front + [op];
    LongerLog(front, op);
    OpStepsBelong(op, keys, Sources(log));
    RenameStepsBelong(op, keys, Sources(log));
    forall j | 0 <= j < |plans| ensures PlanBelongs(plans[j], log, keys) {
      if j < |b.plans| {
        BelongsLater(b.plans[j], front, op, keys);
      }
    }
    TouchedSourceBelongs(plans, op, log, keys);
    TouchedSourceRuns(n, plans, op, db);
    assert plans[..|b.plans|] == b.plans;
  }

  // ----- The theorem -----

  lemma {:induction false} RegroupMoved(n: Numbers, log: Log, i: nat, keys: set<Bytes>, db: Db)
    requires i <= |log| && TypeConsistent(log) && TargetsAreNew(log) && SourcesAreLeft(log)
    requires (forall j :: 0 <= j < |log| ==> Within(log[j], keys)) && FoldLog(log[..i]).Success?
    ensures BookBelongs(FoldLog(log[..i]).value.plans, log[..i], keys)
    ensures RunPlans(n, FoldLog(log[..i]).value.plans, db) == RunMoved(n, log[..i], db)
  {
    hide Note, MovedSteps, Run, Within, BookBelongs, Typing;
    if i == 0 {
      assert log[..i] == [];
      NothingBelongs(keys);
    } else {
      var front, op := log[..i - 1], log[i - 1];
      assert log[..i][..i - 1] == front && front + [op] == log[..i];
      RegroupMoved(n, log, i - 1, keys, db);
      FreshInItsTurn(log, i - 1);
      if IsRename(op) {
        NoteMove(n, FoldLog(front).value, front, op, keys, db);
      } else {
        NoteInPlace(n, FoldLog(front).value, front, op, keys, db);
        assert MovedSteps(op) == OpSteps(op) by { StaysPut(op); }
      }
    }
  }

  lemma StaysPut(op: WriteOp)
    requires !IsRename(op)
    ensures MovedSteps(op) == OpSteps(op)
  {}

  lemma NothingBelongs(keys: set<Bytes>)
    ensures BookBelongs([], [], keys)
  {}

  lemma FreshInItsTurn(log: Log, i: nat)
    requires i < |log| && TypeConsistent(log) && TargetsAreNew(log) && SourcesAreLeft(log)
    ensures Fresh(log[i], log[..i])
  {
    var front, op := log[..i], log[i];
    TypingIsOfTheLog(front);
    assert forall j :: 0 <= j < i ==> front[j] == log[j];
    if op.key in Typing(front) {
      var j :| 0 <= j < |front| && front[j].key == op.key && front[j].ttype == Typing(front)[op.key];
      assert log[j].key == log[i].key;
    }
  }

  /**
   Regrouping preserves meaning with renames: for every accepted log that gives each key one type, moves rows only to
   keys not written before, does not write a key a row was moved from, and keeps its keysets apart from both, the plans
   key by key end in the keyspace the log ends in, from anywhere.
   */
  lemma {:induction false} MovedRegroupingPreservesMeaning(n: Numbers, log: Log, db: Db)
    requires TypeConsistent(log) && TargetsAreNew(log) && SourcesAreLeft(log) && KeysetsApartFromMoves(log)
    requires FoldLog(log).Success?
    ensures RunPlans(n, FoldLog(log).value.plans, db) == RunMoved(n, log, db)
  {
    hide FoldLog, RunPlans, RunMoved, BookBelongs;
    var keys := RowKeys(log) + Sources(log);
    forall j | 0 <= j < |log| ensures Within(log[j], keys) {
      assert log[j].key in RowKeys(log);
      assert IsRename(log[j]) ==> log[j].oldkey.value in Sources(log);
    }
    assert log[..|log|] == log;
    RegroupMoved(n, log, |log|, keys, db);
  }
}
