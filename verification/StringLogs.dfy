/** String tables: what is legal row by row is refused nowhere, neither by the fold nor by the program's checks. */
module StringLogs {
  import opened Common
  import opened Opcodes
  import opened Keyspace
  import opened WriteOps
  import opened Fold
  import opened Regroup
  import opened NoOverwrite
  import opened Assumptions
  import Commit

  predicate IsStringOp(op: WriteOp) {
    op.ttype == StringTable && !op.packedShape && !IsRename(op) && (op.kind != Delete ==> op.value.Some?)
  }

  /** An INSERT finds no such key; an UPDATE or a DELETE finds one. */
  predicate LegalAt(db: Db, op: WriteOp) {
    op.kind == Insert <==> op.key !in db
  }

  predicate Legal(n: Numbers, log: Log, db: Db) {
    forall i :: 0 <= i < |log| ==> LegalAt(RunLog(n, log[..i], db), log[i])
  }

  lemma LegalUpToTheLast(n: Numbers, log: Log, db: Db)
    requires Legal(n, log, db) && log != []
    ensures Legal(n, log[..|log| - 1], db) && LegalAt(RunLog(n, log[..|log| - 1], db), log[|log| - 1])
  {
    hide RunLog, LegalAt;
    var front := log[..|log| - 1];
    forall i | 0 <= i < |front| ensures LegalAt(RunLog(n, front[..i], db), front[i]) {
      assert front[..i] == log[..i];
    }
  }

  lemma StringLogsAreSimple(log: Log)
    requires forall i :: 0 <= i < |log| ==> IsStringOp(log[i])
    ensures RenameFree(log) && TypeConsistent(log)
  {}

  // ----- No refusal by the fold, whatever the keysets are called -----

  predicate HoldsString(db: Db, k: Bytes) {
    k in db && db[k].Str?
  }

  /** A key whose plan does not say it was deleted holds a string. */
  predicate LiveKeysHoldStrings(plans: seq<Plan>, db: Db) {
    forall i :: 0 <= i < |plans| ==>
      plans[i].ttype == StringTable && (plans[i].state != Deleted ==> HoldsString(db, plans[i].key))
  }

  /** A set command aimed at a string changes nothing, so no keyset edit disturbs one. */
  lemma KeysetEditSparesStrings(n: Numbers, db: Db, op: WriteOp, key: Bytes, add: bool, k: Bytes)
    requires HoldsString(db, k)
    ensures HoldsString(Run(n, db, key, KeysetSteps(op, key, add)), k)
  {
    var steps := KeysetSteps(op, key, add);
    if op.keyset.Some? {
      assert steps[..0] == [] && Run(n, db, key, steps[..0]) == db;
      assert Effect(n, db, key, steps[0]) == Run(n, db, key, steps);
    }
  }

  lemma StringOpKeepsStrings(n: Numbers, db: Db, op: WriteOp, k: Bytes)
    requires IsStringOp(op)
    requires k != op.key ==> HoldsString(db, k)
    requires k == op.key ==> op.kind != Delete
    ensures HoldsString(Run(n, db, op.key, OpSteps(op)), k)
  {
    hide KeysetSteps;
    var first := if op.kind == Delete then Step(ACT_DEL, []) else Step(ACT_SET, [op.value.value]);
    var db1 := Effect(n, db, op.key, first);
    assert Run(n, db, op.key, [first]) == db1 by {
      assert [first][..0] == [];
    }
    assert HoldsString(db1, k);
    if op.kind == Update {
      assert OpSteps(op) == [first];
    } else {
      var keyset := KeysetSteps(op, op.key, op.kind == Insert);
      assert OpSteps(op) == [first] + keyset;
      RunAppend(n, db, op.key, [first], keyset);
      KeysetEditSparesStrings(n, db1, op, op.key, op.kind == Insert, k);
    }
  }

  lemma StringBody(d: Draft, op: WriteOp)
    requires IsStringOp(op)
    ensures FoldBody(d, op).Success?
    ensures FoldBody(d, op).value.plan.ttype == d.plan.ttype && FoldBody(d, op).value.plan.key == d.plan.key
    ensures FoldBody(d, op).value.plan.state == Deleted <==> op.kind == Delete
  {}

  lemma LegalNoteIsAccepted(n: Numbers, b: Book, op: WriteOp, db: Db)
    requires DistinctKeys(b.plans) && LiveKeysHoldStrings(b.plans, db) && IsStringOp(op) && LegalAt(db, op)
    ensures Note(b, op).Success? && LiveKeysHoldStrings(Note(b, op).value.plans, Run(n, db, op.key, OpSteps(op)))
  {
    hide FoldBody, OpSteps, RunCell, HoldsString, Run;
    var i := IndexOf(b.plans, op.key);
    assert i < |b.plans| && op.kind == Insert ==> b.plans[i].state == Deleted by {
      HeldIsThere(db, op.key);
    }
    StringBody(Draft(Opened(b, op), b.members), op);
    var p := FoldBody(Draft(Opened(b, op), b.members), op).value.plan;
    var plans, db' := SetPlan(b.plans, i, p), Run(n, db, op.key, OpSteps(op));
    forall j | 0 <= j < |plans| && plans[j].state != Deleted ensures HoldsString(db', plans[j].key) {
      assert j != i ==> plans[j] == b.plans[j] && plans[j].key != op.key;
      StringOpKeepsStrings(n, db, op, plans[j].key);
    }
  }

  lemma HeldIsThere(db: Db, k: Bytes)
    ensures HoldsString(db, k) ==> k in db
  {}

  /** A string log legal row by row is refused nowhere, whatever its keysets are called. */
  lemma {:induction false} LegalStringLogsAreNotRefused(n: Numbers, log: Log, db: Db)
    requires Legal(n, log, db) && forall i :: 0 <= i < |log| ==> IsStringOp(log[i])
    ensures FoldLog(log).Success? && LiveKeysHoldStrings(FoldLog(log).value.plans, RunLog(n, log, db))
  {
    hide Note, LegalAt, Legal, IsStringOp, LiveKeysHoldStrings;
    if log == [] {
      NoPlansLive(db);
    } else {
      var front := log[..|log| - 1];
      LegalUpToTheLast(n, log, db);
      LegalStringLogsAreNotRefused(n, front, db);
      FoldKeepsKeysDistinct(front);
      LegalNoteIsAccepted(n, FoldLog(front).value, log[|log| - 1], RunLog(n, front, db));
    }
  }

  lemma NoPlansLive(db: Db)
    ensures LiveKeysHoldStrings([], db)
  {}

  // ----- And none by the checks -----

  lemma {:induction false} UntouchedKeepsItsCell(n: Numbers, log: Log, k: Bytes, db: Db)
    requires AllSpare(log, k) && PhaseOf(log, k).Untouched?
    ensures At(RunLog(n, log, db), k) == At(db, k)
  {
    hide OpSteps, Run, At, Spares;
    if log == [] {
    } else {
      var front, op := log[..|log| - 1], log[|log| - 1];
      UntouchedKeepsItsCell(n, front, k, db);
      OpAt(n, RunLog(n, front, db), op, k);
    }
  }

  lemma ApartIsSpared(log: Log, i: nat, j: nat)
    requires RenameFree(log) && KeysetsApart(log) && i < |log| && j <= |log|
    ensures AllSpare(log[..j], log[i].key)
  {}

  lemma LegalStringRowAssumes(n: Numbers, before: Log, op: WriteOp, db: Db)
    requires IsStringOp(op) && LegalAt(RunLog(n, before, db), op) && AllSpare(before, op.key)
    requires TypeOk(At(db, op.key), StringTable)
    ensures OpAssumes(before, op, db)
  {
    hide RunLog, AllSpare, PhaseOf;
    if PhaseOf(before, op.key).Untouched? {
      UntouchedKeepsItsCell(n, before, op.key, db);
    }
  }

  lemma {:induction false} LegalStringRowsAssume(n: Numbers, log: Log, i: nat, db: Db)
    requires i <= |log| && RenameFree(log) && KeysetsApart(log) && Legal(n, log[..i], db)
    requires forall j :: 0 <= j < |log| ==> IsStringOp(log[j]) && TypeOk(At(db, log[j].key), StringTable)
    ensures RowsAssume(log[..i], db)
  {
    hide Legal, LegalAt, IsStringOp, TypeOk, OpAssumes, At, RunLog;
    if i == 0 {
      assert log[..i] == [];
    } else {
      LegalUpToTheLast(n, log[..i], db);
      assert log[..i][..i - 1] == log[..i - 1];
      LegalStringRowsAssume(n, log, i - 1, db);
      ApartIsSpared(log, i - 1, i - 1);
      LegalStringRowAssumes(n, log[..i - 1], log[i - 1], db);
    }
  }

  /** A string log legal row by row is accepted, and its plans' checks hold of the keyspace it is legal from. */
  lemma {:induction false} LegalStringLogsAreAccepted(n: Numbers, log: Log, db: Db)
    requires KeysetsApart(log) && Legal(n, log, db)
    requires forall i :: 0 <= i < |log| ==> IsStringOp(log[i]) && TypeOk(At(db, log[i].key), StringTable)
    ensures FoldLog(log).Success? && Commit.Passes(db, FoldLog(log).value.plans)
  {
    hide FoldLog, RunLog, IsStringOp, Commit.Passes, RowsAssume, Legal, LiveKeysHoldStrings, At, TypeOk;
    StringLogsAreSimple(log);
    LegalStringLogsAreNotRefused(n, log, db);
    assert log[..|log|] == log;
    LegalStringRowsAssume(n, log, |log|, db);
    PhaseOneAsksWhatTheRowsAssume(log, db);
  }
}
