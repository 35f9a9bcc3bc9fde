/** What a committed log leaves in the keyspace, row after row, said without steps or plans; and that a commit does. */
module Outcomes {
  import opened Common
  import opened Opcodes
  import opened Keyspace
  import opened WriteOps
  import opened Fold
  import opened Regroup
  import opened NoOverwrite
  import opened Renames
  import opened MovedLogs
  import opened Rows
  import Commit
  import Traces

  // ----- One row, over the whole keyspace -----

  /** The row was under `k` and is not any more. */
  predicate MovesFrom(op: WriteOp, k: Bytes) {
    op.kind == Update && op.oldkey == Some(k) && k != op.key
  }

  /** The cell the row finds under its key: a moved row brings what was under its old one, if anything was. */
  function Brought(op: WriteOp, db: Db): Cell {
    if op.kind == Update && op.oldkey.Some? && At(db, op.oldkey.value).Some? then At(db, op.oldkey.value)
    else At(db, op.key)
  }

  /** A keyset lists the keys that rows are under. */
  function KeysetAfter(op: WriteOp, was: set<Bytes>): set<Bytes> {
    if op.oldkey.Some? && MovesFrom(op, op.oldkey.value) then was - {op.oldkey.value} + {op.key}
    else if op.kind == Insert then was + {op.key}
    else if DeletesKey(op) then was - {op.key}
    else was
  }

  ghost predicate KeysetLeaves(op: WriteOp, c: Cell, c': Cell) {
    TypeOk(c', SetTable) && Populated(c') && Elems(c') == KeysetAfter(op, Elems(c))
  }

  ghost predicate CellLeaves(op: WriteOp, db: Db, k: Bytes, c': Cell) {
    if k == op.key then RowLeaves(op, Brought(op, db), c')
    else if op.keyset == Some(k) then KeysetLeaves(op, At(db, k), c')
    else if MovesFrom(op, k) then c' == None
    else c' == At(db, k)
  }

  ghost predicate OpLeaves(op: WriteOp, db: Db, db': Db) {
    forall k :: CellLeaves(op, db, k, At(db', k))
  }

  /** `db'` is where the rows lead from `db`, one after the other. */
  ghost predicate Outcome(log: Log, db: Db, db': Db) {
    if log == [] then db' == db
    else
      var front, op := log[..|log| - 1], log[|log| - 1];
      exists mid :: Outcome(front, db, mid) && OpLeaves(op, mid, db')
  }

  /** From one keyspace the rows lead to one keyspace. */
  lemma {:induction false} RowsDecide(log: Log, db: Db, a: Db, b: Db)
    requires Outcome(log, db, a) && Outcome(log, db, b)
    ensures a == b
  {
    hide CellLeaves;
    if log == [] {
    } else {
      var front, op := log[..|log| - 1], log[|log| - 1];
      var m1 :| Outcome(front, db, m1) && OpLeaves(op, m1, a);
      var m2 :| Outcome(front, db, m2) && OpLeaves(op, m2, b);
      RowsDecide(front, db, m1, m2);
      forall k ensures At(a, k) == At(b, k) {
        assert CellLeaves(op, m1, k, At(a, k)) && CellLeaves(op, m1, k, At(b, k));
        CellDecides(op, m1, k, At(a, k), At(b, k));
      }
      Traces.SameCells(a, b);
    }
  }

  lemma CellDecides(op: WriteOp, db: Db, k: Bytes, a: Cell, b: Cell)
    requires CellLeaves(op, db, k, a) && CellLeaves(op, db, k, b)
    ensures a == b
  {
    hide RowLeaves, At, TypeOk, Populated, Elems;
    if k == op.key {
      RowDecides(op, Brought(op, db), a, b);
    } else if op.keyset == Some(k) {
      ContentsDecide(a, b, SetTable);
    }
  }

  // ----- The steps do it -----

  ghost predicate AllPopulated(db: Db) {
    forall k :: Populated(At(db, k))
  }

  /** The row's keyset is neither its key nor the one it leaves, and each of the three holds what it should. */
  ghost predicate Ready(n: Numbers, op: WriteOp, db: Db) {
    && Commit.NumbersOk(n, op) && AllPopulated(db)
    && TypeOk(At(db, op.key), op.ttype) && (IsRename(op) ==> TypeOk(At(db, op.oldkey.value), op.ttype))
    && (op.keyset.Some? ==>
        && op.keyset.value != op.key && !MovesFrom(op, op.keyset.value)
        && TypeOk(At(db, op.keyset.value), SetTable))
  }

  function Entered(c: Cell, m: Bytes): Cell {
    Some(Set(Elems(c) + {m}))
  }

  function Left(c: Cell, m: Bytes): Cell {
    if Elems(c) - {m} == {} then None else Some(Set(Elems(c) - {m}))
  }

  lemma KeysetStepsAt(n: Numbers, db: Db, op: WriteOp, member: Bytes, add: bool, k: Bytes)
    requires op.keyset.Some? ==> TypeOk(At(db, op.keyset.value), SetTable)
    ensures At(Run(n, db, op.key, KeysetSteps(op, member, add)), k)
            == if op.keyset != Some(k) then At(db, k) else if add then Entered(At(db, k), member)
               else Left(At(db, k), member)
  {
    var steps := KeysetSteps(op, member, add);
    if op.keyset.Some? {
      var s := steps[0];
      assert steps == [s] && [s][..0] == [] && Run(n, db, op.key, steps) == Effect(n, db, op.key, s);
      EffectIsLocal(n, db, op.key, s);
      PutAt(db, op.keyset.value, CellEffect(n, At(db, op.keyset.value), Plain(s)), k);
      assert Plain(s).args == [member];
      var none: set<Bytes> := {};
      assert none + {member} == {member} && none - {member} == none;
    }
  }

  lemma RenamedAt(n: Numbers, db: Db, key: Bytes, source: Bytes, k: Bytes)
    requires source != key
    ensures At(Run(n, db, key, [Step(ACT_RENAME, [source])]), k)
            == if k == key then (if At(db, source).Some? then At(db, source) else At(db, key))
               else if k == source then None else At(db, k)
  {
    var s := Step(ACT_RENAME, [source]);
    assert [s][..0] == [] && Run(n, db, key, [s]) == Effect(n, db, key, s);
    if source in db {
      PutAt(db, source, None, k);
      PutAt(Put(db, source, None), key, Some(db[source]), k);
    }
  }

  /** Where the rename steps leave every key. */
  lemma MoveAt(n: Numbers, db: Db, op: WriteOp, k: Bytes)
    requires Ready(n, op, db) && IsRename(op)
    ensures At(Run(n, db, op.key, RenameSteps(op)), k)
            == if k == op.key then Brought(op, db)
               else if op.keyset == Some(k) then Entered(Left(At(db, k), op.oldkey.value), op.key)
               else if MovesFrom(op, k) then None
               else At(db, k)
  {
    hide At, Run, Entered, Left, KeysetSteps, TypeOk;
    var source := op.oldkey.value;
    var rename := [Step(ACT_RENAME, [source])];
    var out, enter := KeysetSteps(op, source, false), KeysetSteps(op, op.key, true);
    var db1 := Run(n, db, op.key, rename);
    var db2 := Run(n, db1, op.key, out);
    RunAppend(n, db, op.key, rename + out, enter);
    RunAppend(n, db, op.key, rename, out);
    RenamedAt(n, db, op.key, source, k);
    if op.keyset.Some? {
      RenamedAt(n, db, op.key, source, op.keyset.value);
      KeysetStepsAt(n, db1, op, source, false, op.keyset.value);
      LeftIsASet(At(db1, op.keyset.value), source);
    }
    KeysetStepsAt(n, db1, op, source, false, k);
    KeysetStepsAt(n, db2, op, op.key, true, k);
  }

  lemma LeftIsASet(c: Cell, m: Bytes)
    ensures TypeOk(Left(c, m), SetTable) && Elems(Left(c, m)) == Elems(c) - {m}
    ensures TypeOk(Entered(c, m), SetTable) && Elems(Entered(c, m)) == Elems(c) + {m}
    ensures Populated(Left(c, m)) && Populated(Entered(c, m))
  {
    assert m in Elems(c) + {m};
  }

  /** Where a row's own steps leave every key, from the cells it finds. */
  lemma StepsAt(n: Numbers, db: Db, op: WriteOp, k: Bytes)
    requires Commit.NumbersOk(n, op) && TypeOk(At(db, op.key), op.ttype) && Populated(At(db, op.key))
    requires op.keyset.Some? ==> op.keyset.value != op.key && TypeOk(At(db, op.keyset.value), SetTable)
    ensures var c' := At(Run(n, db, op.key, OpSteps(op)), k);
            if k == op.key then RowLeaves(op, At(db, k), c')
            else if op.keyset == Some(k)
            then c' == if op.kind == Insert then Entered(At(db, k), op.key)
                       else if DeletesKey(op) then Left(At(db, k), op.key) else At(db, k)
            else c' == At(db, k)
  {
    hide At, Run, Entered, Left, KeysetSteps, TypeOk, Populated, RowLeaves, ShapeSteps, RunCell, Commit.NumbersOk;
    var own := if DeletesKey(op) then [Step(ACT_DEL, [])] else ShapeSteps(op);
    var mid := Run(n, db, op.key, own);
    OwnStepsAt(n, db, op, own, k);
    if op.keyset.Some? {
      OwnStepsAt(n, db, op, own, op.keyset.value);
    }
    if DeletesKey(op) {
      RunAppend(n, db, op.key, own, KeysetSteps(op, op.key, false));
      KeysetStepsAt(n, mid, op, op.key, false, k);
    } else if op.kind == Insert {
      RunAppend(n, db, op.key, own, KeysetSteps(op, op.key, true));
      KeysetStepsAt(n, mid, op, op.key, true, k);
    } else {
      assert ShapeSteps(op) + [] == ShapeSteps(op);
    }
  }

  lemma OwnStepsAt(n: Numbers, db: Db, op: WriteOp, own: seq<Step>, k: Bytes)
    requires Commit.NumbersOk(n, op) && TypeOk(At(db, op.key), op.ttype) && Populated(At(db, op.key))
    requires own == if DeletesKey(op) then [Step(ACT_DEL, [])] else ShapeSteps(op)
    ensures var c' := At(Run(n, db, op.key, own), k);
            if k == op.key then RowLeaves(op, At(db, k), c') else c' == At(db, k)
  {
    hide At, Run, TypeOk, Populated, ShapeSteps, RunCell, Commit.NumbersOk, RowLeaves;
    if DeletesKey(op) {
      RunAt(n, db, op.key, own, k);
      SingleStep(n, At(db, op.key), Step(ACT_DEL, []));
      Deleting(n, At(db, op.key));
      GoneIsLeft(op, At(db, op.key));
    } else {
      ShapeStepsSpare(op, k);
      RunAt(n, db, op.key, own, k);
      ShapeLeaves(n, At(db, op.key), op);
    }
  }

  lemma GoneIsLeft(op: WriteOp, c: Cell)
    requires DeletesKey(op)
    ensures RowLeaves(op, c, None)
  {}

  /** One row's commands leave every key of the keyspace as the row says. */
  lemma {:induction false} RowIsDone(n: Numbers, op: WriteOp, db: Db)
    requires Ready(n, op, db)
    ensures OpLeaves(op, db, Run(n, db, op.key, MovedSteps(op)))
  {
    hide RowLeaves, TypeOk, Populated, Run, OpSteps, RenameSteps, Entered, Left, At, Elems;
    forall k ensures CellLeaves(op, db, k, At(Run(n, db, op.key, MovedSteps(op)), k)) {
      if IsRename(op) {
        MovedRowAt(n, op, db, k);
      } else {
        StillRowAt(n, op, db, k);
      }
    }
  }

  lemma StillRowAt(n: Numbers, op: WriteOp, db: Db, k: Bytes)
    requires Ready(n, op, db) && !IsRename(op)
    ensures CellLeaves(op, db, k, At(Run(n, db, op.key, OpSteps(op)), k))
  {
    hide RowLeaves, TypeOk, Populated, Run, OpSteps, Entered, Left, At, Elems;
    StepsAt(n, db, op, k);
    LeftIsASet(At(db, k), op.key);
    assert Populated(At(db, k));
  }

  lemma MovedRowAt(n: Numbers, op: WriteOp, db: Db, k: Bytes)
    requires Ready(n, op, db) && IsRename(op)
    ensures CellLeaves(op, db, k, At(Run(n, db, op.key, MovedSteps(op)), k))
  {
    hide RowLeaves, TypeOk, Populated, Run, OpSteps, RenameSteps, Entered, Left, At, Elems;
    var db1 := Run(n, db, op.key, RenameSteps(op));
    RunAppend(n, db, op.key, RenameSteps(op), OpSteps(op));
    MoveAt(n, db, op, op.key);
    MoveAt(n, db, op, k);
    assert Populated(At(db, op.oldkey.value)) && Populated(At(db, op.key));
    if op.keyset.Some? {
      MoveAt(n, db, op, op.keyset.value);
      var c := At(db, op.keyset.value);
      LeftIsASet(c, op.oldkey.value);
      LeftIsASet(Left(c, op.oldkey.value), op.key);
    }
    StepsAt(n, db1, op, k);
  }

  // ----- A log -----

  lemma LeavesKeepSound(op: WriteOp, db: Db, db': Db, ty: map<Bytes, TableType>, ks: set<Bytes>)
    requires OpLeaves(op, db, db') && Sound(db, ty, ks) && AllPopulated(db) && ty.Keys !! ks
    requires Commit.Typed(op, ty, ks)
    ensures Sound(db', ty, ks) && AllPopulated(db')
  {
    hide RowLeaves, TypeOk, Populated, At, Elems;
    forall k ensures Populated(At(db', k)) && (k in ty ==> TypeOk(At(db', k), ty[k]))
                     && (k in ks ==> TypeOk(At(db', k), SetTable))
    {
      assert CellLeaves(op, db, k, At(db', k)) && Populated(At(db, k));
      NothingIsFine();
      if k == op.key {
        LeftIsTyped(op, Brought(op, db), At(db', k));
      }
    }
  }

  lemma NothingIsFine()
    ensures Populated(None) && forall t :: TypeOk(None, t)
  {}

  lemma LeftIsTyped(op: WriteOp, c: Cell, c': Cell)
    requires RowLeaves(op, c, c')
    ensures TypeOk(c', op.ttype) && Populated(c')
  {}

  lemma {:induction false} LogIsDone(n: Numbers, log: Log, db: Db, ty: map<Bytes, TableType>, ks: set<Bytes>)
    requires AllMoveTyped(n, log, ty, ks) && ty.Keys !! ks && Sound(db, ty, ks) && AllPopulated(db)
    ensures Outcome(log, db, RunMoved(n, log, db))
    ensures Sound(RunMoved(n, log, db), ty, ks) && AllPopulated(RunMoved(n, log, db))
  {
    hide OpLeaves, Sound, AllPopulated, Run, MovedSteps, Commit.NumbersOk;
    if log == [] {
    } else {
      var front, op := log[..|log| - 1], log[|log| - 1];
      LogIsDone(n, front, db, ty, ks);
      var mid := RunMoved(n, front, db);
      assert MoveTyped(n, op, ty, ks);
      SoundIsReady(n, op, mid, ty, ks);
      RowIsDone(n, op, mid);
      LeavesKeepSound(op, mid, Run(n, mid, op.key, MovedSteps(op)), ty, ks);
    }
  }

  lemma SoundIsReady(n: Numbers, op: WriteOp, db: Db, ty: map<Bytes, TableType>, ks: set<Bytes>)
    requires MoveTyped(n, op, ty, ks) && ty.Keys !! ks && Sound(db, ty, ks) && AllPopulated(db)
    ensures Ready(n, op, db)
  {
    hide TypeOk, Populated, At, Commit.NumbersOk;
  }

  // ----- A commit -----

  /**
   For every accepted log that moves no key: past the checks the commit is applied, and every key is left as the rows
   say, one after the other; a refusal leaves every key alone.
   */
  lemma {:induction false} CommitLeavesTheRows(n: Numbers, log: Log, db: Db)
    requires RenameFree(log) && TypeConsistent(log) && KeysetsApart(log) && Commit.NumbersParse(n, log)
    requires FoldLog(log).Success? && Commit.KeysetsHoldSets(db, log) && AllPopulated(db)
    ensures var plans := FoldLog(log).value.plans;
            var (db', r) := Commit.Flushed(n, db, plans);
            if Commit.Passes(db, plans) then r.Applied? && Outcome(log, db, db') else !r.Applied? && db' == db
  {
    hide FoldLog, Commit.Flushed, Commit.Passes, Commit.NumbersParse, AllPopulated, Outcome, RunLog, RunPlans,
         Commit.KeysetsTakeTurns, Commit.StoppedInPart;
    var plans := FoldLog(log).value.plans;
    Commit.CommitIsAllOrNothing(n, log, db);
    ApartKeysetsAreSets(log);
    Commit.SetKeysetsTakeTurns(n, log, plans);
    if Commit.Passes(db, plans) {
      LogIsTyped(n, log, db);
      LogIsDone(n, log, db, Typing(log), Commit.Keysets(log));
      NothingMoved(n, log, db);
    }
  }

  lemma ApartKeysetsAreSets(log: Log)
    requires KeysetsApart(log)
    ensures Commit.KeysetsAreSets(log) && Typing(log).Keys !! Commit.Keysets(log)
  {
    TypingIsOfTheLog(log);
    forall s | s in Commit.Keysets(log) ensures s !in Typing(log) {
      var i :| 0 <= i < |log| && log[i].keyset.Some? && log[i].keyset.value == s;
      assert forall j :: 0 <= j < |log| ==> log[i].keyset.value != log[j].key;
      assert forall t :: !WrittenAs(log, s, t);
    }
  }

  lemma LogIsTyped(n: Numbers, log: Log, db: Db)
    requires RenameFree(log) && TypeConsistent(log) && KeysetsApart(log) && Commit.NumbersParse(n, log)
    requires FoldLog(log).Success? && Commit.KeysetsHoldSets(db, log) && Commit.Passes(db, FoldLog(log).value.plans)
    ensures AllMoveTyped(n, log, Typing(log), Commit.Keysets(log)) && Sound(db, Typing(log), Commit.Keysets(log))
    ensures Typing(log).Keys !! Commit.Keysets(log)
  {
    hide FoldLog, Commit.Passes, Typing, Commit.Typed, Commit.NumbersOk, TypeOk, At, Commit.Matches;
    ApartKeysetsAreSets(log);
    Commit.LogTypes(n, log);
    Commit.EveryKeyHasItsPlan(log);
    forall k | k in Typing(log) ensures TypeOk(At(db, k), Typing(log)[k]) {
      Commit.PassesIsSound(db, log, FoldLog(log).value.plans, k);
    }
    forall s | s in Commit.Keysets(log) ensures TypeOk(At(db, s), SetTable) {
      Commit.KeysetHoldsASet(db, log, s);
    }
  }

  /**
   The same for logs that move rows, under the condition that lets their commands be regrouped: when the commit is
   applied, a moved row's contents are under its new key, the old key is gone and the keysets list the new one.
   */
  lemma {:induction false} MovesLeaveTheRows(n: Numbers, log: Log, db: Db, ty: map<Bytes, TableType>, ks: set<Bytes>)
    requires TypeConsistent(log) && TargetsAreNew(log) && SourcesAreLeft(log) && KeysetsApartFromMoves(log)
    requires FoldLog(log).Success? && AllMoveTyped(n, log, ty, ks) && ty.Keys !! ks && Sound(db, ty, ks)
    requires AllPopulated(db)
    ensures var (db', r) := Commit.Flushed(n, db, FoldLog(log).value.plans);
            r.Applied? ==> Outcome(log, db, db')
  {
    hide FoldLog, Commit.Flushed, Commit.Passes, AllMoveTyped, AllPopulated, Outcome, RunMoved, RunPlans, Sound,
         Commit.StoppedInPart, TargetsAreNew, SourcesAreLeft, KeysetsApartFromMoves, TypeConsistent;
    var plans := FoldLog(log).value.plans;
    FoldKeepsKeysDistinct(log);
    Commit.FlushedRuns(n, db, plans);
    MovedRegroupingPreservesMeaning(n, log, db);
    LogIsDone(n, log, db, ty, ks);
    var (db', r) := Commit.Flushed(n, db, plans);
    if Commit.StoppedInPart(n, db, plans, db', r) {
      Traces.InPartIsNotApplied(n, db, plans, db', r);
    }
  }
}
