/** An INSERT over a key the same log used as a keyset: exactly when it replaces something. */
module KeysetInserts {
  import opened Common
  import opened Opcodes
  import opened Keyspace
  import opened WriteOps
  import opened Fold
  import opened Regroup
  import opened Script
  import opened NoOverwrite
  import Commit

  // ----- A key's history, from the log alone -----

  predicate Named(log: Log, k: Bytes) {
    exists i :: 0 <= i < |log| && log[i].key == k
  }

  /** Every row the log put under `k` as a key is gone again: it put none, or the last operation deleted the key. */
  predicate Closed(log: Log, k: Bytes) {
    log == []
    || (var op := log[|log| - 1]; if op.key == k then IsKeyDelete(op) else Closed(log[..|log| - 1], k))
  }

  /** The rows entered in the keyset `k`, and not taken out, since `k` itself was last written. */
  function KeysetMembers(log: Log, k: Bytes): set<Bytes> {
    if log == [] then {}
    else
      var before, op := KeysetMembers(log[..|log| - 1], k), log[|log| - 1];
      if op.key == k then {}
      else if op.keyset != Some(k) then before
      else if op.kind == Insert then before + {op.key}
      else if IsKeyDelete(op) then before - {op.key} else before
  }

  function AsSet(e: set<Bytes>): Cell {
    if e == {} then None else Some(Set(e))
  }

  // ----- What the keyspace holds under a closed key -----

  lemma KeysetEditOnASet(n: Numbers, db: Db, op: WriteOp, k: Bytes, add: bool, e: set<Bytes>)
    requires At(db, k) == AsSet(e)
    ensures At(Run(n, db, op.key, KeysetSteps(op, op.key, add)), k)
            == AsSet(if op.keyset != Some(k) then e else if add then e + {op.key} else e - {op.key})
  {
    var steps := KeysetSteps(op, op.key, add);
    if op.keyset.Some? {
      var s := steps[0];
      assert steps == [s] && [s][..0] == [] && Run(n, db, op.key, steps) == Effect(n, db, op.key, s);
      EffectIsLocal(n, db, op.key, s);
      PutAt(db, op.keyset.value, CellEffect(n, At(db, op.keyset.value), Plain(s)), k);
      assert Plain(s).args == [op.key];
      assert op.key in e + {op.key} && (e == {} ==> e + {op.key} == {op.key} && e - {op.key} == {});
    }
  }

  lemma DeletedCell(n: Numbers, db: Db, key: Bytes)
    ensures At(Run(n, db, key, [Step(ACT_DEL, [])]), key) == None
  {
    var s := Step(ACT_DEL, []);
    assert [s][..0] == [];
    EffectIsLocal(n, db, key, s);
    PutAt(db, key, None, key);
  }

  /** One operation on a key that stays closed. */
  lemma OpOnAClosedKey(n: Numbers, db: Db, op: WriteOp, k: Bytes, e: set<Bytes>)
    requires !IsRename(op) && (if op.key == k then IsKeyDelete(op) else At(db, k) == AsSet(e))
    ensures At(Run(n, db, op.key, OpSteps(op)), k)
            == AsSet(if op.key == k then {} else if op.keyset != Some(k) then e
                     else if op.kind == Insert then e + {op.key} else if IsKeyDelete(op) then e - {op.key} else e)
  {
    hide At, Run, ShapeSteps, KeysetSteps;
    var del := [Step(ACT_DEL, [])];
    if IsKeyDelete(op) {
      RunAppend(n, db, op.key, del, KeysetSteps(op, op.key, false));
      if op.key == k {
        DeletedCell(n, db, k);
        assert {} - {op.key} == {};
        KeysetEditOnASet(n, Run(n, db, op.key, del), op, k, false, {});
      } else {
        RunAt(n, db, op.key, del, k);
        KeysetEditOnASet(n, Run(n, db, op.key, del), op, k, false, e);
      }
    } else {
      ShapeStepsSpare(op, k);
      RunAt(n, db, op.key, ShapeSteps(op), k);
      if op.kind == Insert {
        RunAppend(n, db, op.key, ShapeSteps(op), KeysetSteps(op, op.key, true));
        KeysetEditOnASet(n, Run(n, db, op.key, ShapeSteps(op)), op, k, true, e);
      } else {
        assert ShapeSteps(op) + [] == ShapeSteps(op);
      }
    }
  }

  lemma {:induction false} ClosedKeyIsItsKeyset(n: Numbers, log: Log, k: Bytes, db0: Db)
    requires RenameFree(log) && Closed(log, k) && (Named(log, k) || At(db0, k) == None)
    ensures At(RunLog(n, log, db0), k) == AsSet(KeysetMembers(log, k))
  {
    hide At, OpSteps, Run, AsSet;
    if log == [] {
      EmptyKeyset();
    } else {
      var front, op := log[..|log| - 1], log[|log| - 1];
      if op.key != k {
        if Named(log, k) {
          var i :| 0 <= i < |log| && log[i].key == k;
          assert front[i].key == k;
        }
        ClosedKeyIsItsKeyset(n, front, k, db0);
      }
      OpOnAClosedKey(n, RunLog(n, front, db0), op, k, KeysetMembers(front, k));
    }
  }

  lemma EmptyKeyset()
    ensures AsSet({}) == None
  {}

  // ----- What the fold's acceptance says -----

  lemma BodyDeletes(d: Draft, op: WriteOp)
    requires FoldBody(d, op).Success?
    ensures FoldBody(d, op).value.plan.state == Deleted <==> IsKeyDelete(op)
  {
    hide FoldShape;
  }

  /** The ledger calls a key deleted only when the log left it closed. */
  ghost predicate ClosedInLedger(b: Book, log: Log, k: Bytes) {
    var i := IndexOf(b.plans, k);
    (i == |b.plans| <==> !Named(log, k)) && (i < |b.plans| && b.plans[i].state == Deleted ==> Closed(log, k))
  }

  lemma NoteClosed(b: Book, log: Log, op: WriteOp, k: Bytes)
    requires ClosedInLedger(b, log, k) && !IsRename(op) && Note(b, op).Success?
    ensures ClosedInLedger(Note(b, op).value, log + [op], k)
  {
    hide FoldBody, Opened;
    var d := Draft(Opened(b, op), b.members);
    OpenedKey(b, op);
    BodyKeepsKey(d, op);
    BodyDeletes(d, op);
    IndexAfterSet(b.plans, IndexOf(b.plans, op.key), FoldBody(d, op).value.plan, k);
    var longer := log + [op];
    assert longer[..|log|] == log && longer[|log|] == op;
    assert Named(longer, k) <==> Named(log, k) || op.key == k by {
      assert forall i :: 0 <= i < |log| ==> longer[i] == log[i];
    }
  }

  lemma {:induction false} FoldClosed(log: Log, k: Bytes)
    requires RenameFree(log) && FoldLog(log).Success?
    ensures ClosedInLedger(FoldLog(log).value, log, k)
  {
    hide Note, Closed, Named;
    if log == [] {
      NothingNamed(k);
    } else {
      var front, op := log[..|log| - 1], log[|log| - 1];
      FoldClosed(front, k);
      NoteClosed(FoldLog(front).value, front, op, k);
      assert front + [op] == log;
    }
  }

  lemma NothingNamed(k: Bytes)
    ensures !Named([], k)
  {}

  /** An accepted string INSERT finds its key closed, and absent at the start if the log had not named it. */
  lemma AcceptedInsertIsClosed(log: Log, db0: Db)
    requires log != [] && RenameFree(log) && TypeConsistent(log) && FoldLog(log).Success?
    requires Commit.Passes(db0, FoldLog(log).value.plans)
    requires log[|log| - 1].kind == Insert && log[|log| - 1].ttype == StringTable
    ensures var front, k := log[..|log| - 1], log[|log| - 1].key;
            Closed(front, k) && (Named(front, k) || At(db0, k) == None)
  {
    hide FoldBody, Closed, Named, At, EvalCheck;
    var front, op := log[..|log| - 1], log[|log| - 1];
    NoteOfTheLast(log);
    var b := FoldLog(front).value;
    FoldClosed(front, op.key);
    Commit.PlanOfTheLast(log);
    if !Named(front, op.key) {
      NotNamedIsClosed(front, op.key);
      FirstInsertAsksAbsence(b, op, db0);
    }
  }

  lemma {:induction false} NotNamedIsClosed(log: Log, k: Bytes)
    requires !Named(log, k)
    ensures Closed(log, k)
  {
    if log == [] {
    } else {
      var front := log[..|log| - 1];
      assert log[|log| - 1].key != k;
      assert forall i :: 0 <= i < |front| ==> front[i] == log[i];
      NotNamedIsClosed(front, k);
    }
  }

  lemma FirstInsertAsksAbsence(b: Book, op: WriteOp, db0: Db)
    requires IndexOf(b.plans, op.key) == |b.plans| && op.kind == Insert && Note(b, op).Success?
    requires Commit.Passes(db0, Note(b, op).value.plans)
    ensures At(db0, op.key) == None
  {
    hide EvalCheck, OpSteps;
    var i, p := NoteGrowsOnePlan(b, op);
    var d := Draft(Opened(b, op), b.members);
    FoldBodyGrows(d, op);
    assert Note(b, op).value.plans[i] == FoldBody(d, op).value.plan == p;
    assert Commit.PlanPasses(db0, p);
    assert p.checks[1] == d.plan.checks[1] == Step(CHK_KEY_ABSENT, []);
    KeyAbsentCheck(db0, p, 1);
  }

  // ----- The theorem -----

  /** SET is fresh exactly on a key that is not there; the keyset edit after it does not matter. */
  lemma FreshSet(n: Numbers, c: Cell, op: WriteOp)
    requires op.kind == Insert && op.ttype == StringTable && !op.packedShape && op.value.Some?
    ensures AllFresh(n, c, OpSteps(op)) <==> c == None
  {
    var put := Step(ACT_SET, [op.value.value]);
    assert OpSteps(op) == [put] + KeysetSteps(op, op.key, true);
    assert OpSteps(op)[0] == put && RunCell(n, c, OpSteps(op)[..0]) == c;
    if c == None {
      SingleStep(n, c, put);
      KeysetStepsAreElsewhere(n, RunCell(n, c, [put]), op, op.key, true);
      AllFreshAppend(n, c, [put], KeysetSteps(op, op.key, true));
    }
  }

  /**
   A string INSERT finds under its key exactly the keyset the log has built there since the key was last written, so
   it replaces something if and only if some row is still entered in that keyset. Only the log decides.
   */
  lemma {:induction false} StringInsertIsFreshExactly(n: Numbers, log: Log, db0: Db, i: nat)
    requires RenameFree(log) && TypeConsistent(log) && FoldLog(log).Success? &&
        Commit.Passes(db0, FoldLog(log).value.plans)
    requires i < |log| && log[i].kind == Insert && log[i].ttype == StringTable && !log[i].packedShape &&
        log[i].value.Some?
    ensures var c := At(RunLog(n, log[..i], db0), log[i].key);
            && c == AsSet(KeysetMembers(log[..i], log[i].key))
            && (AllFresh(n, c, OpSteps(log[i])) <==> KeysetMembers(log[..i], log[i].key) == {})
  {
    hide FoldLog, RunLog, AllFresh, OpSteps, Commit.Passes, At, Closed, Named, KeysetMembers;
    var upTo, k := log[..i + 1], log[i].key;
    assert upTo[..|upTo| - 1] == log[..i] && upTo[|upTo| - 1] == log[i];
    Commit.PassesPrefix(log, db0, i + 1);
    AcceptedInsertIsClosed(upTo, db0);
    ClosedKeyIsItsKeyset(n, log[..i], k, db0);
    FreshSet(n, At(RunLog(n, log[..i], db0), k), log[i]);
  }
}
