/** A set member INSERT into a key the same log also used as a keyset: exactly when the member is already there. */
module SetInserts {
  import opened Common
  import opened Opcodes
  import opened Keyspace
  import opened WriteOps
  import opened Fold
  import opened Regroup
  import opened NoOverwrite
  import opened MemberLogs
  import opened Assumptions
  import Commit

  // ----- One member's history, from the log alone -----

  /** Whether a mapped row leaves member `m` in its set, if it names it. */
  function RowSays(op: WriteOp, m: Bytes): Option<bool> {
    if op.member.None? then None
    else if op.member.value == m then Some(op.kind != Delete)
    else if IsMemberRename(op) && op.oldmember.value == m then Some(false)
    else None
  }

  /** Whether an operation leaves its own key `m` in the keyset `s`, if it edits that. */
  function EditSays(op: WriteOp, s: Bytes, m: Bytes): Option<bool> {
    if EditsKeyset(op, s) && op.key == m then Some(op.kind == Insert) else None
  }

  /** What the last row of `s` that names `m` left. */
  function LastRow(log: Log, s: Bytes, m: Bytes): Option<bool> {
    if log == [] then None
    else
      var op := log[|log| - 1];
      if op.key == s && RowSays(op, m).Some? then RowSays(op, m) else LastRow(log[..|log| - 1], s, m)
  }

  /** What the last edit of the keyset `s` on `m` left, if no row of `s` has named `m` since. */
  function LastEdit(log: Log, s: Bytes, m: Bytes): Option<bool> {
    if log == [] then None
    else
      var op := log[|log| - 1];
      if EditSays(op, s, m).Some? then EditSays(op, s, m)
      else if op.key == s && RowSays(op, m).Some? then None
      else LastEdit(log[..|log| - 1], s, m)
  }

  predicate InSet(log: Log, s: Bytes, m: Bytes, start: bool) {
    if LastEdit(log, s, m).Some? then LastEdit(log, s, m).value
    else if LastRow(log, s, m).Some? then LastRow(log, s, m).value
    else start
  }

  /** Every row under `s` is a mapped set row. */
  predicate SetKey(log: Log, s: Bytes) {
    forall i :: 0 <= i < |log| && log[i].key == s ==> IsMemberRow(log[i]) && log[i].ttype == SetTable
  }

  // ----- What the keyspace holds -----

  lemma SetRowEffect(n: Numbers, c: Cell, op: WriteOp, m: Bytes)
    requires IsMemberRow(op) && op.ttype == SetTable && TypeOk(c, SetTable)
    ensures var c' := RunCell(n, c, MemberSteps(op));
            TypeOk(c', SetTable) && Has(c', m) == if RowSays(op, m).Some? then RowSays(op, m).value else Has(c, m)
  {
    hide Has, TypeOk, RunCell;
    if op.member.Some? {
      MemberEffect(n, c, op);
    } else {
      MemberLogs.NothingRuns(n, c);
    }
  }

  /** A keyset edit, on the set under its name. */
  lemma EditEffect(n: Numbers, db: Db, op: WriteOp, s: Bytes, add: bool, m: Bytes)
    requires TypeOk(At(db, s), SetTable)
    ensures var c := At(Run(n, db, op.key, KeysetSteps(op, op.key, add)), s);
            && TypeOk(c, SetTable)
            && Has(c, m) == if op.keyset == Some(s) && op.key == m then add else Has(At(db, s), m)
  {
    var steps := KeysetSteps(op, op.key, add);
    if op.keyset.Some? {
      var e := steps[0];
      assert steps == [e] && [e][..0] == [] && Run(n, db, op.key, steps) == Effect(n, db, op.key, e);
      EffectIsLocal(n, db, op.key, e);
      var c := At(db, op.keyset.value);
      PutAt(db, op.keyset.value, CellEffect(n, c, Plain(e)), s);
      assert Plain(e) == Step(if add then ACT_SADD else ACT_SREM, [op.key]);
      if !add && op.keyset.value == s {
        RemoveEffect(n, c, SetTable, op.key);
      }
    }
  }

  /** The steps of an operation before its keyset edit. */
  function RowPart(op: WriteOp): seq<Step> {
    if IsKeyDelete(op) then [Step(ACT_DEL, [])] else ShapeSteps(op)
  }

  lemma RowPartAt(n: Numbers, db: Db, op: WriteOp, s: Bytes, m: Bytes)
    requires (op.key == s ==> IsMemberRow(op) && op.ttype == SetTable) && TypeOk(At(db, s), SetTable)
    ensures var c := At(Run(n, db, op.key, RowPart(op)), s);
            && TypeOk(c, SetTable)
            && Has(c, m) == if op.key == s && RowSays(op, m).Some? then RowSays(op, m).value else Has(At(db, s), m)
  {
    hide Has, TypeOk, RunCell, Run, At, MemberSteps, ShapeSteps;
    ShapeStepsSpare(op, s);
    RunAt(n, db, op.key, RowPart(op), s);
    if op.key == s {
      MemberShape(op);
      SetRowEffect(n, At(db, s), op, m);
    }
  }

  lemma OpOnASet(n: Numbers, db: Db, op: WriteOp, s: Bytes, m: Bytes)
    requires !IsRename(op) && (op.key == s ==> IsMemberRow(op) && op.ttype == SetTable) && TypeOk(At(db, s), SetTable)
    ensures var c := At(Run(n, db, op.key, OpSteps(op)), s);
            && TypeOk(c, SetTable)
            && Has(c, m) == if EditSays(op, s, m).Some? then EditSays(op, s, m).value
                            else if op.key == s && RowSays(op, m).Some? then RowSays(op, m).value
                            else Has(At(db, s), m)
  {
    hide Has, TypeOk, Run, At, ShapeSteps, KeysetSteps;
    var row := RowPart(op);
    RowPartAt(n, db, op, s, m);
    if op.kind == Insert || IsKeyDelete(op) {
      var edit := KeysetSteps(op, op.key, op.kind == Insert);
      assert OpSteps(op) == row + edit;
      RunAppend(n, db, op.key, row, edit);
      EditEffect(n, Run(n, db, op.key, row), op, s, op.kind == Insert, m);
    } else {
      assert OpSteps(op) == row + [] == row;
    }
  }

  lemma {:induction false} SetHolds(n: Numbers, log: Log, s: Bytes, m: Bytes, db0: Db)
    requires RenameFree(log) && SetKey(log, s) && TypeOk(At(db0, s), SetTable)
    ensures TypeOk(At(RunLog(n, log, db0), s), SetTable)
    ensures Has(At(RunLog(n, log, db0), s), m) == InSet(log, s, m, Has(At(db0, s), m))
  {
    hide Has, TypeOk, At, Run, OpSteps, EditSays, RowSays, IsMemberRow;
    if log == [] {
    } else {
      var front, op := log[..|log| - 1], log[|log| - 1];
      SetHolds(n, front, s, m, db0);
      OpOnASet(n, RunLog(n, front, db0), op, s, m);
    }
  }

  // ----- What the ledger holds -----

  /** The entry for `m`: there when a row of `s` named it, and present as the last such row left it. */
  predicate EntrySays(ms: Members, s: Bytes, m: Bytes, row: Option<bool>) {
    ((s, m) in ms <==> row.Some?) && ((s, m) in ms ==> ms[(s, m)].present == row.value)
  }

  lemma FoldMemberSays(d: Draft, op: WriteOp, m: Bytes, row: Option<bool>)
    requires IsMemberRow(op) && d.plan.key == op.key && FoldMember(d, op).Success? &&
        EntrySays(d.members, op.key, m, row)
    ensures EntrySays(FoldMember(d, op).value.members, op.key, m, if RowSays(op, m).Some? then RowSays(op, m) else row)
  {
    hide MemberCheck, AddStep, RemoveStep;
  }

  lemma NoteSays(b: Book, op: WriteOp, s: Bytes, m: Bytes, row: Option<bool>)
    requires !IsRename(op) && (op.key == s ==> IsMemberRow(op)) && Note(b, op).Success? &&
        EntrySays(b.members, s, m, row)
    ensures EntrySays(Note(b, op).value.members, s, m, if op.key == s && RowSays(op, m).Some? then RowSays(op, m)
        else row)
  {
    hide FoldBody, FoldMember, Opened, RowSays, IsMemberRow;
    var d := Draft(Opened(b, op), b.members);
    OpenedKey(b, op);
    if op.key == s {
      MemberBody(d, op);
      FoldMemberSays(d, op, m, row);
    } else {
      BodyTouchesOwnEntries(d, op);
      var id := (s, m);
      assert id in b.members <==> id in FoldBody(d, op).value.members;
    }
  }

  lemma {:induction false} FoldSays(log: Log, s: Bytes, m: Bytes)
    requires RenameFree(log) && SetKey(log, s) && FoldLog(log).Success?
    ensures EntrySays(FoldLog(log).value.members, s, m, LastRow(log, s, m))
  {
    hide Note, RowSays, IsMemberRow;
    if log == [] {
    } else {
      var front, op := log[..|log| - 1], log[|log| - 1];
      FoldSays(front, s, m);
      NoteSays(FoldLog(front).value, op, s, m, LastRow(front, s, m));
    }
  }

  // ----- What acceptance and passing say of an INSERT -----

  lemma AcceptedInsertWasGone(b: Book, op: WriteOp, row: Option<bool>)
    requires IsMemberRow(op) && op.kind == Insert && op.member.Some? && Note(b, op).Success?
    requires EntrySays(b.members, op.key, op.member.value, row)
    ensures row != Some(true)
  {
    hide FoldMember, Opened;
    var d := Draft(Opened(b, op), b.members);
    OpenedKey(b, op);
    MemberBody(d, op);
    assert MemberPrecondition(d, op).Success? by { FoldsItsPrecondition(d, op); }
  }

  lemma FoldsItsPrecondition(d: Draft, op: WriteOp)
    requires op.member.Some? && FoldMember(d, op).Success?
    ensures MemberPrecondition(d, op).Success?
  {}

  lemma {:induction false} NotNamedIsNotMet(log: Log, s: Bytes, m: Bytes)
    requires SetKey(log, s)
    ensures m in Met(log, s) <==> LastRow(log, s, m).Some?
  {
    if log == [] {
    } else {
      NotNamedIsNotMet(log[..|log| - 1], s, m);
    }
  }

  /** A key the log made was not there before. */
  lemma {:induction false} MadeWasAbsent(log: Log, s: Bytes, db: Db)
    requires RowsAssume(log, db) && PhaseOf(log, s).Made?
    ensures At(db, s) == None
  {
    hide ShapeAssumes;
    if log == [] {
    } else {
      var front := log[..|log| - 1];
      if PhaseOf(front, s).Made? {
        MadeWasAbsent(front, s, db);
      }
    }
  }

  /** A member INSERTed without a row naming it before was not in the set the commit found. */
  lemma {:induction false} FirstInsertWasAbsent(log: Log, db: Db)
    requires log != [] && RowsAssume(log, db) && SetKey(log[..|log| - 1], log[|log| - 1].key)
    requires var op := log[|log| - 1];
             && IsMemberRow(op) && op.ttype == SetTable && op.kind == Insert && op.member.Some?
             && LastRow(log[..|log| - 1], op.key, op.member.value).None?
    ensures !Has(At(db, log[|log| - 1].key), log[|log| - 1].member.value)
  {
    hide PhaseOf, Met;
    var front, op := log[..|log| - 1], log[|log| - 1];
    NotNamedIsNotMet(front, op.key, op.member.value);
    if PhaseOf(front, op.key).Made? {
      MadeWasAbsent(front, op.key, db);
    }
  }

  // ----- The theorem -----

  lemma FreshMember(n: Numbers, c: Cell, op: WriteOp)
    requires IsMemberRow(op) && op.ttype == SetTable && op.kind == Insert && op.member.Some?
    ensures AllFresh(n, c, OpSteps(op)) <==> !Has(c, op.member.value)
  {
    hide Has;
    var add := Step(ACT_SADD, [op.member.value]);
    assert OpSteps(op) == [add] + KeysetSteps(op, op.key, true);
    assert OpSteps(op)[0] == add && RunCell(n, c, OpSteps(op)[..0]) == c;
    if !Has(c, op.member.value) {
      SingleStep(n, c, add);
      KeysetStepsAreElsewhere(n, RunCell(n, c, [add]), op, op.key, true);
      AllFreshAppend(n, c, [add], KeysetSteps(op, op.key, true));
    }
  }

  lemma TypedKeyIsASetKey(log: Log, i: nat)
    requires i < |log| && RenameFree(log) && TypeConsistent(log) && log[i].ttype == SetTable &&
        Unpacked(log[..i + 1], log[i].key)
    ensures SetKey(log[..i], log[i].key) && IsMemberRow(log[i])
  {
    var upTo := log[..i + 1];
    assert forall j :: 0 <= j <= i ==> upTo[j] == log[j];
    assert forall j :: 0 <= j < i ==> log[..i][j] == log[j];
  }

  /**
   A set INSERT of member `m` into key `s` finds `m` there if and only if the row `m` was entered in the keyset `s` and
   not taken out since a row of `s` last named `m`. Only the log decides, from any keyspace that passes.
   */
  lemma {:induction false} SetInsertIsFreshExactly(n: Numbers, log: Log, db0: Db, i: nat)
    requires RenameFree(log) && TypeConsistent(log) && FoldLog(log).Success?
    requires Commit.Passes(db0, FoldLog(log).value.plans)
    requires i < |log| && log[i].kind == Insert && log[i].ttype == SetTable && log[i].member.Some?
    requires Unpacked(log[..i + 1], log[i].key)
    ensures var s, m := log[i].key, log[i].member.value;
            var c := At(RunLog(n, log[..i], db0), s);
            && (Has(c, m) <==> LastEdit(log[..i], s, m) == Some(true))
            && (AllFresh(n, c, OpSteps(log[i])) <==> LastEdit(log[..i], s, m) != Some(true))
  {
    hide FoldLog, RunLog, AllFresh, OpSteps, Commit.Passes, At, Has, TypeOk, LastRow, LastEdit, Note, IsMemberRow,
      SetKey, RowsAssume, EntrySays;
    var upTo, op := log[..i + 1], log[i];
    var s, m := op.key, op.member.value;
    assert upTo[..|upTo| - 1] == log[..i] && upTo[|upTo| - 1] == op;
    TypedKeyIsASetKey(log, i);
    Commit.PassesPrefix(log, db0, i + 1);
    PhaseOneAsksWhatTheRowsAssume(upTo, db0);
    assert TypeOk(At(db0, s), SetTable) by { LastRowIsTyped(upTo, db0); }
    SetHolds(n, log[..i], s, m, db0);
    NoteOfTheLast(upTo);
    FoldSays(log[..i], s, m);
    AcceptedInsertWasGone(FoldLog(log[..i]).value, op, LastRow(log[..i], s, m));
    if LastRow(log[..i], s, m).None? {
      FirstInsertWasAbsent(upTo, db0);
    }
    FreshMember(n, At(RunLog(n, log[..i], db0), s), op);
  }

  lemma LastRowIsTyped(log: Log, db: Db)
    requires log != [] && RowsAssume(log, db)
    ensures TypeOk(At(db, log[|log| - 1].key), log[|log| - 1].ttype)
  {}
}
