/** Set and zset tables: the fold refuses no log of mapped rows that is legal row by row. */
module MemberLogs {
  import opened Common
  import opened Opcodes
  import opened Keyspace
  import opened WriteOps
  import opened Fold
  import opened Regroup
  import opened NoOverwrite
  import Commit

  predicate IsMemberRow(op: WriteOp) {
    (op.ttype == SetTable || op.ttype == ZSetTable) && !op.packedShape && WellFormed(op) && !IsRename(op)
  }

  /** An INSERT's member is not there when its turn comes. */
  predicate LegalAt(db: Db, op: WriteOp) {
    op.kind == Insert && op.member.Some? ==> !Has(At(db, op.key), op.member.value)
  }

  predicate Legal(n: Numbers, log: Log, db: Db) {
    forall i :: 0 <= i < |log| ==> LegalAt(RunLog(n, log[..i], db), log[i])
  }

  // ----- A member recorded as there is there -----

  ghost predicate RecordedIsThere(ms: Members, key: Bytes, c: Cell) {
    forall sub :: (key, sub) in ms && ms[(key, sub)].present ==> Has(c, sub)
  }

  lemma AddEffectExact(n: Numbers, c: Cell, t: TableType, op: WriteOp)
    requires (t == SetTable || t == ZSetTable) && t == op.ttype && TypeOk(c, t) && op.member.Some? &&
        Commit.ScoreOk(n, op)
    ensures var c' := CellEffect(n, c, AddStep(t == ZSetTable, op));
            TypeOk(c', t) && forall sub :: Has(c', sub) <==> Has(c, sub) || sub == op.member.value
  {}

  /** What a row's steps do to the members of its key. */
  lemma MemberEffect(n: Numbers, c: Cell, op: WriteOp)
    requires IsMemberRow(op) && op.member.Some? && TypeOk(c, op.ttype) && Commit.ScoreOk(n, op)
    ensures var c' := RunCell(n, c, MemberSteps(op));
            && TypeOk(c', op.ttype)
            && forall sub :: Has(c', sub) <==>
                 if op.kind == Delete then Has(c, sub) && sub != op.member.value
                 else sub == op.member.value || (Has(c, sub) && !(IsMemberRename(op) && sub == op.oldmember.value))
  {
    hide CellEffect, AddStep, RemoveStep, Has, TypeOk, Commit.ScoreOk;
    var z := op.ttype == ZSetTable;
    if op.kind == Delete {
      StepIsData(op);
      SingleStep(n, c, RemoveStep(z, op.member.value));
      RemoveEffect(n, c, op.ttype, op.member.value);
    } else {
      StepIsData(op);
      var c1 := c;
      if IsMemberRename(op) {
        SingleStep(n, c, RemoveStep(z, op.oldmember.value));
        RemoveEffect(n, c, op.ttype, op.oldmember.value);
        c1 := RunCell(n, c, [RemoveStep(z, op.oldmember.value)]);
        RunCellAppend(n, c, [RemoveStep(z, op.oldmember.value)], [AddStep(z, op)]);
      } else {
        assert [] + [AddStep(z, op)] == [AddStep(z, op)];
      }
      SingleStep(n, c1, AddStep(z, op));
      AddEffectExact(n, c1, op.ttype, op);
    }
  }

  lemma StepIsData(op: WriteOp)
    requires op.member.Some?
    ensures forall z, m :: !IsKeysetStep(RemoveStep(z, m))
    ensures forall z :: !IsKeysetStep(AddStep(z, op))
  {}

  lemma MemberFoldAccepts(d: Draft, op: WriteOp, c: Cell)
    requires IsMemberRow(op) && d.plan.key == op.key && RecordedIsThere(d.members, op.key, c)
    requires op.kind == Insert && op.member.Some? ==> !Has(c, op.member.value)
    ensures FoldMember(d, op).Success?
  {
    hide Has;
  }

  lemma {:induction false} MemberFoldRecords(n: Numbers, d: Draft, op: WriteOp, c: Cell)
    requires IsMemberRow(op) && d.plan.key == op.key && RecordedIsThere(d.members, op.key, c) && TypeOk(c, op.ttype)
    requires Commit.NumbersOk(n, op) && FoldMember(d, op).Success?
    ensures RecordedIsThere(FoldMember(d, op).value.members, op.key, RunCell(n, c, MemberSteps(op)))
    ensures TypeOk(RunCell(n, c, MemberSteps(op)), op.ttype)
  {
    hide Has, RunCell, TypeOk, MemberCheck, AddStep, RemoveStep;
    if op.member.Some? {
      MemberEffect(n, c, op);
    } else {
      NothingRuns(n, c);
    }
  }

  lemma NothingRuns(n: Numbers, c: Cell)
    ensures RunCell(n, c, []) == c
  {}

  lemma OpRunsItsMembers(n: Numbers, c: Cell, op: WriteOp)
    requires IsMemberRow(op)
    ensures RunCell(n, c, OpSteps(op)) == RunCell(n, c, MemberSteps(op))
  {
    hide RunCell, KeysetSteps, MemberSteps;
    MemberShape(op);
    if op.kind == Insert {
      RunCellAppend(n, c, MemberSteps(op), KeysetSteps(op, op.key, true));
      KeysetStepsAreElsewhere(n, RunCell(n, c, MemberSteps(op)), op, op.key, true);
    } else {
      assert MemberSteps(op) + [] == MemberSteps(op);
    }
  }

  lemma MemberBody(d: Draft, op: WriteOp)
    requires IsMemberRow(op)
    ensures FoldBody(d, op).Success? <==> FoldMember(d, op).Success?
    ensures FoldBody(d, op).Success? ==> FoldBody(d, op).value.members == FoldMember(d, op).value.members
  {
    hide FoldMember;
  }

  // ----- The whole log -----

  /** The ledger's entries are true of the keyspace so far, for every key the log writes. */
  ghost predicate Recorded(b: Book, log: Log, db: Db) {
    forall j :: 0 <= j < |log| ==>
      RecordedIsThere(b.members, log[j].key, At(db, log[j].key)) && TypeOk(At(db, log[j].key), log[j].ttype)
  }

  lemma LegalNoteIsAccepted(n: Numbers, b: Book, op: WriteOp, db: Db)
    requires IsMemberRow(op) && PlanFits(b, op) && LegalAt(db, op) && RecordedIsThere(b.members, op.key, At(db, op.key))
    ensures Note(b, op).Success?
  {
    hide FoldMember, FoldBody, Has, RecordedIsThere, At;
    var d := Draft(Opened(b, op), b.members);
    OpenedKey(b, op);
    MemberFoldAccepts(d, op, At(db, op.key));
    MemberBody(d, op);
  }

  lemma NoteRecords(n: Numbers, b: Book, op: WriteOp, k: Bytes, t: TableType, db: Db)
    requires IsMemberRow(op) && Spares(op, k) && Commit.NumbersOk(n, op) && Note(b, op).Success?
    requires RecordedIsThere(b.members, k, At(db, k)) && TypeOk(At(db, k), t) && (op.key == k ==> t == op.ttype)
    ensures var c := At(Run(n, db, op.key, OpSteps(op)), k);
            RecordedIsThere(Note(b, op).value.members, k, c) && TypeOk(c, t)
  {
    hide FoldMember, FoldBody, RunCell, OpSteps, MemberSteps, At, Run, TypeOk, Has, Commit.NumbersOk;
    var d := Draft(Opened(b, op), b.members);
    OpAt(n, db, op, k);
    OpenedKey(b, op);
    if op.key == k {
      MemberBody(d, op);
      OpRunsItsMembers(n, At(db, k), op);
      MemberFoldRecords(n, d, op, At(db, k));
    } else {
      BodyTouchesOwnEntries(d, op);
      var after := FoldBody(d, op).value.members;
      forall sub | (k, sub) in after && after[(k, sub)].present ensures Has(At(db, k), sub) {
        var id := (k, sub);
        assert id in b.members && b.members[id] == after[id];
      }
    }
  }

  lemma {:induction false} LegalMemberPrefix(n: Numbers, log: Log, db: Db, i: nat)
    requires i <= |log| && TypeConsistent(log) && KeysetsApart(log) && Commit.NumbersParse(n, log) && Legal(n, log, db)
    requires forall j :: 0 <= j < |log| ==> IsMemberRow(log[j]) && TypeOk(At(db, log[j].key), log[j].ttype)
    ensures FoldLog(log[..i]).Success? && Recorded(FoldLog(log[..i]).value, log, RunLog(n, log[..i], db))
  {
    hide Note, LegalAt, IsMemberRow, TypeOk, At, Run, OpSteps, RecordedIsThere, Commit.NumbersOk;
    if i == 0 {
      assert log[..i] == [];
      NothingRecorded(log, db);
    } else {
      var front, op := log[..i - 1], log[i - 1];
      assert log[..i][..i - 1] == front;
      LegalMemberPrefix(n, log, db, i - 1);
      var b, before := FoldLog(front).value, RunLog(n, front, db);
      MemberLogsAreSimple(log, i);
      Commit.PlanOfTheLast(log[..i]);
      LegalNoteIsAccepted(n, b, op, before);
      forall j | 0 <= j < |log|
        ensures var c := At(Run(n, before, op.key, OpSteps(op)), log[j].key);
                RecordedIsThere(Note(b, op).value.members, log[j].key, c) && TypeOk(c, log[j].ttype)
      {
        assert Spares(op, log[j].key) by { MemberLogsSpare(log, i - 1, j); }
        NoteRecords(n, b, op, log[j].key, log[j].ttype, before);
      }
    }
  }

  lemma NothingRecorded(log: Log, db: Db)
    requires forall j :: 0 <= j < |log| ==> TypeOk(At(db, log[j].key), log[j].ttype)
    ensures Recorded(EMPTY_BOOK, log, db)
  {}

  lemma MemberLogsSpare(log: Log, i: nat, j: nat)
    requires KeysetsApart(log) && i < |log| && j < |log| && IsMemberRow(log[i])
    ensures Spares(log[i], log[j].key)
  {}

  lemma MemberLogsAreSimple(log: Log, i: nat)
    requires i <= |log| && TypeConsistent(log) && forall j :: 0 <= j < |log| ==> IsMemberRow(log[j])
    ensures RenameFree(log[..i]) && TypeConsistent(log[..i])
  {}

  /** Mapped set and zset rows, each legal in its turn, are refused nowhere. */
  lemma {:induction false} LegalMemberLogsAreNotRefused(n: Numbers, log: Log, db: Db)
    requires TypeConsistent(log) && KeysetsApart(log) && Commit.NumbersParse(n, log) && Legal(n, log, db)
    requires forall i :: 0 <= i < |log| ==> IsMemberRow(log[i]) && TypeOk(At(db, log[i].key), log[i].ttype)
    ensures FoldLog(log).Success?
  {
    hide FoldLog, Legal, IsMemberRow, TypeOk, At;
    LegalMemberPrefix(n, log, db, |log|);
    assert log[..|log|] == log;
  }
}
