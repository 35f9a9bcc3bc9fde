/** Which rows the ledger refuses, from the log alone: exactly, for every table type, and of which kind. */
module Duplicates {
  import opened Common
  import opened Opcodes
  import opened Keyspace
  import opened WriteOps
  import opened Fold
  import opened Regroup
  import opened NoOverwrite
  import opened Rows
  import Commit

  // ----- A row's and a log's last word on a field or member -----

  /** The member a row was under before. */
  function Identity(op: WriteOp): Bytes
    requires op.member.Some?
  {
    if op.oldmember.Some? then op.oldmember.value else op.member.value
  }

  /** Whether a mapped row leaves the field or member there, or nothing if the row does not name it. */
  function RowSays(op: WriteOp, sub: Bytes): Option<bool> {
    if DeletesKey(op) || op.packedShape then None
    else match op.ttype
      case HashTable =>
        (match LastMention(op.fields, sub)
         case None => None
         case Some(f) => Some(f.data.Some?))
      case SetTable => MemberSays(op, sub)
      case ZSetTable => MemberSays(op, sub)
      case _ => None
  }

  function MemberSays(op: WriteOp, sub: Bytes): Option<bool> {
    if op.member.None? then None
    else if op.kind == Update && sub == op.member.value then Some(true)
    else if sub == Identity(op) then Some(op.kind == Insert)
    else None
  }

  /** The last word of the key's rows; deleting the key is not a word on its fields. */
  function LastSaid(log: Log, key: Bytes, sub: Bytes): Option<bool> {
    if log == [] then None
    else
      var op := log[|log| - 1];
      if op.key == key && RowSays(op, sub).Some? then RowSays(op, sub) else LastSaid(log[..|log| - 1], key, sub)
  }

  /** The key's last operation did not delete it. */
  predicate Standing(log: Log, key: Bytes) {
    log != []
    && var op := log[|log| - 1]; if op.key == key then !DeletesKey(op) else Standing(log[..|log| - 1], key)
  }

  // ----- What is refused -----

  predicate StringDuplicate(front: Log, op: WriteOp) {
    op.kind == Insert && op.ttype == StringTable && Standing(front, op.key)
  }

  /** Field `x` of an INSERT is one the row itself, or else the log, last gave a value. */
  predicate FieldDuplicate(front: Log, op: WriteOp, x: nat)
    requires x < |op.fields|
  {
    var name := op.fields[x].name;
    match LastMention(op.fields[..x], name)
    case Some(f) => f.data.Some?
    case None => LastSaid(front, op.key, name) == Some(true)
  }

  predicate Duplicate(front: Log, op: WriteOp) {
    op.kind == Insert
    && if op.ttype == StringTable then Standing(front, op.key)
       else !op.packedShape
            && match op.ttype
               case HashTable => exists x :: 0 <= x < |op.fields| && FieldDuplicate(front, op, x)
               case SetTable => op.member.Some? && LastSaid(front, op.key, Identity(op)) == Some(true)
               case ZSetTable => op.member.Some? && LastSaid(front, op.key, Identity(op)) == Some(true)
               case _ => false
  }

  /** A vector row, or a packed array for a type that has no packed form. */
  predicate Unwritten(op: WriteOp) {
    !DeletesKey(op)
    && if op.packedShape then op.packed != [] && op.ttype != ListTable && op.ttype != SetTable && op.ttype != HashTable
       else op.ttype == VectorTable
  }

  // ----- The ledger's entries are the last words -----

  predicate EntrySays(ms: Members, key: Bytes, sub: Bytes, word: Option<bool>) {
    ((key, sub) in ms <==> word.Some?) && ((key, sub) in ms ==> ms[(key, sub)].present == word.value)
  }

  function Or(now: Option<bool>, before: Option<bool>): Option<bool> {
    if now.Some? then now else before
  }

  function FieldsSay(fields: seq<Arg>, sub: Bytes): Option<bool> {
    match LastMention(fields, sub)
    case None => None
    case Some(f) => Some(f.data.Some?)
  }

  lemma {:induction false} FieldsAreRecorded(d: Draft, op: WriteOp, i: nat, sub: Bytes, word: Option<bool>)
    requires i <= |op.fields| && FoldFields(d, op, i).Success? && EntrySays(d.members, op.key, sub, word)
    ensures EntrySays(FoldFields(d, op, i).value.members, op.key, sub, Or(FieldsSay(op.fields[..i], sub), word))
  {
    if i == 0 {
    } else {
      FieldsAreRecorded(d, op, i - 1, sub, word);
      assert op.fields[..i][..i - 1] == op.fields[..i - 1];
    }
  }

  lemma MembersAreRecorded(d: Draft, op: WriteOp, sub: Bytes, word: Option<bool>)
    requires d.plan.key == op.key && FoldMember(d, op).Success? && EntrySays(d.members, op.key, sub, word)
    ensures EntrySays(FoldMember(d, op).value.members, op.key, sub, Or(MemberSays(op, sub), word))
  {
    hide MemberCheck, AddStep, RemoveStep;
  }

  lemma BodyIsRecorded(d: Draft, op: WriteOp, sub: Bytes, word: Option<bool>)
    requires d.plan.key == op.key && FoldBody(d, op).Success? && EntrySays(d.members, op.key, sub, word)
    requires op.ttype != ListTable
    ensures EntrySays(FoldBody(d, op).value.members, op.key, sub, Or(RowSays(op, sub), word))
  {
    hide FoldFields, FoldMember, PackedSteps, TtlSteps, MemberSays, EntrySays;
    if !DeletesKey(op) && !op.packedShape {
      if op.ttype == HashTable {
        FieldsAreRecorded(d, op, |op.fields|, sub, word);
        assert op.fields[..|op.fields|] == op.fields;
      } else if op.ttype == SetTable || op.ttype == ZSetTable {
        MembersAreRecorded(d, op, sub, word);
      }
    }
  }

  lemma NoteIsRecorded(b: Book, op: WriteOp, key: Bytes, sub: Bytes, word: Option<bool>)
    requires Note(b, op).Success? && EntrySays(b.members, key, sub, word) && (op.key == key ==> op.ttype != ListTable)
    ensures EntrySays(Note(b, op).value.members, key, sub, if op.key == key then Or(RowSays(op, sub), word) else word)
  {
    hide FoldBody, Opened, RowSays;
    var d := Draft(Opened(b, op), b.members);
    OpenedKey(b, op);
    if op.key == key {
      BodyIsRecorded(d, op, sub, word);
    } else {
      BodyTouchesOwnEntries(d, op);
      var id := (key, sub);
      assert id in b.members <==> id in FoldBody(d, op).value.members;
    }
  }

  /** No row of the key is a list row. */
  predicate NoListRows(log: Log, key: Bytes) {
    forall i :: 0 <= i < |log| && log[i].key == key ==> log[i].ttype != ListTable
  }

  /** After any accepted log an entry is there exactly when some row named it, and says what the last one said. */
  lemma {:induction false} EntriesAreTheLastWord(log: Log, key: Bytes, sub: Bytes)
    requires FoldLog(log).Success? && NoListRows(log, key)
    ensures EntrySays(FoldLog(log).value.members, key, sub, LastSaid(log, key, sub))
  {
    hide Note, RowSays;
    if log == [] {
    } else {
      var front, op := log[..|log| - 1], log[|log| - 1];
      EntriesAreTheLastWord(front, key, sub);
      NoteIsRecorded(FoldLog(front).value, op, key, sub, LastSaid(front, key, sub));
    }
  }

  // ----- A plan's state is its key's -----

  predicate StateSays(plans: seq<Plan>, key: Bytes, standing: bool, t: TableType) {
    var i := IndexOf(plans, key);
    && (i < |plans| ==> plans[i].ttype == t && (plans[i].state != Deleted <==> standing))
    && (i == |plans| ==> !standing)
  }

  lemma FieldsKeepState(d: Draft, op: WriteOp)
    requires FoldFields(d, op, |op.fields|).Success?
    ensures FoldFields(d, op, |op.fields|).value.plan.state == d.plan.state
    ensures FoldFields(d, op, |op.fields|).value.plan.ttype == d.plan.ttype
  {
    FoldFieldsGrows(d, op, |op.fields|);
  }

  lemma BodySetsState(d: Draft, op: WriteOp)
    requires FoldBody(d, op).Success?
    ensures var p := FoldBody(d, op).value.plan; (p.state == Deleted <==> DeletesKey(op)) && p.ttype == d.plan.ttype
  {
    hide FoldFields, PackedSteps, TtlSteps;
    if !DeletesKey(op) && !op.packedShape && op.ttype == HashTable {
      FieldsKeepState(d, op);
    }
  }

  lemma NoteSetsState(b: Book, op: WriteOp, key: Bytes, standing: bool, t: TableType)
    requires Note(b, op).Success? && !IsRename(op) && StateSays(b.plans, key, standing, t)
    requires op.key == key ==> op.ttype == t
    ensures StateSays(Note(b, op).value.plans, key, if op.key == key then !DeletesKey(op) else standing, t)
  {
    hide FoldBody, IndexOf;
    var d := Draft(Opened(b, op), b.members);
    OpenedKey(b, op);
    BodyKeepsKey(d, op);
    BodySetsState(d, op);
    IndexAfterSet(b.plans, IndexOf(b.plans, op.key), FoldBody(d, op).value.plan, key);
  }

  lemma {:induction false} StateIsStanding(log: Log, key: Bytes, t: TableType)
    requires FoldLog(log).Success? && RenameFree(log)
    requires forall i :: 0 <= i < |log| && log[i].key == key ==> log[i].ttype == t
    ensures StateSays(FoldLog(log).value.plans, key, Standing(log, key), t)
  {
    hide Note, StateSays;
    if log == [] {
      NoPlanYet(key, t);
    } else {
      var front, op := log[..|log| - 1], log[|log| - 1];
      StateIsStanding(front, key, t);
      NoteSetsState(FoldLog(front).value, op, key, Standing(front, key), t);
    }
  }

  lemma NoPlanYet(key: Bytes, t: TableType)
    ensures StateSays([], key, false, t)
  {}

  // ----- One row -----

  /** The fields before `x` are taken, and field `x` is the duplicate. */
  predicate FirstDuplicate(front: Log, op: WriteOp, x: nat) {
    x < |op.fields| && FieldDuplicate(front, op, x) && forall y :: 0 <= y < x ==> !FieldDuplicate(front, op, y)
  }

  lemma {:induction false} FieldsAreRefusedExactly(d: Draft, op: WriteOp, front: Log, i: nat)
    requires i <= |op.fields| && forall sub :: EntrySays(d.members, op.key, sub, LastSaid(front, op.key, sub))
    ensures FoldFields(d, op, i).Success? <==>
            op.kind != Insert || forall x :: 0 <= x < i ==> !FieldDuplicate(front, op, x)
    ensures FoldFields(d, op, i).Failure? ==>
              exists x: nat :: x < i && FirstDuplicate(front, op, x)
                               && FoldFields(d, op, i) == Failure(DuplicateMember(op.fields[x].name))
  {
    hide LastSaid, FieldStep;
    if i == 0 {
    } else {
      FieldsAreRefusedExactly(d, op, front, i - 1);
      if FoldFields(d, op, i - 1).Success? {
        var f := op.fields[i - 1];
        FieldsAreRecorded(d, op, i - 1, f.name, LastSaid(front, op.key, f.name));
        assert FoldField(FoldFields(d, op, i - 1).value, op, f).Failure? <==>
               op.kind == Insert && FieldDuplicate(front, op, i - 1);
        assert FoldFields(d, op, i).Failure? ==> FirstDuplicate(front, op, i - 1);
      }
    }
  }

  lemma MemberIsRefusedExactly(d: Draft, op: WriteOp, word: Option<bool>)
    requires op.member.Some? ==> EntrySays(d.members, op.key, Identity(op), word)
    ensures FoldMember(d, op).Failure? <==> op.kind == Insert && op.member.Some? && word == Some(true)
    ensures FoldMember(d, op).Failure? ==> FoldMember(d, op) == Failure(DuplicateMember(Identity(op)))
  {
    hide MemberCheck, AddStep, RemoveStep;
  }

  /** How a row is refused: as a duplicate key, as the first duplicate field or member, or as unwritable. */
  ghost predicate RefusedAs(front: Log, op: WriteOp, e: Refusal) {
    match e
    case DuplicateKey => StringDuplicate(front, op)
    case Unwritable => !StringDuplicate(front, op) && Unwritten(op)
    case DuplicateMember(sub) =>
      && op.kind == Insert && !op.packedShape
      && if op.ttype == HashTable then exists x: nat :: FirstDuplicate(front, op, x) && op.fields[x].name == sub
         else (op.ttype == SetTable || op.ttype == ZSetTable) && op.member.Some? && sub == Identity(op)
              && LastSaid(front, op.key, sub) == Some(true)
  }

  lemma BodyIsRefusedExactly(d: Draft, op: WriteOp, front: Log)
    requires op.ttype != ListTable ==> forall sub :: EntrySays(d.members, op.key, sub, LastSaid(front, op.key, sub))
    requires !StringDuplicate(front, op)
    ensures FoldBody(d, op).Failure? <==> Duplicate(front, op) || Unwritten(op)
    ensures FoldBody(d, op).Failure? ==> RefusedAs(front, op, FoldBody(d, op).error)
  {
    hide FoldFields, FoldMember, PackedSteps, TtlSteps, LastSaid, EntrySays, FieldDuplicate;
    if !DeletesKey(op) && !op.packedShape {
      match op.ttype
      case HashTable => FieldsAreRefusedExactly(d, op, front, |op.fields|);
      case SetTable => RowMemberIsRefusedExactly(d, op, front);
      case ZSetTable => RowMemberIsRefusedExactly(d, op, front);
      case _ =>
    }
  }

  lemma RowMemberIsRefusedExactly(d: Draft, op: WriteOp, front: Log)
    requires forall sub :: EntrySays(d.members, op.key, sub, LastSaid(front, op.key, sub))
    ensures FoldMember(d, op).Failure? <==>
            op.kind == Insert && op.member.Some? && LastSaid(front, op.key, Identity(op)) == Some(true)
    ensures FoldMember(d, op).Failure? ==> FoldMember(d, op) == Failure(DuplicateMember(Identity(op)))
  {
    hide FoldMember, EntrySays, LastSaid;
    MemberIsRefusedExactly(d, op, if op.member.Some? then LastSaid(front, op.key, Identity(op)) else None);
  }

  lemma {:induction false} RowIsRefusedExactly(log: Log)
    requires log != [] && RenameFree(log) && TypeConsistent(log) && FoldLog(log[..|log| - 1]).Success?
    ensures var front, op := log[..|log| - 1], log[|log| - 1];
            && (FoldLog(log).Failure? <==> Duplicate(front, op) || Unwritten(op))
            && (FoldLog(log).Failure? ==> RefusedAs(front, op, FoldLog(log).error))
  {
    hide FoldBody, Opened, LastSaid, EntrySays, Duplicate, Unwritten, RefusedAs, Standing, IndexOf;
    var front, op := log[..|log| - 1], log[|log| - 1];
    var b := FoldLog(front).value;
    if op.ttype != ListTable {
      forall sub ensures EntrySays(b.members, op.key, sub, LastSaid(front, op.key, sub)) {
        EntriesAreTheLastWord(front, op.key, sub);
      }
    }
    StateIsStanding(front, op.key, op.ttype);
    DuplicateKeyIsStanding(b, op, Standing(front, op.key));
    if StringDuplicate(front, op) {
      StringDuplicateIsRefused(front, op);
    } else {
      BodyIsRefusedExactly(Draft(Opened(b, op), b.members), op, front);
    }
  }

  lemma DuplicateKeyIsStanding(b: Book, op: WriteOp, standing: bool)
    requires StateSays(b.plans, op.key, standing, op.ttype)
    ensures IsDuplicate(PlanFor(b, op), op, IndexOf(b.plans, op.key) == |b.plans|) <==>
            op.kind == Insert && op.ttype == StringTable && standing
  {}

  lemma StringDuplicateIsRefused(front: Log, op: WriteOp)
    requires StringDuplicate(front, op)
    ensures Duplicate(front, op) && RefusedAs(front, op, DuplicateKey)
  {}

  // ----- A log -----

  predicate Refusable(log: Log, i: nat)
    requires i < |log|
  {
    Duplicate(log[..i], log[i]) || Unwritten(log[i])
  }

  /**
   For every log that moves no key and gives each key one type: the ledger refuses it if and only if some row, over the
   rows before it, is a duplicate or cannot be written.
   */
  lemma {:induction false} LogIsRefusedExactly(log: Log)
    requires RenameFree(log) && TypeConsistent(log)
    ensures FoldLog(log).Failure? <==> exists i :: 0 <= i < |log| && Refusable(log, i)
  {
    hide Note, Duplicate, Unwritten;
    if log == [] {
    } else {
      var front := log[..|log| - 1];
      LogIsRefusedExactly(front);
      forall i | 0 <= i < |front| ensures Refusable(front, i) <==> Refusable(log, i) {
        assert front[..i] == log[..i];
      }
      if FoldLog(front).Success? {
        RowIsRefusedExactly(log);
      } else {
        var i :| 0 <= i < |front| && Refusable(front, i);
        assert Refusable(log, i);
      }
      assert Refusable(log, |log| - 1) <==> Duplicate(front, log[|log| - 1]) || Unwritten(log[|log| - 1]);
    }
  }

  // ----- A deleted hash row put back -----

  predicate HashRow(op: WriteOp) {
    op.ttype == HashTable && !op.packedShape && !IsRename(op)
    && forall x, y :: 0 <= x < y < |op.fields| ==> op.fields[x].name != op.fields[y].name
  }

  /** An INSERT names no field that is there when its turn comes. */
  predicate LegalAt(db: Db, op: WriteOp) {
    op.kind == Insert ==> forall x :: 0 <= x < |op.fields| ==> FieldAt(At(db, op.key), op.fields[x].name).None?
  }

  predicate Legal(n: Numbers, log: Log, db: Db) {
    forall i :: 0 <= i < |log| ==> LegalAt(RunLog(n, log[..i], db), log[i])
  }

  /** The key has been deleted since a row of it last named the field. */
  predicate GoneSince(log: Log, key: Bytes, sub: Bytes) {
    log != []
    && var front, op := log[..|log| - 1], log[|log| - 1];
       (op.key == key && DeletesKey(op))
       || (!(op.key == key && RowSays(op, sub).Some?) && GoneSince(front, key, sub))
  }

  lemma HashRowKeepsField(n: Numbers, c: Cell, op: WriteOp, sub: Bytes)
    requires HashRow(op) && !DeletesKey(op) && TypeOk(c, HashTable)
    ensures var c' := RunCell(n, c, OpSteps(op));
            && TypeOk(c', HashTable)
            && (FieldAt(c', sub).Some? <==> Or(RowSays(op, sub), Some(FieldAt(c, sub).Some?)) == Some(true))
  {
    hide RunCell, FieldSteps, TtlSteps, KeysetSteps, TypeOk, FieldAt;
    var i := |op.fields|;
    var fields, keyset := FieldSteps(op.fields, i), if op.kind == Insert then KeysetSteps(op, op.key, true) else [];
    FieldsLeave(n, c, op.fields, i);
    assert op.fields[..i] == op.fields;
    var mid := RunCell(n, c, fields);
    TtlsKeepFields(n, mid, op.ttls, sub);
    var dated := RunCell(n, mid, TtlSteps(op.ttls));
    RunCellAppend(n, c, fields, TtlSteps(op.ttls));
    RunCellAppend(n, c, fields + TtlSteps(op.ttls), keyset);
    KeysetStepsAreElsewhere(n, dated, op, op.key, true);
    NothingRun(n, dated);
    assert OpSteps(op) == fields + TtlSteps(op.ttls) + keyset;
  }

  lemma TtlsKeepFields(n: Numbers, c: Cell, ttls: seq<Arg>, sub: Bytes)
    requires TypeOk(c, HashTable)
    ensures var c' := RunCell(n, c, TtlSteps(ttls));
            TypeOk(c', HashTable) && (FieldAt(c', sub).Some? <==> FieldAt(c, sub).Some?)
  {
    hide RunCell, TtlSteps;
    TtlsKeepMembers(n, c, ttls);
    assert Has(RunCell(n, c, TtlSteps(ttls)), sub) <==> Has(c, sub);
  }

  lemma DeletedHashRow(n: Numbers, c: Cell, op: WriteOp)
    requires HashRow(op) && DeletesKey(op)
    ensures RunCell(n, c, OpSteps(op)) == None
  {
    hide RunCell, KeysetSteps, CellEffect;
    var del := Step(ACT_DEL, []);
    RunCellAppend(n, c, [del], KeysetSteps(op, op.key, false));
    SingleStep(n, c, del);
    Deleting(n, c);
    KeysetStepsAreElsewhere(n, None, op, op.key, false);
  }

  /** Until the key is deleted, a field is there as the last row naming it left it. */
  lemma {:induction false} LastWordHolds(n: Numbers, log: Log, key: Bytes, sub: Bytes, db: Db)
    requires AllSpare(log, key) && (forall i :: 0 <= i < |log| && log[i].key == key ==> HashRow(log[i]))
    requires TypeOk(At(db, key), HashTable)
    ensures var c := At(RunLog(n, log, db), key);
            && TypeOk(c, HashTable)
            && (LastSaid(log, key, sub) == Some(true) && !GoneSince(log, key, sub) ==> FieldAt(c, sub).Some?)
  {
    hide At, Run, OpSteps, RunCell, TypeOk, FieldAt, RowSays, HashRow, Spares;
    if log == [] {
    } else {
      var front, op := log[..|log| - 1], log[|log| - 1];
      LastWordHolds(n, front, key, sub, db);
      var before := RunLog(n, front, db);
      OpAt(n, before, op, key);
      if op.key == key {
        if DeletesKey(op) {
          DeletedHashRow(n, At(before, key), op);
          NothingIsAHash();
        } else {
          HashRowKeepsField(n, At(before, key), op, sub);
        }
      }
    }
  }

  lemma NothingIsAHash()
    ensures TypeOk(None, HashTable)
  {}

  /** The INSERT names a field an earlier row gave a value, in a key deleted since. */
  predicate PutBack(log: Log, i: nat)
    requires i < |log|
  {
    var op, front := log[i], log[..i];
    op.kind == Insert
    && exists x :: 0 <= x < |op.fields| && LastSaid(front, op.key, op.fields[x].name) == Some(true)
                   && GoneSince(front, op.key, op.fields[x].name)
  }

  lemma DistinctFieldsRepeatNothing(op: WriteOp, x: nat)
    requires HashRow(op) && x < |op.fields|
    ensures LastMention(op.fields[..x], op.fields[x].name) == None
  {
    NotMentioned(op.fields[..x], op.fields[x].name);
  }

  lemma {:induction false} LegalDuplicateIsPutBack(n: Numbers, log: Log, db: Db, i: nat)
    requires i < |log| && KeysetsApart(log) && Legal(n, log, db)
    requires forall j :: 0 <= j < |log| ==> HashRow(log[j]) && TypeOk(At(db, log[j].key), HashTable)
    ensures Refusable(log, i) <==> PutBack(log, i)
  {
    hide RowSays, LastSaid, GoneSince, RunLog, FieldAt, TypeOk, At, HashRow;
    var op, front := log[i], log[..i];
    assert HashRow(op);
    HashRowIsPlain(op);
    forall x | 0 <= x < |op.fields| && op.kind == Insert
      ensures FieldDuplicate(front, op, x) <==> LastSaid(front, op.key, op.fields[x].name) == Some(true)
      ensures FieldDuplicate(front, op, x) ==> GoneSince(front, op.key, op.fields[x].name)
    {
      DistinctFieldsRepeatNothing(op, x);
      assert LegalAt(RunLog(n, log[..i], db), log[i]);
      FrontSpares(log, i);
      LastWordHolds(n, front, op.key, op.fields[x].name, db);
    }
  }

  lemma HashRowIsPlain(op: WriteOp)
    requires HashRow(op)
    ensures op.ttype == HashTable && !op.packedShape && !IsRename(op) && !Unwritten(op)
  {}

  lemma FrontSpares(log: Log, i: nat)
    requires i < |log| && KeysetsApart(log) && forall j :: 0 <= j < |log| ==> HashRow(log[j])
    ensures AllSpare(log[..i], log[i].key) && forall j :: 0 <= j < i ==> HashRow(log[..i][j])
  {}

  /**
   A hash log legal row by row is refused if and only if some INSERT names a field an earlier row of the transaction
   gave a value, in a key deleted since: the ledger forgets no entry when it deletes a key.
   */
  lemma {:induction false} LegalHashLogIsRefusedExactly(n: Numbers, log: Log, db: Db)
    requires KeysetsApart(log) && Legal(n, log, db)
    requires forall j :: 0 <= j < |log| ==> HashRow(log[j]) && TypeOk(At(db, log[j].key), HashTable)
    ensures FoldLog(log).Failure? <==> exists i :: 0 <= i < |log| && PutBack(log, i)
  {
    hide FoldLog, Refusable, PutBack, Legal, TypeOk, At;
    LogIsRefusedExactly(log);
    forall i | 0 <= i < |log| ensures Refusable(log, i) <==> PutBack(log, i) {
      LegalDuplicateIsPutBack(n, log, db, i);
    }
  }

  const ANY := Numbers((_: Bytes) => true, (_: Bytes) => true)

  function HashWrite(kind: OpKind, fields: seq<Arg>): WriteOp {
    WriteOp(kind, 1, HashTable, 1, "h", None, None, None, None, None, fields, [], [], false, None, None)
  }

  lemma DeletedLast(n: Numbers, front: Log, op: WriteOp, db: Db)
    requires HashRow(op) && DeletesKey(op) && op.keyset.None?
    ensures At(RunLog(n, front + [op], db), op.key) == None
  {
    hide At, Run, OpSteps, RunCell;
    var log := front + [op];
    assert log[..|log| - 1] == front && log[|log| - 1] == op;
    OpAt(n, RunLog(n, front, db), op, op.key);
    DeletedHashRow(n, At(RunLog(n, front, db), op.key), op);
  }

  lemma SaidThenGone(a: WriteOp, d: WriteOp, sub: Bytes)
    requires a.key == d.key && RowSays(a, sub) == Some(true) && DeletesKey(d)
    ensures LastSaid([a, d], a.key, sub) == Some(true) && GoneSince([a, d], a.key, sub)
  {
    assert [a, d][..1] == [a] && [a][..0] == [];
    assert LastSaid([a], a.key, sub) == Some(true);
  }

  /** INSERT, DELETE and INSERT again of one hash row, legal each time from an empty keyspace, is refused. */
  lemma {:induction false} RowPutBackIsRefused()
    ensures var f := [Arg("f", Some("v"))];
            var log := [HashWrite(Insert, f), HashWrite(Delete, []), HashWrite(Insert, f)];
            Legal(ANY, log, map[]) && PutBack(log, 2) && FoldLog(log).Failure?
  {
    hide FoldLog, RunLog, LastSaid, GoneSince, RowSays;
    var f := [Arg("f", Some("v"))];
    var a, d := HashWrite(Insert, f), HashWrite(Delete, []);
    var log, empty: Db := [a, d, a], map[];
    assert log[..0] == [] && log[..2] == [a] + [d] == [a, d];
    assert RunLog(ANY, [], empty) == empty by { NothingLogged(empty); }
    DeletedLast(ANY, [a], d, empty);
    assert Legal(ANY, log, empty);
    assert RowSays(a, "f") == Some(true) by { WritesItsField(a, f); }
    SaidThenGone(a, d, "f");
    assert log[2].fields[0].name == "f";
    assert PutBack(log, 2);
    LegalHashLogIsRefusedExactly(ANY, log, empty);
  }

  lemma NothingLogged(db: Db)
    ensures RunLog(ANY, [], db) == db
  {}

  lemma WritesItsField(op: WriteOp, fields: seq<Arg>)
    requires op == HashWrite(Insert, fields) && |fields| == 1 && fields[0].data.Some?
    ensures RowSays(op, fields[0].name) == Some(true)
  {
    assert LastMention(fields, fields[0].name) == Some(fields[0]);
  }
}
