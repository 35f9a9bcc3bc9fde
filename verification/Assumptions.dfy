/** What a transaction's rows take for granted about the keyspace, and the proof that phase 1 asks exactly that. */
module Assumptions {
  import opened Common
  import opened Decimal
  import opened Opcodes
  import opened Keyspace
  import opened WriteOps
  import opened Fold
  import opened Regroup
  import opened Script
  import opened NoOverwrite
  import opened ListDemand
  import opened Commit

  // ----- A key's and a member's history, from the log alone -----

  /** Not in the log so far; made by it and not deleted since; or taken to have been there. */
  datatype KeyPhase = Untouched | Made | Known

  /** The phase while `op` is at work: a key's first operation says whether it was there. */
  function Opening(phase: KeyPhase, op: WriteOp): KeyPhase {
    if phase.Untouched? then (if op.kind == Insert then Made else Known) else phase
  }

  function PhaseOf(log: Log, key: Bytes): KeyPhase {
    if log == [] then Untouched
    else
      var before, op := PhaseOf(log[..|log| - 1], key), log[|log| - 1];
      if op.key != key then before else if IsKeyDelete(op) then Known else Opening(before, op)
  }

  /** The fields or members a mapped row names: for a renamed member, both its names. */
  function Entries(op: WriteOp): set<Bytes> {
    if IsKeyDelete(op) || op.packedShape then {}
    else match op.ttype
      case HashTable => set f | f in op.fields :: f.name
      case SetTable => MemberEntries(op)
      case ZSetTable => MemberEntries(op)
      case ListTable => if op.member.Some? then {op.member.value} else {}
      case _ => {}
  }

  function MemberEntries(op: WriteOp): set<Bytes> {
    if op.member.None? then {} else {OldMember(op)} + if IsMemberRename(op) then {op.member.value} else {}
  }

  function Met(log: Log, key: Bytes): set<Bytes> {
    if log == [] then {}
    else Met(log[..|log| - 1], key) + if log[|log| - 1].key == key then Entries(log[|log| - 1]) else {}
  }

  // ----- What a row takes for granted -----

  /** An INSERT takes a thing to be absent; an UPDATE or a DELETE takes it to be there. */
  predicate AsExpected(op: WriteOp, there: bool) {
    there <==> op.kind != Insert
  }

  predicate FirstNamed(op: WriteOp, x: nat)
    requires x < |op.fields|
  {
    forall y :: 0 <= y < x ==> op.fields[y].name != op.fields[x].name
  }

  /** The first `n` fields, where each is met for the first time. */
  predicate FieldsAssume(op: WriteOp, met: set<Bytes>, c: Cell, n: nat)
    requires n <= |op.fields|
  {
    forall x :: 0 <= x < n && op.fields[x].name !in met && FirstNamed(op, x) ==>
      AsExpected(op, Has(c, op.fields[x].name))
  }

  predicate MemberAssumes(op: WriteOp, met: set<Bytes>, c: Cell) {
    op.member.Some? && OldMember(op) !in met ==> AsExpected(op, Has(c, OldMember(op)))
  }

  /** A removal that raises the demand needs that many occurrences. */
  predicate RemovalAssumes(before: Log, op: WriteOp, c: Cell) {
    op.member.Some? && op.kind == Delete ==>
      var v := op.member.value;
      var was, now := Demand(Events(before, op.key, v)), Demand(Events(before, op.key, v) + [Remove]);
      now > was ==> Occurrences(c, v) >= now
  }

  /**
   In a key the log has not made, what a row meets for the first time is as the row expects; a list has what is
   removed.
   */
  predicate ShapeAssumes(before: Log, op: WriteOp, c: Cell) {
    if IsKeyDelete(op) || op.packedShape then true
    else
      var known, met := Opening(PhaseOf(before, op.key), op).Known?, Met(before, op.key);
      match op.ttype
      case HashTable => known ==> FieldsAssume(op, met, c, |op.fields|)
      case SetTable => known ==> MemberAssumes(op, met, c)
      case ZSetTable => known ==> MemberAssumes(op, met, c)
      case ListTable => RemovalAssumes(before, op, c)
      case _ => true
  }

  predicate OpAssumes(before: Log, op: WriteOp, db: Db) {
    var c := At(db, op.key);
    && TypeOk(c, op.ttype)
    && (PhaseOf(before, op.key).Untouched? ==> AsExpected(op, c.Some?))
    && ShapeAssumes(before, op, c)
  }

  /** Every row's assumptions hold of the keyspace the commit finds. */
  predicate RowsAssume(log: Log, db: Db) {
    log == [] || (RowsAssume(log[..|log| - 1], db) && OpAssumes(log[..|log| - 1], log[|log| - 1], db))
  }

  // ----- Checks, one at a time -----

  lemma OneMoreCheck(db: Db, p: Plan, s: Step)
    ensures ChecksPass(db, AddCheck(p, s)) <==> ChecksPass(db, p) && EvalCheck(db, p.key, s).Pass?
  {
    hide EvalCheck;
    var q := AddCheck(p, s);
    assert forall c :: 0 <= c < |p.checks| ==> q.checks[c] == p.checks[c];
    assert q.checks[|p.checks|] == s;
  }

  lemma FieldCheckAsks(db: Db, key: Bytes, op: WriteOp, f: Bytes)
    requires TypeOk(At(db, key), HashTable)
    ensures EvalCheck(db, key, Step(if op.kind == Insert then CHK_HFIELD_ABSENT else CHK_HFIELD_PRESENT, [f])).Pass?
            <==> AsExpected(op, Has(At(db, key), f))
  {}

  lemma MemberCheckAsks(db: Db, key: Bytes, op: WriteOp, t: TableType, m: Bytes)
    requires (t == SetTable || t == ZSetTable) && TypeOk(At(db, key), t)
    ensures EvalCheck(db, key, MemberCheck(t == ZSetTable, op.kind, m)).Pass? <==> AsExpected(op, Has(At(db, key), m))
  {}

  lemma CountCheckAsks(db: Db, key: Bytes, v: Bytes, r: nat)
    requires TypeOk(At(db, key), ListTable)
    ensures EvalCheck(db, key, Step(CHK_LVALUE_COUNT_GE, [v, Show(r)])).Pass? <==> Occurrences(At(db, key), v) >= r
  {
    ToNumberOfShow(r);
  }

  // ----- Fields -----

  ghost predicate Mirrors(ms: Members, key: Bytes, met: set<Bytes>) {
    forall sub :: (key, sub) in ms <==> sub in met
  }

  function Names(op: WriteOp, n: nat): set<Bytes>
    requires n <= |op.fields|
  {
    set x | 0 <= x < n :: op.fields[x].name
  }

  lemma FieldAsks(d: Draft, op: WriteOp, met: set<Bytes>, f: Arg, db: Db)
    requires d.plan.key == op.key && Mirrors(d.members, op.key, met) && TypeOk(At(db, op.key), HashTable)
    requires FoldField(d, op, f).Success?
    ensures var d' := FoldField(d, op, f).value;
            && d'.plan.key == op.key && d'.plan.state == d.plan.state && Mirrors(d'.members, op.key, met + {f.name})
            && (ChecksPass(db, d'.plan) <==>
                ChecksPass(db, d.plan) && (d.plan.state != Created && f.name !in met ==>
                  AsExpected(op, Has(At(db, op.key), f.name))))
  {
    hide EvalCheck, Has, TypeOk;
    var s := Step(if op.kind == Insert then CHK_HFIELD_ABSENT else CHK_HFIELD_PRESENT, [f.name]);
    OneMoreCheck(db, d.plan, s);
    FieldCheckAsks(db, op.key, op, f.name);
  }

  lemma {:induction false} FieldsAsk(d: Draft, op: WriteOp, met: set<Bytes>, n: nat, db: Db)
    requires d.plan.key == op.key && Mirrors(d.members, op.key, met) && TypeOk(At(db, op.key), HashTable)
    requires n <= |op.fields| && FoldFields(d, op, n).Success?
    ensures var d' := FoldFields(d, op, n).value;
            && d'.plan.key == op.key && d'.plan.state == d.plan.state && Mirrors(d'.members, op.key, met + Names(op, n))
            && (ChecksPass(db, d'.plan) <==>
                ChecksPass(db, d.plan) && (d.plan.state != Created ==> FieldsAssume(op, met, At(db, op.key), n)))
  {
    hide FoldField, Has, TypeOk, ChecksPass, AsExpected;
    if n == 0 {
      assert met + Names(op, 0) == met;
    } else {
      var f := op.fields[n - 1];
      FieldsAsk(d, op, met, n - 1, db);
      FieldAsks(FoldFields(d, op, n - 1).value, op, met + Names(op, n - 1), f, db);
      assert Names(op, n) == Names(op, n - 1) + {f.name};
      assert met + Names(op, n - 1) + {f.name} == met + Names(op, n);
      assert f.name in Names(op, n - 1) <==> !FirstNamed(op, n - 1);
      OneMoreField(op, met, At(db, op.key), n);
    }
  }

  lemma OneMoreField(op: WriteOp, met: set<Bytes>, c: Cell, n: nat)
    requires 0 < n <= |op.fields|
    ensures var f := op.fields[n - 1].name;
            FieldsAssume(op, met, c, n) <==>
            FieldsAssume(op, met, c, n - 1) && (f !in met && FirstNamed(op, n - 1) ==> AsExpected(op, Has(c, f)))
  {
    hide Has, AsExpected, FirstNamed;
  }

  // ----- Members and lists -----

  lemma {:induction false} MemberAsks(d: Draft, op: WriteOp, met: set<Bytes>, db: Db)
    requires d.plan.key == op.key && d.plan.ttype == op.ttype && (op.ttype == SetTable || op.ttype == ZSetTable)
    requires Mirrors(d.members, op.key, met) && TypeOk(At(db, op.key), op.ttype) && FoldMember(d, op).Success?
    ensures var d' := FoldMember(d, op).value;
            && Mirrors(d'.members, op.key, met + MemberEntries(op))
            && (ChecksPass(db, d'.plan) <==>
                ChecksPass(db, d.plan) && (d.plan.state != Created ==> MemberAssumes(op, met, At(db, op.key))))
  {
    hide EvalCheck, Has, TypeOk, AsExpected;
    if op.member.Some? {
      var m := OldMember(op);
      OneMoreCheck(db, d.plan, MemberCheck(d.plan.ttype == ZSetTable, op.kind, m));
      MemberCheckAsks(db, op.key, op, op.ttype, m);
      var d1 := MemberPrecondition(d, op).value;
      assert FoldMember(d, op).value.plan.checks == d1.plan.checks;
    }
  }

  lemma {:induction false} ListAsks(d: Draft, op: WriteOp, ev: seq<Event>, db: Db)
    requires d.plan.key == op.key && op.ttype == ListTable && TypeOk(At(db, op.key), ListTable)
    requires op.member.Some? ==>
               var m := MemberAt(d.members, op.key, op.member.value);
               m.removals == Demand(ev) && m.count == m.removals - Balance(ev)
    ensures ChecksPass(db, FoldList(d, op).plan) <==>
            ChecksPass(db, d.plan)
            && (op.member.Some? && op.kind == Delete && Demand(ev + [Remove]) > Demand(ev) ==>
                Occurrences(At(db, op.key), op.member.value) >= Demand(ev + [Remove]))
  {
    hide EvalCheck, Occurrences, TypeOk, Demand, Balance, Show;
    if op.member.Some? {
      EventStep(ev, Remove);
      var r := MemberAt(d.members, op.key, op.member.value).removals + 1;
      OneMoreCheck(db, d.plan, Step(CHK_LVALUE_COUNT_GE, [op.member.value, Show(r)]));
      CountCheckAsks(db, op.key, op.member.value, r);
    }
  }

  // ----- One operation -----

  /** The list entries count what the log so far pushed and removed. */
  ghost predicate CountsMirror(ms: Members, before: Log, key: Bytes) {
    forall v :: var m := MemberAt(ms, key, v);
      m.removals == Demand(Events(before, key, v)) && m.count == m.removals - Balance(Events(before, key, v))
  }

  /** What the ledger knows of an operation's key is what the log so far says of it. */
  ghost predicate Ready(b: Book, before: Log, op: WriteOp) {
    var i, phase := IndexOf(b.plans, op.key), PhaseOf(before, op.key);
    && (i == |b.plans| <==> phase.Untouched?)
    && (i < |b.plans| ==> b.plans[i].ttype == op.ttype && (b.plans[i].state == Created <==> phase.Made?))
    && Mirrors(b.members, op.key, Met(before, op.key))
    && (op.ttype == ListTable ==> CountsMirror(b.members, before, op.key))
  }

  lemma OpenedIsReady(b: Book, before: Log, op: WriteOp)
    requires Ready(b, before, op) && !IsRename(op)
    ensures var p := Opened(b, op);
            p.key == op.key && p.ttype == op.ttype &&
              (p.state == Created <==> Opening(PhaseOf(before, op.key), op).Made?)
  {}

  lemma BodyState(d: Draft, op: WriteOp)
    requires FoldBody(d, op).Success?
    ensures FoldBody(d, op).value.plan.state == Created <==> !IsKeyDelete(op) && d.plan.state == Created
    ensures FoldBody(d, op).value.plan.key == d.plan.key && FoldBody(d, op).value.plan.ttype == d.plan.ttype
  {
    hide FoldFields;
    if op.ttype == HashTable && !IsKeyDelete(op) && !op.packedShape {
      FoldFieldsGrows(d, op, |op.fields|);
    }
  }

  lemma AllNames(op: WriteOp)
    ensures Names(op, |op.fields|) == set f | f in op.fields :: f.name
  {
    forall x | 0 <= x < |op.fields| ensures op.fields[x].name in (set f | f in op.fields :: f.name) {
      assert op.fields[x] in op.fields;
    }
  }

  lemma ShapeAsks(d: Draft, before: Log, op: WriteOp, db: Db)
    requires d.plan.key == op.key && d.plan.ttype == op.ttype && TypeOk(At(db, op.key), op.ttype)
    requires !IsKeyDelete(op) && FoldShape(d, op).Success? && Mirrors(d.members, op.key, Met(before, op.key))
    requires d.plan.state == Created <==> Opening(PhaseOf(before, op.key), op).Made?
    requires op.ttype == ListTable ==> CountsMirror(d.members, before, op.key)
    ensures var d' := FoldShape(d, op).value;
            && Mirrors(d'.members, op.key, Met(before, op.key) + Entries(op))
            && (ChecksPass(db, d'.plan) <==> ChecksPass(db, d.plan) && ShapeAssumes(before, op, At(db, op.key)))
  {
    hide FoldFields, FoldMember, FoldList, TypeOk, EvalCheck, FieldsAssume, MemberAssumes, Met, PhaseOf, MemberEntries;
    var met := Met(before, op.key);
    assert met + {} == met;
    if !op.packedShape {
      match op.ttype
      case HashTable =>
        FieldsAsk(d, op, met, |op.fields|, db);
        AllNames(op);
      case SetTable => MemberAsks(d, op, met, db);
      case ZSetTable => MemberAsks(d, op, met, db);
      case ListTable => ListShapeAsks(d, before, op, db);
      case _ =>
    }
  }

  lemma ListShapeAsks(d: Draft, before: Log, op: WriteOp, db: Db)
    requires d.plan.key == op.key && op.ttype == ListTable && TypeOk(At(db, op.key), ListTable)
    requires Mirrors(d.members, op.key, Met(before, op.key)) && CountsMirror(d.members, before, op.key)
    ensures Mirrors(FoldList(d, op).members, op.key, Met(before, op.key) + if op.member.Some? then {op.member.value}
        else {})
    ensures ChecksPass(db, FoldList(d, op).plan) <==>
        ChecksPass(db, d.plan) && RemovalAssumes(before, op, At(db, op.key))
  {
    hide TypeOk, EvalCheck, Met, Demand, Balance, Events, Occurrences;
    ListAsks(d, op, if op.member.Some? then Events(before, op.key, op.member.value) else [], db);
  }

  lemma BodyAsks(d: Draft, before: Log, op: WriteOp, db: Db)
    requires d.plan.key == op.key && d.plan.ttype == op.ttype && TypeOk(At(db, op.key), op.ttype)
    requires FoldBody(d, op).Success? && Mirrors(d.members, op.key, Met(before, op.key))
    requires d.plan.state == Created <==> Opening(PhaseOf(before, op.key), op).Made?
    requires op.ttype == ListTable ==> CountsMirror(d.members, before, op.key)
    ensures var d' := FoldBody(d, op).value;
            && Mirrors(d'.members, op.key, Met(before, op.key) + Entries(op))
            && (ChecksPass(db, d'.plan) <==> ChecksPass(db, d.plan) && ShapeAssumes(before, op, At(db, op.key)))
  {
    hide FoldShape, TypeOk, EvalCheck, Met, PhaseOf;
    if IsKeyDelete(op) {
      assert Met(before, op.key) + {} == Met(before, op.key);
    } else {
      ShapeAsks(d, before, op, db);
    }
  }

  /** A new plan's own checks ask whether the key is there as the first operation expects. */
  lemma OpenedAsks(b: Book, before: Log, op: WriteOp, db: Db)
    requires Ready(b, before, op) && !IsRename(op)
    ensures var i := IndexOf(b.plans, op.key);
            ChecksPass(db, Opened(b, op)) <==>
            if i < |b.plans| then ChecksPass(db, b.plans[i]) else AsExpected(op, At(db, op.key).Some?)
  {
    hide Met, PhaseOf;
    var i := IndexOf(b.plans, op.key);
    if i == |b.plans| {
      var p := AddRelid(NewPlan(op.key, op.ttype), op.relid);
      OneMoreCheck(db, p, Step(CHK_KEY_ABSENT, []));
      OneMoreCheck(db, p, Step(CHK_KEY_PRESENT, []));
    }
  }

  lemma SetPlanPasses(db: Db, plans: seq<Plan>, i: nat, p: Plan)
    requires i <= |plans| && (i < |plans| && PlanPasses(db, p) ==> PlanPasses(db, plans[i]))
    ensures Passes(db, SetPlan(plans, i, p)) <==> Passes(db, plans) && PlanPasses(db, p)
  {
    hide PlanPasses;
    var r := SetPlan(plans, i, p);
    assert forall j :: 0 <= j < |plans| && j != i ==> r[j] == plans[j];
  }

  /** Noting an operation adds its own assumptions to what phase 1 asks, and nothing else. */
  lemma {:induction false} NoteAsks(b: Book, before: Log, op: WriteOp, db: Db)
    requires Ready(b, before, op) && !IsRename(op) && Note(b, op).Success?
    ensures Passes(db, Note(b, op).value.plans) <==> Passes(db, b.plans) && OpAssumes(before, op, db)
  {
    hide FoldBody, Opened, Met, PhaseOf, ShapeAssumes, EvalCheck, TypeOk, At, Passes;
    var i := IndexOf(b.plans, op.key);
    var d := Draft(Opened(b, op), b.members);
    var p := FoldBody(d, op).value.plan;
    OpenedIsReady(b, before, op);
    OpenedAsks(b, before, op, db);
    BodyState(d, op);
    if TypeOk(At(db, op.key), op.ttype) {
      BodyAsks(d, before, op, db);
    }
    SetPlanPasses(db, b.plans, i, p);
    if i < |b.plans| && Passes(db, b.plans) {
      PassesAt(db, b.plans, i);
    }
  }

  lemma PassesAt(db: Db, plans: seq<Plan>, i: nat)
    requires Passes(db, plans) && i < |plans|
    ensures PlanPasses(db, plans[i])
  {}

  // ----- The whole log -----

  ghost predicate KeyMirrors(b: Book, log: Log, key: Bytes) {
    var i, phase := IndexOf(b.plans, key), PhaseOf(log, key);
    && (i == |b.plans| <==> phase.Untouched?)
    && (i < |b.plans| ==> (b.plans[i].state == Created <==> phase.Made?))
    && Mirrors(b.members, key, Met(log, key))
  }

  lemma NextPhase(before: Log, op: WriteOp, key: Bytes)
    ensures PhaseOf(before + [op], key) ==
            if op.key != key then PhaseOf(before, key) else if IsKeyDelete(op) then Known
              else Opening(PhaseOf(before, key), op)
    ensures Met(before + [op], key) == Met(before, key) + if op.key == key then Entries(op) else {}
  {
    assert (before + [op])[..|before|] == before;
  }

  lemma NoteMirrors(b: Book, before: Log, op: WriteOp, key: Bytes)
    requires Ready(b, before, op) && KeyMirrors(b, before, key) && !IsRename(op) && Note(b, op).Success?
    ensures KeyMirrors(Note(b, op).value, before + [op], key)
  {
    hide FoldBody, Opened, Met, PhaseOf, Entries, ShapeAssumes, ChecksPass;
    var d := Draft(Opened(b, op), b.members);
    var d' := FoldBody(d, op).value;
    var i := IndexOf(b.plans, op.key);
    NextPhase(before, op, key);
    OpenedIsReady(b, before, op);
    BodyState(d, op);
    IndexAfterSet(b.plans, i, d'.plan, key);
    assert Met(before, key) + {} == Met(before, key);
    if op.key == key {
      BodyAsks(d, before, op, map[]);
    } else {
      BodyTouchesOwnEntries(d, op);
      assert forall sub :: (key, sub) in d'.members <==> (key, sub) in b.members;
    }
  }

  lemma CountsAreMirrored(log: Log, key: Bytes)
    requires RenameFree(log) && FoldLog(log).Success? && ListTyped(log, key)
    ensures CountsMirror(FoldLog(log).value.members, log, key)
  {
    hide FoldLog, Demand, Balance, Events;
    forall v ensures Counted(FoldLog(log).value, key, v, Events(log, key, v)) {
      FoldCounts(log, key, v);
    }
  }

  lemma ReadyForTheNext(log: Log)
    requires log != [] && RenameFree(log) && TypeConsistent(log) && FoldLog(log[..|log| - 1]).Success?
    requires KeyMirrors(FoldLog(log[..|log| - 1]).value, log[..|log| - 1], log[|log| - 1].key)
    ensures Ready(FoldLog(log[..|log| - 1]).value, log[..|log| - 1], log[|log| - 1])
  {
    hide FoldLog, Met, PhaseOf;
    var front, op := log[..|log| - 1], log[|log| - 1];
    PlanOfTheLast(log);
    if op.ttype == ListTable {
      assert ListTyped(front, op.key);
      CountsAreMirrored(front, op.key);
    }
  }

  lemma {:induction false} FoldMirrors(log: Log, key: Bytes)
    requires RenameFree(log) && TypeConsistent(log) && FoldLog(log).Success?
    ensures KeyMirrors(FoldLog(log).value, log, key)
  {
    hide Note, Ready;
    if log == [] {
    } else {
      var front, op := log[..|log| - 1], log[|log| - 1];
      FoldMirrors(front, op.key);
      FoldMirrors(front, key);
      ReadyForTheNext(log);
      NoteMirrors(FoldLog(front).value, front, op, key);
      assert front + [op] == log;
    }
  }

  /**
   Phase 1 asks exactly what the rows take for granted: a key's first operation whether it is there, the first
   operation on a field or member of a key the log did not make whether that is there, a list for what is removed
   from it, and every key for its table's type. Nothing is left unasked and nothing more is asked.
   */
  lemma {:induction false} PhaseOneAsksWhatTheRowsAssume(log: Log, db: Db)
    requires RenameFree(log) && TypeConsistent(log) && FoldLog(log).Success?
    ensures Passes(db, FoldLog(log).value.plans) <==> RowsAssume(log, db)
  {
    hide Note, Ready, OpAssumes, KeyMirrors;
    if log == [] {
    } else {
      var front, op := log[..|log| - 1], log[|log| - 1];
      PhaseOneAsksWhatTheRowsAssume(front, db);
      FoldMirrors(front, op.key);
      ReadyForTheNext(log);
      NoteAsks(FoldLog(front).value, front, op, db);
    }
  }

  /**
   So the outcome of a commit is a matter of its rows: nothing is written unless every assumption holds, and when all
   do the commit is applied, if and only if the keysets take turns.
   */
  lemma {:induction false} AppliedWhenTheRowsHold(n: Numbers, log: Log, db: Db)
    requires RenameFree(log) && TypeConsistent(log) && NumbersParse(n, log)
    requires FoldLog(log).Success? && KeysetsHoldSets(db, log)
    ensures var plans := FoldLog(log).value.plans;
            var (db', r) := Flushed(n, db, plans);
            if !RowsAssume(log, db) then !r.Applied? && !r.Internal? && db' == db
            else if KeysetsTakeTurns(n, log, plans)
            then r.Applied? && db' == RunPlans(n, plans, db) && (KeysetsApart(log) ==> db' == RunLog(n, log, db))
            else StoppedInPart(n, db, plans, db', r)
  {
    hide Flushed, FoldLog, RowsAssume, Passes, RunLog, RunPlans, KeysetsTakeTurns;
    PhaseOneAsksWhatTheRowsAssume(log, db);
    CommitIsAllOrNothing(n, log, db);
  }
}
