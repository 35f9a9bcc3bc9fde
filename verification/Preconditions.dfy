/** What a plan takes its key to be: decided by the first row that touches the key, renames included. */
module Preconditions {
  import opened Common
  import opened Opcodes
  import opened Keyspace
  import opened WriteOps
  import opened Fold
  import opened Relids
  import Commit
  import Renames
  import Script

  /** A row takes its key to be absent if it makes it, by INSERT or by moving there; and one it leaves to be there. */
  function RowTakes(op: WriteOp, key: Bytes): Option<Require> {
    if op.key == key then
      Some(if op.kind == Insert || (op.kind == Update && op.oldkey.Some? && op.oldkey.value != key)
           then RequireAbsent else RequirePresent)
    else if op.kind == Update && op.oldkey == Some(key) then Some(RequirePresent)
    else None
  }

  /** The first row to touch the key decides. */
  function Taken(log: Log, key: Bytes): Option<Require> {
    if log == [] then None
    else
      var before := Taken(log[..|log| - 1], key);
      if before.Some? then before else RowTakes(log[|log| - 1], key)
  }

  /** A plan's checks begin with the kind and its precondition, and say what was taken. */
  predicate Heads(p: Plan, taken: Require) {
    && p.require == taken && |p.checks| >= 2
    && p.checks[0] == Step(2, []) && p.checks[1] == Step(if taken == RequireAbsent then 0 else 1, [])
  }

  ghost predicate AllHead(plans: seq<Plan>, log: Log) {
    forall p :: p in plans ==> Taken(log, p.key).Some? && Heads(p, Taken(log, p.key).value)
  }

  lemma {:induction false} FieldsKeepChecks(d: Draft, op: WriteOp, i: nat)
    requires i <= |op.fields|
    ensures FoldFields(d, op, i).Success? ==> d.plan.checks <= FoldFields(d, op, i).value.plan.checks
  {
    if i == 0 {
    } else {
      FieldsKeepChecks(d, op, i - 1);
    }
  }

  lemma BodyKeepsHead(d: Draft, op: WriteOp, taken: Require)
    requires FoldBody(d, op).Success? && Heads(d.plan, taken)
    ensures Heads(FoldBody(d, op).value.plan, taken) && FoldBody(d, op).value.plan.key == d.plan.key
  {
    hide FoldFields, PackedSteps, TtlSteps;
    FieldsKeepChecks(d, op, |op.fields|);
    Renames.BodyKeepsRequire(d, op);
    BodyKeepsKey(d, op);
    assert d.plan.checks <= FoldBody(d, op).value.plan.checks;
  }

  lemma TakenSnoc(front: Log, op: WriteOp, key: Bytes)
    ensures Taken(front + [op], key) == if Taken(front, key).Some? then Taken(front, key) else RowTakes(op, key)
  {
    assert (front + [op])[..|front|] == front;
  }

  /** Nothing has touched a key without a plan. */
  lemma {:induction false} UntouchedTakesNothing(log: Log, key: Bytes)
    ensures Taken(log, key).Some? <==> exists i :: 0 <= i < |log| && Touches(log[i], key)
    ensures Taken(log, key) != Some(RequireAny)
  {
    if log == [] {
    } else {
      var front, op := log[..|log| - 1], log[|log| - 1];
      UntouchedTakesNothing(front, key);
      if i :| 0 <= i < |front| && Touches(front[i], key) {
        assert log[i] == front[i];
      }
      if i :| 0 <= i < |log| && Touches(log[i], key) && i < |front| {
        assert front[i] == log[i];
      }
    }
  }

  lemma NoPlanNothingTaken(plans: seq<Plan>, log: Log, key: Bytes)
    requires Planned(plans, log) && IndexOf(plans, key) == |plans|
    ensures Taken(log, key) == None
  {
    UntouchedTakesNothing(log, key);
    assert forall p :: p in plans ==> p.key != key;
    assert forall i :: 0 <= i < |log| ==> !Touches(log[i], key);
  }

  lemma OpenedHeads(b: Book, front: Log, op: WriteOp)
    requires AllHead(b.plans, front) && Planned(b.plans, front)
    ensures Taken(front + [op], op.key).Some? && Heads(Opened(b, op), Taken(front + [op], op.key).value)
  {
    hide Taken, RenameSteps;
    TakenSnoc(front, op, op.key);
    var i := IndexOf(b.plans, op.key);
    if i == |b.plans| {
      NoPlanNothingTaken(b.plans, front, op.key);
    } else {
      assert b.plans[i] in b.plans;
    }
  }

  lemma NoteKeepsHeads(b: Book, front: Log, op: WriteOp)
    requires AllHead(b.plans, front) && Planned(b.plans, front) && Note(b, op).Success?
    ensures AllHead(Note(b, op).value.plans, front + [op])
  {
    hide FoldBody, Opened, Taken, Heads;
    var d := Draft(Opened(b, op), b.members);
    OpenedHeads(b, front, op);
    OpenedKey(b, op);
    BodyKeepsHead(d, op, Taken(front + [op], op.key).value);
    var i, p := IndexOf(b.plans, op.key), FoldBody(d, op).value.plan;
    var plans := SetPlan(b.plans, i, p);
    forall q | q in plans
      ensures Taken(front + [op], q.key).Some? && Heads(q, Taken(front + [op], q.key).value)
    {
      var j :| 0 <= j < |plans| && plans[j] == q;
      if j != i {
        assert b.plans[j] == q && q in b.plans;
        TakenSnoc(front, op, q.key);
      }
    }
    if IsRename(op) {
      NoPlanNoSource(b, front, op, p);
      TouchedSourceHeads(plans, front, op);
    }
  }

  lemma NoPlanNoSource(b: Book, front: Log, op: WriteOp, p: Plan)
    requires Planned(b.plans, front) && IsRename(op) && p.key == op.key
    ensures var plans := SetPlan(b.plans, IndexOf(b.plans, op.key), p);
            IndexOf(plans, op.oldkey.value) == |plans| ==> Taken(front, op.oldkey.value) == None
  {
    hide Taken;
    IndexAfterSet(b.plans, IndexOf(b.plans, op.key), p, op.oldkey.value);
    if IndexOf(b.plans, op.oldkey.value) == |b.plans| {
      NoPlanNothingTaken(b.plans, front, op.oldkey.value);
    }
  }

  lemma TouchedSourceHeads(plans: seq<Plan>, front: Log, op: WriteOp)
    requires IsRename(op) && AllHead(plans, front + [op])
    requires IndexOf(plans, op.oldkey.value) == |plans| ==> Taken(front, op.oldkey.value) == None
    ensures AllHead(TouchSource(plans, op), front + [op])
  {
    hide Taken;
    var source, after := op.oldkey.value, TouchSource(plans, op);
    var j := IndexOf(plans, source);
    TakenSnoc(front, op, source);
    forall q | q in after
      ensures Taken(front + [op], q.key).Some? && Heads(q, Taken(front + [op], q.key).value)
    {
      var i :| 0 <= i < |after| && after[i] == q;
      assert i < |plans| ==> plans[i] in plans && q.key == plans[i].key && q.checks == plans[i].checks;
    }
  }

  /** For every accepted log, renames included: a plan's precondition is what the first row to touch its key takes. */
  lemma {:induction false} FirstTouchDecides(log: Log)
    requires FoldLog(log).Success?
    ensures AllHead(FoldLog(log).value.plans, log)
  {
    hide Note, AllHead, Planned;
    if log == [] {
      NothingHeads();
    } else {
      var front, op := log[..|log| - 1], log[|log| - 1];
      FirstTouchDecides(front);
      FoldIsPlanned(front);
      NoteKeepsHeads(FoldLog(front).value, front, op);
      assert front + [op] == log;
    }
  }

  lemma NothingHeads()
    ensures AllHead([], [])
  {}

  /** So a keyspace passes only if every key touched is there or not as the first row to touch it takes it to be. */
  lemma {:induction false} PassingKeysAreAsTaken(log: Log, db: Db, key: Bytes)
    requires FoldLog(log).Success? && Commit.Passes(db, FoldLog(log).value.plans) && Taken(log, key).Some?
    ensures key in db <==> Taken(log, key) == Some(RequirePresent)
  {
    hide FoldLog, Taken;
    var plans := FoldLog(log).value.plans;
    FirstTouchDecides(log);
    FoldIsPlanned(log);
    UntouchedTakesNothing(log, key);
    var i :| 0 <= i < |log| && Touches(log[i], key);
    var p :| p in plans && p.key == key;
    var j :| 0 <= j < |plans| && plans[j] == p;
    assert Commit.PlanPasses(db, plans[j]);
    assert Script.EvalCheck(db, key, p.checks[1]).Pass?;
  }
}
