/** Which tables a plan's writes came from: exactly those of the rows under its key, or moved from it. */
module Relids {
  import opened Common
  import opened Opcodes
  import opened WriteOps
  import opened Fold
  import Renames

  /** The row is under the key, or leaves it. */
  predicate Touches(op: WriteOp, key: Bytes) {
    op.key == key || (op.kind == Update && op.oldkey == Some(key))
  }

  predicate CameFrom(log: Log, key: Bytes, relid: nat) {
    exists i :: 0 <= i < |log| && Touches(log[i], key) && log[i].relid == relid
  }

  predicate Unrepeated(relids: seq<nat>) {
    forall i, j :: 0 <= i < j < |relids| ==> relids[i] != relids[j]
  }

  /** The plans list, each once, the tables the log says. */
  ghost predicate Sourced(plans: seq<Plan>, log: Log) {
    forall p :: p in plans ==> Unrepeated(p.relids) && forall r :: r in p.relids <==> CameFrom(log, p.key, r)
  }

  lemma {:induction false} FieldsKeepRelids(d: Draft, op: WriteOp, i: nat)
    requires i <= |op.fields|
    ensures FoldFields(d, op, i).Success? ==> FoldFields(d, op, i).value.plan.relids == d.plan.relids
  {
    if i == 0 {
    } else {
      FieldsKeepRelids(d, op, i - 1);
    }
  }

  lemma BodyKeepsRelids(d: Draft, op: WriteOp)
    requires FoldBody(d, op).Success?
    ensures FoldBody(d, op).value.plan.relids == d.plan.relids && FoldBody(d, op).value.plan.key == d.plan.key
  {
    hide FoldFields, PackedSteps, TtlSteps;
    FieldsKeepRelids(d, op, |op.fields|);
    BodyKeepsKey(d, op);
  }

  lemma CameFromSnoc(front: Log, op: WriteOp, key: Bytes, r: nat)
    ensures CameFrom(front + [op], key, r) <==> CameFrom(front, key, r) || (Touches(op, key) && op.relid == r)
  {
    var log := front + [op];
    assert log[|front|] == op;
    if CameFrom(front, key, r) {
      var i :| 0 <= i < |front| && Touches(front[i], key) && front[i].relid == r;
      assert log[i] == front[i];
    }
    if CameFrom(log, key, r) {
      var i :| 0 <= i < |log| && Touches(log[i], key) && log[i].relid == r;
      assert i < |front| ==> log[i] == front[i];
    }
  }

  /** One more relid on one key's list. */
  lemma OneMore(p: Plan, front: Log, op: WriteOp)
    requires Unrepeated(p.relids) && (forall r :: r in p.relids <==> CameFrom(front, p.key, r)) && Touches(op, p.key)
    ensures var q := AddRelid(p, op.relid);
            Unrepeated(q.relids) && forall r :: r in q.relids <==> CameFrom(front + [op], q.key, r)
  {
    hide CameFrom;
    forall r ensures CameFrom(front + [op], p.key, r) <==> CameFrom(front, p.key, r) || r == op.relid {
      CameFromSnoc(front, op, p.key, r);
    }
  }

  /** A key without a plan is one no row has touched. */
  ghost predicate Planned(plans: seq<Plan>, log: Log) {
    forall i, key :: 0 <= i < |log| && Touches(log[i], key) ==> exists p :: p in plans && p.key == key
  }

  lemma NoPlanNoRows(plans: seq<Plan>, log: Log, key: Bytes, r: nat)
    requires Planned(plans, log) && IndexOf(plans, key) == |plans|
    ensures !CameFrom(log, key, r)
  {
    assert forall p :: p in plans ==> p.key != key;
    assert forall i :: 0 <= i < |log| ==> !Touches(log[i], key);
  }

  lemma FoldIsPlanned(log: Log)
    requires FoldLog(log).Success?
    ensures Planned(FoldLog(log).value.plans, log)
  {
    hide FoldLog;
    var plans := FoldLog(log).value.plans;
    forall i, key | 0 <= i < |log| && Touches(log[i], key) ensures exists p :: p in plans && p.key == key {
      assert log[i].key in Renames.RowKeys(log);
      assert IsRename(log[i]) ==> log[i].oldkey.value in Renames.Sources(log);
      Renames.KeysHavePlans(log, key);
      var j :| 0 <= j < |plans| && plans[j].key == key;
      assert plans[j] in plans;
    }
  }

  /** The plan at `key`, or a new one, with the operation's table added. */
  lemma TouchedPlan(plans: seq<Plan>, front: Log, op: WriteOp, key: Bytes, t: TableType) returns (p: Plan)
    requires Sourced(plans, front) && Planned(plans, front) && Touches(op, key)
    ensures var i := IndexOf(plans, key); p == AddRelid(if i < |plans| then plans[i] else NewPlan(key, t), op.relid)
    ensures p.key == key && Unrepeated(p.relids) && forall r :: r in p.relids <==> CameFrom(front + [op], key, r)
  {
    hide CameFrom;
    var i := IndexOf(plans, key);
    var was := if i < |plans| then plans[i] else NewPlan(key, t);
    if i == |plans| {
      forall r ensures !CameFrom(front, key, r) {
        NoPlanNoRows(plans, front, key, r);
      }
    } else {
      assert plans[i] in plans;
    }
    OneMore(was, front, op);
    p := AddRelid(was, op.relid);
  }

  /** Storing the touched key's plan, whose relids are those of the longer log. */
  lemma Stored(plans: seq<Plan>, front: Log, op: WriteOp, p: Plan)
    requires DistinctKeys(plans) && Sourced(plans, front)
    requires Unrepeated(p.relids) && forall r :: r in p.relids <==> CameFrom(front + [op], p.key, r)
    ensures var after := SetPlan(plans, IndexOf(plans, p.key), p);
            forall q :: q in after && (q.key == p.key || !Touches(op, q.key)) ==>
              Unrepeated(q.relids) && forall r :: r in q.relids <==> CameFrom(front + [op], q.key, r)
  {
    hide CameFrom, Unrepeated;
    var i := IndexOf(plans, p.key);
    var after := SetPlan(plans, i, p);
    forall q | q in after && (q.key == p.key || !Touches(op, q.key))
      ensures Unrepeated(q.relids) && forall r :: r in q.relids <==> CameFrom(front + [op], q.key, r)
    {
      var j :| 0 <= j < |after| && after[j] == q;
      if j != i {
        assert plans[j] == q && q in plans && q.key != p.key;
        forall r ensures CameFrom(front + [op], q.key, r) <==> CameFrom(front, q.key, r) {
          CameFromSnoc(front, op, q.key, r);
        }
      }
    }
  }

  lemma NoteKeepsSourced(b: Book, front: Log, op: WriteOp)
    requires DistinctKeys(b.plans) && Sourced(b.plans, front) && Planned(b.plans, front) && Note(b, op).Success?
    ensures Sourced(Note(b, op).value.plans, front + [op])
  {
    hide FoldBody, CameFrom, Unrepeated, IndexOf, RenameSteps;
    var d := Draft(Opened(b, op), b.members);
    BodyKeepsRelids(d, op);
    OpenedKey(b, op);
    var was := TouchedPlan(b.plans, front, op, op.key, op.ttype);
    var p := FoldBody(d, op).value.plan;
    assert p.key == op.key && p.relids == was.relids;
    Stored(b.plans, front, op, p);
    if IsRename(op) {
      var source := op.oldkey.value;
      var plans := SetPlan(b.plans, IndexOf(b.plans, op.key), p);
      var left := TouchedPlan(b.plans, front, op, source, op.ttype);
      IndexAfterSet(b.plans, IndexOf(b.plans, op.key), p, source);
      TouchedSource(plans, front, op, left);
    }
  }

  /** The source's plan is stored after the row's own, and the two keys are different. */
  lemma {:induction false} TouchedSource(plans: seq<Plan>, front: Log, op: WriteOp, left: Plan)
    requires IsRename(op) && left.key == op.oldkey.value
    requires var j := IndexOf(plans, left.key);
             left == AddRelid(if j < |plans| then plans[j] else NewPlan(left.key, op.ttype), op.relid)
    requires Unrepeated(left.relids) && forall r :: r in left.relids <==> CameFrom(front + [op], left.key, r)
    requires forall q :: q in plans && (q.key == op.key || !Touches(op, q.key)) ==>
               Unrepeated(q.relids) && forall r :: r in q.relids <==> CameFrom(front + [op], q.key, r)
    requires DistinctKeys(plans)
    ensures Sourced(TouchSource(plans, op), front + [op])
  {
    hide CameFrom, Unrepeated;
    var j, after := IndexOf(plans, left.key), TouchSource(plans, op);
    assert after[j].relids == left.relids && after[j].key == left.key;
    forall q | q in after
      ensures Unrepeated(q.relids) && forall r :: r in q.relids <==> CameFrom(front + [op], q.key, r)
    {
      var i :| 0 <= i < |after| && after[i] == q;
      if i != j {
        assert plans[i] == q && q in plans && q.key != left.key;
      }
    }
  }

  /** For every accepted log, renames included: each plan lists, each once, the tables whose rows touched its key. */
  lemma {:induction false} RelidsAreExact(log: Log)
    requires FoldLog(log).Success?
    ensures Sourced(FoldLog(log).value.plans, log)
  {
    hide Note, Sourced, Planned;
    if log == [] {
      assert Sourced([], []) by { NothingSourced(); }
    } else {
      var front, op := log[..|log| - 1], log[|log| - 1];
      RelidsAreExact(front);
      FoldKeepsKeysDistinct(front);
      FoldIsPlanned(front);
      NoteKeepsSourced(FoldLog(front).value, front, op);
      assert front + [op] == log;
    }
  }

  lemma NothingSourced()
    ensures Sourced([], [])
  {}
}
