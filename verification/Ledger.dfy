/** The ledger as it runs: a plan list in first-touch order, a key index and member entries, updated in place. */
module Ledger {
  import opened Common
  import opened Opcodes
  import opened WriteOps
  import opened Fold

  predicate SameKeys(a: seq<Plan>, b: seq<Plan>) {
    |a| == |b| && forall i :: 0 <= i < |a| ==> a[i].key == b[i].key
  }

  lemma IndexIsUnique(plans: seq<Plan>, key: Bytes, i: nat)
    requires DistinctKeys(plans) && i < |plans| && plans[i].key == key
    ensures IndexOf(plans, key) == i
  {}

  lemma IndexOfSameKeys(a: seq<Plan>, b: seq<Plan>, key: Bytes)
    requires SameKeys(a, b)
    ensures IndexOf(a, key) == IndexOf(b, key)
  {
    var i, j := IndexOf(a, key), IndexOf(b, key);
    assert i < |a| ==> b[i].key == key;
    assert j < |b| ==> a[j].key == key;
  }

  /** The rename's source is another plan, so touching it before or after the shape's own fold is the same. */
  lemma TouchSourceKeeps(plans: seq<Plan>, i: nat, q: Plan, op: WriteOp)
    requires IsRename(op) && i < |plans| && plans[i].key == q.key == op.key
    ensures TouchSource(plans, op)[i := q] == TouchSource(plans[i := q], op)
  {
    IndexOfSameKeys(plans, plans[i := q], op.oldkey.value);
  }

  /** The plans once the key's own rules have run. */
  function OpenedPlans(b: Book, op: WriteOp): seq<Plan> {
    var plans := SetPlan(b.plans, IndexOf(b.plans, op.key), Opened(b, op));
    if IsRename(op) then TouchSource(plans, op) else plans
  }

  // ----- The per-shape folds, each a loop over the operation's payload -----

  method NoteFields(d: Draft, op: WriteOp) returns (r: Result<Draft, Refusal>)
    ensures r == FoldFields(d, op, |op.fields|)
  {
    hide FoldField;
    var now := d;
    for f := 0 to |op.fields|
      invariant FoldFields(d, op, f) == Success(now)
    {
      r := FoldField(now, op, op.fields[f]);
      if r.Failure? {
        FieldRefusalSticks(d, op, f + 1);
        return;
      }
      now := r.value;
    }
    return Success(now);
  }

  method NoteTtls(p: Plan, ttls: seq<Arg>) returns (q: Plan)
    ensures q == AddActions(p, TtlSteps(ttls))
  {
    q := p;
    for t := 0 to |ttls|
      invariant q == AddActions(p, TtlSteps(ttls[..t]))
    {
      assert TtlSteps(ttls[..t + 1]) == TtlSteps(ttls[..t]) + [TtlStep(ttls[t])];
      q := AddAction(q, TtlStep(ttls[t]));
    }
    assert ttls[..|ttls|] == ttls;
  }

  /** DEL first, always; then the array's elements in the array's order. */
  method NotePacked(p: Plan, op: WriteOp) returns (r: Result<Plan, Refusal>)
    ensures r == if Packable(op) then Success(AddActions(p, [Step(ACT_DEL, [])] + PackedSteps(op, |op.packed|)))
                 else Failure(Unwritable)
  {
    var steps := [Step(ACT_DEL, [])];
    for e := 0 to |op.packed|
      invariant e > 0 ==> Packable(op)
      invariant steps == [Step(ACT_DEL, [])] + PackedSteps(op, e)
    {
      if op.ttype != ListTable && op.ttype != SetTable && op.ttype != HashTable {
        return Failure(Unwritable);
      }
      steps := steps + PackedStep(op, e);
    }
    return Success(AddActions(p, steps));
  }

  method NoteShape(d: Draft, op: WriteOp) returns (r: Result<Draft, Refusal>)
    ensures r == FoldShape(d, op)
  {
    hide FoldMember, FoldList, FoldFields, PackedSteps;
    if op.packedShape {
      var p := NotePacked(d.plan, op);
      return if p.Success? then Success(d.(plan := p.value)) else Failure(p.error);
    }
    match op.ttype
    case StringTable =>
      return Success(if op.value.Some? then d.(plan := AddAction(d.plan, Step(ACT_SET, [op.value.value]))) else d);
    case HashTable =>
      r := NoteFields(d, op);
      if r.Success? {
        var p := NoteTtls(r.value.plan, op.ttls);
        r := Success(r.value.(plan := p));
      }
    case VectorTable =>
      return Failure(Unwritable);
    case ListTable =>
      return Success(FoldList(d, op));
    case _ =>
      return FoldMember(d, op);
  }

  /** A delete whose row is the key, or a shape's own fold followed by the keyset and the key's state. */
  method NoteBody(d: Draft, op: WriteOp) returns (r: Result<Draft, Refusal>)
    ensures r == FoldBody(d, op)
  {
    hide FoldShape;
    if IsKeyDelete(op) {
      return Success(d.(plan := AddActions(d.plan,
        [Step(ACT_DEL, [])] + KeysetSteps(op, op.key, false)).(state := Deleted)));
    }
    r := NoteShape(d, op);
    if r.Success? {
      r := Success(Finish(r.value, op));
    }
  }

  lemma LastReplaced(plans: seq<Plan>, p: Plan, q: Plan)
    ensures (plans + [p])[|plans| := q] == plans + [q]
  {}

  class WriteLedger {
    var plans: seq<Plan>
    var byKey: map<Bytes, nat>
    var members: Members

    ghost predicate Valid()
      reads this
    {
      && DistinctKeys(plans)
      && (forall k :: k in byKey ==> byKey[k] < |plans| && plans[byKey[k]].key == k)
      && (forall i :: 0 <= i < |plans| ==> plans[i].key in byKey)
    }

    ghost function State(): Book
      reads this
    {
      Book(plans, members)
    }

    constructor ()
      ensures Valid() && State() == EMPTY_BOOK
    {
      plans, byKey, members := [], map[], map[];
    }

    method Reset()
      modifies this
      ensures Valid() && State() == EMPTY_BOOK
    {
      plans, byKey, members := [], map[], map[];
    }

    /** Replace one plan by another on the same key. */
    method Store(i: nat, p: Plan)
      requires Valid() && i < |plans| && p.key == plans[i].key
      modifies this`plans
      ensures Valid() && plans == old(plans)[i := p]
    {
      plans := plans[i := p];
    }

    /** Where a key's plan is, appending a new one for a key not seen before. */
    method FindOrCreate(key: Bytes, ttype: TableType) returns (i: nat, created: bool)
      requires Valid()
      modifies this`plans, this`byKey
      ensures Valid() && i == IndexOf(old(plans), key) && created == (i == |old(plans)|)
      ensures plans == if created then old(plans) + [NewPlan(key, ttype)] else old(plans)
    {
      if key in byKey {
        i, created := byKey[key], false;
        IndexIsUnique(plans, key, i);
      } else {
        i, created := |plans|, true;
        plans := plans + [NewPlan(key, ttype)];
        byKey := byKey[key := i];
      }
    }

    method NoteRelid(i: nat, relid: nat)
      requires Valid() && i < |plans|
      modifies this`plans
      ensures Valid() && plans == old(plans)[i := AddRelid(old(plans)[i], relid)]
    {
      for r := 0 to |plans[i].relids|
        invariant relid !in plans[i].relids[..r]
      {
        if plans[i].relids[r] == relid {
          return;
        }
      }
      assert plans[i].relids[..|plans[i].relids|] == plans[i].relids;
      Store(i, plans[i].(relids := plans[i].relids + [relid]));
    }

    method FoldRename(i: nat, op: WriteOp)
      requires Valid() && i < |plans| && plans[i].key == op.key && IsRename(op)
      modifies this`plans, this`byKey
      ensures Valid() && plans == TouchSource(old(plans)[i := AddActions(old(plans)[i], RenameSteps(op))], op)
    {
      hide RenameSteps, TouchSource;
      Store(i, AddActions(plans[i], RenameSteps(op)));
      FindSource(op);
    }

    /** A rename's source gets a plan of its own, with a precondition if it is new. */
    method FindSource(op: WriteOp)
      requires Valid() && IsRename(op)
      modifies this`plans, this`byKey
      ensures Valid() && plans == TouchSource(old(plans), op)
    {
      hide IndexOf, NewPlan, AddRelid;
      ghost var before, fresh' := plans, NewPlan(op.oldkey.value, op.ttype);
      var j, created := FindOrCreate(op.oldkey.value, op.ttype);
      NoteRelid(j, op.relid);
      if created {
        assert plans == before + [AddRelid(fresh', op.relid)] by { LastReplaced(before, fresh',
            AddRelid(fresh', op.relid)); }
        ghost var p := Precondition(plans[j], true, Update, false);
        LastReplaced(before, plans[j], p);
        Store(j, Precondition(plans[j], true, Update, false));
      }
    }

    /** The key's own rules: find its plan, refuse a duplicate, establish the precondition, fold a rename. */
    method Open(op: WriteOp) returns (i: nat, duplicate: bool)
      requires Valid()
      modifies this`plans, this`byKey
      ensures Valid() && i == IndexOf(old(plans), op.key)
      ensures duplicate == IsDuplicate(PlanFor(old(State()), op), op, i == |old(plans)|)
      ensures !duplicate ==> plans == OpenedPlans(old(State()), op)
    {
      hide TouchSource, RenameSteps, SetPlan, IsDuplicate, AddRelid;
      ghost var before := State();
      var first;
      i, first := FindOrCreate(op.key, op.ttype);
      NoteRelid(i, op.relid);
      FoundThenNoted(before, op);
      duplicate := IsDuplicate(plans[i], op, first);
      if !duplicate {
        var p := Precondition(plans[i], first, op.kind, IsRename(op));
        SetPlanTwice(before.plans, i, plans[i], p);
        Store(i, p);
        if IsRename(op) {
          SetPlanTwice(before.plans, i, p, AddActions(p, RenameSteps(op)));
          FoldRename(i, op);
        }
      }
    }

    /**
     Fold one operation, or refuse it. A refusal may leave the operation half folded; a rebuild or a reset follows.
     */
    method Note(op: WriteOp) returns (refused: Option<Refusal>)
      requires Valid()
      modifies this
      ensures Valid()
      ensures match Fold.Note(old(State()), op)
              case Success(b) => refused.None? && State() == b
              case Failure(e) => refused == Some(e)
    {
      hide FoldBody, OpenedPlans, Opened, PlanFor, IsDuplicate;
      ghost var before := State();
      var i, duplicate := Open(op);
      if duplicate {
        return Some(DuplicateKey);
      }
      OpenedAt(before, op);
      var r := NoteBody(Draft(plans[i], members), op);
      if r.Failure? {
        return Some(r.error);
      }
      BodyKeepsKey(Draft(plans[i], members), op);
      Store(i, r.value.plan);
      members := r.value.members;
      OpenedThenStored(before, op, r.value.plan);
      return None;
    }

    /** Discard everything and fold the log again. */
    method Rebuild(log: Log) returns (refused: Option<Refusal>)
      modifies this
      ensures Valid()
      ensures match FoldLog(log)
              case Success(b) => refused.None? && State() == b
              case Failure(e) => refused == Some(e)
    {
      hide Fold.Note;
      Reset();
      for i := 0 to |log|
        invariant Valid() && FoldLog(log[..i]) == Success(State())
      {
        refused := Note(log[i]);
        assert log[..i + 1][..i] == log[..i];
        if refused.Some? {
          RefusalSticks(log, i + 1);
          return;
        }
      }
      assert log[..|log|] == log;
      return None;
    }
  }

  lemma FoundThenNoted(b: Book, op: WriteOp)
    ensures var i := IndexOf(b.plans, op.key);
            var plans := if i < |b.plans| then b.plans else b.plans + [NewPlan(op.key, op.ttype)];
            plans[i := AddRelid(plans[i], op.relid)] == SetPlan(b.plans, i, PlanFor(b, op))
  {}

  lemma OpenedAt(b: Book, op: WriteOp)
    ensures var i := IndexOf(b.plans, op.key);
            i < |OpenedPlans(b, op)| && OpenedPlans(b, op)[i] == Opened(b, op) && Opened(b, op).key == op.key
  {
    var i := IndexOf(b.plans, op.key);
    if IsRename(op) {
      IndexOfOther(SetPlan(b.plans, i, Opened(b, op)), i, op.oldkey.value);
    }
  }

  lemma SetPlanTwice(plans: seq<Plan>, i: nat, p: Plan, q: Plan)
    requires i <= |plans|
    ensures SetPlan(plans, i, p)[i := q] == SetPlan(plans, i, q)
  {}

  lemma OpenedThenStored(b: Book, op: WriteOp, p: Plan)
    requires p.key == op.key
    ensures var i := IndexOf(b.plans, op.key);
            var plans := SetPlan(b.plans, i, p);
            i < |OpenedPlans(b, op)| && OpenedPlans(b, op)[i := p] == if IsRename(op) then TouchSource(plans, op)
              else plans
  {
    OpenedAt(b, op);
    if IsRename(op) {
      TouchSourceKeeps(SetPlan(b.plans, IndexOf(b.plans, op.key), Opened(b, op)), IndexOf(b.plans, op.key), p, op);
    }
    SetPlanTwice(b.plans, IndexOf(b.plans, op.key), Opened(b, op), p);
  }

  lemma {:induction false} FieldRefusalSticks(d: Draft, op: WriteOp, i: nat)
    requires i <= |op.fields|
    ensures FoldFields(d, op, i).Failure? ==> FoldFields(d, op, |op.fields|) == FoldFields(d, op, i)
    decreases |op.fields| - i
  {
    if i == |op.fields| {
    } else {
      FieldRefusalSticks(d, op, i + 1);
    }
  }

  /** A log that is refused stays refused however it goes on. */
  lemma {:induction false} RefusalSticks(log: Log, i: nat)
    requires i <= |log|
    ensures FoldLog(log[..i]).Failure? ==> FoldLog(log) == FoldLog(log[..i])
    decreases |log| - i
  {
    if i == |log| {
      assert log[..i] == log;
    } else {
      RefusalSticks(log, i + 1);
      assert log[..i + 1][..i] == log[..i];
    }
  }
}
