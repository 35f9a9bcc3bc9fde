/** What a transaction's list removals demand of the list beforehand: exactly what they need, and no more. */
module ListDemand {
  import opened Common
  import opened Decimal
  import opened Opcodes
  import opened Keyspace
  import opened WriteOps
  import opened Fold
  import opened Regroup
  import opened Script
  import opened NoOverwrite

  // ----- Pushes and removals of one value -----

  datatype Event = Push | Remove

  /** Removals minus pushes. */
  function Balance(ev: seq<Event>): int {
    if ev == [] then 0 else Balance(ev[..|ev| - 1]) + if ev[|ev| - 1].Remove? then 1 else -1
  }

  /** The largest balance any prefix reaches, the empty one included. */
  function Demand(ev: seq<Event>): nat {
    if ev == [] then 0
    else var d := Demand(ev[..|ev| - 1]); if Balance(ev) > d then Balance(ev) else d
  }

  lemma {:induction false} DemandIsTheLargestBalance(ev: seq<Event>)
    ensures forall i :: 0 <= i <= |ev| ==> Balance(ev[..i]) <= Demand(ev)
    ensures exists i :: 0 <= i <= |ev| && Balance(ev[..i]) == Demand(ev)
  {
    assert ev[..|ev|] == ev;
    if ev == [] {
    } else {
      var front := ev[..|ev| - 1];
      DemandIsTheLargestBalance(front);
      forall i | 0 <= i <= |ev| ensures Balance(ev[..i]) <= Demand(ev) {
        assert i <= |front| ==> ev[..i] == front[..i];
      }
      var i :| 0 <= i <= |front| && Balance(front[..i]) == Demand(front);
      assert ev[..i] == front[..i];
      assert Balance(ev[..|ev|]) == Demand(ev) || Balance(ev[..i]) == Demand(ev);
    }
  }

  /** Occurrences left when `c` were there at the start and a removal that finds none removes none. */
  function Left(ev: seq<Event>, c: nat): nat {
    if ev == [] then c
    else var l := Left(ev[..|ev| - 1], c); if ev[|ev| - 1].Push? then l + 1 else if l > 0 then l - 1 else 0
  }

  predicate EachFinds(ev: seq<Event>, c: nat) {
    forall i :: 0 <= i < |ev| && ev[i].Remove? ==> Left(ev[..i], c) > 0
  }

  lemma EachFindsEarlier(ev: seq<Event>, c: nat)
    requires ev != []
    ensures EachFinds(ev, c) <==> EachFinds(ev[..|ev| - 1], c) && (ev[|ev| - 1].Remove? ==> Left(ev[..|ev| - 1], c) > 0)
  {
    var front := ev[..|ev| - 1];
    assert forall i :: 0 <= i < |front| ==> front[i] == ev[i] && front[..i] == ev[..i];
  }

  /** The demand is the least count from which every removal, in order, finds something to remove. */
  lemma {:induction false} DemandIsLeast(ev: seq<Event>, c: nat)
    ensures EachFinds(ev, c) <==> c >= Demand(ev)
    ensures c >= Demand(ev) ==> Left(ev, c) == c - Balance(ev)
  {
    if ev == [] {
    } else {
      DemandIsLeast(ev[..|ev| - 1], c);
      EachFindsEarlier(ev, c);
    }
  }

  // ----- The log's events on one key and value -----

  predicate Concerns(op: WriteOp, key: Bytes, v: Bytes) {
    op.key == key && !op.packedShape && op.member == Some(v)
  }

  function Events(log: Log, key: Bytes, v: Bytes): seq<Event> {
    if log == [] then []
    else
      var op := log[|log| - 1];
      Events(log[..|log| - 1], key, v)
      + if Concerns(op, key, v) then [if op.kind == Delete then Remove else Push] else []
  }

  predicate ListTyped(log: Log, key: Bytes) {
    forall i :: 0 <= i < |log| && log[i].key == key ==> log[i].ttype == ListTable
  }

  /** Every operation on `key` is a mapped list row's. */
  predicate ListKey(log: Log, key: Bytes) {
    forall i :: 0 <= i < |log| && log[i].key == key ==> log[i].ttype == ListTable && !log[i].packedShape
  }

  // ----- What the fold demands -----

  predicate Demands(s: Step, v: Bytes) {
    s.op == CHK_LVALUE_COUNT_GE && |s.args| == 2 && s.args[0] == v
  }

  /** The largest count any LVALUE_COUNT_GE on `v` asks for, or 0. */
  function Largest(checks: seq<Step>, v: Bytes): nat {
    if checks == [] then 0
    else
      var l := Largest(checks[..|checks| - 1], v);
      var s := checks[|checks| - 1];
      if Demands(s, v) && ToNumber(s.args[1]).Some? && ToNumber(s.args[1]).value > l then ToNumber(s.args[1]).value
        else l
  }

  lemma LargestSnoc(checks: seq<Step>, s: Step, v: Bytes)
    ensures Largest(checks + [s], v) ==
            if Demands(s, v) && ToNumber(s.args[1]).Some? && ToNumber(s.args[1]).value > Largest(checks, v)
            then ToNumber(s.args[1]).value else Largest(checks, v)
  {
    assert (checks + [s])[..|checks|] == checks;
  }

  function ChecksOf(b: Book, key: Bytes): seq<Step> {
    var i := IndexOf(b.plans, key);
    if i < |b.plans| then b.plans[i].checks else []
  }

  /** The entry counts what was pushed and not yet removed, and what had to be there; the checks ask for the latter. */
  predicate Counted(b: Book, key: Bytes, v: Bytes, ev: seq<Event>) {
    var m := MemberAt(b.members, key, v);
    && m.removals == Demand(ev)
    && m.count == m.removals - Balance(ev)
    && Largest(ChecksOf(b, key), v) == m.removals
  }

  lemma EventStep(ev: seq<Event>, e: Event)
    ensures Balance(ev + [e]) == Balance(ev) + if e.Remove? then 1 else -1
    ensures Demand(ev + [e]) == if Balance(ev + [e]) > Demand(ev) then Balance(ev + [e]) else Demand(ev)
  {
    assert (ev + [e])[..|ev|] == ev;
  }

  lemma {:induction false} FoldListCounts(d: Draft, op: WriteOp, v: Bytes, ev: seq<Event>)
    requires op.member.Some?
    requires var m := MemberAt(d.members, op.key, v);
             m.removals == Demand(ev) && m.count == m.removals - Balance(ev) && Largest(d.plan.checks, v) == m.removals
    ensures var ev' := ev + if op.member == Some(v) then [if op.kind == Delete then Remove else Push] else [];
            var d' := FoldList(d, op);
            var m := MemberAt(d'.members, op.key, v);
            m.removals == Demand(ev') && m.count == m.removals - Balance(ev') &&
              Largest(d'.plan.checks, v) == m.removals
  {
    hide Largest, Demand, Balance, Show, ToNumber;
    var w := op.member.value;
    var m := MemberAt(d.members, op.key, w);
    EventStep(ev, if op.kind == Delete then Remove else Push);
    assert ev + [] == ev;
    if op.kind == Delete && m.count == 0 {
      var s := Step(CHK_LVALUE_COUNT_GE, [w, Show(m.removals + 1)]);
      ToNumberOfShow(m.removals + 1);
      LargestSnoc(d.plan.checks, s, v);
    }
  }

  lemma OpenedChecks(b: Book, op: WriteOp, v: Bytes)
    requires !IsRename(op)
    ensures Largest(Opened(b, op).checks, v) == Largest(ChecksOf(b, op.key), v)
    ensures Opened(b, op).key == op.key
  {
    var i := IndexOf(b.plans, op.key);
    if i == |b.plans| {
      var t := Step(CHK_TYPE_OK, []);
      LargestSnoc([], t, v);
      assert [] + [t] == [t];
      LargestSnoc([t], Step(CHK_KEY_ABSENT, []), v);
      LargestSnoc([t], Step(CHK_KEY_PRESENT, []), v);
    }
  }

  lemma NoteCounts(b: Book, op: WriteOp, key: Bytes, v: Bytes, ev: seq<Event>)
    requires Counted(b, key, v, ev) && !IsRename(op) && Note(b, op).Success?
    requires op.key == key ==> op.ttype == ListTable
    ensures Counted(Note(b, op).value, key, v, ev + if Concerns(op, key, v) then
        [if op.kind == Delete then Remove else Push] else [])
  {
    hide FoldBody, Opened, Largest, Demand, Balance;
    var d := Draft(Opened(b, op), b.members);
    var d' := FoldBody(d, op).value;
    var i := IndexOf(b.plans, op.key);
    OpenedChecks(b, op, v);
    BodyKeepsKey(d, op);
    assert ev + [] == ev;
    if op.key == key {
      ListBody(d, op);
      if op.member.Some? && !op.packedShape {
        FoldListCounts(d, op, v, ev);
      }
      IndexAfterSet(b.plans, i, d'.plan, key);
    } else {
      BodyTouchesOwnEntries(d, op);
      var id := (key, v);
      assert id in b.members <==> id in d'.members;
      IndexAfterSet(b.plans, i, d'.plan, key);
    }
  }

  lemma ListBody(d: Draft, op: WriteOp)
    requires op.ttype == ListTable
    ensures FoldBody(d, op).Success?
    ensures var d' := if op.packedShape then d else FoldList(d, op);
            FoldBody(d, op).value.members == d'.members && FoldBody(d, op).value.plan.checks == d'.plan.checks
  {}

  lemma {:induction false} FoldCounts(log: Log, key: Bytes, v: Bytes)
    requires RenameFree(log) && ListTyped(log, key) && FoldLog(log).Success?
    ensures Counted(FoldLog(log).value, key, v, Events(log, key, v))
  {
    hide Note, Counted;
    if log == [] {
      NothingCounted(key, v);
    } else {
      FoldCounts(log[..|log| - 1], key, v);
      NoteCounts(FoldLog(log[..|log| - 1]).value, log[|log| - 1], key, v, Events(log[..|log| - 1], key, v));
    }
  }

  lemma NothingCounted(key: Bytes, v: Bytes)
    ensures Counted(EMPTY_BOOK, key, v, [])
  {}

  // ----- What the server's list goes through -----

  function Occurrences(c: Cell, v: Bytes): nat {
    match c
    case Some(List(l)) => Count(l, v)
    case _ => 0
  }

  lemma {:induction false} CountAppend(l: seq<Bytes>, w: Bytes, v: Bytes)
    ensures Count(l + [w], v) == Count(l, v) + if w == v then 1 else 0
  {
    if l == [] {
      assert l + [w] == [w] && [w][1..] == [];
    } else {
      CountAppend(l[1..], w, v);
      assert (l + [w])[1..] == l[1..] + [w];
    }
  }

  lemma {:induction false} CountRemoveFirst(l: seq<Bytes>, w: Bytes, v: Bytes)
    ensures Count(RemoveFirst(l, w), v) == if w == v && Count(l, v) > 0 then Count(l, v) - 1 else Count(l, v)
  {
    if l != [] && l[0] != w {
      CountRemoveFirst(l[1..], w, v);
      var r := RemoveFirst(l, w);
      assert r[1..] == RemoveFirst(l[1..], w);
    } else if l != [] && w != v {
      assert Count(l, v) == Count(l[1..], v);
    }
  }

  function After(op: WriteOp, v: Bytes, k: nat): nat {
    if op.member != Some(v) then k else if op.kind == Delete then (if k > 0 then k - 1 else 0) else k + 1
  }

  lemma ListCellCounts(n: Numbers, c: Cell, op: WriteOp, v: Bytes)
    requires TypeOk(c, ListTable)
    ensures TypeOk(RunCell(n, c, ListSteps(op)), ListTable)
    ensures Occurrences(RunCell(n, c, ListSteps(op)), v) == After(op, v, Occurrences(c, v))
  {
    if op.member.Some? {
      hide RunCell, Count, RemoveFirst;
      var w := op.member.value;
      SingleStep(n, c, ListSteps(op)[0]);
      var l := if c.Some? then c.value.items else [];
      assert [] + [w] == [w];
      CountAppend(l, w, v);
      CountRemoveFirst(l, w, v);
      CountNothing(w, v);
    } else {
      assert ListSteps(op) == [];
    }
  }

  lemma CountNothing(w: Bytes, v: Bytes)
    ensures Count([], v) == 0 && RemoveFirst([], w) == []
  {}

  lemma ListStepCounts(n: Numbers, c: Cell, op: WriteOp, v: Bytes)
    requires op.ttype == ListTable && !op.packedShape && TypeOk(c, ListTable)
    ensures var c' := RunCell(n, c, OpSteps(op));
            && TypeOk(c', ListTable)
            && Occurrences(c', v) == After(op, v, Occurrences(c, v))
  {
    hide Occurrences, RunCell;
    ListShape(op);
    ListCellCounts(n, c, op, v);
    var c' := RunCell(n, c, ListSteps(op));
    RunCellAppend(n, c, ListSteps(op), KeysetSteps(op, op.key, true));
    KeysetStepsAreElsewhere(n, c', op, op.key, true);
    assert ListSteps(op) + [] == ListSteps(op);
  }

  lemma {:induction false} RunCounts(n: Numbers, log: Log, db: Db, key: Bytes, v: Bytes)
    requires AllSpare(log, key) && ListKey(log, key) && TypeOk(At(db, key), ListTable)
    ensures TypeOk(At(RunLog(n, log, db), key), ListTable)
    ensures Occurrences(At(RunLog(n, log, db), key), v) == Left(Events(log, key, v), Occurrences(At(db, key), v))
  {
    hide OpSteps, Occurrences, TypeOk, At, Run, RunCell, Spares;
    if log == [] {
    } else {
      var front, op := log[..|log| - 1], log[|log| - 1];
      RunCounts(n, front, db, key, v);
      OpAt(n, RunLog(n, front, db), op, key);
      if op.key == key {
        ListStepCounts(n, At(RunLog(n, front, db), key), op, v);
      }
      LeftAfter(front, op, key, v, Occurrences(At(db, key), v));
      assert front + [op] == log;
    }
  }

  /** What is left after one more operation. */
  lemma LeftAfter(front: Log, op: WriteOp, key: Bytes, v: Bytes, k: nat)
    requires op.key == key ==> !op.packedShape
    ensures Left(Events(front + [op], key, v), k)
            == if op.key == key then After(op, v, Left(Events(front, key, v), k)) else Left(Events(front, key, v), k)
  {
    var ev := Events(front, key, v);
    assert (front + [op])[..|front|] == front && ev + [] == ev;
    if Concerns(op, key, v) {
      var e := if op.kind == Delete then Remove else Push;
      assert (ev + [e])[..|ev|] == ev;
    }
  }

  /** Every removal of `v` from `key`, at its place in the log, finds an occurrence. */
  predicate RemovalsFind(n: Numbers, log: Log, db: Db, key: Bytes, v: Bytes) {
    forall i :: 0 <= i < |log| && Concerns(log[i], key, v) && log[i].kind == Delete ==>
      Occurrences(At(RunLog(n, log[..i], db), key), v) > 0
  }

  lemma NothingRemoved(n: Numbers, db: Db, key: Bytes, v: Bytes)
    ensures RemovalsFind(n, [], db, key, v) && EachFinds([], Occurrences(At(db, key), v))
  {}

  lemma RemovalsFindSnoc(n: Numbers, log: Log, db: Db, key: Bytes, v: Bytes)
    requires log != []
    ensures var front, op := log[..|log| - 1], log[|log| - 1];
            RemovalsFind(n, log, db, key, v) <==>
            RemovalsFind(n, front, db, key, v)
            && (Concerns(op, key, v) && op.kind == Delete ==> Occurrences(At(RunLog(n, front, db), key), v) > 0)
  {
    hide RunLog, Occurrences, Concerns, At;
    var front := log[..|log| - 1];
    assert forall i :: 0 <= i < |front| ==> front[..i] == log[..i] && front[i] == log[i];
  }

  lemma {:induction false} RemovalsAreEvents(n: Numbers, log: Log, db: Db, key: Bytes, v: Bytes)
    requires AllSpare(log, key) && ListKey(log, key) && TypeOk(At(db, key), ListTable)
    ensures RemovalsFind(n, log, db, key, v) <==> EachFinds(Events(log, key, v), Occurrences(At(db, key), v))
  {
    hide RunLog, Occurrences, TypeOk, Left, RemovalsFind, EachFinds, At, Spares;
    if log == [] {
      NothingRemoved(n, db, key, v);
    } else {
      var front, op := log[..|log| - 1], log[|log| - 1];
      var ev := Events(front, key, v);
      RemovalsAreEvents(n, front, db, key, v);
      RunCounts(n, front, db, key, v);
      RemovalsFindSnoc(n, log, db, key, v);
      assert ev + [] == ev;
      if Concerns(op, key, v) {
        var e := if op.kind == Delete then Remove else Push;
        EachFindsEarlier(ev + [e], Occurrences(At(db, key), v));
        assert (ev + [e])[..|ev|] == ev;
      }
    }
  }

  /**
   The demand is exact: over an accepted log's mapped list rows on one key and value, the largest count a check
   asks for is the largest surplus of removals over pushes, and a list meets it exactly when every LREM, in log
   order, removes an element.
   */
  lemma {:induction false} RemovalDemandIsExact(n: Numbers, log: Log, db: Db, key: Bytes, v: Bytes)
    requires RenameFree(log) && FoldLog(log).Success? && AllSpare(log, key)
    requires ListKey(log, key) && TypeOk(At(db, key), ListTable)
    ensures var asked := Largest(ChecksOf(FoldLog(log).value, key), v);
            && asked == Demand(Events(log, key, v))
            && (RemovalsFind(n, log, db, key, v) <==> Occurrences(At(db, key), v) >= asked)
  {
    hide FoldLog, Largest, Demand, RemovalsFind, EachFinds, Occurrences, TypeOk;
    FoldCounts(log, key, v);
    RemovalsAreEvents(n, log, db, key, v);
    DemandIsLeast(Events(log, key, v), Occurrences(At(db, key), v));
  }
}
