/** One script runs on one node: the slot check before a cluster flush, against the keys the flush will declare. */
module SlotCheck {
  import opened Common
  import Decimal
  import opened Opcodes
  import opened WriteOps
  import opened Fold
  import opened Encode
  import opened Slot

  // ----- The keys a log writes, and the keys the encoder declares -----

  /** The row's key, the key a rename takes it from, and the keyset when the operation edits it. */
  function OpWrites(op: WriteOp): set<Bytes> {
    {op.key}
    + (if IsRename(op) then {op.oldkey.value} else {})
    + (if op.kind == Insert || IsKeyDelete(op) || IsRename(op) then KeysetOf(op) else {})
  }

  function KeysetOf(op: WriteOp): set<Bytes> {
    if op.keyset.Some? then {op.keyset.value} else {}
  }

  function Writes(log: Log): set<Bytes> {
    if log == [] then {} else Writes(log[..|log| - 1]) + OpWrites(log[|log| - 1])
  }

  function StepNames(steps: seq<Step>, action: bool): set<Bytes> {
    set s | s in steps && Named(s, action).Some? :: Named(s, action).value
  }

  /** The keys a plan's steps name besides its own. */
  function StepKeys(p: Plan): set<Bytes> {
    StepNames(p.checks, false) + StepNames(p.actions, true)
  }

  function Names(p: Plan): set<Bytes> {
    {p.key} + StepKeys(p)
  }

  predicate InBook(plans: seq<Plan>, k: Bytes) {
    exists i :: 0 <= i < |plans| && k in Names(plans[i])
  }

  lemma AppendedNames(a: seq<Step>, b: seq<Step>, action: bool)
    ensures StepNames(a + b, action) == StepNames(a, action) + StepNames(b, action)
  {}

  lemma AddCheckNames(p: Plan, s: Step)
    requires Named(s, false).None?
    ensures Names(AddCheck(p, s)) == Names(p)
  {
    AppendedNames(p.checks, [s], false);
    assert StepNames([s], false) == {};
  }

  lemma AddActionsNames(p: Plan, steps: seq<Step>)
    ensures Names(AddActions(p, steps)) == Names(p) + StepNames(steps, true)
  {
    AppendedNames(p.actions, steps, true);
  }

  lemma AddActionNames(p: Plan, s: Step)
    requires Named(s, true).None?
    ensures Names(AddAction(p, s)) == Names(p)
  {
    AddActionsNames(p, [s]);
    assert StepNames([s], true) == {};
  }

  lemma KeysetStepNames(op: WriteOp, key: Bytes, add: bool)
    ensures StepNames(KeysetSteps(op, key, add), true) == KeysetOf(op)
  {
    if op.keyset.Some? {
      var s := KeysetSteps(op, key, add)[0];
      assert KeysetSteps(op, key, add) == [s] && Named(s, true) == Some(op.keyset.value);
      assert s in [s];
    }
  }

  lemma FieldNames(d: Draft, op: WriteOp, f: Arg)
    ensures FoldField(d, op, f).Success? ==> Names(FoldField(d, op, f).value.plan) == Names(d.plan)
  {
    hide Names;
    var s := Step(if op.kind == Insert then CHK_HFIELD_ABSENT else CHK_HFIELD_PRESENT, [f.name]);
    AddCheckNames(d.plan, s);
    AddActionNames(AddCheck(d.plan, s), FieldStep(f));
    AddActionNames(d.plan, FieldStep(f));
  }

  lemma {:induction false} FieldsNames(d: Draft, op: WriteOp, i: nat)
    requires i <= |op.fields|
    ensures FoldFields(d, op, i).Success? ==> Names(FoldFields(d, op, i).value.plan) == Names(d.plan)
  {
    hide FoldField, Names;
    if i == 0 {
    } else {
      FieldsNames(d, op, i - 1);
      if FoldFields(d, op, i - 1).Success? {
        FieldNames(FoldFields(d, op, i - 1).value, op, op.fields[i - 1]);
      }
    }
  }

  lemma PreconditionNames(d: Draft, op: WriteOp)
    requires op.member.Some?
    ensures MemberPrecondition(d, op).Success? ==> Names(MemberPrecondition(d, op).value.plan) == Names(d.plan)
  {
    hide Names;
    AddCheckNames(d.plan, MemberCheck(d.plan.ttype == ZSetTable, op.kind, OldMember(op)));
  }

  lemma MemberNames(d: Draft, op: WriteOp)
    ensures FoldMember(d, op).Success? ==> Names(FoldMember(d, op).value.plan) == Names(d.plan)
  {
    hide Names, MemberPrecondition;
    if op.member.Some? && MemberPrecondition(d, op).Success? {
      PreconditionNames(d, op);
      var d1 := MemberPrecondition(d, op).value;
      var z := d1.plan.ttype == ZSetTable;
      AddActionNames(d1.plan, RemoveStep(z, op.member.value));
      AddActionNames(d1.plan, AddStep(z, op));
      if IsMemberRename(op) {
        AddActionNames(d1.plan, RemoveStep(z, op.oldmember.value));
        AddActionNames(Renamed(d1, op).plan, AddStep(z, op));
      }
    }
  }

  lemma ListNames(d: Draft, op: WriteOp)
    ensures Names(FoldList(d, op).plan) == Names(d.plan)
  {
    hide Names;
    if op.member.Some? {
      var v := op.member.value;
      var check := Step(CHK_LVALUE_COUNT_GE, [v, Decimal.Show(MemberAt(d.members, op.key, v).removals + 1)]);
      AddCheckNames(d.plan, check);
      AddActionNames(AddCheck(d.plan, check), Step(ACT_LREM1, [v]));
      AddActionNames(d.plan, Step(ACT_LREM1, [v]));
      AddActionNames(d.plan, Step(ACT_RPUSH, [v]));
    }
  }

  lemma {:induction false} PackedNames(op: WriteOp, i: nat)
    requires i <= |op.packed|
    ensures StepNames(PackedSteps(op, i), true) == {}
  {
    if i == 0 {
    } else {
      PackedNames(op, i - 1);
      AppendedNames(PackedSteps(op, i - 1), PackedStep(op, i - 1), true);
    }
  }

  lemma ShapeNames(d: Draft, op: WriteOp)
    ensures FoldShape(d, op).Success? ==> Names(FoldShape(d, op).value.plan) == Names(d.plan)
  {
    hide Names, FoldFields, FoldMember, FoldList, PackedSteps, StepNames;
    if op.packedShape {
      var steps := [Step(ACT_DEL, [])] + PackedSteps(op, |op.packed|);
      AddActionsNames(d.plan, steps);
      AppendedNames([Step(ACT_DEL, [])], PackedSteps(op, |op.packed|), true);
      PackedNames(op, |op.packed|);
      DeleteNames();
    } else {
      match op.ttype
      case StringTable =>
        if op.value.Some? { AddActionNames(d.plan, Step(ACT_SET, [op.value.value])); }
      case HashTable =>
        FieldsNames(d, op, |op.fields|);
        if FoldFields(d, op, |op.fields|).Success? {
          AddActionsNames(FoldFields(d, op, |op.fields|).value.plan, TtlSteps(op.ttls));
          TtlNames(op.ttls);
        }
      case SetTable => MemberNames(d, op);
      case ZSetTable => MemberNames(d, op);
      case ListTable => ListNames(d, op);
      case VectorTable =>
    }
  }

  lemma DeleteNames()
    ensures StepNames([Step(ACT_DEL, [])], true) == {}
  {}

  lemma TtlNames(ttls: seq<Arg>)
    ensures StepNames(TtlSteps(ttls), true) == {}
  {}

  lemma BodyNames(d: Draft, op: WriteOp)
    requires FoldBody(d, op).Success?
    ensures Names(FoldBody(d, op).value.plan)
            == Names(d.plan) + if op.kind == Insert || IsKeyDelete(op) then KeysetOf(op) else {}
  {
    hide FoldShape, StepNames, KeysetSteps;
    if IsKeyDelete(op) {
      var keyset := KeysetSteps(op, op.key, false);
      AddActionsNames(d.plan, [Step(ACT_DEL, [])] + keyset);
      AppendedNames([Step(ACT_DEL, [])], keyset, true);
      DeleteNames();
      KeysetStepNames(op, op.key, false);
    } else {
      ShapeNames(d, op);
      AddActionsNames(FoldShape(d, op).value.plan, KeysetSteps(op, op.key, true));
      KeysetStepNames(op, op.key, true);
    }
  }

  lemma RenameStepNames(op: WriteOp)
    requires IsRename(op)
    ensures StepNames(RenameSteps(op), true) == {op.oldkey.value} + KeysetOf(op)
  {
    var move, off, on := [Step(ACT_RENAME, [op.oldkey.value])], KeysetSteps(op, op.oldkey.value, false),
      KeysetSteps(op, op.key, true);
    AppendedNames(move, off, true);
    AppendedNames(move + off, on, true);
    KeysetStepNames(op, op.oldkey.value, false);
    KeysetStepNames(op, op.key, true);
    assert Named(move[0], true) == Some(op.oldkey.value) && move[0] in move;
    assert StepNames(move, true) == {op.oldkey.value};
  }

  /** The names of the plan `op` meets, if it has one already. */
  function NamesAt(plans: seq<Plan>, i: nat): set<Bytes> {
    if i < |plans| then Names(plans[i]) else {}
  }

  lemma FirstNames(p: Plan, first: bool, kind: OpKind, target: bool)
    ensures Names(Precondition(p, first, kind, target)) == Names(p)
  {
    AddCheckNames(p, Step(CHK_KEY_ABSENT, []));
    AddCheckNames(p, Step(CHK_KEY_PRESENT, []));
  }

  lemma NewPlanNames(key: Bytes, ttype: TableType)
    ensures Names(NewPlan(key, ttype)) == {key}
  {
    assert Named(Step(CHK_TYPE_OK, []), false).None?;
  }

  lemma OpenedNames(b: Book, op: WriteOp)
    ensures Names(Opened(b, op)) == NamesAt(b.plans, IndexOf(b.plans, op.key)) + {op.key}
                                    + if IsRename(op) then {op.oldkey.value} + KeysetOf(op) else {}
  {
    hide StepNames, RenameSteps, Precondition;
    var i := IndexOf(b.plans, op.key);
    NewPlanNames(op.key, op.ttype);
    var p := PlanFor(b, op);
    assert Names(p) == NamesAt(b.plans, i) + {op.key};
    FirstNames(p, i == |b.plans|, op.kind, IsRename(op));
    if IsRename(op) {
      AddActionsNames(Precondition(p, i == |b.plans|, op.kind, true), RenameSteps(op));
      RenameStepNames(op);
    }
  }

  lemma SetPlanNames(plans: seq<Plan>, i: nat, p: Plan, more: set<Bytes>, k: Bytes)
    requires i <= |plans| && Names(p) == NamesAt(plans, i) + more
    ensures InBook(SetPlan(plans, i, p), k) <==> InBook(plans, k) || k in more
  {
    hide Names;
    var r := SetPlan(plans, i, p);
    if InBook(plans, k) {
      var j :| 0 <= j < |plans| && k in Names(plans[j]);
      assert k in Names(r[j]);
    }
    if k in more {
      assert k in Names(r[i]);
    }
  }

  lemma TouchedSourceNames(plans: seq<Plan>, op: WriteOp, k: Bytes)
    requires IsRename(op)
    ensures InBook(TouchSource(plans, op), k) <==> InBook(plans, k) || k == op.oldkey.value
  {
    hide StepNames, InBook;
    var source := op.oldkey.value;
    var j := IndexOf(plans, source);
    NewPlanNames(source, op.ttype);
    var fresh' := AddRelid(NewPlan(source, op.ttype), op.relid);
    FirstNames(fresh', true, Update, false);
    var p := if j == |plans| then Precondition(fresh', true, Update, false) else AddRelid(plans[j], op.relid);
    assert TouchSource(plans, op) == SetPlan(plans, j, p);
    assert Names(p) == NamesAt(plans, j) + {source};
    SetPlanNames(plans, j, p, {source}, k);
  }

  lemma NoteNames(b: Book, op: WriteOp, k: Bytes)
    requires Note(b, op).Success?
    ensures InBook(Note(b, op).value.plans, k) <==> InBook(b.plans, k) || k in OpWrites(op)
  {
    hide Names, FoldBody, Opened, InBook, NamesAt, TouchSource;
    var i := IndexOf(b.plans, op.key);
    var d := Draft(Opened(b, op), b.members);
    OpenedNames(b, op);
    BodyNames(d, op);
    var p := FoldBody(d, op).value.plan;
    SetPlanNames(b.plans, i, p, OpWrites(op), k);
    if IsRename(op) {
      TouchedSourceNames(SetPlan(b.plans, i, p), op, k);
    }
  }

  lemma {:induction false} FoldNames(log: Log, k: Bytes)
    requires FoldLog(log).Success?
    ensures InBook(FoldLog(log).value.plans, k) <==> k in Writes(log)
  {
    hide Note, OpWrites;
    if log == [] {
    } else {
      FoldNames(log[..|log| - 1], k);
      NoteNames(FoldLog(log[..|log| - 1]).value, log[|log| - 1], k);
    }
  }

  // ----- The key table -----

  lemma {:induction false} DeclaredSteps(keys: seq<Bytes>, steps: seq<Step>, action: bool, k: Bytes)
    ensures k in DeclareSteps(keys, steps, action) <==> k in keys || k in StepNames(steps, action)
    decreases steps
  {
    hide StepNames;
    if steps == [] {
      NothingNamed(steps, action);
    } else {
      var s := steps[0];
      assert [s] + steps[1..] == steps;
      AppendedNames([s], steps[1..], action);
      OneNamed(s, action);
      DeclaredSteps(if Named(s, action).Some? then Intern(keys, Named(s, action).value)
        else keys, steps[1..], action, k);
    }
  }

  lemma NothingNamed(steps: seq<Step>, action: bool)
    requires steps == []
    ensures StepNames(steps, action) == {}
  {}

  lemma OneNamed(s: Step, action: bool)
    ensures StepNames([s], action) == if Named(s, action).Some? then {Named(s, action).value} else {}
  {
    assert s in [s];
  }

  lemma {:induction false} Declared(keys: seq<Bytes>, plans: seq<Plan>, k: Bytes)
    ensures k in Declare(keys, plans)
            <==> k in keys || exists i :: 0 <= i < |plans| && k in StepKeys(plans[i])
    decreases plans
  {
    hide StepNames, DeclareSteps;
    if plans == [] {
    } else {
      var p := plans[0];
      var mid := DeclareSteps(keys, p.checks, false);
      DeclaredSteps(keys, p.checks, false, k);
      DeclaredSteps(mid, p.actions, true, k);
      Declared(DeclarePlan(keys, p), plans[1..], k);
      if i :| 0 <= i < |plans| && k in StepKeys(plans[i]) {
        assert i > 0 ==> plans[i] == plans[1..][i - 1];
      }
      if i :| 0 <= i < |plans[1..]| && k in StepKeys(plans[1..][i]) {
        assert plans[1..][i] == plans[i + 1];
      }
    }
  }

  lemma {:induction false} Interned(keys: seq<Bytes>, more: seq<Bytes>, k: Bytes)
    ensures k in InternAll(keys, more) <==> k in keys || k in more
    decreases more
  {
    if more == [] {
    } else {
      Interned(Intern(keys, more[0]), more[1..], k);
    }
  }

  lemma TableIsOfTheBook(plans: seq<Plan>, k: Bytes)
    ensures k in KeyTable(plans) <==> InBook(plans, k)
  {
    hide StepNames, Declare, InternAll;
    Interned([], PlanKeys(plans), k);
    Declared(InternAll([], PlanKeys(plans)), plans, k);
    if InBook(plans, k) {
      var i :| 0 <= i < |plans| && k in Names(plans[i]);
      assert PlanKeys(plans)[i] == plans[i].key;
    }
    if k in PlanKeys(plans) {
      var i :| 0 <= i < |plans| && PlanKeys(plans)[i] == k;
      assert k in Names(plans[i]);
    }
    if i :| 0 <= i < |plans| && k in StepKeys(plans[i]) {
      assert k in Names(plans[i]);
    }
  }

  /** KEYS holds exactly the keys the log writes: none missing, so none undeclared, and none extra. */
  lemma {:induction false} KeyTableIsWhatTheLogWrites(log: Log, k: Bytes)
    requires FoldLog(log).Success?
    ensures k in KeyTable(FoldLog(log).value.plans) <==> k in Writes(log)
  {
    hide FoldLog, KeyTable, Writes, InBook;
    FoldNames(log, k);
    TableIsOfTheBook(FoldLog(log).value.plans, k);
  }

  // ----- The check -----

  datatype Clash = Clash(key: Bytes, first: Bytes)

  /** The unit's slot so far, and the key that gave it. */
  datatype Unit = Unit(slot: Option<nat>, first: Bytes)

  function Present(k: Option<Bytes>): set<Bytes> {
    if k.Some? && k.value != [] then {k.value} else {}
  }

  function OpChecks(op: WriteOp): set<Bytes> {
    Present(Some(op.key)) + Present(op.oldkey) + Present(op.keyset)
  }

  /** The keys the check looks at: every non-empty one an operation carries. */
  function Checked(log: Log): set<Bytes> {
    if log == [] then {} else Checked(log[..|log| - 1]) + OpChecks(log[|log| - 1])
  }

  /** `u` speaks for `keys`: no slot if there are none, and otherwise the slot of every one of them. */
  predicate SpeaksFor(u: Unit, keys: set<Bytes>) {
    && (u.slot.None? <==> keys == {})
    && (u.slot.Some? ==> u.first in keys && forall k :: k in keys ==> Some(SlotOf(k)) == u.slot)
  }

  predicate IsClash(c: Clash, keys: set<Bytes>) {
    c.key in keys && c.first in keys && SlotOf(c.key) != SlotOf(c.first)
  }

  method Meet(key: Option<Bytes>, u: Unit, ghost keys: set<Bytes>) returns (r: Result<Unit, Clash>)
    requires SpeaksFor(u, keys)
    ensures r.Success? ==> SpeaksFor(r.value, keys + Present(key))
    ensures r.Failure? ==> IsClash(r.error, keys + Present(key))
  {
    hide SlotOf;
    if key.None? || key.value == [] {
      assert keys + Present(key) == keys;
      return Success(u);
    }
    var slot := SlotOf(key.value);
    if u.slot.None? {
      return Success(Unit(Some(slot), key.value));
    }
    if slot == u.slot.value {
      return Success(u);
    }
    return Failure(Clash(key.value, u.first));
  }

  method MeetOp(op: WriteOp, u: Unit, ghost keys: set<Bytes>) returns (r: Result<Unit, Clash>)
    requires SpeaksFor(u, keys)
    ensures r.Success? ==> SpeaksFor(r.value, keys + OpChecks(op))
    ensures r.Failure? ==> IsClash(r.error, keys + OpChecks(op))
  {
    hide SpeaksFor, Present, SlotOf;
    var k1, k2 := keys + Present(Some(op.key)), keys + Present(Some(op.key)) + Present(op.oldkey);
    assert k2 + Present(op.keyset) == keys + OpChecks(op);
    r := Meet(Some(op.key), u, keys);
    if r.Success? { r := Meet(op.oldkey, r.value, k1); }
    if r.Success? { r := Meet(op.keyset, r.value, k2); }
  }

  /** Accepted exactly when all the keys share a slot, and then that slot; a refusal names two that do not. */
  method UnitSlot(log: Log) returns (r: Result<Option<nat>, Clash>)
    ensures r.Success? ==> (r.value.None? <==> Checked(log) == {})
    ensures r.Success? && r.value.Some? ==> forall k :: k in Checked(log) ==> SlotOf(k) == r.value.value
    ensures r.Failure? ==> IsClash(r.error, Checked(log))
  {
    hide SlotOf, OpChecks;
    var u := Unit(None, []);
    for i := 0 to |log|
      invariant SpeaksFor(u, Checked(log[..i]))
    {
      assert log[..i + 1][..i] == log[..i];
      var met := MeetOp(log[i], u, Checked(log[..i]));
      if met.Failure? {
        CheckedGrows(log, i + 1);
        return Failure(met.error);
      }
      u := met.value;
    }
    assert log[..|log|] == log;
    return Success(u.slot);
  }

  lemma {:induction false} CheckedGrows(log: Log, i: nat)
    requires i <= |log|
    ensures Checked(log[..i]) <= Checked(log)
  {
    if i < |log| {
      CheckedGrows(log[..|log| - 1], i);
      assert log[..|log| - 1][..i] == log[..i];
    } else {
      assert log[..i] == log;
    }
  }

  // ----- What the check is for -----

  lemma {:induction false} WritesAreChecked(log: Log)
    ensures Writes(log) <= Checked(log) + {[]}
  {
    if log == [] {
    } else {
      WritesAreChecked(log[..|log| - 1]);
    }
  }

  lemma EmptyKeySlot()
    ensures SlotOf([]) == 0
  {
    assert Crc([]) == Zeros(16);
    NumberOfZeros(14);
    assert Zeros(16)[2..] == Zeros(14);
  }

  lemma {:induction false} NumberOfZeros(n: nat)
    ensures Number(Zeros(n)) == 0
  {
    if n == 0 {
    } else {
      assert Zeros(n)[..n - 1] == Zeros(n - 1);
      NumberOfZeros(n - 1);
    }
  }

  /**
   A unit the check accepts for slot `s` declares no non-empty key outside it, renames included.
   The empty key is not looked at and hashes to slot 0, so the whole unit is in `s` exactly when `s` is 0 or
   nothing writes the empty key.
   */
  lemma {:induction false} AcceptedUnitIsOneSlot(log: Log, s: nat)
    requires FoldLog(log).Success? && forall k :: k in Checked(log) ==> SlotOf(k) == s
    ensures var table := KeyTable(FoldLog(log).value.plans);
            && (forall k :: k in table && k != [] ==> SlotOf(k) == s)
            && ((forall k :: k in table ==> SlotOf(k) == s) <==> s == 0 || [] !in Writes(log))
  {
    hide FoldLog, KeyTable, SlotOf, Writes, Checked;
    var table := KeyTable(FoldLog(log).value.plans);
    WritesAreChecked(log);
    EmptyKeySlot();
    forall k | k in table ensures k in Writes(log) {
      KeyTableIsWhatTheLogWrites(log, k);
    }
    KeyTableIsWhatTheLogWrites(log, []);
  }

  function InsertString(key: Bytes): WriteOp {
    WriteOp(Insert, 1, StringTable, 0, key, None, None, None, Some("v"), None, [], [], [], false, None, None)
  }

  /** The CRC of the byte 0x01 is the polynomial itself. */
  lemma SlotOfOne()
    ensures SlotOf(['\U{0001}']) == 0x1021
  {
    var key: Bytes := ['\U{0001}'];
    assert HashTag(key) == key;
    assert key[..0] == [];
    var start := Add(Zeros(16), ByteBits(key[0]) + Zeros(8));
    assert start == OneAt(7);
    Doubled(7, 7);
    assert ShiftReduce(OneAt(0)) == POLY;
    assert Crc(key) == POLY;
    NumberOfPoly();
  }

  function OneAt(i: nat): Word
    requires i < 16
  {
    Zeros(i) + [true] + Zeros(15 - i)
  }

  lemma {:induction false} Doubled(i: nat, t: nat)
    requires t <= i < 16
    ensures Repeat(OneAt(i), t) == OneAt(i - t)
  {
    if t == 0 {
    } else {
      Doubled(i, t - 1);
      assert ShiftReduce(OneAt(i - t + 1)) == OneAt(i - t);
    }
  }

  lemma NumberOfPoly()
    ensures Number(POLY[2..]) == 0x1021
  {
    hide Number;
    var p := POLY[2..];
    NumberOfZeros(1);
    assert p[..1] == Zeros(1);
    NumberSteps(p, 1, [true, false, false, false, false]);
    NumberSteps(p, 6, [false, false, true, false, false]);
    NumberSteps(p, 11, [false, false, true]);
    assert p[..14] == p;
  }

  /** A few more bits, one doubling each. */
  lemma {:induction false} NumberSteps(p: Poly, i: nat, more: Poly)
    requires i + |more| <= |p| && p[i..i + |more|] == more
    ensures Number(p[..i + |more|]) == Value(Number(p[..i]), more)
    decreases more
  {
    if more == [] {
      assert p[..i + |more|] == p[..i];
    } else {
      assert p[..i + 1][..i] == p[..i] && p[i] == more[0];
      assert p[i + 1..i + 1 + |more[1..]|] == more[1..];
      NumberSteps(p, i + 1, more[1..]);
    }
  }

  function Value(high: nat, more: Poly): nat
    decreases more
  {
    if more == [] then high else Value(2 * high + if more[0] then 1 else 0, more[1..])
  }

  /** Two INSERTs, of the empty key and of the key 0x01, are accepted for slot 4129 and declare a key of slot 0. */
  lemma {:induction false} EmptyKeyEscapesTheCheck()
    ensures var log := [InsertString([]), InsertString(['\U{0001}'])];
            && (forall k :: k in Checked(log) ==> SlotOf(k) == 4129)
            && FoldLog(log).Success?
            && [] in KeyTable(FoldLog(log).value.plans) && SlotOf([]) == 0
  {
    hide SlotOf, KeyTable;
    var log := [InsertString([]), InsertString(['\U{0001}'])];
    SlotOfOne();
    EmptyKeySlot();
    assert log[..1] == [InsertString([])] && log[..1][..0] == [];
    assert Checked(log) == {['\U{0001}']};
    KeyTableIsWhatTheLogWrites(log, []);
  }
}
