/**
 What a buffered row leaves in the keyspace, said of the row alone: no opcode, no step and no plan is named in the
 definitions, and the steps the ledger writes are proved to do exactly this.
 */
module Rows {
  import opened Common
  import opened Opcodes
  import opened Keyspace
  import opened WriteOps
  import opened Fold
  import opened Regroup
  import opened NoOverwrite
  import Commit

  // ----- Reading a cell -----

  /** The server keeps no empty collection. */
  predicate Populated(c: Cell) {
    match c
    case Some(Hash(h)) => h != map[]
    case Some(List(l)) => l != []
    case Some(Set(e)) => e != {}
    case Some(ZSet(z)) => z != map[]
    case _ => true
  }

  function FieldAt(c: Cell, name: Bytes): Option<Field> {
    if c.Some? && c.value.Hash? && name in c.value.fields then Some(c.value.fields[name]) else None
  }

  function Items(c: Cell): seq<Bytes> {
    if c.Some? && c.value.List? then c.value.items else []
  }

  function Elems(c: Cell): set<Bytes> {
    if c.Some? && c.value.Set? then c.value.elems else {}
  }

  function Scores(c: Cell): map<Bytes, Bytes> {
    if c.Some? && c.value.ZSet? then c.value.scores else map[]
  }

  // ----- What a row says -----

  /** The last of the arguments that bears the name. */
  function LastMention(args: seq<Arg>, name: Bytes): (r: Option<Arg>)
    ensures r.None? ==> forall x :: 0 <= x < |args| ==> args[x].name != name
    ensures r.Some? ==> exists x :: 0 <= x < |args| && args[x] == r.value && args[x].name == name
                                    && forall y :: x < y < |args| ==> args[y].name != name
  {
    if args == [] then None
    else if args[|args| - 1].name == name then Some(args[|args| - 1])
    else LastMention(args[..|args| - 1], name)
  }

  /** A written field holds the value given and no expiry, a NULL removes it, and an unnamed one is as it was. */
  function Written(fields: seq<Arg>, name: Bytes, was: Option<Field>): Option<Field> {
    match LastMention(fields, name)
    case None => was
    case Some(f) => Unexpiring(f.data)
  }

  /** A field that is there takes the expiry given, and a NULL takes it away. */
  function Expiring(ttls: seq<Arg>, name: Bytes, was: Option<Field>): Option<Field> {
    match LastMention(ttls, name)
    case None => was
    case Some(t) => if was.Some? then Some(was.value.(ttl := t.data)) else None
  }

  /** A field name with a value behind it: an even position that is not the last. */
  predicate IsPair(packed: seq<Bytes>, x: nat) {
    x % 2 == 0 && x + 1 < |packed|
  }

  predicate PairNames(packed: seq<Bytes>, x: nat, name: Bytes) {
    IsPair(packed, x) && packed[x] == name
  }

  /** The value of the last pair before position `i` that names the field. */
  function PairValue(packed: seq<Bytes>, i: nat, name: Bytes): (r: Option<Bytes>)
    requires i <= |packed|
    ensures r.None? ==> forall x :: 0 <= x < i ==> !PairNames(packed, x, name)
    ensures r.Some? ==> exists x :: 0 <= x < i && PairNames(packed, x, name) && r.value == packed[x + 1]
                                    && forall y :: x < y < i ==> !PairNames(packed, y, name)
  {
    if i == 0 then None
    else if PairNames(packed, i - 1, name) then Some(packed[i])
    else PairValue(packed, i - 1, name)
  }

  function Unexpiring(v: Option<Bytes>): Option<Field> {
    if v.Some? then Some(Field(v.value, None)) else None
  }

  /** A packed array is the key's whole contents, in the array's order where the type has one. */
  ghost predicate PackedLeaves(op: WriteOp, c': Cell) {
    match op.ttype
    case ListTable => Items(c') == op.packed
    case SetTable => forall m :: m in Elems(c') <==> m in op.packed
    case HashTable =>
      forall name :: FieldAt(c', name) == Unexpiring(PairValue(op.packed, |op.packed|, name))
    case _ => c' == None
  }

  function MembersAfter(op: WriteOp, was: set<Bytes>): set<Bytes> {
    if op.member.None? then was
    else if op.kind == Delete then was - {op.member.value}
    else (if op.kind == Update && op.oldmember.Some? then was - {op.oldmember.value} else was) + {op.member.value}
  }

  function ScoresAfter(op: WriteOp, was: map<Bytes, Bytes>): map<Bytes, Bytes> {
    if op.member.None? then was
    else if op.kind == Delete then was - {op.member.value}
    else (if op.kind == Update && op.oldmember.Some? then was - {op.oldmember.value} else was)
      [op.member.value := if op.score.Some? then op.score.value else "0"]
  }

  /** A deleted value loses its first occurrence, and every other row appends. */
  ghost predicate ListLeaves(op: WriteOp, was: seq<Bytes>, now: seq<Bytes>) {
    if op.member.None? then now == was
    else if op.kind != Delete then now == was + [op.member.value]
    else if op.member.value !in was then now == was
    else exists i: nat :: IsFirst(was, op.member.value, i) && now == was[..i] + was[i + 1..]
  }

  predicate IsFirst(l: seq<Bytes>, v: Bytes, i: nat) {
    i < |l| && l[i] == v && forall j :: 0 <= j < i ==> l[j] != v
  }

  predicate DeletesKey(op: WriteOp) {
    op.kind == Delete && (op.packedShape || op.ttype == StringTable || op.ttype == HashTable)
  }

  /** What a row makes of the cell under its key. */
  ghost predicate RowLeaves(op: WriteOp, c: Cell, c': Cell) {
    && TypeOk(c', op.ttype) && Populated(c')
    && if DeletesKey(op) then c' == None
       else if op.packedShape then PackedLeaves(op, c')
       else match op.ttype
         case StringTable => c' == if op.value.Some? then Some(Str(op.value.value)) else c
         case HashTable =>
           forall name :: FieldAt(c', name) == Expiring(op.ttls, name, Written(op.fields, name, FieldAt(c, name)))
         case SetTable => Elems(c') == MembersAfter(op, Elems(c))
         case ZSetTable => Scores(c') == ScoresAfter(op, Scores(c))
         case ListTable => ListLeaves(op, Items(c), Items(c'))
         case VectorTable => c' == c
  }

  /** A cell of a known type with something in it is what its contents say. */
  lemma ContentsDecide(a: Cell, b: Cell, t: TableType)
    requires TypeOk(a, t) && TypeOk(b, t) && Populated(a) && Populated(b)
    ensures t == HashTable && (forall name :: FieldAt(a, name) == FieldAt(b, name)) ==> a == b
    ensures t == SetTable && Elems(a) == Elems(b) ==> a == b
    ensures t == ZSetTable && Scores(a) == Scores(b) ==> a == b
    ensures t == ListTable && Items(a) == Items(b) ==> a == b
  {
    if t == HashTable && forall name :: FieldAt(a, name) == FieldAt(b, name) {
      SameFields(a, b);
    }
  }

  lemma SameFields(a: Cell, b: Cell)
    requires TypeOk(a, HashTable) && TypeOk(b, HashTable) && Populated(a) && Populated(b)
    requires forall name :: FieldAt(a, name) == FieldAt(b, name)
    ensures a == b
  {
    var x := if a.Some? then a.value.fields else map[];
    var y := if b.Some? then b.value.fields else map[];
    forall name ensures (name in x <==> name in y) && (name in x && name in y ==> x[name] == y[name]) {
      assert FieldAt(a, name) == FieldAt(b, name);
    }
    assert x == y;
  }

  /** The row decides: from one cell there is one outcome. */
  lemma {:induction false} RowDecides(op: WriteOp, c: Cell, a: Cell, b: Cell)
    requires RowLeaves(op, c, a) && RowLeaves(op, c, b)
    ensures a == b
  {
    hide TypeOk, Populated, FieldAt, Elems, Scores, Items, PackedLeaves, ListLeaves;
    ContentsDecide(a, b, op.ttype);
    if !DeletesKey(op) {
      if op.packedShape {
        PackedDecides(op, a, b);
      } else if op.ttype == ListTable {
        ListDecides(op, Items(c), Items(a), Items(b));
      } else if op.ttype == HashTable {
        forall name ensures FieldAt(a, name) == FieldAt(b, name) {}
      }
    }
  }

  lemma PackedDecides(op: WriteOp, a: Cell, b: Cell)
    requires PackedLeaves(op, a) && PackedLeaves(op, b)
    requires TypeOk(a, op.ttype) && TypeOk(b, op.ttype) && Populated(a) && Populated(b)
    ensures a == b
  {
    hide TypeOk, Populated, FieldAt, Elems, Scores, Items;
    ContentsDecide(a, b, op.ttype);
    if op.ttype == HashTable {
      forall name ensures FieldAt(a, name) == FieldAt(b, name) {}
    } else if op.ttype == SetTable {
      assert Elems(a) == Elems(b);
    }
  }

  lemma ListDecides(op: WriteOp, was: seq<Bytes>, a: seq<Bytes>, b: seq<Bytes>)
    requires ListLeaves(op, was, a) && ListLeaves(op, was, b)
    ensures a == b
  {
    if op.member.Some? && op.kind == Delete && op.member.value in was {
      var i: nat :| IsFirst(was, op.member.value, i) && a == was[..i] + was[i + 1..];
      var j: nat :| IsFirst(was, op.member.value, j) && b == was[..j] + was[j + 1..];
      assert i == j;
    }
  }

  // ----- Hash fields -----

  lemma FieldLeaves(n: Numbers, c: Cell, f: Arg)
    requires TypeOk(c, HashTable)
    ensures var c' := CellEffect(n, c, FieldStep(f));
            && TypeOk(c', HashTable) && (Populated(c) ==> Populated(c'))
            && forall name :: FieldAt(c', name)
                              == if name == f.name then Unexpiring(f.data) else FieldAt(c, name)
  {
    if c.Some? && f.data.None? {
      OnlyKey(c.value.fields, f.name);
    } else if f.data.Some? {
      NotEmpty(if c.Some? then c.value.fields else map[], f.name, Field(f.data.value, None));
    }
  }

  lemma NotEmpty<V>(m: map<Bytes, V>, k: Bytes, v: V)
    ensures m[k := v] != map[]
  {
    assert k in m[k := v];
  }

  lemma WrittenSnoc(fields: seq<Arg>, i: nat, name: Bytes, was: Option<Field>)
    requires 0 < i <= |fields|
    ensures Written(fields[..i], name, was)
            == if name == fields[i - 1].name then Unexpiring(fields[i - 1].data)
               else Written(fields[..i - 1], name, was)
  {
    assert fields[..i][..i - 1] == fields[..i - 1];
  }

  lemma NothingWritten(fields: seq<Arg>, name: Bytes, was: Option<Field>)
    ensures Written(fields[..0], name, was) == was
  {}

  lemma OneMoreField(n: Numbers, c: Cell, fields: seq<Arg>, i: nat)
    requires 0 < i <= |fields|
    ensures RunCell(n, c, FieldSteps(fields, i))
            == CellEffect(n, RunCell(n, c, FieldSteps(fields, i - 1)), FieldStep(fields[i - 1]))
  {
    hide RunCell, CellEffect, FieldStep;
    var front, s := FieldSteps(fields, i - 1), FieldStep(fields[i - 1]);
    FieldStepIsData(fields[i - 1]);
    SingleStep(n, RunCell(n, c, front), s);
    RunCellAppend(n, c, front, [s]);
  }

  /** The row's first `i` fields: each name's last mention is what it holds. */
  lemma {:induction false} FieldsLeave(n: Numbers, c: Cell, fields: seq<Arg>, i: nat)
    requires i <= |fields| && TypeOk(c, HashTable)
    ensures var c' := RunCell(n, c, FieldSteps(fields, i));
            && TypeOk(c', HashTable) && (Populated(c) ==> Populated(c'))
            && forall name :: FieldAt(c', name) == Written(fields[..i], name, FieldAt(c, name))
  {
    hide FieldAt, TypeOk, Populated, CellEffect, FieldStep, Written, RunCell;
    var c' := RunCell(n, c, FieldSteps(fields, i));
    if i == 0 {
      NothingRun(n, c);
      forall name ensures Written(fields[..i], name, FieldAt(c, name)) == FieldAt(c, name) {
        NothingWritten(fields, name, FieldAt(c, name));
      }
    } else {
      FieldsLeave(n, c, fields, i - 1);
      OneMoreField(n, c, fields, i);
      FieldLeaves(n, RunCell(n, c, FieldSteps(fields, i - 1)), fields[i - 1]);
      forall name ensures FieldAt(c', name) == Written(fields[..i], name, FieldAt(c, name)) {
        WrittenSnoc(fields, i, name, FieldAt(c, name));
      }
    }
  }

  /** The field an UPDATE or INSERT names holds the data given, whatever came before and whatever else is named. */
  lemma {:induction false} NamedFieldHolds(n: Numbers, db: Db, key: Bytes, fields: seq<Arg>, i: nat, x: nat)
    requires x < i <= |fields| && TypeOk(At(db, key), HashTable)
    requires forall y :: x < y < i ==> fields[y].name != fields[x].name
    ensures var c := At(Run(n, db, key, FieldSteps(fields, i)), key);
            && FieldAt(c, fields[x].name) == Unexpiring(fields[x].data)
            && forall name :: (forall y :: 0 <= y < i ==> fields[y].name != name) ==>
                 FieldAt(c, name) == FieldAt(At(db, key), name)
  {
    hide FieldAt, TypeOk, Populated, At, RunCell, Run;
    FieldStepsSpare(fields, i, key);
    RunAt(n, db, key, FieldSteps(fields, i), key);
    FieldsLeave(n, At(db, key), fields, i);
    LastMentionIs(fields[..i], x);
    forall name | forall y :: 0 <= y < i ==> fields[y].name != name
      ensures LastMention(fields[..i], name) == None
    {
      NotMentioned(fields[..i], name);
    }
  }

  lemma NotMentioned(args: seq<Arg>, name: Bytes)
    requires forall y :: 0 <= y < |args| ==> args[y].name != name
    ensures LastMention(args, name) == None
  {}

  lemma LastMentionIs(args: seq<Arg>, x: nat)
    requires x < |args| && forall y :: x < y < |args| ==> args[y].name != args[x].name
    ensures LastMention(args, args[x].name) == Some(args[x])
  {
    var r := LastMention(args, args[x].name);
    assert r.Some?;
    var y :| 0 <= y < |args| && args[y] == r.value && args[y].name == args[x].name
             && forall z :: y < z < |args| ==> args[z].name != args[x].name;
    assert x == y;
  }

  lemma FieldStepsSpare(fields: seq<Arg>, i: nat, k: Bytes)
    requires i <= |fields|
    ensures StepsSpare(FieldSteps(fields, i), k)
  {
    FieldStepsAreData(fields, i);
    forall x | 0 <= x < |FieldSteps(fields, i)| ensures StepSpares(FieldSteps(fields, i)[x], k) {
      assert IsData(FieldSteps(fields, i)[x]);
    }
  }

  // ----- Expiries -----

  lemma TtlLeaves(n: Numbers, c: Cell, t: Arg)
    requires TypeOk(c, HashTable) && (t.data.Some? ==> n.duration(t.data.value))
    ensures var c' := CellEffect(n, c, TtlStep(t));
            && TypeOk(c', HashTable) && (Populated(c) ==> Populated(c'))
            && forall name :: FieldAt(c', name)
                              == if name == t.name && FieldAt(c, name).Some?
                                 then Some(FieldAt(c, name).value.(ttl := t.data)) else FieldAt(c, name)
  {}

  lemma {:induction false} TtlsLeave(n: Numbers, c: Cell, ttls: seq<Arg>)
    requires TypeOk(c, HashTable)
    requires forall i :: 0 <= i < |ttls| && ttls[i].data.Some? ==> n.duration(ttls[i].data.value)
    ensures var c' := RunCell(n, c, TtlSteps(ttls));
            && TypeOk(c', HashTable) && (Populated(c) ==> Populated(c'))
            && forall name :: FieldAt(c', name) == Expiring(ttls, name, FieldAt(c, name))
  {
    hide FieldAt, TypeOk, Populated, CellEffect, TtlStep;
    if ttls == [] {
    } else {
      var front, t := ttls[..|ttls| - 1], ttls[|ttls| - 1];
      TtlsLeave(n, c, front);
      var before := RunCell(n, c, TtlSteps(front));
      TtlLeaves(n, before, t);
      TtlStepIsData(t);
      SingleStep(n, before, TtlStep(t));
      RunCellAppend(n, c, TtlSteps(front), [TtlStep(t)]);
      assert TtlSteps(ttls) == TtlSteps(front) + [TtlStep(t)];
    }
  }

  lemma TtlStepIsData(t: Arg)
    ensures !IsKeysetStep(TtlStep(t))
  {}

  /** The expiry a row names is the one its field has, and a field that is not there gets none. */
  lemma {:induction false} NamedExpiryHolds(n: Numbers, db: Db, op: WriteOp, x: nat)
    requires op.ttype == HashTable && !op.packedShape && op.kind != Delete && Commit.NumbersOk(n, op)
    requires TypeOk(At(db, op.key), HashTable)
    requires x < |op.ttls| && forall y :: x < y < |op.ttls| ==> op.ttls[y].name != op.ttls[x].name
    ensures var f := FieldAt(At(Run(n, db, op.key, ShapeSteps(op)), op.key), op.ttls[x].name);
            f.Some? ==> f.value.ttl == op.ttls[x].data
  {
    hide FieldAt, TypeOk, Populated, At, RunCell, Run;
    ShapeStepsSpare(op, op.key);
    RunAt(n, db, op.key, ShapeSteps(op), op.key);
    HashRowLeaves(n, At(db, op.key), op);
    LastMentionIs(op.ttls, x);
  }

  lemma HashRowLeaves(n: Numbers, c: Cell, op: WriteOp)
    requires op.ttype == HashTable && !op.packedShape && Commit.NumbersOk(n, op)
    requires TypeOk(c, HashTable)
    ensures var c' := RunCell(n, c, ShapeSteps(op));
            && TypeOk(c', HashTable) && (Populated(c) ==> Populated(c'))
            && forall name :: FieldAt(c', name)
                              == Expiring(op.ttls, name, Written(op.fields, name, FieldAt(c, name)))
  {
    hide FieldAt, TypeOk, Populated, RunCell, FieldSteps, TtlSteps;
    var i := |op.fields|;
    FieldsLeave(n, c, op.fields, i);
    TtlsLeave(n, RunCell(n, c, FieldSteps(op.fields, i)), op.ttls);
    RunCellAppend(n, c, FieldSteps(op.fields, i), TtlSteps(op.ttls));
    assert op.fields[..i] == op.fields;
  }

  // ----- Members -----

  lemma TakenOut(n: Numbers, c: Cell, z: bool, m: Bytes)
    requires TypeOk(c, if z then ZSetTable else SetTable) && Populated(c)
    ensures var c' := CellEffect(n, c, RemoveStep(z, m));
            && TypeOk(c', if z then ZSetTable else SetTable) && Populated(c')
            && if z then Scores(c') == Scores(c) - {m} else Elems(c') == Elems(c) - {m}
  {
    if c.Some? && z {
      OnlyKey(c.value.scores, m);
    }
  }

  lemma PutIn(n: Numbers, c: Cell, z: bool, op: WriteOp)
    requires TypeOk(c, if z then ZSetTable else SetTable) && Populated(c) && op.member.Some?
    requires z == (op.ttype == ZSetTable) && Commit.ScoreOk(n, op)
    ensures var c' := CellEffect(n, c, AddStep(z, op));
            && TypeOk(c', if z then ZSetTable else SetTable) && Populated(c')
            && if z then Scores(c') == Scores(c)[op.member.value := if op.score.Some? then op.score.value else "0"]
               else Elems(c') == Elems(c) + {op.member.value}
  {
    if z {
      NotEmpty(Scores(c), op.member.value, if op.score.Some? then op.score.value else "0");
    } else {
      assert op.member.value in Elems(c) + {op.member.value};
    }
  }

  lemma {:induction false} MemberRowLeaves(n: Numbers, c: Cell, op: WriteOp)
    requires op.ttype == SetTable || op.ttype == ZSetTable
    requires TypeOk(c, op.ttype) && Populated(c) && Commit.ScoreOk(n, op)
    ensures var c' := RunCell(n, c, MemberSteps(op));
            && TypeOk(c', op.ttype) && Populated(c')
            && (op.ttype == SetTable ==> Elems(c') == MembersAfter(op, Elems(c)))
            && (op.ttype == ZSetTable ==> Scores(c') == ScoresAfter(op, Scores(c)))
  {
    hide CellEffect, TypeOk, Populated, RunCell, Commit.ScoreOk;
    var z := op.ttype == ZSetTable;
    if op.member.None? {
      NothingRun(n, c);
    } else if op.kind == Delete {
      TakenOut(n, c, z, op.member.value);
      SingleStep(n, c, RemoveStep(z, op.member.value));
    } else if IsMemberRename(op) {
      var mid := CellEffect(n, c, RemoveStep(z, op.oldmember.value));
      TakenOut(n, c, z, op.oldmember.value);
      SingleStep(n, c, RemoveStep(z, op.oldmember.value));
      PutIn(n, mid, z, op);
      SingleStep(n, mid, AddStep(z, op));
      RunCellAppend(n, c, [RemoveStep(z, op.oldmember.value)], [AddStep(z, op)]);
    } else {
      PutIn(n, c, z, op);
      SingleStep(n, c, AddStep(z, op));
      assert [] + [AddStep(z, op)] == [AddStep(z, op)];
      SameMemberAgain(op, Elems(c), Scores(c));
    }
  }

  lemma NothingRun(n: Numbers, c: Cell)
    ensures RunCell(n, c, []) == c
  {}

  /** An UPDATE that keeps its member takes it out and puts it back. */
  lemma SameMemberAgain(op: WriteOp, e: set<Bytes>, z: map<Bytes, Bytes>)
    requires op.member.Some? && op.kind != Delete && !IsMemberRename(op)
    ensures MembersAfter(op, e) == e + {op.member.value}
    ensures ScoresAfter(op, z) == z[op.member.value := if op.score.Some? then op.score.value else "0"]
  {}

  // ----- Lists -----

  lemma {:induction false} FirstRemoved(l: seq<Bytes>, v: Bytes) returns (i: nat)
    requires v in l
    ensures IsFirst(l, v, i) && RemoveFirst(l, v) == l[..i] + l[i + 1..]
  {
    hide IsFirst, RemoveFirst;
    RemovedStepwise(l, v);
    if l[0] == v {
      i := 0;
      AtTheFront(l, v);
    } else {
      var j := FirstRemoved(l[1..], v);
      i := j + 1;
      FurtherDown(l, v, j);
    }
  }

  lemma RemovedStepwise(l: seq<Bytes>, v: Bytes)
    requires l != []
    ensures RemoveFirst(l, v) == if l[0] == v then l[1..] else [l[0]] + RemoveFirst(l[1..], v)
  {}

  lemma AtTheFront(l: seq<Bytes>, v: Bytes)
    requires l != [] && l[0] == v
    ensures IsFirst(l, v, 0) && l[1..] == l[..0] + l[1..]
  {}

  lemma FurtherDown(l: seq<Bytes>, v: Bytes, j: nat)
    requires l != [] && l[0] != v && IsFirst(l[1..], v, j)
    ensures j + 1 < |l| && IsFirst(l, v, j + 1)
    ensures [l[0]] + (l[1..][..j] + l[1..][j + 1..]) == l[..j + 1] + l[j + 1 + 1..]
  {
    var rest := l[1..];
    assert forall x :: 0 < x < |l| ==> l[x] == rest[x - 1];
    assert l[..j + 1] == [l[0]] + rest[..j] && l[j + 2..] == rest[j + 1..];
  }

  lemma {:induction false} NoneRemoved(l: seq<Bytes>, v: Bytes)
    requires v !in l
    ensures RemoveFirst(l, v) == l
  {
    if l == [] {
    } else {
      NoneRemoved(l[1..], v);
    }
  }

  lemma {:induction false} ListRowLeaves(n: Numbers, c: Cell, op: WriteOp)
    requires TypeOk(c, ListTable) && Populated(c)
    ensures var c' := RunCell(n, c, ListSteps(op));
            TypeOk(c', ListTable) && Populated(c') && ListLeaves(op, Items(c), Items(c'))
  {
    if op.member.None? {
    } else {
      var v := op.member.value;
      var s := Step(if op.kind == Delete then ACT_LREM1 else ACT_RPUSH, [v]);
      assert ListSteps(op) == [s];
      SingleStep(n, c, s);
      if v in Items(c) {
        var i := FirstRemoved(Items(c), v);
      } else {
        NoneRemoved(Items(c), v);
      }
    }
  }

  // ----- Packed rows -----

  ghost predicate PackedSoFar(op: WriteOp, i: nat, c: Cell)
    requires i <= |op.packed|
  {
    && TypeOk(c, op.ttype) && Populated(c)
    && match op.ttype
       case ListTable => Items(c) == op.packed[..i]
       case SetTable => forall m :: m in Elems(c) <==> m in op.packed[..i]
       case HashTable =>
         forall name :: FieldAt(c, name) == Unexpiring(PairValue(op.packed, i, name))
       case _ => c == None
  }

  lemma OnePacked(n: Numbers, op: WriteOp, i: nat, c: Cell)
    requires i < |op.packed| && PackedSoFar(op, i, c)
    ensures PackedSoFar(op, i + 1, RunCell(n, c, PackedStep(op, i)))
  {
    hide RunCell, CellEffect;
    assert op.packed[..i + 1] == op.packed[..i] + [op.packed[i]];
    var s := PackedStep(op, i);
    if s == [] {
      NothingRun(n, c);
    } else {
      SingleStep(n, c, s[0]);
      assert s == [s[0]];
      match op.ttype
      case HashTable => PairWritten(n, op, i, c);
      case SetTable => ElementWritten(n, c, op.packed[i]);
      case ListTable => ItemWritten(n, c, op.packed[i]);
      case _ =>
    }
  }

  lemma ItemWritten(n: Numbers, c: Cell, v: Bytes)
    requires TypeOk(c, ListTable)
    ensures var c' := CellEffect(n, c, Step(ACT_RPUSH, [v]));
            TypeOk(c', ListTable) && Populated(c') && Items(c') == Items(c) + [v]
  {}

  lemma ElementWritten(n: Numbers, c: Cell, v: Bytes)
    requires TypeOk(c, SetTable)
    ensures var c' := CellEffect(n, c, Step(ACT_SADD, [v]));
            TypeOk(c', SetTable) && Populated(c') && Elems(c') == Elems(c) + {v}
  {
    var c' := CellEffect(n, c, Step(ACT_SADD, [v]));
    assert v in Elems(c');
  }

  lemma PairWritten(n: Numbers, op: WriteOp, i: nat, c: Cell)
    requires i + 1 < |op.packed| && i % 2 == 0 && op.ttype == HashTable && PackedSoFar(op, i, c)
    ensures PackedSoFar(op, i + 1, CellEffect(n, c, Step(ACT_HSET, [op.packed[i], op.packed[i + 1]])))
  {
    hide CellEffect, FieldAt, TypeOk, Populated, PairValue;
    var f := Arg(op.packed[i], Some(op.packed[i + 1]));
    FieldLeaves(n, c, f);
    var c' := CellEffect(n, c, FieldStep(f));
    forall name ensures FieldAt(c', name) == Unexpiring(PairValue(op.packed, i + 1, name))
    {
      NextPair(op.packed, i, name);
    }
  }

  lemma NextPair(packed: seq<Bytes>, i: nat, name: Bytes)
    requires IsPair(packed, i)
    ensures PairValue(packed, i + 1, name)
            == if packed[i] == name then Some(packed[i + 1]) else PairValue(packed, i, name)
  {}

  lemma {:induction false} PackedSoFarRuns(n: Numbers, op: WriteOp, i: nat)
    requires i <= |op.packed|
    ensures PackedSoFar(op, i, RunCell(n, None, PackedSteps(op, i)))
  {
    hide RunCell, PackedSoFar, PackedStep;
    if i == 0 {
      NothingRun(n, None);
      NothingPackedYet(op);
    } else {
      PackedSoFarRuns(n, op, i - 1);
      OnePacked(n, op, i - 1, RunCell(n, None, PackedSteps(op, i - 1)));
      RunCellAppend(n, None, PackedSteps(op, i - 1), PackedStep(op, i - 1));
    }
  }

  lemma NothingPackedYet(op: WriteOp)
    ensures PackedSoFar(op, 0, None)
  {}

  /** A packed row's key holds the packed array and nothing it held before. */
  lemma {:induction false} PackedRowLeaves(n: Numbers, c: Cell, op: WriteOp)
    requires op.packedShape
    ensures var c' := RunCell(n, c, ShapeSteps(op));
            TypeOk(c', op.ttype) && Populated(c') && PackedLeaves(op, c')
  {
    hide RunCell, CellEffect, TypeOk, Populated, PackedSteps, FieldAt, Items, Elems;
    var del, i := Step(ACT_DEL, []), |op.packed|;
    SingleStep(n, c, del);
    assert CellEffect(n, c, del) == None by { Deleting(n, c); }
    RunCellAppend(n, c, [del], PackedSteps(op, i));
    PackedSoFarRuns(n, op, i);
    assert op.packed[..i] == op.packed;
  }

  lemma Deleting(n: Numbers, c: Cell)
    ensures CellEffect(n, c, Step(ACT_DEL, [])) == None
  {}

  // ----- Every shape -----

  lemma StringRowLeaves(n: Numbers, c: Cell, op: WriteOp)
    requires op.ttype == StringTable && !op.packedShape && TypeOk(c, StringTable) && Populated(c)
    ensures var c' := RunCell(n, c, ShapeSteps(op));
            && TypeOk(c', StringTable) && Populated(c')
            && c' == if op.value.Some? then Some(Str(op.value.value)) else c
  {
    if op.value.Some? {
      SingleStep(n, c, Step(ACT_SET, [op.value.value]));
    }
  }

  lemma {:induction false} ShapeLeaves(n: Numbers, c: Cell, op: WriteOp)
    requires !DeletesKey(op) && TypeOk(c, op.ttype) && Populated(c) && Commit.NumbersOk(n, op)
    ensures RowLeaves(op, c, RunCell(n, c, ShapeSteps(op)))
  {
    hide RunCell, TypeOk, Populated, ShapeSteps, PackedLeaves, ListLeaves, MemberSteps, ListSteps, Written, Expiring,
         FieldAt, Elems, Scores, Items, MembersAfter, ScoresAfter;
    if op.packedShape {
      PackedRowLeaves(n, c, op);
    } else {
      match op.ttype
      case StringTable => StringRowLeaves(n, c, op);
      case HashTable => HashRowLeaves(n, c, op);
      case SetTable => MemberRowLeaves(n, c, op); MemberShape(op);
      case ZSetTable => MemberRowLeaves(n, c, op); MemberShape(op);
      case ListTable => ListRowLeaves(n, c, op); ListShape(op);
      case VectorTable => NothingRun(n, c); VectorShape(op);
    }
  }

  lemma VectorShape(op: WriteOp)
    requires op.ttype == VectorTable && !op.packedShape
    ensures ShapeSteps(op) == []
  {}
}
