/** Valkey's keyspace, and what each write verb of the Lua program does to it. */
module Keyspace {
  import opened Common
  import opened Opcodes

  datatype Field = Field(value: Bytes, ttl: Option<Bytes>)

  datatype Value =
    | Str(text: Bytes)
    | Hash(fields: map<Bytes, Field>)
    | List(items: seq<Bytes>)
    | Set(elems: set<Bytes>)
    | ZSet(scores: map<Bytes, Bytes>)

  /** What one key holds: nothing, or a value. */
  type Cell = Option<Value>

  type Db = map<Bytes, Value>

  /** Which texts the server parses as a score and as a duration in milliseconds. */
  datatype Numbers = Numbers(score: Bytes -> bool, duration: Bytes -> bool)

  datatype CommandError = WrongType | NoSuchKey | NotANumber | BadArguments

  type Answer = Result<Cell, CommandError>

  function At(db: Db, k: Bytes): Cell {
    if k in db then Some(db[k]) else None
  }

  function Put(db: Db, k: Bytes, c: Cell): Db {
    match c
    case Some(v) => db[k := v]
    case None => map k' | k' in db && k' != k :: db[k']
  }

  /** The type name TYPE answers, matched against the table type as the program's TYPENAME table does. */
  predicate Suits(v: Value, t: TableType) {
    match v
    case Str(_) => t == StringTable || t == VectorTable
    case Hash(_) => t == HashTable
    case List(_) => t == ListTable
    case Set(_) => t == SetTable
    case ZSet(_) => t == ZSetTable
  }

  predicate TypeOk(c: Cell, t: TableType) {
    c.Some? ==> Suits(c.value, t)
  }

  // ----- One command on one cell. An emptied collection is a key that is gone. -----

  function SetAdd(c: Cell, m: Bytes): Answer {
    match c
    case None => Success(Some(Set({m})))
    case Some(Set(e)) => Success(Some(Set(e + {m})))
    case Some(_) => Failure(WrongType)
  }

  function SetRem(c: Cell, m: Bytes): Answer {
    match c
    case None => Success(None)
    case Some(Set(e)) => Success(if e - {m} == {} then None else Some(Set(e - {m})))
    case Some(_) => Failure(WrongType)
  }

  function ZAdd(n: Numbers, c: Cell, score: Bytes, m: Bytes): Answer {
    if !n.score(score) then Failure(NotANumber) else
    match c
    case None => Success(Some(ZSet(map[m := score])))
    case Some(ZSet(z)) => Success(Some(ZSet(z[m := score])))
    case Some(_) => Failure(WrongType)
  }

  function ZRem(c: Cell, m: Bytes): Answer {
    match c
    case None => Success(None)
    case Some(ZSet(z)) => Success(if z - {m} == map[] then None else Some(ZSet(z - {m})))
    case Some(_) => Failure(WrongType)
  }

  /** A write gives the field a fresh value and no expiry. */
  function HSet(c: Cell, f: Bytes, v: Bytes): Answer {
    match c
    case None => Success(Some(Hash(map[f := Field(v, None)])))
    case Some(Hash(h)) => Success(Some(Hash(h[f := Field(v, None)])))
    case Some(_) => Failure(WrongType)
  }

  function HDel(c: Cell, f: Bytes): Answer {
    match c
    case None => Success(None)
    case Some(Hash(h)) => Success(if h - {f} == map[] then None else Some(Hash(h - {f})))
    case Some(_) => Failure(WrongType)
  }

  /** Setting or clearing the expiry of a missing field changes nothing and is no error. */
  function HTtl(c: Cell, f: Bytes, ttl: Option<Bytes>): Answer {
    match c
    case None => Success(None)
    case Some(Hash(h)) => Success(Some(Hash(if f in h then h[f := h[f].(ttl := ttl)] else h)))
    case Some(_) => Failure(WrongType)
  }

  function RPush(c: Cell, v: Bytes): Answer {
    match c
    case None => Success(Some(List([v])))
    case Some(List(l)) => Success(Some(List(l + [v])))
    case Some(_) => Failure(WrongType)
  }

  function RemoveFirst(l: seq<Bytes>, v: Bytes): seq<Bytes> {
    if l == [] then [] else if l[0] == v then l[1..] else [l[0]] + RemoveFirst(l[1..], v)
  }

  function LRem1(c: Cell, v: Bytes): Answer {
    match c
    case None => Success(None)
    case Some(List(l)) => Success(var r := RemoveFirst(l, v); if r == [] then None else Some(List(r)))
    case Some(_) => Failure(WrongType)
  }

  /** The arguments an action closure passes to its verb; a missing one is a nil the server refuses. */
  function Arity(op: nat): nat {
    if op == ACT_DEL then 0
    else if op == ACT_HSET || op == ACT_ZADD || op == ACT_HPEXPIRE || op == ACT_KSET_ADD || op == ACT_KSET_REM then 2
    else 1
  }

  /** An action on the key its plan names, as the program's ACTION table dispatches it. */
  function Local(n: Numbers, c: Cell, s: Step): Answer {
    var a := s.args;
    if |a| < Arity(s.op) then Failure(BadArguments)
    else if s.op == ACT_SET then Success(Some(Str(a[0])))
    else if s.op == ACT_DEL then Success(None)
    else if s.op == ACT_HSET then HSet(c, a[0], a[1])
    else if s.op == ACT_HDEL then HDel(c, a[0])
    else if s.op == ACT_SADD then SetAdd(c, a[0])
    else if s.op == ACT_SREM then SetRem(c, a[0])
    else if s.op == ACT_ZADD then ZAdd(n, c, a[0], a[1])
    else if s.op == ACT_ZREM then ZRem(c, a[0])
    else if s.op == ACT_RPUSH then RPush(c, a[0])
    else if s.op == ACT_LREM1 then LRem1(c, a[0])
    else if s.op == ACT_HPEXPIRE then (if n.duration(a[1]) then HTtl(c, a[0], Some(a[1])) else Failure(NotANumber))
    else if s.op == ACT_HPERSIST then HTtl(c, a[0], None)
    else Failure(BadArguments)
  }

  /** The key a step writes: a keyset step writes the keyset it names, every other step its plan's key. */
  function Target(key: Bytes, s: Step): Bytes {
    if (s.op == ACT_KSET_ADD || s.op == ACT_KSET_REM) && s.args != [] then s.args[0] else key
  }

  /** A keyset step as the set command it is. */
  function Plain(s: Step): Step {
    if s.op == ACT_KSET_ADD && s.args != [] then Step(ACT_SADD, s.args[1..])
    else if s.op == ACT_KSET_REM && s.args != [] then Step(ACT_SREM, s.args[1..])
    else s
  }

  function Exec(n: Numbers, db: Db, key: Bytes, s: Step): Result<Db, CommandError> {
    if s.op == ACT_RENAME then
      if s.args == [] then Failure(BadArguments)
      else if s.args[0] !in db then Failure(NoSuchKey)
      else Success(Put(Put(db, s.args[0], None), key, Some(db[s.args[0]])))
    else
      var t := Target(key, s);
      match Local(n, At(db, t), Plain(s))
      case Success(c) => Success(Put(db, t, c))
      case Failure(e) => Failure(e)
  }

  /** A command that fails changes nothing. */
  function Effect(n: Numbers, db: Db, key: Bytes, s: Step): Db {
    match Exec(n, db, key, s)
    case Success(db') => db'
    case Failure(_) => db
  }

  /** Every command of `steps` in order, on the key they all belong to. */
  function Run(n: Numbers, db: Db, key: Bytes, steps: seq<Step>): Db {
    if steps == [] then db
    else Effect(n, Run(n, db, key, steps[..|steps| - 1]), key, steps[|steps| - 1])
  }

  function CellEffect(n: Numbers, c: Cell, s: Step): Cell {
    match Local(n, c, s)
    case Success(c') => c'
    case Failure(_) => c
  }

  lemma EffectIsLocal(n: Numbers, db: Db, key: Bytes, s: Step)
    requires s.op != ACT_RENAME
    ensures Effect(n, db, key, s) ==
            Put(db, Target(key, s), CellEffect(n, At(db, Target(key, s)), Plain(s)))
  {
    var t := Target(key, s);
    if Local(n, At(db, t), Plain(s)).Failure? {
      assert Put(db, t, At(db, t)) == db;
    }
  }

  lemma PutAt(db: Db, k: Bytes, c: Cell, k': Bytes)
    ensures At(Put(db, k, c), k') == if k' == k then c else At(db, k')
  {}

  lemma {:induction false} RunAppend(n: Numbers, db: Db, key: Bytes, a: seq<Step>, b: seq<Step>)
    ensures Run(n, db, key, a + b) == Run(n, Run(n, db, key, a), key, b)
  {
    if b == [] {
      assert a + b == a;
    } else {
      RunAppend(n, db, key, a, b[..|b| - 1]);
      assert (a + b)[..|a + b| - 1] == a + b[..|b| - 1];
    }
  }

  // ----- Commands that commute -----

  /**
   The first step is no rename, and the two write different keys or edit different members of one keyset; a rename
   writes its source as well as its target.
   */
  predicate Apart(k1: Bytes, a: Step, k2: Bytes, b: Step) {
    && a.op != ACT_RENAME
    && (b.op == ACT_RENAME ==> b.args != [] && Target(k1, a) != b.args[0])
    && (Target(k1, a) == Target(k2, b) ==>
        && (a.op == ACT_KSET_ADD || a.op == ACT_KSET_REM)
        && (b.op == ACT_KSET_ADD || b.op == ACT_KSET_REM)
        && |a.args| == |b.args| == 2 && a.args[1] != b.args[1])
  }

  lemma MemberEditsCommute(n: Numbers, c: Cell, a: Step, b: Step)
    requires a.op == ACT_SADD || a.op == ACT_SREM
    requires b.op == ACT_SADD || b.op == ACT_SREM
    requires |a.args| == |b.args| == 1 && a.args[0] != b.args[0]
    ensures CellEffect(n, CellEffect(n, c, a), b) == CellEffect(n, CellEffect(n, c, b), a)
  {
    var x, y := a.args[0], b.args[0];
    match c
    case None =>
      assert {x} + {y} == {y} + {x} && {x} - {y} == {x} && {y} - {x} == {y};
    case Some(Set(e)) =>
      assert (e + {x}) + {y} == (e + {y}) + {x};
      assert (e + {x}) - {y} == (e - {y}) + {x} && (e + {y}) - {x} == (e - {x}) + {y};
      assert (e - {x}) - {y} == (e - {y}) - {x};
      assert e - {y} == {} ==> (e + {x}) - {y} == {x};
      assert e - {x} == {} ==> (e + {y}) - {x} == {y};
    case Some(_) =>
  }

  lemma PutCommutes(db: Db, k1: Bytes, c1: Cell, k2: Bytes, c2: Cell)
    requires k1 != k2
    ensures Put(Put(db, k1, c1), k2, c2) == Put(Put(db, k2, c2), k1, c1)
  {
    var x, y := Put(Put(db, k1, c1), k2, c2), Put(Put(db, k2, c2), k1, c1);
    assert x.Keys == y.Keys;
  }

  lemma {:induction false} EffectsCommute(n: Numbers, db: Db, k1: Bytes, a: Step, k2: Bytes, b: Step)
    requires Apart(k1, a, k2, b)
    ensures Effect(n, Effect(n, db, k1, a), k2, b) == Effect(n, Effect(n, db, k2, b), k1, a)
  {
    if b.op == ACT_RENAME {
      RenameCommutes(n, db, k1, a, k2, b);
    } else {
      CommandsCommute(n, db, k1, a, k2, b);
    }
  }

  lemma CommandsCommute(n: Numbers, db: Db, k1: Bytes, a: Step, k2: Bytes, b: Step)
    requires Apart(k1, a, k2, b) && b.op != ACT_RENAME
    ensures Effect(n, Effect(n, db, k1, a), k2, b) == Effect(n, Effect(n, db, k2, b), k1, a)
  {
    hide CellEffect, At, Put, Effect;
    var t1, t2 := Target(k1, a), Target(k2, b);
    var c1, c2 := CellEffect(n, At(db, t1), Plain(a)), CellEffect(n, At(db, t2), Plain(b));
    EffectIsLocal(n, db, k1, a);
    EffectIsLocal(n, db, k2, b);
    EffectIsLocal(n, Put(db, t1, c1), k2, b);
    EffectIsLocal(n, Put(db, t2, c2), k1, a);
    PutAt(db, t1, c1, t2);
    PutAt(db, t2, c2, t1);
    if t1 == t2 {
      MemberEditsCommute(n, At(db, t1), Plain(a), Plain(b));
      PutTwice(db, t1, c1, CellEffect(n, c1, Plain(b)));
      PutTwice(db, t1, c2, CellEffect(n, c2, Plain(a)));
    } else {
      PutCommutes(db, t1, c1, t2, c2);
    }
  }

  /** A rename commutes with a command that writes neither of its keys. */
  lemma RenameCommutes(n: Numbers, db: Db, k1: Bytes, a: Step, k2: Bytes, b: Step)
    requires Apart(k1, a, k2, b) && b.op == ACT_RENAME
    ensures Effect(n, Effect(n, db, k1, a), k2, b) == Effect(n, Effect(n, db, k2, b), k1, a)
  {
    hide CellEffect, Put, Local;
    var t, x := Target(k1, a), b.args[0];
    var c := CellEffect(n, At(db, t), Plain(a));
    EffectIsLocal(n, db, k1, a);
    PutAt(db, t, c, x);
    if x in db {
      var moved := Put(Put(db, x, None), k2, Some(db[x]));
      EffectIsLocal(n, moved, k1, a);
      PutAt(db, x, None, t);
      PutAt(Put(db, x, None), k2, Some(db[x]), t);
      PutCommutes(db, t, c, x, None);
      PutCommutes(Put(db, x, None), t, c, k2, Some(db[x]));
    }
  }

  lemma PutTwice(db: Db, k: Bytes, c1: Cell, c2: Cell)
    ensures Put(Put(db, k, c1), k, c2) == Put(db, k, c2)
  {
    var x, y := Put(Put(db, k, c1), k, c2), Put(db, k, c2);
    assert x.Keys == y.Keys;
  }

  lemma {:induction false} StepCommutesWithRun(n: Numbers, db: Db, k1: Bytes, a: Step, k2: Bytes, bs: seq<Step>)
    requires forall b :: b in bs ==> Apart(k1, a, k2, b)
    ensures Run(n, Effect(n, db, k1, a), k2, bs) == Effect(n, Run(n, db, k2, bs), k1, a)
  {
    if bs == [] {
    } else {
      var front, b := bs[..|bs| - 1], bs[|bs| - 1];
      StepCommutesWithRun(n, db, k1, a, k2, front);
      assert b in bs;
      EffectsCommute(n, Run(n, db, k2, front), k1, a, k2, b);
    }
  }

  /** Two runs every step of which is apart from every step of the other may be exchanged. */
  lemma {:induction false} RunsCommute(n: Numbers, db: Db, k1: Bytes, acts: seq<Step>, k2: Bytes, bs: seq<Step>)
    requires forall a, b :: a in acts && b in bs ==> Apart(k1, a, k2, b)
    ensures Run(n, Run(n, db, k1, acts), k2, bs) == Run(n, Run(n, db, k2, bs), k1, acts)
  {
    if acts == [] {
    } else {
      var front, a := acts[..|acts| - 1], acts[|acts| - 1];
      RunsCommute(n, db, k1, front, k2, bs);
      assert a in acts;
      StepCommutesWithRun(n, Run(n, db, k1, front), k1, a, k2, bs);
    }
  }
}
