/** The program's CHECK and ACTION tables by number, and which check a refusal names. */
module Tables {
  import opened Common
  import opened Decimal
  import opened Opcodes
  import opened Keyspace
  import opened Script

  // ----- Checks -----

  const TYPE_NAMES: seq<string> := ["string", "hash", "list", "set", "zset", "string"]

  function TypeName(v: Value): string {
    match v
    case Str(_) => "string"
    case Hash(_) => "hash"
    case List(_) => "list"
    case Set(_) => "set"
    case ZSet(_) => "zset"
  }

  /** The key is missing, or is of the kind its plan's type code stands for. */
  predicate KindFits(c: Cell, code: nat) {
    c.Some? ==> code < |TYPE_NAMES| && TYPE_NAMES[code] == TypeName(c.value)
  }

  /** Whether the member is in the set, or nothing where the command errs. */
  function InSet(c: Cell, m: Bytes): Option<bool> {
    match c
    case None => Some(false)
    case Some(Set(e)) => Some(m in e)
    case Some(_) => None
  }

  function InHash(c: Cell, f: Bytes): Option<bool> {
    match c
    case None => Some(false)
    case Some(Hash(h)) => Some(f in h)
    case Some(_) => None
  }

  function InZSet(c: Cell, m: Bytes): Option<bool> {
    match c
    case None => Some(false)
    case Some(ZSet(z)) => Some(m in z)
    case Some(_) => None
  }

  function Occurs(c: Cell, v: Bytes): Option<nat> {
    match c
    case None => Some(0)
    case Some(List(l)) => Some(multiset(l)[v])
    case Some(_) => None
  }

  /** What check number `s.op` looks for is there; nothing where it cannot be asked. */
  function There(db: Db, key: Bytes, s: Step): Option<bool> {
    var c, a := At(db, key), s.args;
    match s.op
    case 0 => Some(key in db)
    case 1 => Some(key in db)
    case 3 => if a == [] then None else InHash(c, a[0])
    case 4 => if a == [] then None else InHash(c, a[0])
    case 5 => if a == [] then None else InSet(c, a[0])
    case 6 => if a == [] then None else InSet(c, a[0])
    case 7 => if a == [] then None else InZSet(c, a[0])
    case 8 => if a == [] then None else InZSet(c, a[0])
    case 9 =>
      if |a| < 2 || ToNumber(a[1]).None? || Occurs(c, a[0]).None? then None
      else Some(Occurs(c, a[0]).value >= ToNumber(a[1]).value)
    case 10 => if |a| < 2 then None else InSet(At(db, a[0]), a[1])
    case 11 => if |a| < 2 then None else InSet(At(db, a[0]), a[1])
    case _ => None
  }

  predicate WantsAbsent(op: nat) {
    op in {0, 3, 5, 7, 10}
  }

  predicate WantsPresent(op: nat) {
    op in {1, 4, 6, 8, 9, 11}
  }

  /** The check is satisfied: number 2 always is, the kind having been looked at before. */
  predicate Satisfied(db: Db, key: Bytes, s: Step) {
    || s.op == 2
    || (WantsAbsent(s.op) && There(db, key, s) == Some(false))
    || (WantsPresent(s.op) && There(db, key, s) == Some(true))
  }

  lemma {:induction false} CountIsMultiplicity(l: seq<Bytes>, v: Bytes)
    ensures Count(l, v) == multiset(l)[v]
  {
    if l == [] {
    } else {
      CountIsMultiplicity(l[1..], v);
      assert l == [l[0]] + l[1..];
    }
  }

  /** The CHECK table, entry by entry. */
  lemma {:induction false} CheckMeans(db: Db, key: Bytes, s: Step)
    ensures EvalCheck(db, key, s)
            == if Satisfied(db, key, s) then Pass
               else if !WantsAbsent(s.op) && !WantsPresent(s.op) then NoSuchCheck
               else if There(db, key, s).None? then LuaError
               else if WantsAbsent(s.op) then Clash else Gone
  {
    hide Count;
    var c := At(db, key);
    if c.Some? && c.value.List? && s.args != [] {
      CountIsMultiplicity(c.value.items, s.args[0]);
    }
  }

  /** A plan as phase 1 sees it: a key, a type code, and checks whose key arguments are keys again. */
  datatype Asking = Asking(key: Bytes, code: nat, checks: seq<Step>)

  function AskingOf(keys: seq<Bytes>, w: WirePlan): Asking {
    Asking(w.key, w.ttype,
           seq(|w.checks|, c requires 0 <= c < |w.checks| => Resolve(keys, w.checks[c], CheckNamesKey(w.checks[c].op))))
  }

  function Askings(keys: seq<Bytes>, ws: seq<WirePlan>): seq<Asking> {
    seq(|ws|, i requires 0 <= i < |ws| => AskingOf(keys, ws[i]))
  }

  /** The first `x` checks are satisfied, and so is the kind. */
  predicate FineUpTo(db: Db, a: Asking, x: nat)
    requires x <= |a.checks|
  {
    KindFits(At(db, a.key), a.code) && forall c :: 0 <= c < x ==> Satisfied(db, a.key, a.checks[c])
  }

  predicate Fine(db: Db, a: Asking) {
    FineUpTo(db, a, |a.checks|)
  }

  predicate AllFine(db: Db, asks: seq<Asking>) {
    forall p :: 0 <= p < |asks| ==> Fine(db, asks[p])
  }

  /** Check `x` of plan `p`, counted from 1, is the first that is not satisfied. */
  predicate FirstBad(db: Db, asks: seq<Asking>, p: nat, x: nat) {
    && 1 <= p <= |asks| && AllFine(db, asks[..p - 1])
    && 1 <= x <= |asks[p - 1].checks| && FineUpTo(db, asks[p - 1], x - 1)
    && !Satisfied(db, asks[p - 1].key, asks[p - 1].checks[x - 1])
  }

  function FactAt(db: Db, asks: seq<Asking>, p: nat, x: nat): Option<bool>
    requires 1 <= p <= |asks| && 1 <= x <= |asks[p - 1].checks|
  {
    There(db, asks[p - 1].key, asks[p - 1].checks[x - 1])
  }

  function OpAt(asks: seq<Asking>, p: nat, x: nat): nat
    requires 1 <= p <= |asks| && 1 <= x <= |asks[p - 1].checks|
  {
    asks[p - 1].checks[x - 1].op
  }

  /**
   The refusal names the first plan and check that fail, and says how: CONFLICT for something there that had to be
   absent, MISSING for something absent that had to be there, and WRONGTYPE for a key of another kind.
   */
  ghost predicate NamesTheFirst(db: Db, asks: seq<Asking>, r: Reply) {
    match r
    case Conflict(p, x) =>
      FirstBad(db, asks, p, x) && WantsAbsent(OpAt(asks, p, x)) && FactAt(db, asks, p, x) == Some(true)
    case Missing(p, x) =>
      FirstBad(db, asks, p, x) && WantsPresent(OpAt(asks, p, x)) && FactAt(db, asks, p, x) == Some(false)
    case WrongKind(p) =>
      1 <= p <= |asks| && AllFine(db, asks[..p - 1]) && !KindFits(At(db, asks[p - 1].key), asks[p - 1].code)
    case BadProto(fault, p) => fault == CheckOp && exists x: nat :: FirstBad(db, asks, p, x) && OpAt(asks, p, x) > 11
    case Raised(p, x) => FirstBad(db, asks, p, x) && OpAt(asks, p, x) <= 11 && FactAt(db, asks, p, x) == None
    case _ => false
  }

  lemma KindMeans(c: Cell, code: nat)
    ensures KindOk(c, code) <==> KindFits(c, code)
  {}

  lemma {:induction false} PlanNamesTheFirst(db: Db, keys: seq<Bytes>, ws: seq<WirePlan>, p: nat, c: nat)
    requires p < |ws| && c <= |ws[p].checks| && AllFine(db, Askings(keys, ws)[..p])
    requires FineUpTo(db, AskingOf(keys, ws[p]), c)
    ensures var r := CheckPlan(db, keys, ws[p], p + 1, c);
            if r.None? then Fine(db, AskingOf(keys, ws[p])) else NamesTheFirst(db, Askings(keys, ws), r.value)
    decreases |ws[p].checks| - c
  {
    hide EvalCheck, Satisfied, There, KindFits, AllFine, WantsAbsent, WantsPresent;
    var a := AskingOf(keys, ws[p]);
    if c < |ws[p].checks| {
      CheckMeans(db, a.key, a.checks[c]);
      if Satisfied(db, a.key, a.checks[c]) {
        PlanNamesTheFirst(db, keys, ws, p, c + 1);
      } else {
        assert FirstBad(db, Askings(keys, ws), p + 1, c + 1);
        NumbersKnown(a.checks[c].op);
        VerdictNames(db, Askings(keys, ws), p + 1, c + 1, EvalCheck(db, a.key, a.checks[c]));
      }
    }
  }

  lemma YesOrNo(f: Option<bool>)
    ensures f == None || f == Some(true) || f == Some(false)
  {
    if f.Some? && f.value {
      assert f == Some(true);
    }
  }

  lemma NumbersKnown(op: nat)
    ensures WantsAbsent(op) || WantsPresent(op) || op == 2 <==> op <= 11
    ensures !(WantsAbsent(op) && WantsPresent(op))
  {}

  lemma VerdictNames(db: Db, asks: seq<Asking>, p: nat, x: nat, v: Verdict)
    requires FirstBad(db, asks, p, x)
    requires v == var op := OpAt(asks, p, x);
                  if !WantsAbsent(op) && !WantsPresent(op) then NoSuchCheck
                  else if FactAt(db, asks, p, x).None? then LuaError
                  else if WantsAbsent(op) then Clash else Gone
    ensures NamesTheFirst(db, asks, VerdictReply(v, p, x))
  {
    hide There, KindFits, AllFine, FineUpTo, WantsAbsent, WantsPresent;
    NumbersKnown(OpAt(asks, p, x));
    assert !Satisfied(db, asks[p - 1].key, asks[p - 1].checks[x - 1]);
    YesOrNo(FactAt(db, asks, p, x));
  }

  /** Phase 1 is silent when everything is satisfied, and otherwise names the first thing that is not. */
  lemma {:induction false} Phase1NamesTheFirst(db: Db, keys: seq<Bytes>, ws: seq<WirePlan>, p: nat)
    requires p <= |ws| && AllFine(db, Askings(keys, ws)[..p])
    ensures var r := Phase1(db, keys, ws, p);
            if r.None? then AllFine(db, Askings(keys, ws)) else NamesTheFirst(db, Askings(keys, ws), r.value)
    decreases |ws| - p
  {
    hide CheckPlan, KindOk, KindFits, Satisfied;
    var asks := Askings(keys, ws);
    if p == |ws| {
      assert asks[..p] == asks;
    } else {
      KindMeans(At(db, ws[p].key), ws[p].ttype);
      if KindOk(At(db, ws[p].key), ws[p].ttype) {
        PlanNamesTheFirst(db, keys, ws, p, 0);
        if CheckPlan(db, keys, ws[p], p + 1, 0).None? {
          assert asks[..p + 1] == asks[..p] + [asks[p]];
          Phase1NamesTheFirst(db, keys, ws, p + 1);
        }
      }
    }
  }

  /** A refusal is of something: where one is named, not everything is satisfied. */
  lemma NamingIsRefusing(db: Db, asks: seq<Asking>, r: Reply)
    requires NamesTheFirst(db, asks, r)
    ensures !AllFine(db, asks) && !r.Applied? && !r.Internal?
  {
    hide Satisfied, KindFits;
  }

  // ----- Actions -----

  /** The ACTION table, entry by entry: the verb each number stands for and the argument order it takes. */
  lemma {:induction false} ActionNumbers(n: Numbers, db: Db, key: Bytes, a: Bytes, b: Bytes)
    ensures Exec(n, db, key, Step(0, [a])) == Done(db, key, Success(Some(Str(a))))
    ensures Exec(n, db, key, Step(1, [])) == Done(db, key, Success(None))
    ensures Exec(n, db, key, Step(2, [a, b])) == Done(db, key, HSet(At(db, key), a, b))
    ensures Exec(n, db, key, Step(3, [a])) == Done(db, key, HDel(At(db, key), a))
    ensures Exec(n, db, key, Step(4, [a])) == Done(db, key, SetAdd(At(db, key), a))
    ensures Exec(n, db, key, Step(5, [a])) == Done(db, key, SetRem(At(db, key), a))
    ensures Exec(n, db, key, Step(6, [a, b])) == Done(db, key, ZAdd(n, At(db, key), a, b))
    ensures Exec(n, db, key, Step(7, [a])) == Done(db, key, ZRem(At(db, key), a))
    ensures Exec(n, db, key, Step(8, [a])) == Done(db, key, RPush(At(db, key), a))
    ensures Exec(n, db, key, Step(9, [a])) == Done(db, key, LRem1(At(db, key), a))
    ensures Exec(n, db, key, Step(10, [a]))
            == if a in db then Success(Put(Put(db, a, None), key, Some(db[a]))) else Failure(NoSuchKey)
    ensures Exec(n, db, key, Step(11, [a, b])) == Done(db, a, SetAdd(At(db, a), b))
    ensures Exec(n, db, key, Step(12, [a, b])) == Done(db, a, SetRem(At(db, a), b))
    ensures n.duration(b) ==> Exec(n, db, key, Step(13, [a, b])) == Done(db, key, HTtl(At(db, key), a, Some(b)))
    ensures !n.duration(b) ==> Exec(n, db, key, Step(13, [a, b])) == Failure(NotANumber)
    ensures Exec(n, db, key, Step(14, [a])) == Done(db, key, HTtl(At(db, key), a, None))
  {
    hide SetAdd, SetRem, ZAdd, ZRem, HSet, HDel, HTtl, RPush, LRem1, Put, At, Exec, Local;
    ActionsOnTheKey(n, db, key, a, b);
    ActionsOnMembers(n, db, key, a, b);
    ActionsElsewhere(n, db, key, a, b);
  }

  lemma ActionsOnTheKey(n: Numbers, db: Db, key: Bytes, a: Bytes, b: Bytes)
    ensures Exec(n, db, key, Step(0, [a])) == Done(db, key, Success(Some(Str(a))))
    ensures Exec(n, db, key, Step(1, [])) == Done(db, key, Success(None))
    ensures Exec(n, db, key, Step(2, [a, b])) == Done(db, key, HSet(At(db, key), a, b))
    ensures Exec(n, db, key, Step(3, [a])) == Done(db, key, HDel(At(db, key), a))
    ensures n.duration(b) ==> Exec(n, db, key, Step(13, [a, b])) == Done(db, key, HTtl(At(db, key), a, Some(b)))
    ensures !n.duration(b) ==> Exec(n, db, key, Step(13, [a, b])) == Failure(NotANumber)
    ensures Exec(n, db, key, Step(14, [a])) == Done(db, key, HTtl(At(db, key), a, None))
  {
    hide SetAdd, SetRem, ZAdd, ZRem, HSet, HDel, HTtl, RPush, LRem1, Put, At;
  }

  lemma ActionsOnMembers(n: Numbers, db: Db, key: Bytes, a: Bytes, b: Bytes)
    ensures Exec(n, db, key, Step(4, [a])) == Done(db, key, SetAdd(At(db, key), a))
    ensures Exec(n, db, key, Step(5, [a])) == Done(db, key, SetRem(At(db, key), a))
    ensures Exec(n, db, key, Step(6, [a, b])) == Done(db, key, ZAdd(n, At(db, key), a, b))
    ensures Exec(n, db, key, Step(7, [a])) == Done(db, key, ZRem(At(db, key), a))
    ensures Exec(n, db, key, Step(8, [a])) == Done(db, key, RPush(At(db, key), a))
    ensures Exec(n, db, key, Step(9, [a])) == Done(db, key, LRem1(At(db, key), a))
  {
    hide SetAdd, SetRem, ZAdd, ZRem, HSet, HDel, HTtl, RPush, LRem1, Put, At;
  }

  lemma ActionsElsewhere(n: Numbers, db: Db, key: Bytes, a: Bytes, b: Bytes)
    ensures Exec(n, db, key, Step(10, [a]))
            == if a in db then Success(Put(Put(db, a, None), key, Some(db[a]))) else Failure(NoSuchKey)
    ensures Exec(n, db, key, Step(11, [a, b])) == Done(db, a, SetAdd(At(db, a), b))
    ensures Exec(n, db, key, Step(12, [a, b])) == Done(db, a, SetRem(At(db, a), b))
  {
    hide SetAdd, SetRem, ZAdd, ZRem, HSet, HDel, HTtl, RPush, LRem1, Put, At;
    assert [a, b][1..] == [b];
  }

  function Done(db: Db, k: Bytes, r: Answer): Result<Db, CommandError> {
    match r
    case Success(c) => Success(Put(db, k, c))
    case Failure(e) => Failure(e)
  }
}
