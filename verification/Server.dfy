/** The program as it runs: a cursor over ARGV, then two loops, the second over a keyspace that changes under it. */
module Server {
  import opened Common
  import opened Opcodes
  import opened Keyspace
  import opened Script
  import opened Tables

  method ReadSteps(argv: seq<Bytes>, start: nat, count: nat) returns (steps: seq<Step>, i: nat, ok: bool)
    ensures DecodeSteps(argv, start, count, []) == if ok then Some((steps, i)) else None
  {
    hide NumberAt, ArgsAt;
    steps, i, ok := [], start, true;
    for c := 0 to count
      invariant DecodeSteps(argv, start, count, []) == DecodeSteps(argv, i, count - c, steps)
    {
      var op, n := NumberAt(argv, i), NumberAt(argv, i + 1);
      if op.None? || n.None? {
        ok := false;
        return;
      }
      steps := steps + [Step(op.value, ArgsAt(argv, i + 2, n.value))];
      i := i + 2 + n.value;
    }
  }

  method ReadPlan(keys: seq<Bytes>, argv: seq<Bytes>, start: nat, p: nat) returns (r: Result<(WirePlan, nat), Reply>)
    ensures r == DecodePlan(keys, argv, start, p)
  {
    var kx, tt, rq := NumberAt(argv, start), NumberAt(argv, start + 1), NumberAt(argv, start + 2);
    var nc, na := NumberAt(argv, start + 3), NumberAt(argv, start + 4);
    if kx.None? || tt.None? || rq.None? || nc.None? || na.None? {
      return Failure(BadProto(PlanHeader, p));
    }
    if kx.value < 1 || kx.value > |keys| {
      return Failure(BadProto(KeyIndex, p));
    }
    var checks, i, checksOk := ReadSteps(argv, start + 5, nc.value);
    if !checksOk {
      return Failure(BadProto(CheckStep, p));
    }
    var actions, j, actionsOk := ReadSteps(argv, i, na.value);
    if !actionsOk {
      return Failure(BadProto(ActionStep, p));
    }
    return Success((WirePlan(keys[kx.value - 1], tt.value, rq.value, checks, actions), j));
  }

  method ReadPlans(keys: seq<Bytes>, argv: seq<Bytes>, start: nat, count: nat) returns (r: Result<(seq<WirePlan>, nat),
                   Reply>)
    ensures r == DecodePlans(keys, argv, start, count, [])
  {
    hide DecodePlan;
    var plans, i := [], start;
    for p := 0 to count
      invariant |plans| == p
      invariant DecodePlans(keys, argv, start, count, []) == DecodePlans(keys, argv, i, count - p, plans)
    {
      var plan := ReadPlan(keys, argv, i, p + 1);
      if plan.Failure? {
        return Failure(plan.error);
      }
      plans := plans + [plan.value.0];
      i := plan.value.1;
    }
    return Success((plans, i));
  }

  method ReadProgram(keys: seq<Bytes>, argv: seq<Bytes>) returns (r: Result<seq<WirePlan>, Reply>)
    ensures r == Decode(keys, argv)
  {
    if argv == [] || argv[0] != "V1" {
      return Failure(BadProto(Version, 0));
    }
    var nplans := NumberAt(argv, 1);
    if nplans.None? {
      return Failure(BadProto(PlanCount, 0));
    }
    var body := ReadPlans(keys, argv, 2, nplans.value);
    if body.Failure? {
      return Failure(body.error);
    }
    var (plans, i) := body.value;
    if i != |argv| {
      return Failure(BadProto(Trailing, 0));
    }
    return Success(plans);
  }

  class Valkey {
    var db: Db
    const numbers: Numbers

    constructor (db: Db, numbers: Numbers)
      ensures this.db == db && this.numbers == numbers
    {
      this.db := db;
      this.numbers := numbers;
    }

    /** Read verbs only, and a single exit: the first check not satisfied, named as what it is. */
    method Check(keys: seq<Bytes>, plans: seq<WirePlan>) returns (refused: Option<Reply>)
      ensures refused == Phase1(db, keys, plans, 0)
      ensures refused.None? ==> AllFine(db, Askings(keys, plans))
      ensures refused.Some? ==> NamesTheFirst(db, Askings(keys, plans), refused.value)
    {
      hide EvalCheck, KindOk, VerdictReply, NamesTheFirst;
      Phase1NamesTheFirst(db, keys, plans, 0);
      for p := 0 to |plans|
        invariant Phase1(db, keys, plans, 0) == Phase1(db, keys, plans, p)
      {
        var plan := plans[p];
        if !KindOk(At(db, plan.key), plan.ttype) {
          return Some(WrongKind(p + 1));
        }
        for c := 0 to |plan.checks|
          invariant CheckPlan(db, keys, plan, p + 1, 0) == CheckPlan(db, keys, plan, p + 1, c)
        {
          var v := EvalCheck(db, plan.key, Resolve(keys, plan.checks[c], CheckNamesKey(plan.checks[c].op)));
          if !v.Pass? {
            return Some(VerdictReply(v, p + 1, c + 1));
          }
        }
      }
      return None;
    }

    method Write(keys: seq<Bytes>, plans: seq<WirePlan>) returns (reply: Reply)
      modifies this`db
      ensures (db, reply) == Phase2(numbers, old(db), keys, plans, 0)
      ensures reply.Applied? || reply.Internal?
    {
      for p := 0 to |plans|
        invariant Phase2(numbers, old(db), keys, plans, 0) == Phase2(numbers, db, keys, plans, p)
      {
        var plan := plans[p];
        ghost var before := db;
        for c := 0 to |plan.actions|
          invariant Act(numbers, before, keys, plan, 0) == Act(numbers, db, keys, plan, c)
        {
          var r := Exec(numbers, db, plan.key, Resolve(keys, plan.actions[c], ActionNamesKey(plan.actions[c].op)));
          if r.Failure? {
            return Internal(p + 1, c + 1);
          }
          db := r.value;
        }
      }
      return Applied(|plans|);
    }

    /** Every exit but the last two leaves the keyspace as it was found. */
    method EvalSha(keys: seq<Bytes>, argv: seq<Bytes>) returns (reply: Reply)
      modifies this`db
      ensures (db, reply) == Eval(numbers, old(db), keys, argv)
      ensures !reply.Applied? && !reply.Internal? ==> db == old(db)
    {
      var plans := ReadProgram(keys, argv);
      if plans.Failure? {
        return plans.error;
      }
      var refused := Check(keys, plans.value);
      if refused.Some? {
        return refused.value;
      }
      reply := Write(keys, plans.value);
    }
  }
}
