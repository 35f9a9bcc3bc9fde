/** The flush and the program together: what a COMMIT leaves in the keyspace, however the connection behaves. */
module Delivery {
  import opened Keyspace
  import opened WriteOps
  import opened Fold
  import opened Regroup
  import opened Commit
  import opened Flush

  /** The keyspace before attempt `i`, on a server that runs the program in the attempts that had an effect. */
  function KeyspaceAt(n: Numbers, db: Db, plans: seq<Plan>, env: nat -> Attempt, i: nat): Db {
    if i == 0 then db
    else
      var before := KeyspaceAt(n, db, plans, env, i - 1);
      if env(i - 1).effect == Nothing then before else Flushed(n, before, plans).0
  }

  /** An attempt either does not run the program, or has the effect the program has on the keyspace it finds. */
  ghost predicate Executes(n: Numbers, db: Db, plans: seq<Plan>, env: nat -> Attempt) {
    forall i :: env(i).effect != Nothing ==>
      env(i).effect == EffectOf(Flushed(n, KeyspaceAt(n, db, plans, env, i), plans).1)
  }

  lemma {:induction false} NothingHappened(n: Numbers, db: Db, plans: seq<Plan>, env: nat -> Attempt, i: nat)
    requires forall j :: 0 <= j < i ==> env(j).effect == Nothing
    ensures KeyspaceAt(n, db, plans, env, i) == db
  {
    if i == 0 {
    } else {
      NothingHappened(n, db, plans, env, i - 1);
    }
  }

  /** The last attempt, where the ones before it ran nothing, has the effect of one run of the program on `db`. */
  lemma LastEffect(n: Numbers, db: Db, plans: seq<Plan>, env: nat -> Attempt, last: nat)
    requires Executes(n, db, plans, env) && forall j :: 0 <= j < last ==> env(j).effect == Nothing
    ensures env(last).effect == Nothing ==> KeyspaceAt(n, db, plans, env, last + 1) == db
    ensures env(last).effect != Nothing ==>
              && env(last).effect == EffectOf(Flushed(n, db, plans).1)
              && KeyspaceAt(n, db, plans, env, last + 1) == Flushed(n, db, plans).0
  {
    hide Flushed;
    NothingHappened(n, db, plans, env, last);
  }

  /**
   A COMMIT that returns has left exactly the transaction's writes, in log order, over the keyspace it found; an error
   raised outside SENT has left that keyspace alone; and when keysets take turns no error says it was applied in part.
   */
  lemma {:induction false} CommitDelivers(n: Numbers, log: Log, db: Db, c: Config, env: nat -> Attempt, loaded: bool)
    requires RenameFree(log) && TypeConsistent(log) && NumbersParse(n, log) && FoldLog(log).Success?
    requires c.nplans == |FoldLog(log).value.plans| && HonestServer(env, c.nplans)
    requires Executes(n, db, FoldLog(log).value.plans, env)
    ensures var plans := FoldLog(log).value.plans;
            var (ending, last) := Flush.Run(c, env, loaded);
            var after := KeyspaceAt(n, db, plans, env, last + 1);
            && (ending.Returned? ==> Passes(db, plans) && after == RunPlans(n, plans, db))
            && (ending.Returned? && KeysetsApart(log) ==> after == RunLog(n, log, db))
            && (ending.Raised? && ending.phase != Sent && c.pipeline > 2 ==> after == db)
            && (KeysetsHoldSets(db, log) && KeysetsTakeTurns(n, log, plans) ==>
                !(ending.Raised? && ending.cause == PartlyApplied) && (after == db || after == RunPlans(n, plans, db)))
  {
    hide Flush.Run, FoldLog, Flushed, RunPlans, RunLog, HonestServer, KeysetsTakeTurns, KeysetsSmooth, Passes,
      KeyspaceAt, Executes;
    var plans := FoldLog(log).value.plans;
    var (ending, last) := Flush.Run(c, env, loaded);
    CommitIsExactlyOnce(c, env, loaded);
    LastEffect(n, db, plans, env, last);
    CommitIsExact(n, log, db);
    PartlyMeansInPart(c, env, loaded);
    if KeysetsHoldSets(db, log) {
      CommitIsAllOrNothing(n, log, db);
    }
  }

  lemma PartlyMeansInPart(c: Config, env: nat -> Attempt, loaded: bool)
    requires HonestServer(env, c.nplans)
    ensures var (ending, last) := Flush.Run(c, env, loaded);
            ending.Raised? && ending.cause == PartlyApplied ==> env(last).effect == WroteInPart
  {
    RunEndsAtATry(c, env, 0, 0, false, loaded);
  }
}
