/** Which check a refused commit names, and what it says of it. */
module Refusals {
  import opened Common
  import opened Opcodes
  import opened Keyspace
  import opened WriteOps
  import opened Fold
  import opened Script
  import opened Tables
  import Commit
  import Encode
  import Flush
  import Renames
  import Regroup

  /** What the program asks about a folded ledger: each plan's key, type and checks. */
  function PlanAskings(plans: seq<Plan>): seq<Asking> {
    seq(|plans|, i requires 0 <= i < |plans| => Asking(plans[i].key, TableCode(plans[i].ttype), plans[i].checks))
  }

  lemma DecodedAsksTheSame(keys: seq<Bytes>, ws: seq<WirePlan>, plans: seq<Plan>)
    requires Commit.AllDecoded(keys, ws, plans)
    ensures Askings(keys, ws) == PlanAskings(plans)
  {
    hide Resolve;
    forall i | 0 <= i < |plans| ensures AskingOf(keys, ws[i]) == PlanAskings(plans)[i] {
      assert Commit.Decoded(keys, ws[i], plans[i]);
      assert AskingOf(keys, ws[i]).checks == plans[i].checks;
    }
  }

  /** For every ledger: a flush that is refused changes nothing and names the first check that fails, as what it is. */
  lemma {:induction false} FlushNamesTheFirst(n: Numbers, db: Db, plans: seq<Plan>)
    requires DistinctKeys(plans)
    ensures var (db', r) := Commit.Flushed(n, db, plans);
            if AllFine(db, PlanAskings(plans)) then r.Applied? || r.Internal?
            else db' == db && NamesTheFirst(db, PlanAskings(plans), r)
  {
    hide Commit.Flushed, AllFine, NamesTheFirst, Phase1, Phase2, Askings, PlanAskings, Encode.KeyTable;
    var keys := Encode.KeyTable(plans);
    var ws := Commit.FlushedIsPhases(n, db, plans);
    DecodedAsksTheSame(keys, ws, plans);
    NothingAskedYet(db, keys, ws);
    Phase1NamesTheFirst(db, keys, ws, 0);
    if Phase1(db, keys, ws, 0).None? {
      Flush.Phase2Answers(n, db, keys, ws, 0);
    } else {
      NamingIsRefusing(db, PlanAskings(plans), Phase1(db, keys, ws, 0).value);
    }
  }

  lemma NothingAskedYet(db: Db, keys: seq<Bytes>, ws: seq<WirePlan>)
    ensures AllFine(db, Askings(keys, ws)[..0])
  {}

  /**
   For every accepted log that moves no key and gives each key one type: the commit goes through to its writes exactly
   when every check is satisfied, and is otherwise refused with CONFLICT, MISSING or WRONGTYPE, whichever the first
   plan and check to fail deserve.
   */
  lemma {:induction false} LogIsRefusedByTheFirst(n: Numbers, log: Log, db: Db)
    requires RenameFree(log) && TypeConsistent(log) && FoldLog(log).Success?
    ensures var plans := FoldLog(log).value.plans;
            var (db', r) := Commit.Flushed(n, db, plans);
            && (AllFine(db, PlanAskings(plans)) <==> Commit.Passes(db, plans))
            && (!AllFine(db, PlanAskings(plans)) ==>
                  db' == db && (r.Conflict? || r.Missing? || r.WrongKind?) && NamesTheFirst(db, PlanAskings(plans), r))
  {
    hide FoldLog, Commit.Flushed, AllFine, NamesTheFirst, PlanAskings, Commit.Passes, RenameFree, TypeConsistent,
         Commit.BookFits, Commit.BookSits, Commit.AllTyped;
    var plans := FoldLog(log).value.plans;
    FoldKeepsKeysDistinct(log);
    FlushNamesTheFirst(n, db, plans);
    Commit.FlushedRuns(n, db, plans);
    Commit.LogTypes(Renames.ANY_NUMBER, log);
    Commit.FoldSits(Renames.ANY_NUMBER, log, Regroup.Typing(log), Commit.Keysets(log));
    if !Commit.Passes(db, plans) {
      Commit.RefusedOpenly(n, db, plans);
    }
    if !AllFine(db, PlanAskings(plans)) {
      NamingIsRefusing(db, PlanAskings(plans), Commit.Flushed(n, db, plans).1);
    }
  }
}
