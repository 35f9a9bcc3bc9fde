/** Where the guarantees stop: accepted logs that pass every check and are applied in part, overwrite or lose a row. */
module CommitLimits {
  import opened Common
  import opened Opcodes
  import opened Keyspace
  import opened WriteOps
  import opened Fold
  import opened Script
  import opened Encode
  import opened Commit
  import opened Regroup
  import opened Cells
  import opened NoOverwrite
  import opened KeysetInserts
  import opened SetInserts
  import opened Assumptions
  import opened Renames
  import opened MovedLogs
  import opened Traces

  function StringOp(kind: OpKind, key: Bytes, oldkey: Option<Bytes>, value: Option<Bytes>,
                    keyset: Option<Bytes>): WriteOp {
    WriteOp(kind, 1, StringTable, 0, key, oldkey, None, None, value, None, [], [], [], false, None, keyset)
  }

  /** One action of a decoded plan is the plan's own action. */
  lemma ActStep(n: Numbers, db: Db, keys: seq<Bytes>, w: WirePlan, p: Plan, c: nat)
    requires Decoded(keys, w, p) && c < |p.actions|
    ensures Act(n, db, keys, w, c) ==
            match Exec(n, db, p.key, p.actions[c])
            case Failure(_) => (db, Some(c))
            case Success(db') => Act(n, db', keys, w, c + 1)
  {
    hide Exec, Resolve;
    assert Resolve(keys, w.actions[c], ActionNamesKey(w.actions[c].op)) == p.actions[c];
  }

  // ----- A string table's key that is another table's keyset -----

  function KeysetLog(): Log {
    [StringOp(Insert, "s", None, Some("v"), None), StringOp(Insert, "k", None, Some("v"), Some("s"))]
  }

  function Inserted(key: Bytes, keyset: seq<Step>): Plan {
    Plan(key, StringTable, RequireAbsent, Created, [Step(CHK_TYPE_OK, []), Step(CHK_KEY_ABSENT, [])],
         [Step(ACT_SET, ["v"])] + keyset, [1])
  }

  lemma InsertOnAFreshKey(b: Book, key: Bytes, keyset: Option<Bytes>)
    requires IndexOf(b.plans, key) == |b.plans|
    ensures var op := StringOp(Insert, key, None, Some("v"), keyset);
            Note(b, op) == Success(Book(b.plans + [Inserted(key, KeysetSteps(op, key, true))], b.members))
  {
    var op := StringOp(Insert, key, None, Some("v"), keyset);
    var p := Opened(b, op);
    assert p == Plan(key, StringTable, RequireAbsent, Created, [Step(CHK_TYPE_OK, []), Step(CHK_KEY_ABSENT, [])], [],
        [1]);
    var q := FoldBody(Draft(p, b.members), op).value.plan;
    assert q.actions == [Step(ACT_SET, ["v"])] + KeysetSteps(op, key, true);
    assert q == Inserted(key, KeysetSteps(op, key, true));
  }

  function KeysetPlans(): seq<Plan> {
    [Inserted("s", []), Inserted("k", [Step(ACT_KSET_ADD, ["s", "k"])])]
  }

  lemma KeysetLogFolds()
    ensures FoldLog(KeysetLog()) == Success(Book(KeysetPlans(), map[]))
  {
    hide Note, Inserted;
    var log, plans := KeysetLog(), KeysetPlans();
    assert log[..1] == [log[0]] && log[..1][..0] == [];
    InsertOnAFreshKey(EMPTY_BOOK, "s", None);
    assert EMPTY_BOOK.plans + [plans[0]] == plans[..1];
    assert FoldLog(log[..1][..0]) == Success(EMPTY_BOOK);
    assert FoldLog(log[..1]) == Success(Book(plans[..1], map[]));
    assert IndexOf(plans[..1], "k") == 1 by { InsertedKey(); }
    InsertOnAFreshKey(Book(plans[..1], map[]), "k", Some("s"));
    assert plans[..1] + [plans[1]] == plans;
  }

  lemma InsertedKey()
    ensures Inserted("s", []).key == "s" && "s" != "k"
  {
    assert "s"[0] != "k"[0];
  }

  lemma KeysetRunsInPart(n: Numbers, keys: seq<Bytes>, ws: seq<WirePlan>)
    requires AllDecoded(keys, ws, KeysetPlans())
    ensures Phase2(n, map[], keys, ws, 0) == (map["s" := Str("v"), "k" := Str("v")], Internal(2, 2))
  {
    hide Decoded, Act;
    var plans := KeysetPlans();
    var db0: Db, db1: Db, db2: Db := map[], map["s" := Str("v")], map["s" := Str("v"), "k" := Str("v")];
    assert Decoded(keys, ws[0], plans[0]) && Decoded(keys, ws[1], plans[1]);
    InsertedKey();
    ActStep(n, db0, keys, ws[0], plans[0], 0);
    ActEnd(n, db1, keys, ws[0], plans[0]);
    ActStep(n, db1, keys, ws[1], plans[1], 0);
    ActStep(n, db2, keys, ws[1], plans[1], 1);
    assert Exec(n, db2, "k", Step(ACT_KSET_ADD, ["s", "k"])).Failure?;
  }

  lemma ActEnd(n: Numbers, db: Db, keys: seq<Bytes>, w: WirePlan, p: Plan)
    requires Decoded(keys, w, p)
    ensures Act(n, db, keys, w, |p.actions|) == (db, None)
  {}

  lemma KeysetLogIsOrdinary()
    ensures var log := KeysetLog();
            RenameFree(log) && TypeConsistent(log) && KeysetsHoldSets(map[], log) && !KeysetsAreSets(log)
    ensures forall n: Numbers :: NumbersParse(n, KeysetLog())
  {
    var log := KeysetLog();
    assert log[1].keyset == Some(log[0].key) && log[0].ttype != SetTable;
  }

  /** From an empty keyspace every check passes, two keys are written, and the third write is refused. */
  lemma {:induction false} StringKeysetIsAppliedInPart(n: Numbers)
    ensures var log := KeysetLog();
            && RenameFree(log) && TypeConsistent(log) && KeysetsHoldSets(map[], log) && !KeysetsAreSets(log)
            && FoldLog(log).Success? && Passes(map[], FoldLog(log).value.plans)
            && Flushed(n, map[], FoldLog(log).value.plans) == (map["s" := Str("v"), "k" := Str("v")], Internal(2, 2))
            && !KeysetsTakeTurns(n, log, FoldLog(log).value.plans)
  {
    hide Phase1, Phase2, Flushed, KeyTable, FoldLog, KeysetLog, KeysetsTakeTurns, KeysetsHoldSets;
    KeysetLogFolds();
    KeysetLogIsOrdinary();
    InsertedKey();
    var plans, db: Db := KeysetPlans(), map[];
    var ws := FlushedIsPhases(n, db, plans);
    Phase1Decides(db, KeyTable(plans), ws, plans, 0);
    KeysetRunsInPart(n, KeyTable(plans), ws);
    CommitIsAllOrNothing(n, KeysetLog(), db);
  }

  /** The keyset a log creates and then inserts over: the second INSERT replaces the set the first one made. */
  function OverwrittenLog(): Log {
    [StringOp(Insert, "k", None, Some("v"), Some("s")), StringOp(Insert, "s", None, Some("v"), None)]
  }

  function OverwrittenPlans(): seq<Plan> {
    [Inserted("k", [Step(ACT_KSET_ADD, ["s", "k"])]), Inserted("s", [])]
  }

  lemma OverwrittenLogFolds()
    ensures FoldLog(OverwrittenLog()) == Success(Book(OverwrittenPlans(), map[]))
  {
    hide Note, Inserted;
    var log, plans := OverwrittenLog(), OverwrittenPlans();
    assert log[..1] == [log[0]] && log[..1][..0] == [];
    InsertOnAFreshKey(EMPTY_BOOK, "k", Some("s"));
    assert EMPTY_BOOK.plans + [plans[0]] == plans[..1];
    assert FoldLog(log[..1][..0]) == Success(EMPTY_BOOK);
    assert FoldLog(log[..1]) == Success(Book(plans[..1], map[]));
    assert IndexOf(plans[..1], "s") == 1 by { InsertedOther(); }
    InsertOnAFreshKey(Book(plans[..1], map[]), "s", None);
    assert plans[..1] + [plans[1]] == plans;
  }

  lemma InsertedOther()
    ensures Inserted("k", [Step(ACT_KSET_ADD, ["s", "k"])]).key == "k" && "k" != "s"
  {
    assert "s"[0] != "k"[0];
  }

  /** Accepted and passing every check, and the second INSERT finds its key already there, as the keyset of `k`. */
  lemma {:induction false} InsertOverAKeyset(n: Numbers)
    ensures var log := OverwrittenLog();
            && RenameFree(log) && TypeConsistent(log) && Unpacked(log, "s") && EditsKeyset(log[0], "s")
            && FoldLog(log).Success? && Passes(map[], FoldLog(log).value.plans)
            && KeysetMembers(log[..1], "s") == {"k"}
            && !AllFresh(n, At(RunLog(n, log[..1], map[]), "s"), OpSteps(log[1]))
  {
    hide FoldLog, RunLog, AllFresh;
    OverwrittenLogFolds();
    InsertedOther();
    var log := OverwrittenLog();
    assert log[..1][..0] == [];
    StringInsertIsFreshExactly(n, log, map[], 1);
  }

  // ----- A set table's key that is another table's keyset -----

  /** A row of `k` entered in the keyset `s`, and then a member `k` inserted into the set `s`. */
  function EnteredLog(): Log {
    [StringOp(Insert, "k", None, Some("v"), Some("s")),
     StringOp(Insert, "s", None, None, None).(ttype := SetTable, member := Some("k"))]
  }

  lemma EnteredLogFolds()
    ensures FoldLog(EnteredLog()).Success?
    ensures RowsAssume(EnteredLog(), map[])
  {
    var log := EnteredLog();
    assert "k"[0] != "s"[0];
    assert log[..1] == [log[0]] && log[..1][..0] == [];
    InsertOnAFreshKey(EMPTY_BOOK, "k", Some("s"));
    var b := Book([Inserted("k", [Step(ACT_KSET_ADD, ["s", "k"])])], map[]);
    assert EMPTY_BOOK.plans + [b.plans[0]] == b.plans;
    assert FoldLog(log[..1]) == Success(b);
    assert b.plans[0].key == "k" && IndexOf(b.plans, "s") == 1;
    assert MemberPrecondition(Draft(Opened(b, log[1]), b.members), log[1]).Success?;
  }

  lemma EnteredLogIsOrdinary()
    ensures RenameFree(EnteredLog()) && TypeConsistent(EnteredLog()) && Unpacked(EnteredLog()[..2], "s")
    ensures LastEdit(EnteredLog()[..1], "s", "k") == Some(true)
  {
    assert "k"[0] != "s"[0];
    assert EnteredLog()[..1] == [EnteredLog()[0]];
  }

  /** Accepted and passing every check, and the INSERT finds its member already in the set. */
  lemma {:induction false} SetInsertFindsItsMember(n: Numbers)
    ensures var log := EnteredLog();
            && FoldLog(log).Success? && Passes(map[], FoldLog(log).value.plans)
            && Has(At(RunLog(n, log[..1], map[]), "s"), "k")
            && !AllFresh(n, At(RunLog(n, log[..1], map[]), "s"), OpSteps(log[1]))
  {
    hide FoldLog, RunLog, AllFresh, RowsAssume, Passes, LastEdit, Has;
    EnteredLogFolds();
    EnteredLogIsOrdinary();
    PhaseOneAsksWhatTheRowsAssume(EnteredLog(), map[]);
    SetInsertIsFreshExactly(n, EnteredLog(), map[], 1);
  }

  // ----- A key moved away, back, and away again -----

  function Move(source: Bytes, target: Bytes): WriteOp {
    StringOp(Update, target, Some(source), None, None)
  }

  function ShuttleLog(): Log {
    [Move("a", "b"), Move("b", "a"), Move("a", "b")]
  }

  function Target(moves: seq<Step>): Plan {
    Plan("b", StringTable, RequireAbsent, Created, [Step(CHK_TYPE_OK, []), Step(CHK_KEY_ABSENT, [])], moves, [1])
  }

  function Source(moves: seq<Step>): Plan {
    Plan("a", StringTable, RequirePresent, Live, [Step(CHK_TYPE_OK, []), Step(CHK_KEY_PRESENT, [])], moves, [1])
  }

  function Moving(key: Bytes): Step {
    Step(ACT_RENAME, [key])
  }

  lemma FirstMove()
    ensures Note(EMPTY_BOOK, Move("a", "b")) == Success(Book([Target([Moving("a")]), Source([])], map[]))
  {
    var op := Move("a", "b");
    assert "a"[0] != "b"[0];
    assert RenameSteps(op) == [Moving("a")];
    var p := Opened(EMPTY_BOOK, op);
    assert p.actions == [] + RenameSteps(op) == [Moving("a")];
    assert p == Target([Moving("a")]);
    assert FoldBody(Draft(p, map[]), op) == Success(Draft(p, map[]));
    assert SetPlan([], 0, p) == [p];
    var q := Precondition(AddRelid(NewPlan("a", StringTable), 1), true, Update, false);
    assert q.checks == [Step(CHK_TYPE_OK, []), Step(CHK_KEY_PRESENT, [])] && q.relids == [1] && q == Source([]);
    assert [p][0].key != "a" && IndexOf([p], "a") == 1;
    assert TouchSource([p], op) == [p] + [q] == [p, Source([])];
  }

  lemma IndexOfIs(plans: seq<Plan>, i: nat)
    requires i < |plans| && DistinctKeys(plans)
    ensures IndexOf(plans, plans[i].key) == i
  {
    var j := IndexOf(plans, plans[i].key);
    assert j <= i;
  }

  lemma MoveBetweenKnownKeys(b: Book, i: nat, j: nat)
    requires i < |b.plans| && j < |b.plans| && b.plans[i].key != b.plans[j].key && DistinctKeys(b.plans)
    requires b.plans[i].relids == [1] && b.plans[j].relids == [1] && b.plans[i].state != Deleted
    ensures Note(b, Move(b.plans[j].key, b.plans[i].key))
            == Success(b.(plans := b.plans[i := AddActions(b.plans[i], [Moving(b.plans[j].key)])]))
  {
    var op := Move(b.plans[j].key, b.plans[i].key);
    assert RenameSteps(op) == [Moving(b.plans[j].key)];
    IndexOfIs(b.plans, i);
    var p := Opened(b, op);
    assert p == AddActions(b.plans[i], [Moving(b.plans[j].key)]);
    assert FoldBody(Draft(p, b.members), op) == Success(Draft(p, b.members));
    var plans := SetPlan(b.plans, i, p);
    IndexOfIs(plans, j);
    assert TouchSource(plans, op) == plans[j := plans[j]] == plans;
  }

  function ShuttlePlans(): seq<Plan> {
    [Target([Moving("a"), Moving("a")]), Source([Moving("b")])]
  }

  lemma ShuttleLogFolds()
    ensures FoldLog(ShuttleLog()) == Success(Book(ShuttlePlans(), map[]))
  {
    hide Note;
    var log := ShuttleLog();
    var b1, b2 := Book([Target([Moving("a")]), Source([])], map[]),
      Book([Target([Moving("a")]), Source([Moving("b")])], map[]);
    assert "a"[0] != "b"[0];
    assert log[..2][..1] == log[..1] && log[..1][..0] == [];
    FirstMove();
    assert FoldLog(log[..1]) == Success(b1);
    MoveBetweenKnownKeys(b1, 1, 0);
    assert [] + [Moving("b")] == [Moving("b")] && [Moving("a")] + [Moving("a")] == [Moving("a"), Moving("a")];
    assert b1.plans[1 := AddActions(b1.plans[1], [Moving("b")])] == b2.plans;
    assert FoldLog(log[..2]) == Success(b2);
    MoveBetweenKnownKeys(b2, 0, 1);
    assert b2.plans[0 := AddActions(b2.plans[0], [Moving("a")])] == ShuttlePlans();
  }

  /** All of a key's renames run together, so the second finds its source gone: refused after the first was applied. */
  lemma {:induction false} RepeatedRenameIsAppliedInPart(n: Numbers)
    ensures var log, db: Db := ShuttleLog(), map["a" := Str("v")];
            && FoldLog(log).Success? && Passes(db, FoldLog(log).value.plans)
            && Flushed(n, db, FoldLog(log).value.plans) == (map["b" := Str("v")], Internal(1, 2))
            && LiveKeys(AllCommands(FoldLog(log).value.plans), Start(FoldLog(log).value.plans)).None?
  {
    hide Phase1, Phase2, Flushed, KeyTable, FoldLog, LiveKeys, Cells.AllCommands;
    ShuttleLogFolds();
    assert "a"[0] != "b"[0];
    var plans, db: Db := ShuttlePlans(), map["a" := Str("v")];
    var ws := FlushedIsPhases(n, db, plans);
    Phase1Decides(db, KeyTable(plans), ws, plans, 0);
    ShuttleRunsInPart(n, KeyTable(plans), ws);
    RenamesAreExact(n, ShuttleLog(), db);
  }

  lemma ShuttleRunsInPart(n: Numbers, keys: seq<Bytes>, ws: seq<WirePlan>)
    requires AllDecoded(keys, ws, ShuttlePlans())
    ensures Phase2(n, map["a" := Str("v")], keys, ws, 0) == (map["b" := Str("v")], Internal(1, 2))
  {
    hide Decoded, Act;
    var plans := ShuttlePlans();
    var db0: Db, db1: Db := map["a" := Str("v")], map["b" := Str("v")];
    assert Decoded(keys, ws[0], plans[0]);
    assert "a"[0] != "b"[0];
    ActStep(n, db0, keys, ws[0], plans[0], 0);
    assert Put(Put(db0, "a", None), "b", Some(Str("v"))) == db1;
    ActStep(n, db1, keys, ws[0], plans[0], 1);
  }

  // ----- A key written again after its row has moved away -----

  /** Set a, move it to b, and move c to a. */
  function RefilledLog(): Log {
    [StringOp(Update, "a", None, Some("1"), None), Move("a", "b"), Move("c", "a")]
  }

  function Sat(key: Bytes, actions: seq<Step>): Plan {
    Plan(key, StringTable, RequirePresent, Live, [Step(CHK_TYPE_OK, []), Step(CHK_KEY_PRESENT, [])], actions, [1])
  }

  const SET_ONE := Step(ACT_SET, ["1"])

  function RefilledPlans(): seq<Plan> {
    [Sat("a", [SET_ONE, Moving("c")]), Target([Moving("a")]), Sat("c", [])]
  }

  lemma RefilledFirst()
    ensures Note(EMPTY_BOOK, RefilledLog()[0]) == Success(Book([Sat("a", [SET_ONE])], map[]))
  {
    var op := RefilledLog()[0];
    var p := Opened(EMPTY_BOOK, op);
    assert p == Sat("a", []);
    assert [] + [SET_ONE] == [SET_ONE];
    assert FoldBody(Draft(p, map[]), op) == Success(Draft(Sat("a", [SET_ONE]), map[]));
    assert SetPlan([], 0, Sat("a", [SET_ONE])) == [Sat("a", [SET_ONE])];
  }

  lemma RefilledSecond()
    ensures Note(Book([Sat("a", [SET_ONE])], map[]), Move("a", "b"))
            == Success(Book([Sat("a", [SET_ONE]), Target([Moving("a")])], map[]))
  {
    var op, b := Move("a", "b"), Book([Sat("a", [SET_ONE])], map[]);
    assert "a"[0] != "b"[0];
    assert b.plans[0].key == "a" && IndexOf(b.plans, "b") == 1;
    assert RenameSteps(op) == [Moving("a")];
    var p := Opened(b, op);
    assert p.actions == [] + RenameSteps(op) == [Moving("a")];
    assert p == Target([Moving("a")]);
    assert FoldBody(Draft(p, map[]), op) == Success(Draft(p, map[]));
    var plans := [Sat("a", [SET_ONE]), p];
    assert SetPlan(b.plans, 1, p) == plans;
    assert IndexOf(plans, "a") == 0 && TouchSource(plans, op) == plans[0 := plans[0]] == plans;
  }

  lemma RefilledThird()
    ensures Note(Book([Sat("a", [SET_ONE]), Target([Moving("a")])], map[]), Move("c", "a"))
            == Success(Book(RefilledPlans(), map[]))
  {
    var op, b := Move("c", "a"), Book([Sat("a", [SET_ONE]), Target([Moving("a")])], map[]);
    assert "a"[0] != "b"[0] && "a"[0] != "c"[0] && "b"[0] != "c"[0];
    assert IndexOf(b.plans, "a") == 0;
    assert RenameSteps(op) == [Moving("c")];
    var p := Opened(b, op);
    assert p.actions == [SET_ONE] + RenameSteps(op) == [SET_ONE, Moving("c")];
    assert p == Sat("a", [SET_ONE, Moving("c")]);
    assert FoldBody(Draft(p, map[]), op) == Success(Draft(p, map[]));
    var plans := [p, Target([Moving("a")])];
    assert SetPlan(b.plans, 0, p) == plans;
    assert plans[0].key == "a" && plans[1].key == "b" && plans[1..] == [plans[1]];
    assert IndexOf(plans, "c") == 2;
    var q := Precondition(AddRelid(NewPlan("c", StringTable), 1), true, Update, false);
    assert q == Sat("c", []);
    assert TouchSource(plans, op) == plans + [q] == RefilledPlans();
  }

  lemma RefilledLogFolds()
    ensures FoldLog(RefilledLog()) == Success(Book(RefilledPlans(), map[]))
  {
    hide Note;
    var log := RefilledLog();
    assert log[..2][..1] == log[..1] && log[..1][..0] == [];
    RefilledFirst();
    RefilledSecond();
    RefilledThird();
    assert FoldLog(log[..1]) == Success(Book([Sat("a", [SET_ONE])], map[]));
    assert FoldLog(log[..2]) == Success(Book([Sat("a", [SET_ONE]), Target([Moving("a")])], map[]));
  }

  const BEFORE: Db := map["a" := Str("0"), "c" := Str("2")]

  lemma RefilledPlansRun(n: Numbers)
    ensures RunPlans(n, RefilledPlans(), BEFORE) == map["b" := Str("2")]
  {
    var plans := RefilledPlans();
    var db1: Db, db2: Db, db3: Db := map["a" := Str("1"), "c" := Str("2")], map["a" := Str("2")], map["b" := Str("2")];
    assert "a"[0] != "b"[0] && "a"[0] != "c"[0] && "b"[0] != "c"[0];
    assert plans[..2][..1] == plans[..1] && plans[..1][..0] == [];
    var acts := plans[0].actions;
    assert acts[..1] == [SET_ONE] && acts[..1][..0] == [];
    assert Run(n, BEFORE, "a", acts[..1]) == Effect(n, BEFORE, "a", SET_ONE) == db1;
    assert Effect(n, db1, "a", Moving("c")) == db2;
    assert RunPlans(n, plans[..1], BEFORE) == Run(n, BEFORE, "a", acts) == db2;
    assert [Moving("a")][..0] == [] && Effect(n, db2, "b", Moving("a")) == db3;
    assert RunPlans(n, plans[..2], BEFORE) == Run(n, db2, "b", [Moving("a")]) == db3;
  }

  lemma RunOne(n: Numbers, db: Db, key: Bytes, s: Step)
    ensures Run(n, db, key, [s]) == Effect(n, db, key, s)
  {
    hide Effect;
    assert [s][..0] == [];
  }

  lemma MovedStepsOf(source: Bytes, target: Bytes)
    requires source != target
    ensures MovedSteps(Move(source, target)) == [Moving(source)]
  {
    assert RenameSteps(Move(source, target)) == [Moving(source)] && OpSteps(Move(source, target)) == [];
  }

  lemma MoveOver(n: Numbers, db: Db, source: Bytes, target: Bytes)
    requires source != target && source in db
    ensures Run(n, db, target, MovedSteps(Move(source, target))) == (db - {source})[target := db[source]]
  {
    hide MovedSteps;
    MovedStepsOf(source, target);
    RunOne(n, db, target, Moving(source));
    assert Put(db, source, None) == db - {source};
  }

  lemma RefilledLogRuns(n: Numbers)
    ensures RunMoved(n, RefilledLog(), BEFORE) == map["b" := Str("1"), "a" := Str("2")]
  {
    hide Run, MovedSteps;
    var log := RefilledLog();
    var db1: Db, db2: Db := map["a" := Str("1"), "c" := Str("2")], map["b" := Str("1"), "c" := Str("2")];
    assert "a"[0] != "b"[0] && "a"[0] != "c"[0] && "b"[0] != "c"[0];
    assert log[..2][..1] == log[..1] && log[..1][..0] == [];
    SetsOne(n);
    assert RunMoved(n, log[..1], BEFORE) == db1;
    MoveOver(n, db1, "a", "b");
    assert RunMoved(n, log[..2], BEFORE) == db2;
    MoveOver(n, db2, "c", "a");
  }

  lemma SetsOne(n: Numbers)
    ensures Run(n, BEFORE, "a", MovedSteps(RefilledLog()[0])) == map["a" := Str("1"), "c" := Str("2")]
  {
    assert MovedSteps(RefilledLog()[0]) == [SET_ONE] && "a"[0] != "c"[0];
    RunOne(n, BEFORE, "a", SET_ONE);
  }

  function RefilledCommands(): seq<Command> {
    [Command("a", SET_ONE), Command("a", Moving("c")), Command("b", Moving("a"))]
  }

  lemma RefilledCommandsAre()
    ensures AllCommands(RefilledPlans()) == RefilledCommands()
  {
    var plans, cmds := RefilledPlans(), RefilledCommands();
    assert plans[..2][..1] == plans[..1] && plans[..1][..0] == [];
    assert AllCommands(plans[..1]) == cmds[..2];
    assert AllCommands(plans[..2]) == cmds;
  }

  lemma LiveSnoc(cmds: seq<Command>, c: Command, start: set<Bytes>, live: set<Bytes>)
    requires LiveKeys(cmds, start) == Some(live)
    ensures LiveKeys(cmds + [c], start) == LiveAfter(live, c)
  {
    hide LiveAfter;
    assert (cmds + [c])[..|cmds|] == cmds;
  }

  lemma RefilledIsLive()
    ensures LiveKeys(AllCommands(RefilledPlans()), Start(RefilledPlans())).Some?
  {
    hide LiveKeys, Cells.AllCommands;
    var plans, cmds := RefilledPlans(), RefilledCommands();
    var start := Start(plans);
    RefilledCommandsAre();
    assert plans[2] in plans && "c" in start;
    assert LiveKeys([], start) == Some(start) by { NothingLeaves(start); }
    LiveSnoc([], cmds[0], start, start);
    assert [] + [cmds[0]] == [cmds[0]] && "a"[0] != "c"[0];
    LiveSnoc([cmds[0]], cmds[1], start, start + {"a"});
    assert [cmds[0]] + [cmds[1]] + [cmds[2]] == cmds;
    LiveSnoc([cmds[0]] + [cmds[1]], cmds[2], start, start + {"a"} - {"c"} + {"a"});
  }

  lemma NothingLeaves(start: set<Bytes>)
    ensures LiveKeys([], start) == Some(start)
  {}

  lemma RefilledPasses()
    ensures Passes(BEFORE, RefilledPlans())
  {
    assert "a"[0] != "b"[0] && "b"[0] != "c"[0];
  }

  /**
   Accepted, passing every check and answered OK, and a row is lost: the row of c overwrites the row of a before that
   is moved to b, because a's commands run together.
   */
  lemma {:induction false} RefilledKeyLosesARow(n: Numbers)
    ensures var log := RefilledLog();
            && FoldLog(log).Success? && Passes(BEFORE, FoldLog(log).value.plans)
            && Flushed(n, BEFORE, FoldLog(log).value.plans) == (map["b" := Str("2")], Applied(3))
            && RunMoved(n, log, BEFORE) == map["b" := Str("1"), "a" := Str("2")]
            && !OrderIsKept(log, FoldLog(log).value.plans) && !SourcesAreLeft(log)
  {
    hide FoldLog, Flushed, RunPlans, RunMoved, LiveKeys, OrderIsKept, Cells.AllCommands, Passes, StoppedInPart;
    var log, plans := RefilledLog(), RefilledPlans();
    RefilledLogFolds();
    RefilledPasses();
    RefilledIsLive();
    RefilledPlansRun(n);
    RefilledLogRuns(n);
    RenamesAreExact(n, log, BEFORE);
    OrderIsKeptExactly(n, log);
    assert "a" in map["b" := Str("1"), "a" := Str("2")] && "a"[0] != "b"[0];
    assert IsRename(log[1]) && log[1].oldkey.value == log[2].key;
  }
}
