/** A sequence of commands key by key: it runs without an error exactly when each key's own commands do. */
module Cells {
  import opened Common
  import opened Opcodes
  import opened Keyspace
  import opened Fold
  import opened Regroup

  /** A step and the key of the plan it belongs to. */
  datatype Command = Command(key: Bytes, step: Step)

  function CommandsOf(key: Bytes, steps: seq<Step>): (r: seq<Command>)
    ensures |r| == |steps|
  {
    seq(|steps|, i requires 0 <= i < |steps| => Command(key, steps[i]))
  }

  /** Every action of every plan, in the order phase 2 takes them. */
  function AllCommands(plans: seq<Plan>): seq<Command> {
    if plans == [] then []
    else var p := plans[|plans| - 1]; AllCommands(plans[..|plans| - 1]) + CommandsOf(p.key, p.actions)
  }

  function RunAll(n: Numbers, db: Db, cmds: seq<Command>): Db {
    if cmds == [] then db
    else var c := cmds[|cmds| - 1]; Effect(n, RunAll(n, db, cmds[..|cmds| - 1]), c.key, c.step)
  }

  /** The server refuses none of the commands. */
  predicate Clean(n: Numbers, db: Db, cmds: seq<Command>) {
    cmds == []
    || (var front, c := cmds[..|cmds| - 1], cmds[|cmds| - 1];
        Clean(n, db, front) && Exec(n, RunAll(n, db, front), c.key, c.step).Success?)
  }

  // ----- One key's share -----

  /** The commands that write `k`, as what they do to it. */
  function Aimed(cmds: seq<Command>, k: Bytes): seq<Step> {
    if cmds == [] then []
    else
      var front, c := Aimed(cmds[..|cmds| - 1], k), cmds[|cmds| - 1];
      if Target(c.key, c.step) == k then front + [Plain(c.step)] else front
  }

  function CellRun(n: Numbers, c: Cell, steps: seq<Step>): Cell {
    if steps == [] then c else CellEffect(n, CellRun(n, c, steps[..|steps| - 1]), steps[|steps| - 1])
  }

  /** No command of a key's share fails, from `c` on. */
  predicate Smooth(n: Numbers, c: Cell, steps: seq<Step>) {
    steps == []
    || (var front := steps[..|steps| - 1];
        Smooth(n, c, front) && Local(n, CellRun(n, c, front), steps[|steps| - 1]).Success?)
  }

  predicate NoRenames(cmds: seq<Command>) {
    forall i :: 0 <= i < |cmds| ==> cmds[i].step.op != ACT_RENAME
  }

  lemma AimedSnoc(cmds: seq<Command>, c: Command, k: Bytes)
    ensures Aimed(cmds + [c], k)
            == if Target(c.key, c.step) == k then Aimed(cmds, k) + [Plain(c.step)] else Aimed(cmds, k)
  {
    assert (cmds + [c])[..|cmds|] == cmds;
  }

  lemma CellRunSnoc(n: Numbers, c: Cell, steps: seq<Step>, s: Step)
    ensures CellRun(n, c, steps + [s]) == CellEffect(n, CellRun(n, c, steps), s)
    ensures Smooth(n, c, steps + [s]) <==> Smooth(n, c, steps) && Local(n, CellRun(n, c, steps), s).Success?
  {
    assert (steps + [s])[..|steps|] == steps;
  }

  /** What a key holds after the commands is what its share of them makes of it. */
  lemma {:induction false} CellOf(n: Numbers, db: Db, cmds: seq<Command>, k: Bytes)
    requires NoRenames(cmds)
    ensures At(RunAll(n, db, cmds), k) == CellRun(n, At(db, k), Aimed(cmds, k))
  {
    hide At, Put, CellEffect, Target, Plain, CellRun;
    if cmds == [] {
      NothingToRun(n, At(db, k));
    } else {
      var front, c := cmds[..|cmds| - 1], cmds[|cmds| - 1];
      CellOf(n, db, front, k);
      var before, t := RunAll(n, db, front), Target(c.key, c.step);
      EffectIsLocal(n, before, c.key, c.step);
      PutAt(before, t, CellEffect(n, At(before, t), Plain(c.step)), k);
      CellRunSnoc(n, At(db, k), Aimed(front, k), Plain(c.step));
    }
  }

  lemma NothingToRun(n: Numbers, c: Cell)
    ensures CellRun(n, c, []) == c && Smooth(n, c, [])
  {}

  /** Without renames the server refuses a command exactly when it does not fit what its target holds. */
  lemma ExecIsLocal(n: Numbers, db: Db, key: Bytes, s: Step)
    requires s.op != ACT_RENAME
    ensures Exec(n, db, key, s).Success? <==> Local(n, At(db, Target(key, s)), Plain(s)).Success?
  {}

  ghost predicate AllSmooth(n: Numbers, db: Db, cmds: seq<Command>) {
    forall k :: Smooth(n, At(db, k), Aimed(cmds, k))
  }

  lemma AllSmoothSnoc(n: Numbers, db: Db, cmds: seq<Command>, c: Command)
    requires NoRenames(cmds)
    ensures AllSmooth(n, db, cmds + [c]) <==>
            AllSmooth(n, db, cmds)
            && Local(n, At(RunAll(n, db, cmds), Target(c.key, c.step)), Plain(c.step)).Success?
  {
    hide At, Local, Target, Plain, RunAll, Aimed, Smooth;
    var t := Target(c.key, c.step);
    CellOf(n, db, cmds, t);
    CellRunSnoc(n, At(db, t), Aimed(cmds, t), Plain(c.step));
    forall k ensures k != t ==> Aimed(cmds + [c], k) == Aimed(cmds, k) {
      AimedSnoc(cmds, c, k);
    }
    AimedSnoc(cmds, c, t);
    if AllSmooth(n, db, cmds + [c]) {
      forall k ensures Smooth(n, At(db, k), Aimed(cmds, k)) {
        assert Smooth(n, At(db, k), Aimed(cmds + [c], k));
      }
    }
  }

  /** A whole run is clean exactly when every key's share of it is smooth. */
  lemma {:induction false} CleanWhenSmooth(n: Numbers, db: Db, cmds: seq<Command>)
    requires NoRenames(cmds)
    ensures Clean(n, db, cmds) <==> AllSmooth(n, db, cmds)
  {
    hide At, Local, Exec, AllSmooth, Target, Plain;
    if cmds == [] {
      AllSmoothNothing(n, db);
    } else {
      var front, c := cmds[..|cmds| - 1], cmds[|cmds| - 1];
      CleanWhenSmooth(n, db, front);
      ExecIsLocal(n, RunAll(n, db, front), c.key, c.step);
      AllSmoothSnoc(n, db, front, c);
      assert front + [c] == cmds;
    }
  }

  lemma AllSmoothNothing(n: Numbers, db: Db)
    ensures AllSmooth(n, db, [])
  {}

  // ----- Plans as commands -----

  lemma {:induction false} RunAllAppend(n: Numbers, db: Db, a: seq<Command>, b: seq<Command>)
    ensures RunAll(n, db, a + b) == RunAll(n, RunAll(n, db, a), b)
    ensures Clean(n, db, a + b) <==> Clean(n, db, a) && Clean(n, RunAll(n, db, a), b)
  {
    hide Effect, Exec;
    if b == [] {
      assert a + b == a;
    } else {
      RunAllAppend(n, db, a, b[..|b| - 1]);
      assert (a + b)[..|a + b| - 1] == a + b[..|b| - 1];
    }
  }

  lemma {:induction false} RunAllIsRun(n: Numbers, db: Db, key: Bytes, steps: seq<Step>)
    ensures RunAll(n, db, CommandsOf(key, steps)) == Run(n, db, key, steps)
  {
    hide Effect;
    if steps == [] {
      assert CommandsOf(key, steps) == [];
    } else {
      var front := steps[..|steps| - 1];
      RunAllIsRun(n, db, key, front);
      assert CommandsOf(key, steps)[..|steps| - 1] == CommandsOf(key, front);
    }
  }

  lemma {:induction false} RunAllIsRunPlans(n: Numbers, db: Db, plans: seq<Plan>)
    ensures RunAll(n, db, AllCommands(plans)) == RunPlans(n, plans, db)
  {
    hide RunAll, Run;
    if plans == [] {
      NoCommands(n, db);
    } else {
      var front, p := plans[..|plans| - 1], plans[|plans| - 1];
      RunAllIsRunPlans(n, db, front);
      RunAllAppend(n, db, AllCommands(front), CommandsOf(p.key, p.actions));
      RunAllIsRun(n, RunPlans(n, front, db), p.key, p.actions);
    }
  }

  lemma NoCommands(n: Numbers, db: Db)
    ensures RunAll(n, db, []) == db && Clean(n, db, [])
  {}
}
