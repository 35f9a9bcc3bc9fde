/** The ledger as one EVALSHA: the key table, the argument vector, and the proof that the program reads both back. */
module Encode {
  import opened Common
  import opened Decimal
  import opened Opcodes
  import opened Fold
  import opened Script

  // ----- The key table -----

  predicate Distinct(keys: seq<Bytes>) {
    forall i, j :: 0 <= i < j < |keys| ==> keys[i] != keys[j]
  }

  function Intern(keys: seq<Bytes>, k: Bytes): (r: seq<Bytes>)
    ensures k in r && keys <= r && (Distinct(keys) ==> Distinct(r))
  {
    if k in keys then keys else keys + [k]
  }

  function IndexIn(keys: seq<Bytes>, k: Bytes): (i: nat)
    requires k in keys
    ensures i < |keys| && keys[i] == k
  {
    if keys[0] == k then 0 else 1 + IndexIn(keys[1..], k)
  }

  function PlanKeys(plans: seq<Plan>): (r: seq<Bytes>)
    ensures |r| == |plans|
  {
    seq(|plans|, i requires 0 <= i < |plans| => plans[i].key)
  }

  /** The key a step names besides its plan's own. */
  function Named(s: Step, action: bool): Option<Bytes> {
    if (if action then ActionNamesKey(s.op) else CheckNamesKey(s.op)) && s.args != [] then Some(s.args[0]) else None
  }

  function DeclareSteps(keys: seq<Bytes>, steps: seq<Step>, action: bool): (r: seq<Bytes>)
    ensures keys <= r && (Distinct(keys) ==> Distinct(r))
    ensures forall i :: 0 <= i < |steps| && Named(steps[i], action).Some? ==> Named(steps[i], action).value in r
    decreases steps
  {
    if steps == [] then keys
    else
      var named := Named(steps[0], action);
      DeclareSteps(if named.Some? then Intern(keys, named.value) else keys, steps[1..], action)
  }

  function DeclarePlan(keys: seq<Bytes>, p: Plan): seq<Bytes> {
    DeclareSteps(DeclareSteps(keys, p.checks, false), p.actions, true)
  }

  function Declare(keys: seq<Bytes>, plans: seq<Plan>): (r: seq<Bytes>)
    ensures keys <= r && (Distinct(keys) ==> Distinct(r))
    decreases plans
  {
    if plans == [] then keys else Declare(DeclarePlan(keys, plans[0]), plans[1..])
  }

  function InternAll(keys: seq<Bytes>, more: seq<Bytes>): (r: seq<Bytes>)
    ensures keys <= r && (Distinct(keys) ==> Distinct(r))
    decreases more
  {
    if more == [] then keys else InternAll(Intern(keys, more[0]), more[1..])
  }

  /** KEYS: the plan keys in plan order, then every key a step names. */
  function KeyTable(plans: seq<Plan>): seq<Bytes> {
    Declare(InternAll([], PlanKeys(plans)), plans)
  }

  // ----- ARGV -----

  /** A step as it travels: the key it names replaced by its 1-based index into KEYS. */
  function WireStep(keys: seq<Bytes>, s: Step, action: bool): Step {
    var named := Named(s, action);
    if named.Some? && named.value in keys then s.(args := s.args[0 := Show(IndexIn(keys, named.value) + 1)]) else s
  }

  function EmitStep(keys: seq<Bytes>, s: Step, action: bool): seq<Bytes> {
    [Show(s.op), Show(|s.args|)] + WireStep(keys, s, action).args
  }

  function EmitSteps(keys: seq<Bytes>, steps: seq<Step>, action: bool): seq<Bytes> {
    if steps == [] then [] else EmitStep(keys, steps[0], action) + EmitSteps(keys, steps[1..], action)
  }

  function EmitHeader(p: Plan, ordinal: nat): seq<Bytes> {
    [Show(ordinal), Show(TableCode(p.ttype)), Show(RequireCode(p.require)), Show(|p.checks|), Show(|p.actions|)]
  }

  function EmitPlan(keys: seq<Bytes>, p: Plan, ordinal: nat): seq<Bytes> {
    EmitHeader(p, ordinal) + EmitSteps(keys, p.checks, false) + EmitSteps(keys, p.actions, true)
  }

  function EmitPlans(keys: seq<Bytes>, plans: seq<Plan>, ordinal: nat): seq<Bytes>
    decreases plans
  {
    if plans == [] then [] else EmitPlan(keys, plans[0], ordinal) + EmitPlans(keys, plans[1..], ordinal + 1)
  }

  function Argv(plans: seq<Plan>): seq<Bytes> {
    ["V1", Show(|plans|)] + EmitPlans(KeyTable(plans), plans, 1)
  }

  // ----- Reading it back -----

  function WireSteps(keys: seq<Bytes>, steps: seq<Step>, action: bool): (r: seq<Step>)
    ensures |r| == |steps|
  {
    seq(|steps|, i requires 0 <= i < |steps| => WireStep(keys, steps[i], action))
  }

  function Wire(keys: seq<Bytes>, p: Plan): WirePlan {
    WirePlan(p.key, TableCode(p.ttype), RequireCode(p.require),
             WireSteps(keys, p.checks, false), WireSteps(keys, p.actions, true))
  }

  function WirePlans(keys: seq<Bytes>, plans: seq<Plan>): (r: seq<WirePlan>)
    ensures |r| == |plans|
  {
    seq(|plans|, i requires 0 <= i < |plans| => Wire(keys, plans[i]))
  }

  /** The text at `i` onwards begins with `part`. */
  predicate Reads(argv: seq<Bytes>, i: nat, part: seq<Bytes>) {
    i + |part| <= |argv| && argv[i..i + |part|] == part
  }

  lemma ReadsSplit(argv: seq<Bytes>, i: nat, a: seq<Bytes>, b: seq<Bytes>)
    requires Reads(argv, i, a + b)
    ensures Reads(argv, i, a) && Reads(argv, i + |a|, b)
  {
    assert argv[i..i + |a|] == (a + b)[..|a|];
    assert argv[i + |a|..i + |a| + |b|] == (a + b)[|a|..];
  }

  lemma ReadsNumber(argv: seq<Bytes>, i: nat, n: nat, rest: seq<Bytes>)
    requires Reads(argv, i, [Show(n)] + rest)
    ensures NumberAt(argv, i) == Some(n) && Reads(argv, i + 1, rest)
  {
    ReadsSplit(argv, i, [Show(n)], rest);
    assert argv[i..i + 1][0] == Show(n);
    ToNumberOfShow(n);
  }

  lemma ReadsStep(argv: seq<Bytes>, i: nat, keys: seq<Bytes>, s: Step, action: bool)
    requires Reads(argv, i, EmitStep(keys, s, action))
    ensures NumberAt(argv, i) == Some(s.op) && NumberAt(argv, i + 1) == Some(|s.args|)
    ensures ArgsAt(argv, i + 2, |s.args|) == WireStep(keys, s, action).args
    ensures |EmitStep(keys, s, action)| == 2 + |s.args|
  {
    var args := WireStep(keys, s, action).args;
    assert EmitStep(keys, s, action) == [Show(s.op)] + ([Show(|s.args|)] + args);
    ReadsNumber(argv, i, s.op, [Show(|s.args|)] + args);
    ReadsNumber(argv, i + 1, |s.args|, args);
  }

  lemma {:induction false} DecodesSteps(argv: seq<Bytes>, i: nat, keys: seq<Bytes>, steps: seq<Step>, action: bool,
                                        acc: seq<Step>)
    requires Reads(argv, i, EmitSteps(keys, steps, action))
    ensures DecodeSteps(argv, i, |steps|, acc)
            == Some((acc + WireSteps(keys, steps, action), i + |EmitSteps(keys, steps, action)|))
    decreases steps
  {
    hide NumberAt, ArgsAt, EmitStep, Reads;
    if steps == [] {
      assert acc + WireSteps(keys, steps, action) == acc;
    } else {
      var s, rest := steps[0], steps[1..];
      var w := Step(s.op, WireStep(keys, s, action).args);
      ReadsSplit(argv, i, EmitStep(keys, s, action), EmitSteps(keys, rest, action));
      ReadsStep(argv, i, keys, s, action);
      DecodesSteps(argv, i + 2 + |s.args|, keys, rest, action, acc + [w]);
      assert WireSteps(keys, steps, action) == [w] + WireSteps(keys, rest, action);
      assert acc + WireSteps(keys, steps, action) == acc + [w] + WireSteps(keys, rest, action);
    }
  }

  lemma ReadsHeader(argv: seq<Bytes>, i: nat, p: Plan, ordinal: nat)
    requires Reads(argv, i, EmitHeader(p, ordinal))
    ensures NumberAt(argv, i) == Some(ordinal) && NumberAt(argv, i + 1) == Some(TableCode(p.ttype))
    ensures NumberAt(argv, i + 2) == Some(RequireCode(p.require))
    ensures NumberAt(argv, i + 3) == Some(|p.checks|) && NumberAt(argv, i + 4) == Some(|p.actions|)
    ensures |EmitHeader(p, ordinal)| == 5
  {
    var h := EmitHeader(p, ordinal);
    assert forall x :: 0 <= x < 5 ==> argv[i + x] == argv[i..i + 5][x] == h[x];
    ToNumberOfShow(ordinal);
    ToNumberOfShow(TableCode(p.ttype));
    ToNumberOfShow(RequireCode(p.require));
    ToNumberOfShow(|p.checks|);
    ToNumberOfShow(|p.actions|);
  }

  lemma DecodesPlan(argv: seq<Bytes>, i: nat, keys: seq<Bytes>, p: Plan, ordinal: nat)
    requires 1 <= ordinal <= |keys| && keys[ordinal - 1] == p.key
    requires Reads(argv, i, EmitPlan(keys, p, ordinal))
    ensures DecodePlan(keys, argv, i, ordinal) == Success((Wire(keys, p), i + |EmitPlan(keys, p, ordinal)|))
  {
    hide NumberAt, DecodeSteps, EmitHeader, EmitSteps, Reads, WireSteps;
    var checks, actions := EmitSteps(keys, p.checks, false), EmitSteps(keys, p.actions, true);
    ReadsSplit(argv, i, EmitHeader(p, ordinal) + checks, actions);
    ReadsSplit(argv, i, EmitHeader(p, ordinal), checks);
    ReadsHeader(argv, i, p, ordinal);
    DecodesSteps(argv, i + 5, keys, p.checks, false, []);
    DecodesSteps(argv, i + 5 + |checks|, keys, p.actions, true, []);
    assert [] + WireSteps(keys, p.checks, false) == WireSteps(keys, p.checks, false);
    assert [] + WireSteps(keys, p.actions, true) == WireSteps(keys, p.actions, true);
  }

  lemma {:induction false} DecodesPlans(argv: seq<Bytes>, i: nat, keys: seq<Bytes>, plans: seq<Plan>,
                                        acc: seq<WirePlan>)
    requires |acc| + |plans| <= |keys| && forall x :: 0 <= x < |plans| ==> keys[|acc| + x] == plans[x].key
    requires Reads(argv, i, EmitPlans(keys, plans, |acc| + 1))
    ensures DecodePlans(keys, argv, i, |plans|, acc)
            == Success((acc + WirePlans(keys, plans), i + |EmitPlans(keys, plans, |acc| + 1)|))
    decreases plans
  {
    hide DecodePlan, EmitPlan;
    if plans == [] {
      assert acc + WirePlans(keys, plans) == acc;
    } else {
      var p, rest := plans[0], plans[1..];
      var w := Wire(keys, p);
      ReadsSplit(argv, i, EmitPlan(keys, p, |acc| + 1), EmitPlans(keys, rest, |acc| + 2));
      assert keys[|acc| + 0] == p.key;
      DecodesPlan(argv, i, keys, p, |acc| + 1);
      forall x | 0 <= x < |rest| ensures keys[|acc + [w]| + x] == rest[x].key {
        assert keys[|acc| + (x + 1)] == plans[x + 1].key;
      }
      DecodesPlans(argv, i + |EmitPlan(keys, p, |acc| + 1)|, keys, rest, acc + [w]);
      assert WirePlans(keys, plans) == [w] + WirePlans(keys, rest);
      assert acc + WirePlans(keys, plans) == acc + [w] + WirePlans(keys, rest);
    }
  }

  lemma {:induction false} InternAllDistinct(keys: seq<Bytes>, more: seq<Bytes>)
    requires Distinct(keys + more)
    ensures InternAll(keys, more) == keys + more
    decreases more
  {
    if more == [] {
      assert keys + more == keys;
    } else {
      assert (keys + more)[|keys|] == more[0];
      assert forall i :: 0 <= i < |keys| ==> (keys + more)[i] == keys[i];
      assert keys + [more[0]] + more[1..] == keys + more;
      InternAllDistinct(keys + [more[0]], more[1..]);
    }
  }

  /** Plan i's key index is i, because the plan keys are interned first and in plan order. */
  lemma {:induction false} PlanKeysLead(plans: seq<Plan>)
    requires DistinctKeys(plans)
    ensures |plans| <= |KeyTable(plans)|
    ensures forall i :: 0 <= i < |plans| ==> KeyTable(plans)[i] == plans[i].key
  {
    hide InternAll, Declare, Distinct;
    var pk := PlanKeys(plans);
    assert Distinct([] + pk) by { PlanKeysDistinct(plans); }
    InternAllDistinct([], pk);
    assert [] + pk == pk;
    assert pk <= KeyTable(plans);
    forall i | 0 <= i < |plans| ensures KeyTable(plans)[i] == plans[i].key {
      assert pk[i] == plans[i].key;
    }
  }

  lemma PlanKeysDistinct(plans: seq<Plan>)
    requires DistinctKeys(plans)
    ensures Distinct([] + PlanKeys(plans))
  {
    assert [] + PlanKeys(plans) == PlanKeys(plans);
  }

  lemma {:induction false} DeclareCovers(keys: seq<Bytes>, plans: seq<Plan>, i: nat, s: Step, action: bool)
    requires i < |plans| && s in (if action then plans[i].actions else plans[i].checks)
    ensures Named(s, action).Some? ==> Named(s, action).value in Declare(keys, plans)
    decreases plans
  {
    var next := DeclarePlan(keys, plans[0]);
    if i == 0 {
      var mid := DeclareSteps(keys, plans[0].checks, false);
      assert mid <= next <= Declare(next, plans[1..]);
      if Named(s, action).Some? {
        var x :| 0 <= x < |next| && next[x] == Named(s, action).value;
        assert Declare(next, plans[1..])[x] == next[x];
      }
    } else {
      DeclareCovers(next, plans[1..], i - 1, s, action);
    }
  }

  /** Every key index the encoder emits lies in KEYS and resolves to the bytes it replaced. */
  lemma {:induction false} WireResolves(keys: seq<Bytes>, s: Step, action: bool)
    requires Named(s, action).Some? ==> Named(s, action).value in keys
    ensures Resolve(keys, WireStep(keys, s, action), if action then ActionNamesKey(s.op) else CheckNamesKey(s.op)) == s
  {
    if Named(s, action).Some? {
      var x := IndexIn(keys, s.args[0]);
      ToNumberOfShow(x + 1);
      assert s.args[0 := Show(x + 1)][0 := keys[x]] == s.args;
    }
  }

  /**
   The round trip: the program decodes exactly the plans that were folded, in order, with no BADPROTO exit,
   and each step it decodes stands for the step it was encoded from.
   */
  lemma {:induction false} RoundTrip(plans: seq<Plan>)
    requires DistinctKeys(plans)
    ensures Decode(KeyTable(plans), Argv(plans)) == Success(WirePlans(KeyTable(plans), plans))
    ensures forall i, c :: 0 <= i < |plans| && 0 <= c < |plans[i].checks| ==>
              var w := WirePlans(KeyTable(plans), plans)[i].checks[c];
              Resolve(KeyTable(plans), w, CheckNamesKey(w.op)) == plans[i].checks[c]
    ensures forall i, c :: 0 <= i < |plans| && 0 <= c < |plans[i].actions| ==>
              var w := WirePlans(KeyTable(plans), plans)[i].actions[c];
              Resolve(KeyTable(plans), w, ActionNamesKey(w.op)) == plans[i].actions[c]
  {
    DecodesArgv(plans);
    var keys := KeyTable(plans);
    forall i, c | 0 <= i < |plans| && 0 <= c < |plans[i].checks|
      ensures var w := WirePlans(keys, plans)[i].checks[c]; Resolve(keys, w, CheckNamesKey(w.op)) == plans[i].checks[c]
    {
      StepResolves(plans, i, plans[i].checks[c], false);
    }
    forall i, c | 0 <= i < |plans| && 0 <= c < |plans[i].actions|
      ensures var w := WirePlans(keys, plans)[i].actions[c];
              Resolve(keys, w, ActionNamesKey(w.op)) == plans[i].actions[c]
    {
      StepResolves(plans, i, plans[i].actions[c], true);
    }
  }

  lemma StepResolves(plans: seq<Plan>, i: nat, s: Step, action: bool)
    requires i < |plans| && s in (if action then plans[i].actions else plans[i].checks)
    ensures var w := WireStep(KeyTable(plans), s, action);
            Resolve(KeyTable(plans), w, if action then ActionNamesKey(w.op) else CheckNamesKey(w.op)) == s
  {
    DeclareCovers(InternAll([], PlanKeys(plans)), plans, i, s, action);
    WireResolves(KeyTable(plans), s, action);
  }

  lemma DecodesArgv(plans: seq<Plan>)
    requires DistinctKeys(plans)
    ensures Decode(KeyTable(plans), Argv(plans)) == Success(WirePlans(KeyTable(plans), plans))
  {
    hide DecodePlans, EmitPlans, KeyTable, WirePlans, ToNumber;
    var keys, argv := KeyTable(plans), Argv(plans);
    var body := EmitPlans(keys, plans, 1);
    PlanKeysLead(plans);
    ToNumberOfShow(|plans|);
    assert argv[2..2 + |body|] == body;
    DecodesPlans(argv, 2, keys, plans, []);
    assert [] + WirePlans(keys, plans) == WirePlans(keys, plans);
  }
}
