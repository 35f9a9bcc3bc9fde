/** The encoder as it runs: a key table that grows, then a command vector that grows. */
module Encoder {
  import opened Common
  import opened Decimal
  import opened Opcodes
  import opened Fold
  import Encode

  lemma PlanKeyAt(plans: seq<Plan>, i: nat)
    requires i < |plans|
    ensures Encode.PlanKeys(plans)[i] == plans[i].key
  {}

  lemma InternsNext(keys: seq<Bytes>, all: seq<Bytes>, i: nat)
    requires i < |all|
    ensures Encode.InternAll(keys, all[i..]) == Encode.InternAll(Encode.Intern(keys, all[i]), all[i + 1..])
  {
    hide Encode.Intern, Encode.Distinct;
    assert all[i..][1..] == all[i + 1..];
  }

  lemma InternsNothing(keys: seq<Bytes>, all: seq<Bytes>)
    ensures Encode.InternAll(keys, all[|all|..]) == keys
  {}

  class KeyTable {
    var keys: seq<Bytes>
    var byBytes: map<Bytes, nat>

    ghost predicate Valid()
      reads this
    {
      && Encode.Distinct(keys)
      && (forall k :: k in byBytes <==> k in keys)
      && (forall k :: k in byBytes ==> 1 <= byBytes[k] <= |keys| && keys[byBytes[k] - 1] == k)
    }

    constructor ()
      ensures Valid() && keys == []
    {
      keys, byBytes := [], map[];
    }

    /** Where a key stands in KEYS, counted from 1; a key not there yet goes to the end. */
    method Intern(k: Bytes) returns (idx: nat)
      requires Valid()
      modifies this
      ensures Valid() && keys == Encode.Intern(old(keys), k)
      ensures 1 <= idx <= |keys| && keys[idx - 1] == k
    {
      if k in byBytes {
        return byBytes[k];
      }
      keys := keys + [k];
      idx := |keys|;
      byBytes := byBytes[k := idx];
    }

    method DeclareSteps(steps: seq<Step>, action: bool)
      requires Valid()
      modifies this
      ensures Valid() && keys == Encode.DeclareSteps(old(keys), steps, action)
    {
      for i := 0 to |steps|
        invariant Valid()
        invariant Encode.DeclareSteps(old(keys), steps, action) == Encode.DeclareSteps(keys, steps[i..], action)
      {
        var named := Encode.Named(steps[i], action);
        if named.Some? {
          var _ := Intern(named.value);
        }
        assert steps[i..][1..] == steps[i + 1..];
      }
    }

    method DeclarePlans(plans: seq<Plan>)
      requires Valid()
      modifies this
      ensures Valid() && keys == Encode.Declare(old(keys), plans)
    {
      for i := 0 to |plans|
        invariant Valid()
        invariant Encode.Declare(old(keys), plans) == Encode.Declare(keys, plans[i..])
      {
        DeclareSteps(plans[i].checks, false);
        DeclareSteps(plans[i].actions, true);
        assert plans[i..][1..] == plans[i + 1..];
      }
    }

    method InternPlanKeys(plans: seq<Plan>)
      requires Valid()
      modifies this
      ensures Valid() && keys == Encode.InternAll(old(keys), Encode.PlanKeys(plans))
    {
      hide Encode.InternAll, Encode.Distinct, Encode.Intern, Encode.PlanKeys;
      ghost var all := Encode.PlanKeys(plans);
      assert all[0..] == all;
      for i := 0 to |plans|
        invariant Valid()
        invariant Encode.InternAll(old(keys), all) == Encode.InternAll(keys, all[i..])
      {
        PlanKeyAt(plans, i);
        InternsNext(keys, all, i);
        var _ := Intern(plans[i].key);
      }
      InternsNothing(keys, all);
    }

    /** Every named key was declared, so the lookup never misses and the index is in range. */
    method EmitStep(s: Step, action: bool) returns (out: seq<Bytes>)
      requires Valid()
      requires Encode.Named(s, action).Some? ==> Encode.Named(s, action).value in keys
      ensures out == Encode.EmitStep(keys, s, action)
    {
      var named := Encode.Named(s, action);
      var args := s.args;
      if named.Some? {
        IndexIsUnique(keys, named.value, byBytes[named.value] - 1);
        args := args[0 := Show(byBytes[named.value])];
      }
      out := [Show(s.op), Show(|s.args|)] + args;
    }

    method EmitSteps(steps: seq<Step>, action: bool) returns (out: seq<Bytes>)
      requires Valid() && Declared(keys, steps, action)
      ensures out == Encode.EmitSteps(keys, steps, action)
    {
      hide Encode.EmitStep;
      out := [];
      for i := 0 to |steps|
        invariant Encode.EmitSteps(keys, steps, action) == out + Encode.EmitSteps(keys, steps[i..], action)
      {
        var step := EmitStep(steps[i], action);
        assert steps[i..][1..] == steps[i + 1..];
        assert out + (step + Encode.EmitSteps(keys, steps[i + 1..], action)) ==
            out + step + Encode.EmitSteps(keys, steps[i + 1..], action);
        out := out + step;
      }
      assert out + Encode.EmitSteps(keys, steps[|steps|..], action) == out;
    }

    method EmitPlan(p: Plan, ordinal: nat) returns (out: seq<Bytes>)
      requires Valid() && Declared(keys, p.checks, false) && Declared(keys, p.actions, true)
      ensures out == Encode.EmitPlan(keys, p, ordinal)
    {
      hide Encode.EmitSteps, Declared;
      var header := [Show(ordinal), Show(TableCode(p.ttype)), Show(RequireCode(p.require)), Show(|p.checks|),
        Show(|p.actions|)];
      var checks := EmitSteps(p.checks, false);
      var actions := EmitSteps(p.actions, true);
      out := header + checks + actions;
    }

    method EmitPlans(plans: seq<Plan>) returns (out: seq<Bytes>)
      requires Valid()
      requires forall i :: 0 <= i < |plans| ==>
          Declared(keys, plans[i].checks, false) && Declared(keys, plans[i].actions, true)
      ensures out == Encode.EmitPlans(keys, plans, 1)
    {
      hide Encode.EmitPlan, Declared;
      out := [];
      for i := 0 to |plans|
        invariant Encode.EmitPlans(keys, plans, 1) == out + Encode.EmitPlans(keys, plans[i..], i + 1)
      {
        var plan := EmitPlan(plans[i], i + 1);
        assert plans[i..][1..] == plans[i + 1..];
        ghost var rest := Encode.EmitPlans(keys, plans[i + 1..], i + 2);
        assert out + (plan + rest) == out + plan + rest;
        out := out + plan;
      }
      assert out + Encode.EmitPlans(keys, plans[|plans|..], |plans| + 1) == out;
    }
  }

  ghost predicate Declared(keys: seq<Bytes>, steps: seq<Step>, action: bool) {
    forall i :: 0 <= i < |steps| && Encode.Named(steps[i], action).Some? ==>
      Encode.Named(steps[i], action).value in keys
  }

  lemma DeclaresAll(before: seq<Bytes>, plans: seq<Plan>, i: nat)
    requires i < |plans|
    ensures Declared(Encode.Declare(before, plans), plans[i].checks, false)
    ensures Declared(Encode.Declare(before, plans), plans[i].actions, true)
  {
    forall c | 0 <= c < |plans[i].checks| {
      Encode.DeclareCovers(before, plans, i, plans[i].checks[c], false);
    }
    forall c | 0 <= c < |plans[i].actions| {
      Encode.DeclareCovers(before, plans, i, plans[i].actions[c], true);
    }
  }

  lemma IndexIsUnique(keys: seq<Bytes>, k: Bytes, i: nat)
    requires Encode.Distinct(keys) && i < |keys| && keys[i] == k
    ensures Encode.IndexIn(keys, k) == i
  {
    var j := Encode.IndexIn(keys, k);
    assert keys[j] == keys[i];
  }

  /** KEYS and ARGV of the EVALSHA for a ledger's plans. */
  method EncodeProgram(plans: seq<Plan>) returns (keys: seq<Bytes>, argv: seq<Bytes>)
    ensures keys == Encode.KeyTable(plans) && argv == Encode.Argv(plans)
  {
    hide Encode.Declare, Encode.InternAll, Encode.EmitPlans, Declared;
    var t := new KeyTable();
    t.InternPlanKeys(plans);
    ghost var planKeys := t.keys;
    t.DeclarePlans(plans);
    keys := t.keys;

    forall i | 0 <= i < |plans|
      ensures Declared(keys, plans[i].checks, false) && Declared(keys, plans[i].actions, true) {
      DeclaresAll(planKeys, plans, i);
    }
    var body := t.EmitPlans(plans);
    argv := ["V1", Show(|plans|)] + body;
  }
}
