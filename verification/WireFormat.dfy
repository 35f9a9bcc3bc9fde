/** The wire format on its own terms: the vectors the decoder takes, the key table's contents, and the header codes. */
module WireFormat {
  import opened Common
  import opened Decimal
  import opened Opcodes
  import opened Fold
  import opened Script
  import opened Encode

  // ----- The decoder takes exactly the well-formed vectors -----

  /** Opcode, argument count and arguments, step after step, and nothing else. */
  predicate SpellsSteps(text: seq<Bytes>, steps: seq<Step>)
    decreases steps
  {
    if steps == [] then text == []
    else
      var s, n := steps[0], |steps[0].args|;
      && |text| >= 2 + n && ToNumber(text[0]) == Some(s.op) && ToNumber(text[1]) == Some(n)
      && text[2..2 + n] == s.args && SpellsSteps(text[2 + n..], steps[1..])
  }

  /** A header of five numbers, then the checks, then the actions; the key index lies in KEYS. */
  predicate SpellsPlan(keys: seq<Bytes>, header: seq<Bytes>, checks: seq<Bytes>, actions: seq<Bytes>, w: WirePlan) {
    && |header| == 5
    && (match ToNumber(header[0]) case Some(x) => 1 <= x <= |keys| && keys[x - 1] == w.key case None => false)
    && ToNumber(header[1]) == Some(w.ttype) && ToNumber(header[2]) == Some(w.require)
    && ToNumber(header[3]) == Some(|w.checks|) && ToNumber(header[4]) == Some(|w.actions|)
    && SpellsSteps(checks, w.checks) && SpellsSteps(actions, w.actions)
  }

  /** The plans' texts one behind the other; `cuts` says where each plan's checks and actions end. */
  predicate SpellsPlans(keys: seq<Bytes>, text: seq<Bytes>, ws: seq<WirePlan>, cuts: seq<(nat, nat)>)
    decreases ws
  {
    if ws == [] || cuts == [] then text == [] && ws == [] && cuts == []
    else
      var (a, b) := cuts[0];
      && 5 <= a <= b <= |text| && SpellsPlan(keys, text[..5], text[5..a], text[a..b], ws[0])
      && SpellsPlans(keys, text[b..], ws[1..], cuts[1..])
  }

  ghost predicate WellFormed(keys: seq<Bytes>, argv: seq<Bytes>, ws: seq<WirePlan>) {
    && |argv| >= 2 && argv[0] == "V1" && ToNumber(argv[1]) == Some(|ws|)
    && exists cuts :: SpellsPlans(keys, argv[2..], ws, cuts)
  }

  // What is decoded was spelled. A cursor past the end never comes back, so the final test catches a short vector.

  lemma {:induction false} StepsReadWereSpelled(argv: seq<Bytes>, i: nat, count: nat, acc: seq<Step>)
    requires DecodeSteps(argv, i, count, acc).Some?
    ensures var (steps, j) := DecodeSteps(argv, i, count, acc).value;
            && acc <= steps && |steps| == |acc| + count && i <= j
            && (j <= |argv| ==> SpellsSteps(argv[i..j], steps[|acc|..]))
    decreases count
  {
    hide SpellsSteps, ToNumber;
    if count == 0 {
      NoSteps();
      assert acc[|acc|..] == [] && (i <= |argv| ==> argv[i..i] == []);
    } else {
      var op, n := NumberAt(argv, i).value, NumberAt(argv, i + 1).value;
      var s := Step(op, ArgsAt(argv, i + 2, n));
      StepsReadWereSpelled(argv, i + 2 + n, count - 1, acc + [s]);
      var (steps, j) := DecodeSteps(argv, i, count, acc).value;
      assert steps[|acc|] == (acc + [s])[|acc|] == s;
      if j <= |argv| {
        assert steps[|acc|..] == [s] + steps[|acc + [s]|..];
        OneMoreStep(argv, i, j, s, steps[|acc + [s]|..]);
      }
    }
  }

  /** A step in front of others, and the text of each. */
  lemma OneMoreStep(argv: seq<Bytes>, i: nat, j: nat, s: Step, rest: seq<Step>)
    requires i + 2 + |s.args| <= j <= |argv|
    ensures SpellsSteps(argv[i..j], [s] + rest) <==>
            && ToNumber(argv[i]) == Some(s.op) && ToNumber(argv[i + 1]) == Some(|s.args|)
            && argv[i + 2..i + 2 + |s.args|] == s.args && SpellsSteps(argv[i + 2 + |s.args|..j], rest)
  {
    hide ToNumber;
    var text, n := argv[i..j], |s.args|;
    Slice(argv, i, j, 2, 2 + n);
    Slice(argv, i, j, 2 + n, j - i);
    assert text[0] == argv[i] && text[1] == argv[i + 1] && ([s] + rest)[1..] == rest;
  }

  lemma NoSteps()
    ensures SpellsSteps([], [])
  {}

  lemma Slice(s: seq<Bytes>, i: nat, j: nat, a: nat, b: nat)
    requires i <= j <= |s| && a <= b <= j - i
    ensures s[i..j][a..b] == s[i + a..i + b]
  {
    var x, y := s[i..j][a..b], s[i + a..i + b];
    forall n | 0 <= n < b - a ensures x[n] == y[n] {
      assert s[i..j][a + n] == s[i + (a + n)];
    }
  }

  lemma PlanReadWasSpelled(keys: seq<Bytes>, argv: seq<Bytes>, i: nat, p: nat) returns (a: nat)
    requires DecodePlan(keys, argv, i, p).Success?
    ensures var (w, j) := DecodePlan(keys, argv, i, p).value;
            && i + 5 <= a <= j
            && (j <= |argv| ==> SpellsPlan(keys, argv[i..i + 5], argv[i + 5..a], argv[a..j], w))
  {
    hide SpellsSteps;
    var nc, na := NumberAt(argv, i + 3).value, NumberAt(argv, i + 4).value;
    var (checks, m) := DecodeSteps(argv, i + 5, nc, []).value;
    a := m;
    StepsReadWereSpelled(argv, i + 5, nc, []);
    StepsReadWereSpelled(argv, a, na, []);
    var (actions, j) := DecodeSteps(argv, a, na, []).value;
    assert checks[0..] == checks && actions[0..] == actions;
  }

  lemma {:induction false} PlansReadWereSpelled(keys: seq<Bytes>, argv: seq<Bytes>, i: nat, count: nat,
                                                acc: seq<WirePlan>) returns (cuts: seq<(nat, nat)>)
    requires DecodePlans(keys, argv, i, count, acc).Success?
    ensures var (ws, j) := DecodePlans(keys, argv, i, count, acc).value;
            && acc <= ws && |ws| == |acc| + count && i <= j
            && (j <= |argv| ==> SpellsPlans(keys, argv[i..j], ws[|acc|..], cuts))
    decreases count
  {
    hide DecodePlan, SpellsPlan;
    if count == 0 {
      cuts := [];
    } else {
      var (w, m) := DecodePlan(keys, argv, i, |acc| + 1).value;
      var a := PlanReadWasSpelled(keys, argv, i, |acc| + 1);
      var rest := PlansReadWereSpelled(keys, argv, m, count - 1, acc + [w]);
      cuts := [(a - i, m - i)] + rest;
      var (ws, j) := DecodePlans(keys, argv, i, count, acc).value;
      if j <= |argv| {
        var text, b := argv[i..j], m - i;
        assert ws[|acc|..][0] == w && ws[|acc|..][1..] == ws[|acc| + 1..];
        assert text[..5] == argv[i..i + 5] && text[5..a - i] == argv[i + 5..a] && text[a - i..b] == argv[a..m];
        assert text[b..] == argv[m..j] && cuts[0] == (a - i, b) && cuts[1..] == rest;
      }
    }
  }

  // What is spelled is decoded.

  lemma {:induction false} SpelledStepsAreRead(argv: seq<Bytes>, i: nat, j: nat, steps: seq<Step>, acc: seq<Step>)
    requires i <= j <= |argv| && SpellsSteps(argv[i..j], steps)
    ensures DecodeSteps(argv, i, |steps|, acc) == Some((acc + steps, j))
    decreases steps
  {
    hide SpellsSteps, ToNumber, ArgsAt;
    if steps == [] {
      assert i == j by { EmptyText(argv[i..j]); }
      assert acc + steps == acc;
    } else {
      var s, n := steps[0], |steps[0].args|;
      FirstFits(argv[i..j], steps);
      assert steps == [s] + steps[1..];
      OneMoreStep(argv, i, j, s, steps[1..]);
      SpelledStepsAreRead(argv, i + 2 + n, j, steps[1..], acc + [s]);
      ArgsInRange(argv, i + 2, n);
      assert acc + steps == acc + [s] + steps[1..];
    }
  }

  lemma EmptyText(text: seq<Bytes>)
    requires SpellsSteps(text, [])
    ensures text == []
  {}

  lemma FirstFits(text: seq<Bytes>, steps: seq<Step>)
    requires steps != [] && SpellsSteps(text, steps)
    ensures |text| >= 2 + |steps[0].args|
  {}

  lemma ArgsInRange(argv: seq<Bytes>, i: nat, n: nat)
    requires i + n <= |argv|
    ensures ArgsAt(argv, i, n) == argv[i..i + n]
  {}

  lemma SpelledPlanIsRead(keys: seq<Bytes>, argv: seq<Bytes>, i: nat, a: nat, j: nat, w: WirePlan, p: nat)
    requires i + 5 <= a <= j <= |argv| && SpellsPlan(keys, argv[i..i + 5], argv[i + 5..a], argv[a..j], w)
    ensures DecodePlan(keys, argv, i, p) == Success((w, j))
  {
    hide SpellsSteps, DecodeSteps;
    var header := argv[i..i + 5];
    assert forall x :: 0 <= x < 5 ==> header[x] == argv[i + x];
    assert NumberAt(argv, i) == ToNumber(header[0]) && NumberAt(argv, i + 1) == ToNumber(header[1]);
    assert NumberAt(argv, i + 2) == ToNumber(header[2]) && NumberAt(argv, i + 3) == ToNumber(header[3]);
    assert NumberAt(argv, i + 4) == ToNumber(header[4]);
    SpelledStepsAreRead(argv, i + 5, a, w.checks, []);
    SpelledStepsAreRead(argv, a, j, w.actions, []);
    assert [] + w.checks == w.checks && [] + w.actions == w.actions;
  }

  lemma {:induction false} SpelledPlansAreRead(keys: seq<Bytes>, argv: seq<Bytes>, i: nat, ws: seq<WirePlan>,
                                               cuts: seq<(nat, nat)>, acc: seq<WirePlan>)
    requires i <= |argv| && SpellsPlans(keys, argv[i..], ws, cuts)
    ensures DecodePlans(keys, argv, i, |ws|, acc) == Success((acc + ws, |argv|))
    decreases ws
  {
    hide DecodePlan, SpellsPlan;
    if ws == [] {
      assert acc + ws == acc;
    } else {
      var (a, b) := cuts[0];
      var text := argv[i..];
      assert text[..5] == argv[i..i + 5] && text[5..a] == argv[i + 5..i + a] && text[a..b] == argv[i + a..i + b];
      SpelledPlanIsRead(keys, argv, i, i + a, i + b, ws[0], |acc| + 1);
      assert text[b..] == argv[i + b..];
      SpelledPlansAreRead(keys, argv, i + b, ws[1..], cuts[1..], acc + [ws[0]]);
      assert acc + ws == acc + [ws[0]] + ws[1..];
    }
  }

  /** The program decodes a vector into these plans if and only if the vector spells them, to its last element. */
  lemma {:induction false} DecodesExactlyTheWellFormed(keys: seq<Bytes>, argv: seq<Bytes>, ws: seq<WirePlan>)
    ensures Decode(keys, argv) == Success(ws) <==> WellFormed(keys, argv, ws)
  {
    hide SpellsPlans, DecodePlans;
    if Decode(keys, argv) == Success(ws) {
      var count := NumberAt(argv, 1).value;
      var cuts := PlansReadWereSpelled(keys, argv, 2, count, []);
      var (plans, j) := DecodePlans(keys, argv, 2, count, []).value;
      assert plans[0..] == plans && argv[2..j] == argv[2..];
      assert SpellsPlans(keys, argv[2..], ws, cuts);
    }
    if WellFormed(keys, argv, ws) {
      var cuts :| SpellsPlans(keys, argv[2..], ws, cuts);
      SpelledPlansAreRead(keys, argv, 2, ws, cuts, []);
      assert [] + ws == ws;
    }
  }

  // ----- KEYS holds what the plans name and no more -----

  lemma {:induction false} DeclaredStepsOnly(keys: seq<Bytes>, steps: seq<Step>, action: bool, k: Bytes)
    ensures k in DeclareSteps(keys, steps, action) <==>
            k in keys || exists i :: 0 <= i < |steps| && Named(steps[i], action) == Some(k)
    decreases steps
  {
    if steps == [] {
    } else {
      var named, rest := Named(steps[0], action), steps[1..];
      var next := if named.Some? then Intern(keys, named.value) else keys;
      DeclaredStepsOnly(next, rest, action, k);
      if i: nat :| i < |rest| && Named(rest[i], action) == Some(k) {
        assert Named(steps[i + 1], action) == Some(k);
      }
      if i: nat :| i < |steps| && Named(steps[i], action) == Some(k) && i > 0 {
        assert rest[i - 1] == steps[i];
      }
    }
  }

  /** Some check or action of the plan names the key. */
  predicate PlanNames(p: Plan, k: Bytes) {
    || (exists i :: 0 <= i < |p.checks| && Named(p.checks[i], false) == Some(k))
    || (exists i :: 0 <= i < |p.actions| && Named(p.actions[i], true) == Some(k))
  }

  lemma {:induction false} DeclaredOnly(keys: seq<Bytes>, plans: seq<Plan>, k: Bytes)
    ensures k in Declare(keys, plans) <==> k in keys || exists p :: p in plans && PlanNames(p, k)
    decreases plans
  {
    if plans == [] {
    } else {
      var mid := DeclareSteps(keys, plans[0].checks, false);
      DeclaredStepsOnly(keys, plans[0].checks, false, k);
      DeclaredStepsOnly(mid, plans[0].actions, true, k);
      DeclaredOnly(DeclarePlan(keys, plans[0]), plans[1..], k);
      assert k in DeclarePlan(keys, plans[0]) <==> k in keys || PlanNames(plans[0], k);
      if p :| p in plans && PlanNames(p, k) {
        assert p == plans[0] || p in plans[1..];
      }
      if p :| p in plans[1..] && PlanNames(p, k) {
        assert p in plans;
      }
    }
  }

  lemma {:induction false} InternedOnly(keys: seq<Bytes>, more: seq<Bytes>, k: Bytes)
    ensures k in InternAll(keys, more) <==> k in keys || k in more
    decreases more
  {
    if more == [] {
    } else {
      InternedOnly(Intern(keys, more[0]), more[1..], k);
      assert k in more <==> k == more[0] || k in more[1..];
    }
  }

  /** KEYS lists every plan's key and every key a step names, each once, and nothing else. */
  lemma {:induction false} KeyTableIsExact(plans: seq<Plan>)
    ensures Distinct(KeyTable(plans))
    ensures forall k :: k in KeyTable(plans) <==> exists p :: p in plans && (p.key == k || PlanNames(p, k))
  {
    hide InternAll, Declare, PlanNames, Distinct;
    var pk := PlanKeys(plans);
    assert Distinct([]) by { NothingRepeats(); }
    forall k ensures k in KeyTable(plans) <==> exists p :: p in plans && (p.key == k || PlanNames(p, k)) {
      InternedOnly([], pk, k);
      DeclaredOnly(InternAll([], pk), plans, k);
      PlanKeysAre(plans, k);
    }
  }

  lemma NothingRepeats()
    ensures Distinct([])
  {}

  lemma PlanKeysAre(plans: seq<Plan>, k: Bytes)
    ensures k in PlanKeys(plans) <==> exists p :: p in plans && p.key == k
  {
    if k in PlanKeys(plans) {
      var i :| 0 <= i < |plans| && PlanKeys(plans)[i] == k;
      assert plans[i] in plans;
    }
    if p :| p in plans && p.key == k {
      var i :| 0 <= i < |plans| && plans[i] == p;
      assert PlanKeys(plans)[i] == k;
    }
  }

  // ----- The header of a folded plan -----

  /** The program reads each plan's key, type and precondition as the numbers the format gives them. */
  lemma {:induction false} HeadersAreRead(plans: seq<Plan>, i: nat)
    requires DistinctKeys(plans) && i < |plans|
    ensures Decode(KeyTable(plans), Argv(plans)).Success?
    ensures var ws := Decode(KeyTable(plans), Argv(plans)).value;
            && |ws| == |plans| && ws[i].key == plans[i].key
            && ws[i].ttype == (match plans[i].ttype
                               case StringTable => 0 case HashTable => 1 case ListTable => 2
                               case SetTable => 3 case ZSetTable => 4 case VectorTable => 5)
            && ws[i].require == (match plans[i].require
                                 case RequireAny => 0 case RequireAbsent => 1 case RequirePresent => 2)
  {
    hide Decode, KeyTable, Argv, Resolve;
    RoundTrip(plans);
  }
}
