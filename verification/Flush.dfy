/** The pre-commit flush: attempts against a server that may fail anywhere, and what may be said when one does. */
module Flush {
  import opened Common
  import opened Decimal
  import opened ScriptReply
  import Script
  import Keyspace

  // ----- What can happen to one attempt -----

  datatype SqlState =
    | ConnectionFailure | QueryCanceled | AdminShutdown | ResolutionUnknown
    | UniqueViolation | SerializationFailure | DatatypeMismatch | InternalError | OtherState

  datatype Reply = NoReply | ErrorReply(text: Bytes) | StatusReply(text: Bytes) | OtherReply

  /** A reply, or the error the transport raised instead of one. */
  datatype Wire = Broken(code: SqlState) | Got(reply: Reply)

  /** What the program did to the keyspace. */
  datatype Effect = Nothing | Wrote | WroteInPart

  /**
   One attempt as the server and the network decide it. A push is a flush of the output buffer that queueing a
   command can itself cause, and fails with the state given.
   */
  datatype Attempt = Attempt(
    loadPush: Option<SqlState>,
    evalPush: Option<SqlState>,
    load: Wire,
    eval: Wire,
    effect: Effect)

  const REFUSALS: seq<Bytes> :=
    ["NOSCRIPT", "MOVED", "ASK", "CROSSSLOT", "NOPERM", "OOM", "TRYAGAIN",
     "LOADING", "BUSYGROUP", "READONLY", "MASTERDOWN", "NOREPLICAS"]

  /** The error text begins with a code that is only answered before anything runs. */
  predicate Refuses(text: Bytes) {
    exists i :: 0 <= i < |REFUSALS| && WordAt(text, 0, REFUSALS[i])
  }

  method ProvesNotApplied(text: Bytes) returns (proof: bool)
    ensures proof == Refuses(text)
  {
    for i := 0 to |REFUSALS|
      invariant forall j :: 0 <= j < i ==> !WordAt(text, 0, REFUSALS[j])
    {
      if WordAt(text, 0, REFUSALS[i]) {
        return true;
      }
    }
    return false;
  }

  function EffectOf(r: Script.Reply): Effect {
    if r.Applied? then Wrote else if r.Internal? then WroteInPart else Nothing
  }

  /** Phase 2 answers OK or INTERNAL and nothing else. */
  lemma {:induction false} Phase2Answers(n: Keyspace.Numbers, db: Keyspace.Db, keys: seq<Bytes>,
                                         plans: seq<Script.WirePlan>, p: nat)
    requires p <= |plans|
    ensures Script.Phase2(n, db, keys, plans, p).1.Applied? || Script.Phase2(n, db, keys, plans, p).1.Internal?
    decreases |plans| - p
  {
    if p == |plans| {
    } else {
      var (db', failed) := Script.Act(n, db, keys, plans[p], 0);
      if failed.None? {
        Phase2Answers(n, db', keys, plans, p + 1);
      }
    }
  }

  /** A reply that claims no effect is one the program gives only when it has had none. */
  lemma {:induction false} RefusedMeansUnchanged(n: Keyspace.Numbers, db: Keyspace.Db, keys: seq<Bytes>,
                                                 argv: seq<Bytes>)
    ensures EffectOf(Script.Eval(n, db, keys, argv).1) == Nothing ==> Script.Eval(n, db, keys, argv).0 == db
  {
    match Script.Decode(keys, argv)
    case Failure(_) =>
    case Success(plans) => Phase2Answers(n, db, keys, plans, 0);
  }

  /**
   What is taken of the server: a push of SCRIPT LOAD that fails and a SCRIPT LOAD that errs leave the program not
   run, a listed refusal means it did not run, and a reply that bears the program's prefix is the program's own.
   */
  ghost predicate Honest(a: Attempt, nplans: nat) {
    && (a.loadPush.Some? ==> a.effect == Nothing)
    && (a.load.Got? && a.load.reply.ErrorReply? ==> a.effect == Nothing)
    && (a.eval.Got? ==> HonestReply(a.eval.reply, a.effect, nplans))
  }

  ghost predicate HonestReply(reply: Reply, effect: Effect, nplans: nat) {
    match reply
    case ErrorReply(t) =>
      && (Refuses(t) ==> effect == Nothing)
      && (WordAt(t, 0, PREFIX) ==> exists r, rest :: Says(t, r, rest) && !r.Applied? && effect == EffectOf(r))
    case StatusReply(t) =>
      WordAt(t, 0, PREFIX) ==> Says(t, Script.Applied(nplans), Show(nplans)) && effect == Wrote
    case _ => true
  }

  // ----- One attempt -----

  datatype Phase = BeforeSend | Sent | ProvenClean

  datatype Outcome = Done | RetryNoScript | RetryBusy

  datatype Cause =
    | Transport(code: SqlState) | LoadRefused | Sentinel(verdict: Code) | PartlyApplied | Refused
    | Indeterminate | WrongShape | StillNoScript | TooBusy

  datatype TryEnd = Finished(outcome: Outcome) | Threw(cause: Cause, phase: Phase)

  function ReadError(t: Bytes): TryEnd {
    if WordAt(t, 0, "NOSCRIPT") then Finished(RetryNoScript)
    else if WordAt(t, 0, "TRYAGAIN") || WordAt(t, 0, "LOADING") then Finished(RetryBusy)
    else if Classify(t).0 == Internal then Threw(PartlyApplied, Sent)
    else if Classify(t).0 != Unknown then Threw(Sentinel(Classify(t).0), ProvenClean)
    else if Refuses(t) then Threw(Refused, ProvenClean)
    else Threw(Indeterminate, Sent)
  }

  function ReadReply(r: Reply, nplans: nat): TryEnd {
    match r
    case NoReply => Threw(Indeterminate, Sent)
    case ErrorReply(t) => ReadError(t)
    case OtherReply => Threw(WrongShape, Sent)
    case StatusReply(t) =>
      if Classify(t) == (Ok, Some(Show(nplans))) then Finished(Done) else Threw(Indeterminate, Sent)
  }

  /** Queue, perhaps push, and read. The phase becomes SENT only once both commands are queued. */
  function Try(pipeline: nat, nplans: nat, load: bool, a: Attempt): TryEnd {
    var queued := if load && pipeline > 1 then 1 else 0;
    if load && pipeline <= 1 && a.loadPush.Some? then Threw(Transport(a.loadPush.value), BeforeSend)
    else if queued + 1 >= pipeline && a.evalPush.Some? then Threw(Transport(a.evalPush.value), BeforeSend)
    else if load && a.load.Broken? then Threw(Transport(a.load.code), Sent)
    else if load && a.load.reply.ErrorReply? then Threw(LoadRefused, ProvenClean)
    else if a.eval.Broken? then Threw(Transport(a.eval.code), Sent)
    else ReadReply(a.eval.reply, nplans)
  }

  // ----- The retry loop -----

  datatype Ending = Returned | Raised(cause: Cause, phase: Phase)

  datatype Config = Config(pipeline: nat, nplans: nat, maxRetries: nat)

  /** The loop from attempt `i` on: how it ends, and the attempt it ends at. */
  function RunFrom(c: Config, env: nat -> Attempt, i: nat, busy: nat, force: bool, loaded: bool): (Ending, nat)
    requires busy <= c.maxRetries
    decreases (if force then 0 else 1) + c.maxRetries - busy
  {
    match Try(c.pipeline, c.nplans, force || !loaded, env(i))
    case Threw(cause, phase) => (Raised(cause, phase), i)
    case Finished(Done) => (Returned, i)
    case Finished(RetryNoScript) =>
      if force then (Raised(StillNoScript, BeforeSend), i) else RunFrom(c, env, i + 1, busy, true, false)
    case Finished(RetryBusy) =>
      if busy >= c.maxRetries then (Raised(TooBusy, BeforeSend), i) else RunFrom(c, env, i + 1, busy + 1, force, loaded)
  }

  function Run(c: Config, env: nat -> Attempt, loaded: bool): (Ending, nat) {
    RunFrom(c, env, 0, 0, false, loaded)
  }

  // ----- The flush as it runs -----

  class Flusher {
    var phase: Phase
    var scriptLoaded: bool
    var retries: nat

    constructor (loaded: bool)
      ensures phase == BeforeSend && scriptLoaded == loaded
    {
      phase, scriptLoaded, retries := BeforeSend, loaded, 0;
    }

    method ClassifyErrorReply(t: Bytes) returns (r: TryEnd)
      requires phase == Sent
      modifies this`phase
      ensures r == ReadError(t) && (r.Threw? ==> r.phase == phase)
    {
      if WordAt(t, 0, "NOSCRIPT") {
        return Finished(RetryNoScript);
      }
      if WordAt(t, 0, "TRYAGAIN") || WordAt(t, 0, "LOADING") {
        return Finished(RetryBusy);
      }
      var code, detail := ClassifyReply(t);
      if code == Internal {
        return Threw(PartlyApplied, phase);
      }
      if code != Unknown {
        phase := ProvenClean;
        return Threw(Sentinel(code), phase);
      }
      var proof := ProvesNotApplied(t);
      if proof {
        phase := ProvenClean;
        return Threw(Refused, phase);
      }
      return Threw(Indeterminate, phase);
    }

    method AttemptOnce(pipeline: nat, nplans: nat, force: bool, a: Attempt) returns (r: TryEnd)
      requires phase == BeforeSend
      modifies this`phase, this`scriptLoaded
      ensures r == Try(pipeline, nplans, force || !old(scriptLoaded), a)
      ensures r.Threw? ==> r.phase == phase
      ensures r.Finished? && !r.outcome.Done? ==> scriptLoaded == old(scriptLoaded)
    {
      hide ReadError, Classify;
      var load := force || !scriptLoaded;
      var queued := 0;
      if load {
        queued := 1;
        if queued >= pipeline {
          if a.loadPush.Some? {
            return Threw(Transport(a.loadPush.value), phase);
          }
          queued := 0;
        }
      }
      queued := queued + 1;
      if queued >= pipeline && a.evalPush.Some? {
        return Threw(Transport(a.evalPush.value), phase);
      }
      phase := Sent;
      if load {
        if a.load.Broken? {
          return Threw(Transport(a.load.code), phase);
        }
        if a.load.reply.ErrorReply? {
          phase := ProvenClean;
          return Threw(LoadRefused, phase);
        }
      }
      if a.eval.Broken? {
        return Threw(Transport(a.eval.code), phase);
      }
      match a.eval.reply
      case NoReply => return Threw(Indeterminate, phase);
      case OtherReply => return Threw(WrongShape, phase);
      case ErrorReply(t) => r := ClassifyErrorReply(t);
      case StatusReply(t) =>
        var code, detail := ClassifyReply(t);
        if code != Ok || detail != Some(Show(nplans)) {
          return Threw(Indeterminate, phase);
        }
        if load {
          scriptLoaded := true;
        }
        return Finished(Done);
    }

    /** Attempt until it applies or a budget runs out; each retry goes back to BEFORE_SEND. */
    method RunFlush(c: Config, env: nat -> Attempt) returns (ending: Ending, last: nat)
      requires phase == BeforeSend
      modifies this
      ensures (ending, last) == Run(c, env, old(scriptLoaded))
      ensures ending.Raised? ==> phase == ending.phase
    {
      hide Try;
      var busy, force, i := 0, false, 0;
      while true
        invariant phase == BeforeSend && busy <= c.maxRetries
        invariant Run(c, env, old(scriptLoaded)) == RunFrom(c, env, i, busy, force, scriptLoaded)
        decreases (if force then 0 else 1) + c.maxRetries - busy
      {
        var r := AttemptOnce(c.pipeline, c.nplans, force, env(i));
        if r.Threw? {
          return Raised(r.cause, r.phase), i;
        }
        if r.outcome.Done? {
          return Returned, i;
        }
        retries := retries + 1;
        phase := BeforeSend;
        if r.outcome.RetryNoScript? {
          if force {
            return Raised(StillNoScript, phase), i;
          }
          scriptLoaded := false;
          force := true;
        } else {
          if busy >= c.maxRetries {
            return Raised(TooBusy, phase), i;
          }
          busy := busy + 1;
        }
        i := i + 1;
      }
    }
  }

  // ----- Exactly once -----

  lemma ErrorIsReadHonestly(t: Bytes, effect: Effect, nplans: nat)
    requires HonestReply(ErrorReply(t), effect, nplans)
    ensures ReadError(t).Finished? ==> effect == Nothing && !ReadError(t).outcome.Done?
    ensures ReadError(t).Threw? && ReadError(t).phase != Sent ==> effect == Nothing
  {
    hide Classify;
    RefusalsInclude(t);
    if ReadError(t).Threw? && ReadError(t).cause.Sentinel? {
      KnownCodesAreOurs(t);
      var r, rest :| Says(t, r, rest) && !r.Applied? && effect == EffectOf(r);
      ClassifyReadsTheProgram(t, r, rest);
    }
  }

  lemma RefusalsInclude(t: Bytes)
    ensures WordAt(t, 0, "NOSCRIPT") || WordAt(t, 0, "TRYAGAIN") || WordAt(t, 0, "LOADING") ==> Refuses(t)
  {
    assert REFUSALS[0] == "NOSCRIPT" && REFUSALS[6] == "TRYAGAIN" && REFUSALS[7] == "LOADING";
  }

  lemma KnownCodesAreOurs(t: Bytes)
    ensures Classify(t).0 != Unknown ==> WordAt(t, 0, PREFIX)
  {}

  lemma StatusIsReadHonestly(t: Bytes, effect: Effect, nplans: nat)
    requires HonestReply(StatusReply(t), effect, nplans)
    ensures ReadReply(StatusReply(t), nplans) == Finished(Done) ==> effect == Wrote
  {
    KnownCodesAreOurs(t);
  }

  /** One attempt against an honest server: done means written, a retry means nothing ran, and so does a clean error. */
  lemma TryIsHonest(pipeline: nat, nplans: nat, load: bool, a: Attempt)
    requires Honest(a, nplans)
    ensures match Try(pipeline, nplans, load, a)
            case Finished(Done) => a.effect == Wrote
            case Finished(_) => a.effect == Nothing
            case Threw(_, phase) => phase != Sent && (load ==> pipeline > 2) && pipeline > 1 ==> a.effect == Nothing
  {
    hide ReadError, Classify, HonestReply;
    if a.eval.Got? {
      match a.eval.reply
      case ErrorReply(t) => ErrorIsReadHonestly(t, a.effect, nplans);
      case StatusReply(t) => StatusIsReadHonestly(t, a.effect, nplans);
      case _ =>
    }
  }

  ghost predicate HonestServer(env: nat -> Attempt, nplans: nat) {
    forall i :: Honest(env(i), nplans)
  }

  lemma {:induction false} RunFromIsHonest(c: Config, env: nat -> Attempt, i: nat, busy: nat, force: bool, loaded: bool)
    requires busy <= c.maxRetries && HonestServer(env, c.nplans)
    ensures var (ending, last) := RunFrom(c, env, i, busy, force, loaded);
            && i <= last <= i + (if force then 0 else 1) + c.maxRetries - busy
            && (forall j :: i <= j < last ==> env(j).effect == Nothing)
            && (ending.Returned? ==> env(last).effect == Wrote)
            && (ending.Raised? && ending.phase != Sent && c.pipeline > 2 ==> env(last).effect == Nothing)
    decreases (if force then 0 else 1) + c.maxRetries - busy
  {
    hide Try, Honest;
    assert Honest(env(i), c.nplans);
    TryIsHonest(c.pipeline, c.nplans, force || !loaded, env(i));
    match Try(c.pipeline, c.nplans, force || !loaded, env(i))
    case Finished(RetryNoScript) =>
      if !force {
        RunFromIsHonest(c, env, i + 1, busy, true, false);
      }
    case Finished(RetryBusy) =>
      if busy < c.maxRetries {
        RunFromIsHonest(c, env, i + 1, busy + 1, force, loaded);
      }
    case _ =>
  }

  /** An error raised outside SENT is raised with nothing written. */
  predicate CleanErrorsAreClean(c: Config, env: nat -> Attempt, loaded: bool) {
    var (ending, last) := Run(c, env, loaded);
    ending.Raised? && ending.phase != Sent ==> env(last).effect == Nothing
  }

  /**
   Exactly once: the flush returns only after an attempt that wrote, every attempt before it ran nothing, so no
   retry follows a write; there are at most write_retry_count + 2 attempts; and with room in the pipeline for both
   commands an error raised outside SENT means nothing was written.
   */
  lemma {:induction false} CommitIsExactlyOnce(c: Config, env: nat -> Attempt, loaded: bool)
    requires HonestServer(env, c.nplans)
    ensures var (ending, last) := Run(c, env, loaded);
            && last + 1 <= c.maxRetries + 2
            && (forall j :: 0 <= j < last ==> env(j).effect == Nothing)
            && (ending.Returned? ==> env(last).effect == Wrote)
            && (c.pipeline > 2 ==> CleanErrorsAreClean(c, env, loaded))
  {
    RunFromIsHonest(c, env, 0, 0, false, loaded);
  }

  // ----- Where the phase is set too late -----

  /** Queueing the EVALSHA pushes it, the push fails, and the program has run all the same. */
  const PUSHED_THEN_LOST := Attempt(None, Some(ConnectionFailure), Got(StatusReply("")), Broken(ConnectionFailure),
    Wrote)

  /** The server has forgotten the program, which proves nothing ran. */
  const FORGOTTEN := Attempt(None, None, Got(StatusReply("")), Got(ErrorReply("NOSCRIPT")), Nothing)

  lemma ForgottenIsHonest(nplans: nat)
    ensures Honest(FORGOTTEN, nplans) && Honest(PUSHED_THEN_LOST, nplans)
    ensures Try(2, nplans, false, FORGOTTEN) == Finished(RetryNoScript)
  {
    var t: Bytes := "NOSCRIPT";
    assert t[0..8] == t && t[0..|PREFIX|][0] == t[0] != PREFIX[0];
  }

  /** A pipeline of one or two pushes the EVALSHA before the phase says SENT, and an honest server can then lose it. */
  lemma {:induction false} ShortPipelineLies(c: Config, loaded: bool)
    requires c.pipeline <= 2
    ensures exists env: nat -> Attempt :: HonestServer(env, c.nplans) && !CleanErrorsAreClean(c, env, loaded)
  {
    ForgottenIsHonest(c.nplans);
    if c.pipeline == 2 && loaded {
      var env := (i: nat) => if i == 0 then FORGOTTEN else PUSHED_THEN_LOST;
      assert Try(2, c.nplans, false, env(0)) == Finished(RetryNoScript);
      assert RunFrom(c, env, 1, 0, true, false) == (Raised(Transport(ConnectionFailure), BeforeSend), 1);
      assert HonestServer(env, c.nplans) && !CleanErrorsAreClean(c, env, loaded);
    } else {
      var env := (i: nat) => PUSHED_THEN_LOST;
      assert HonestServer(env, c.nplans) && !CleanErrorsAreClean(c, env, loaded);
    }
  }

  /** The claim a clean error makes holds against every honest server exactly when pipeline_batch is at least three. */
  lemma {:induction false} CleanErrorsNeedRoomForBoth(c: Config, loaded: bool)
    ensures (forall env: nat -> Attempt :: HonestServer(env, c.nplans) ==> CleanErrorsAreClean(c, env, loaded)) <==>
        c.pipeline >= 3
  {
    if c.pipeline >= 3 {
      forall env: nat -> Attempt | HonestServer(env, c.nplans) ensures CleanErrorsAreClean(c, env, loaded) {
        CommitIsExactlyOnce(c, env, loaded);
      }
    } else {
      ShortPipelineLies(c, loaded);
    }
  }

  // ----- What the user is told -----

  function StateOf(cause: Cause): SqlState {
    match cause
    case Transport(code) => code
    case Sentinel(Conflict) => UniqueViolation
    case Sentinel(Missing) => SerializationFailure
    case Sentinel(WrongType) => DatatypeMismatch
    case Sentinel(_) => InternalError
    case PartlyApplied => InternalError
    case StillNoScript => InternalError
    case TooBusy => SerializationFailure
    case Indeterminate => ResolutionUnknown
    case LoadRefused => OtherState
    case Refused => OtherState
    case WrongShape => OtherState
  }

  const KEPT: set<SqlState> :=
    {QueryCanceled, AdminShutdown, ResolutionUnknown, UniqueViolation, SerializationFailure, DatatypeMismatch,
      InternalError}

  /** The state the error carries out of the flush; `urgent` is FATAL, a pending cancel or a pending die. */
  function Rethrown(cause: Cause, phase: Phase, urgent: bool): SqlState {
    if phase != Sent || urgent || StateOf(cause) in KEPT then StateOf(cause) else ResolutionUnknown
  }

  predicate SaysNothingApplied(phase: Phase) {
    phase != Sent
  }

  /**
   Every error of a flush tells the truth: the context line promises that nothing was applied only when nothing
   was, and an error without that promise is 08007, the partial-application XX000, or one the rethrow rule keeps.
   */
  lemma {:induction false} ErrorsAreTruthful(c: Config, env: nat -> Attempt, loaded: bool, urgent: bool)
    requires HonestServer(env, c.nplans) && c.pipeline > 2 && Run(c, env, loaded).0.Raised?
    ensures var (ending, last) := Run(c, env, loaded);
            var state := Rethrown(ending.cause, ending.phase, urgent);
            && (SaysNothingApplied(ending.phase) ==> env(last).effect == Nothing)
            && (!SaysNothingApplied(ending.phase) && !urgent && state != ResolutionUnknown ==>
                ending.cause == PartlyApplied || (ending.cause.Transport? && ending.cause.code in KEPT))
            && (ending.cause == PartlyApplied ==> env(last).effect == WroteInPart)
  {
    CommitIsExactlyOnce(c, env, loaded);
    RunEndsAtATry(c, env, 0, 0, false, loaded);
  }

  lemma {:induction false} RunEndsAtATry(c: Config, env: nat -> Attempt, i: nat, busy: nat, force: bool, loaded: bool)
    requires busy <= c.maxRetries && HonestServer(env, c.nplans)
    ensures var (ending, last) := RunFrom(c, env, i, busy, force, loaded);
            && (ending.Raised? && ending.phase == Sent ==>
                ending.cause.Transport? || ending.cause in {PartlyApplied, Indeterminate, WrongShape})
            && (ending.Raised? && ending.cause == PartlyApplied ==> env(last).effect == WroteInPart)
    decreases (if force then 0 else 1) + c.maxRetries - busy
  {
    hide Try, Honest;
    var load := force || !loaded;
    assert Honest(env(i), c.nplans);
    TrySentCauses(c.pipeline, c.nplans, load, env(i));
    match Try(c.pipeline, c.nplans, load, env(i))
    case Finished(RetryNoScript) =>
      if !force {
        RunEndsAtATry(c, env, i + 1, busy, true, false);
      }
    case Finished(RetryBusy) =>
      if busy < c.maxRetries {
        RunEndsAtATry(c, env, i + 1, busy + 1, force, loaded);
      }
    case _ =>
  }

  lemma TrySentCauses(pipeline: nat, nplans: nat, load: bool, a: Attempt)
    requires Honest(a, nplans)
    ensures match Try(pipeline, nplans, load, a)
            case Threw(cause, phase) =>
              && (phase == Sent ==> cause.Transport? || cause in {PartlyApplied, Indeterminate, WrongShape})
              && (cause == PartlyApplied ==> a.effect == WroteInPart)
            case _ => true
  {
    hide Classify;
    var r := Try(pipeline, nplans, load, a);
    if r.Threw? && r.cause == PartlyApplied {
      var t := a.eval.reply.text;
      KnownCodesAreOurs(t);
      var p, rest :| Says(t, p, rest) && !p.Applied? && a.effect == EffectOf(p);
      ClassifyReadsTheProgram(t, p, rest);
    }
  }
}
