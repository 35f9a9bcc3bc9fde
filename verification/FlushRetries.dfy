/** The retry loop's other half: which answers are waited out, for how long, and what each ending tells the user. */
module FlushRetries {
  import opened Common
  import opened Decimal
  import opened ScriptReply
  import opened Flush
  import Script

  // ----- An attempt, as the server answered it -----

  /** Nothing fails in transport, and a SCRIPT LOAD, where one is sent, is not refused. */
  predicate Quiet(a: Attempt, load: bool) {
    && a.loadPush.None? && a.evalPush.None? && a.eval.Got?
    && (load ==> a.load.Got? && !a.load.reply.ErrorReply?)
  }

  predicate ErrorBegins(a: Attempt, word: Bytes) {
    a.eval.Got? && a.eval.reply.ErrorReply? && WordAt(a.eval.reply.text, 0, word)
  }

  /** The server cannot run the program now, and says so. */
  predicate AnsweredBusy(a: Attempt) {
    ErrorBegins(a, "TRYAGAIN") || ErrorBegins(a, "LOADING")
  }

  predicate AnsweredNoScript(a: Attempt) {
    ErrorBegins(a, "NOSCRIPT")
  }

  predicate AnsweredOk(a: Attempt, nplans: nat) {
    a.eval == Got(StatusReply("VFDW1 OK " + Show(nplans)))
  }

  function BusyCount(env: nat -> Attempt, m: nat): nat {
    if m == 0 then 0 else BusyCount(env, m - 1) + if AnsweredBusy(env(m - 1)) then 1 else 0
  }

  function NoScriptCount(env: nat -> Attempt, m: nat): nat {
    if m == 0 then 0 else NoScriptCount(env, m - 1) + if AnsweredNoScript(env(m - 1)) then 1 else 0
  }

  /** Attempt `m` sends SCRIPT LOAD: the program was never loaded here, or the server has said it is gone. */
  predicate Loads(env: nat -> Attempt, loaded: bool, m: nat) {
    !loaded || NoScriptCount(env, m) > 0
  }

  /** The first `m` attempts are each answered, with a busy or a NOSCRIPT. */
  predicate Waits(env: nat -> Attempt, loaded: bool, m: nat) {
    forall j :: 0 <= j < m ==>
      Quiet(env(j), Loads(env, loaded, j)) && (AnsweredBusy(env(j)) || AnsweredNoScript(env(j)))
  }

  // ----- How one attempt is read -----

  lemma DifferentWords(t: Bytes)
    ensures !(WordAt(t, 0, "NOSCRIPT") && WordAt(t, 0, "TRYAGAIN"))
    ensures !(WordAt(t, 0, "NOSCRIPT") && WordAt(t, 0, "LOADING"))
  {
    assert forall w: Bytes :: w != [] && WordAt(t, 0, w) ==> t[0..|w|][0] == t[0];
    assert "NOSCRIPT"[0] == 'N' && "TRYAGAIN"[0] == 'T' && "LOADING"[0] == 'L';
  }

  lemma QuietIsRead(pipeline: nat, nplans: nat, load: bool, a: Attempt)
    requires Quiet(a, load)
    ensures Try(pipeline, nplans, load, a) == ReadReply(a.eval.reply, nplans)
  {
    hide ReadReply;
  }

  lemma BusyIsRetried(pipeline: nat, nplans: nat, load: bool, a: Attempt)
    requires Quiet(a, load)
    ensures AnsweredBusy(a) ==> Try(pipeline, nplans, load, a) == Finished(RetryBusy) && !AnsweredNoScript(a)
    ensures AnsweredNoScript(a) ==> Try(pipeline, nplans, load, a) == Finished(RetryNoScript)
  {
    hide Try, WordAt, Classify;
    QuietIsRead(pipeline, nplans, load, a);
    if a.eval.reply.ErrorReply? {
      DifferentWords(a.eval.reply.text);
    }
  }

  lemma OkIsDone(pipeline: nat, nplans: nat, load: bool, a: Attempt)
    requires Quiet(a, load) && AnsweredOk(a, nplans)
    ensures Try(pipeline, nplans, load, a) == Finished(Done)
  {
    hide Try, Classify;
    QuietIsRead(pipeline, nplans, load, a);
    var text := a.eval.reply.text;
    assert text == Text(Ok, Show(nplans));
    ClassifyReadsTheProgram(text, Script.Applied(nplans), Show(nplans));
  }

  /** Only an attempt that got an answer and was told to is retried. */
  lemma RetriedWasAnswered(pipeline: nat, nplans: nat, load: bool, a: Attempt)
    ensures Try(pipeline, nplans, load, a) == Finished(RetryBusy) ==> AnsweredBusy(a)
    ensures Try(pipeline, nplans, load, a) == Finished(RetryNoScript) ==> AnsweredNoScript(a)
  {
    hide WordAt, Classify;
  }

  // ----- Waiting -----

  /** After `m` waits within both budgets the loop is at attempt `m`, with its counters what the answers make them. */
  lemma {:induction false} WaitsReach(c: Config, env: nat -> Attempt, loaded: bool, m: nat)
    requires Waits(env, loaded, m) && BusyCount(env, m) <= c.maxRetries && NoScriptCount(env, m) <= 1
    ensures Run(c, env, loaded)
            == RunFrom(c, env, m, BusyCount(env, m), NoScriptCount(env, m) == 1, loaded && NoScriptCount(env, m) == 0)
  {
    hide Try, AnsweredBusy, AnsweredNoScript, Quiet;
    if m == 0 {
    } else {
      WaitsReach(c, env, loaded, m - 1);
      assert Quiet(env(m - 1), Loads(env, loaded, m - 1));
      BusyIsRetried(c.pipeline, c.nplans, Loads(env, loaded, m - 1), env(m - 1));
    }
  }

  /** Busy answers within the retry budget, and one NOSCRIPT, are waited out, and an OK is then a return. */
  lemma {:induction false} BusyIsWaitedOut(c: Config, env: nat -> Attempt, loaded: bool, m: nat)
    requires Waits(env, loaded, m) && BusyCount(env, m) <= c.maxRetries && NoScriptCount(env, m) <= 1
    requires Quiet(env(m), Loads(env, loaded, m)) && AnsweredOk(env(m), c.nplans)
    ensures Run(c, env, loaded) == (Returned, m)
  {
    hide Try, Quiet, AnsweredOk, Waits;
    WaitsReach(c, env, loaded, m);
    OkIsDone(c.pipeline, c.nplans, Loads(env, loaded, m), env(m));
  }

  /** One busy answer more than the budget ends the wait, and so does a second NOSCRIPT. */
  lemma {:induction false} WaitsEnd(c: Config, env: nat -> Attempt, loaded: bool, m: nat)
    requires Waits(env, loaded, m) && BusyCount(env, m) <= c.maxRetries && NoScriptCount(env, m) <= 1
    requires Quiet(env(m), Loads(env, loaded, m))
    ensures AnsweredBusy(env(m)) && BusyCount(env, m) == c.maxRetries ==>
              Run(c, env, loaded) == (Raised(TooBusy, BeforeSend), m)
    ensures AnsweredNoScript(env(m)) && NoScriptCount(env, m) == 1 ==>
              Run(c, env, loaded) == (Raised(StillNoScript, BeforeSend), m)
  {
    hide Try, Quiet, Waits, AnsweredBusy, AnsweredNoScript;
    WaitsReach(c, env, loaded, m);
    BusyIsRetried(c.pipeline, c.nplans, Loads(env, loaded, m), env(m));
  }

  lemma {:induction false} RunFromGivesUp(c: Config, env: nat -> Attempt, i: nat, busy: nat, force: bool, loaded: bool)
    requires busy <= c.maxRetries && busy == BusyCount(env, i) && NoScriptCount(env, i) == if force then 1 else 0
    ensures var (ending, last) := RunFrom(c, env, i, busy, force, loaded);
            && (forall j :: i <= j < last ==> AnsweredBusy(env(j)) || AnsweredNoScript(env(j)))
            && BusyCount(env, last) <= c.maxRetries && NoScriptCount(env, last) <= 1
            && (ending.Raised? && ending.cause == TooBusy ==> BusyCount(env, last + 1) == c.maxRetries + 1)
            && (ending.Raised? && ending.cause == StillNoScript ==> NoScriptCount(env, last + 1) == 2)
    decreases (if force then 0 else 1) + c.maxRetries - busy
  {
    hide Try, AnsweredBusy, AnsweredNoScript;
    var load := force || !loaded;
    RetriedWasAnswered(c.pipeline, c.nplans, load, env(i));
    NoSuchCause(c.pipeline, c.nplans, load, env(i));
    match Try(c.pipeline, c.nplans, load, env(i))
    case Finished(RetryNoScript) =>
      NotBothWords(env(i));
      if !force {
        RunFromGivesUp(c, env, i + 1, busy, true, false);
      }
    case Finished(RetryBusy) =>
      NotBothWords(env(i));
      if busy < c.maxRetries {
        RunFromGivesUp(c, env, i + 1, busy + 1, force, loaded);
      }
    case _ =>
  }

  lemma NotBothWords(a: Attempt)
    ensures !(AnsweredBusy(a) && AnsweredNoScript(a))
  {
    hide WordAt;
    if a.eval.Got? && a.eval.reply.ErrorReply? {
      DifferentWords(a.eval.reply.text);
    }
  }

  lemma NoSuchCause(pipeline: nat, nplans: nat, load: bool, a: Attempt)
    ensures Try(pipeline, nplans, load, a).Threw? ==>
              Try(pipeline, nplans, load, a).cause != TooBusy && Try(pipeline, nplans, load, a).cause != StillNoScript
  {
    hide WordAt, Classify;
  }

  /**
   The flush calls the server too busy only after one busy answer more than write_retry_count, and gives up on
   the script only after a second NOSCRIPT.
   */
  lemma {:induction false} TooBusyIsEarned(c: Config, env: nat -> Attempt, loaded: bool)
    ensures var (ending, last) := Run(c, env, loaded);
            && (forall j :: 0 <= j < last ==> AnsweredBusy(env(j)) || AnsweredNoScript(env(j)))
            && BusyCount(env, last) <= c.maxRetries && NoScriptCount(env, last) <= 1
            && (ending.Raised? && ending.cause == TooBusy ==> BusyCount(env, last + 1) == c.maxRetries + 1)
            && (ending.Raised? && ending.cause == StillNoScript ==> NoScriptCount(env, last + 1) == 2)
  {
    RunFromGivesUp(c, env, 0, 0, false, loaded);
  }

  // ----- What the user is told -----

  /** The program's own refusal, after any waits, ends the flush and reaches the user as its own state. */
  lemma {:induction false} RefusalIsReported(c: Config, env: nat -> Attempt, loaded: bool, m: nat, t: Bytes,
                                             r: Script.Reply, rest: Bytes, urgent: bool)
    requires Waits(env, loaded, m) && BusyCount(env, m) <= c.maxRetries && NoScriptCount(env, m) <= 1
    requires Quiet(env(m), Loads(env, loaded, m)) && env(m).eval == Got(ErrorReply(t))
    requires Says(t, r, rest) && !r.Applied?
    ensures var (ending, last) := Run(c, env, loaded);
            && last == m && ending.Raised? && (SaysNothingApplied(ending.phase) <==> !r.Internal?)
            && Rethrown(ending.cause, ending.phase, urgent)
               == match r
                  case Conflict(_, _) => UniqueViolation
                  case Missing(_, _) => SerializationFailure
                  case WrongKind(_) => DatatypeMismatch
                  case _ => InternalError
  {
    hide Try, Quiet, Waits, Says, Classify, ReadError;
    WaitsReach(c, env, loaded, m);
    QuietIsRead(c.pipeline, c.nplans, Loads(env, loaded, m), env(m));
    ProgramErrorIsRead(t, r, rest);
  }

  lemma ProgramErrorIsRead(t: Bytes, r: Script.Reply, rest: Bytes)
    requires Says(t, r, rest) && !r.Applied?
    ensures ReadError(t) == if r.Internal? then Threw(PartlyApplied, Sent) else Threw(Sentinel(CodeOf(r)), ProvenClean)
  {
    hide Classify;
    ClassifyReadsTheProgram(t, r, rest);
    TextParts(CodeOf(r), rest);
    OtherWords(t);
  }

  lemma OtherWords(t: Bytes)
    requires WordAt(t, 0, PREFIX)
    ensures !WordAt(t, 0, "NOSCRIPT") && !WordAt(t, 0, "TRYAGAIN") && !WordAt(t, 0, "LOADING")
  {
    assert t[0] == t[0..|PREFIX|][0] == 'V';
    assert forall w: Bytes :: WordAt(t, 0, w) && w != [] ==> w[0] == t[0..|w|][0] == 'V';
  }

  /**
   An error that is neither the program's nor a listed refusal leaves the outcome unknown, and so do no answer, an
   answer that is not the program's, and a connection lost after sending.
   */
  lemma {:induction false} UnknownIsReported(c: Config, env: nat -> Attempt, loaded: bool, m: nat, urgent: bool)
    requires Waits(env, loaded, m) && BusyCount(env, m) <= c.maxRetries && NoScriptCount(env, m) <= 1
    requires var a := env(m);
             || (Quiet(a, Loads(env, loaded, m)) && (a.eval.reply.NoReply? || a.eval.reply.OtherReply?) && !urgent)
             || (Quiet(a, Loads(env, loaded, m)) && a.eval.reply.StatusReply? && !AnsweredOk(a, c.nplans)
                 && !StartsWith(a.eval.reply.text, "VFDW1 "))
             || (Quiet(a, Loads(env, loaded, m)) && a.eval.reply.ErrorReply? && !Refuses(a.eval.reply.text)
                 && !WordAt(a.eval.reply.text, 0, PREFIX))
             || (c.pipeline > 2 && a.eval.Broken? && a.eval.code in {ConnectionFailure, OtherState} && !urgent
                 && (Loads(env, loaded, m) ==> a.load.Got? && !a.load.reply.ErrorReply?))
    ensures var (ending, last) := Run(c, env, loaded);
            && last == m && ending.Raised? && !SaysNothingApplied(ending.phase)
            && Rethrown(ending.cause, ending.phase, urgent) == ResolutionUnknown
  {
    hide Waits, Classify, Refuses, WordAt;
    WaitsReach(c, env, loaded, m);
    var a, load := env(m), Loads(env, loaded, m);
    if Quiet(a, load) && a.eval.Got? {
      QuietIsRead(c.pipeline, c.nplans, load, a);
      if a.eval.reply.ErrorReply? {
        assert Classify(a.eval.reply.text).0 == Unknown by { NotOursIsUnknown(a.eval.reply.text); }
        RefusalsInclude(a.eval.reply.text);
      } else if a.eval.reply.StatusReply? {
        ClassifyIsExact(a.eval.reply.text, Ok);
      }
    }
  }

  /** A refused SCRIPT LOAD, and an error only given before anything runs, are reported as having applied nothing. */
  lemma {:induction false} CleanIsReported(c: Config, env: nat -> Attempt, loaded: bool, m: nat, urgent: bool)
    requires Waits(env, loaded, m) && BusyCount(env, m) <= c.maxRetries && NoScriptCount(env, m) <= 1
    requires env(m).loadPush.None? && env(m).evalPush.None?
    requires if Loads(env, loaded, m) && env(m).load.Got? && env(m).load.reply.ErrorReply? then true
             else && Quiet(env(m), Loads(env, loaded, m)) && env(m).eval.reply.ErrorReply?
                  && Refuses(env(m).eval.reply.text) && !WordAt(env(m).eval.reply.text, 0, PREFIX)
                  && !AnsweredBusy(env(m)) && !AnsweredNoScript(env(m))
    ensures var (ending, last) := Run(c, env, loaded);
            && last == m && ending.Raised? && SaysNothingApplied(ending.phase)
            && Rethrown(ending.cause, ending.phase, urgent) == OtherState
  {
    hide Waits, Classify, Refuses, WordAt;
    WaitsReach(c, env, loaded, m);
    if env(m).eval.Got? && env(m).eval.reply.ErrorReply? && !WordAt(env(m).eval.reply.text, 0, PREFIX) {
      NotOursIsUnknown(env(m).eval.reply.text);
    }
  }

  /** A push that fails is reported as itself, and as nothing sent. */
  lemma {:induction false} FailedPushIsReported(c: Config, env: nat -> Attempt, loaded: bool, m: nat, urgent: bool)
    requires Waits(env, loaded, m) && BusyCount(env, m) <= c.maxRetries && NoScriptCount(env, m) <= 1
    requires c.pipeline <= 1 && (if Loads(env, loaded, m) then env(m).loadPush.Some? else env(m).evalPush.Some?)
    ensures var (ending, last) := Run(c, env, loaded);
            var code := if Loads(env, loaded, m) then env(m).loadPush.value else env(m).evalPush.value;
            last == m && ending == Raised(Transport(code), BeforeSend)
            && Rethrown(ending.cause, ending.phase, urgent) == code
  {
    hide Waits, ReadReply;
    WaitsReach(c, env, loaded, m);
  }

  lemma NotOursIsUnknown(t: Bytes)
    requires !WordAt(t, 0, PREFIX)
    ensures Classify(t).0 == Unknown
  {}

  /** A cancel stays a cancel, whatever had been sent. */
  lemma {:induction false} CancelIsReported(c: Config, env: nat -> Attempt, loaded: bool, m: nat, urgent: bool)
    requires Waits(env, loaded, m) && BusyCount(env, m) <= c.maxRetries && NoScriptCount(env, m) <= 1
    requires c.pipeline > 2 && env(m).eval == Broken(QueryCanceled)
    requires Loads(env, loaded, m) ==> env(m).load.Got? && !env(m).load.reply.ErrorReply?
    ensures var (ending, last) := Run(c, env, loaded);
            last == m && ending.Raised? && Rethrown(ending.cause, ending.phase, urgent) == QueryCanceled
  {
    hide Waits, ReadReply;
    WaitsReach(c, env, loaded, m);
  }
}
