/** One backend's transaction: the buffer and the ledger kept in step through savepoints and refusals. */
module Savepoints {
  import opened Common
  import opened WriteOps
  import opened Fold
  import opened Buffer
  import opened Ledger
  import opened Overlay

  /** Re-folding a prefix of an accepted log raises nothing. */
  lemma {:induction false} PrefixIsAccepted(log: Log, i: nat)
    requires i <= |log| && FoldLog(log).Success?
    ensures FoldLog(log[..i]).Success?
  {
    RefusalSticks(log, i);
  }

  /**
   The operations inside savepoint `d` are exactly those appended since it began, and none is deeper than the
   deepest savepoint.
   */
  ghost predicate Marked(marks: seq<Log>, ops: Log, levels: seq<nat>) {
    && |levels| == |ops|
    && (forall i :: 0 <= i < |levels| ==> levels[i] <= |marks| + 1)
    && (forall d :: 0 <= d < |marks| ==> marks[d] <= ops)
    && (forall d, i :: 0 <= d < |marks| && 0 <= i < |levels| ==> (levels[i] >= d + 2 <==> i >= |marks[d]|))
  }

  lemma AppendMarked(marks: seq<Log>, ops: Log, levels: seq<nat>, op: WriteOp)
    requires Marked(marks, ops, levels)
    ensures Marked(marks, ops + [op], levels + [|marks| + 1])
  {}

  lemma StartMarked(marks: seq<Log>, ops: Log, levels: seq<nat>)
    requires Marked(marks, ops, levels)
    ensures Marked(marks + [ops], ops, levels)
  {}

  /** The place where the levels reach the innermost savepoint's is where it began. */
  lemma InnermostMark(marks: seq<Log>, ops: Log, levels: seq<nat>, j: nat)
    requires Marked(marks, ops, levels) && marks != [] && j <= |levels|
    requires j > 0 ==> levels[j - 1] < |marks| + 1
    requires forall i :: j <= i < |levels| ==> levels[i] >= |marks| + 1
    ensures j == |marks[|marks| - 1]|
  {
    var d := |marks| - 1;
    assert forall i :: 0 <= i < |levels| ==> (levels[i] >= d + 2 <==> i >= |marks[d]|);
    assert j > 0 ==> j - 1 < |marks[d]|;
    assert j < |levels| ==> levels[j] >= d + 2;
  }

  lemma TruncateMarked(marks: seq<Log>, ops: Log, levels: seq<nat>, ops': Log)
    requires Marked(marks, ops, levels) && marks != []
    requires ops' <= ops && (ops' != [] ==> levels[|ops'| - 1] < |marks| + 1)
    requires forall i :: |ops'| <= i < |ops| ==> levels[i] >= |marks| + 1
    ensures ops' == marks[|marks| - 1] && Marked(marks[..|marks| - 1], ops', levels[..|ops'|])
  {
    var mark := marks[|marks| - 1];
    InnermostMark(marks, ops, levels, |ops'|);
    forall d | 0 <= d < |marks| - 1 ensures marks[d] <= mark {
      assert |mark| < |levels| ==> levels[|mark|] >= d + 2;
    }
  }

  lemma PromoteMarked(marks: seq<Log>, ops: Log, levels: seq<nat>, levels': seq<nat>, j: nat)
    requires Marked(marks, ops, levels) && marks != [] && |levels'| == |levels| && j <= |levels|
    requires j > 0 ==> levels[j - 1] < |marks| + 1
    requires levels'[..j] == levels[..j]
    requires forall i :: j <= i < |levels| ==> levels[i] >= |marks| + 1 && levels'[i] == |marks|
    ensures Marked(marks[..|marks| - 1], ops, levels')
  {
    assert forall i :: 0 <= i < j ==> levels'[i] == levels'[..j][i] == levels[i];
    InnermostMark(marks, ops, levels, j);
  }

  class Transaction {
    const buffer: WriteBuffer
    const ledger: WriteLedger
    const overlay: OverlayIndex
    /** The nest level: 1 at the top, one more inside each open savepoint. */
    var level: nat
    /** An operation was refused; PostgreSQL aborts to the enclosing savepoint next. */
    var failed: bool
    /** The log as it was when each open savepoint began. */
    ghost var marks: seq<Log>

    /** What has been folded: everything, less an operation just refused. */
    ghost function Accepted(): Log
      reads this, buffer
    {
      if failed && buffer.ops != [] then buffer.ops[..|buffer.ops| - 1] else buffer.ops
    }

    ghost predicate Valid()
      reads this, buffer, ledger, overlay
    {
      && buffer.Valid() && ledger.Valid() && overlay.buffer == buffer && overlay.Valid()
      && level == |marks| + 1
      && Marked(marks, buffer.ops, buffer.levels)
      && FoldLog(Accepted()).Success?
      && (failed ==> buffer.ops != [] && buffer.levels[|buffer.ops| - 1] == level)
      && (!failed ==> FoldLog(buffer.ops) == Success(ledger.State()))
    }

    constructor ()
      ensures Valid() && !failed && level == 1 && buffer.ops == []
      ensures fresh(buffer) && fresh(ledger) && fresh(overlay)
    {
      var b := new WriteBuffer();
      var l := new WriteLedger();
      var o := new OverlayIndex(b);
      buffer, ledger, overlay := b, l, o;
      level, failed, marks := 1, false, [];
    }

    /** A modify callback: append, then fold. A refusal leaves the operation linked for the abort to unlink. */
    method Write(op: WriteOp) returns (refused: Option<Refusal>)
      requires Valid() && !failed
      modifies this, buffer, ledger
      ensures Valid() && level == old(level) && marks == old(marks)
      ensures buffer.ops == old(buffer.ops) + [op]
      ensures failed == refused.Some? == FoldLog(buffer.ops).Failure?
    {
      hide FoldLog, Fold.Note, Marked;
      FoldLogSnoc(buffer.ops, op);
      AppendMarked(marks, buffer.ops, buffer.levels, op);
      buffer.Append(op, level);
      assert buffer.ops[..|buffer.ops| - 1] == old(buffer.ops);
      refused := ledger.Note(op);
      failed := refused.Some?;
    }

    method StartSub()
      requires Valid() && !failed
      modifies this
      ensures Valid() && !failed && level == old(level) + 1 && marks == old(marks) + [buffer.ops]
    {
      hide FoldLog, Marked;
      StartMarked(marks, buffer.ops, buffer.levels);
      level := level + 1;
      marks := marks + [buffer.ops];
    }

    /** Roll back to the savepoint: the log is what it was then, and the ledger is its fold. */
    method AbortSub()
      requires Valid() && level > 1
      modifies this, buffer, ledger, overlay
      ensures Valid() && !failed && level == old(level) - 1 && marks == old(marks)[..|old(marks)| - 1]
      ensures buffer.ops == old(marks)[|old(marks)| - 1]
      ensures FoldLog(buffer.ops) == Success(ledger.State())
    {
      hide FoldLog, Marked, Refines;
      ghost var mark, before, accepted := marks[|marks| - 1], buffer.ops, Accepted();
      assert mark <= accepted by { MarkIsAccepted(marks, buffer.ops, buffer.levels, failed); }
      buffer.Truncate(level);
      TruncateMarked(marks, before, old(buffer.levels), buffer.ops);
      assert accepted[..|mark|] == mark;
      PrefixIsAccepted(accepted, |mark|);
      var refused := ledger.Rebuild(buffer.ops);
      overlay.Reset();
      level, failed, marks := level - 1, false, marks[..|marks| - 1];
    }

    /** Release the savepoint: its operations become the parent's, and nothing is re-folded. */
    method CommitSub()
      requires Valid() && !failed && level > 1
      modifies this, buffer`levels
      ensures Valid() && !failed && level == old(level) - 1 && marks == old(marks)[..|old(marks)| - 1]
      ensures buffer.ops == old(buffer.ops)
    {
      hide FoldLog, Marked;
      buffer.Promote(level);
      ghost var j :| 0 <= j <= |buffer.levels| && (j > 0 ==> old(buffer.levels)[j - 1] < level)
                     && buffer.levels[..j] == old(buffer.levels)[..j]
                     && forall i :: j <= i < |buffer.levels| ==>
                        old(buffer.levels)[i] >= level && buffer.levels[i] == level - 1;
      PromoteMarked(marks, buffer.ops, old(buffer.levels), buffer.levels, j);
      level, marks := level - 1, marks[..|marks| - 1];
    }

    /** COMMIT or ABORT of the whole transaction. */
    method Finish()
      requires Valid()
      modifies this, buffer, ledger, overlay
      ensures Valid() && !failed && level == 1 && buffer.ops == [] && ledger.State() == EMPTY_BOOK
    {
      hide FoldLog, Marked, Refines;
      buffer.Reset();
      ledger.Reset();
      overlay.Reset();
      level, failed, marks := 1, false, [];
      NothingFolded();
    }
  }

  lemma NothingFolded()
    ensures FoldLog([]) == Success(EMPTY_BOOK) && Marked([], [], [])
  {}

  /** A refused operation came after the innermost savepoint began. */
  lemma MarkIsAccepted(marks: seq<Log>, ops: Log, levels: seq<nat>, failed: bool)
    requires Marked(marks, ops, levels) && marks != []
    requires failed ==> ops != [] && levels[|ops| - 1] == |marks| + 1
    ensures marks[|marks| - 1] <= if failed then ops[..|ops| - 1] else ops
  {}

  lemma FoldLogSnoc(log: Log, op: WriteOp)
    ensures FoldLog(log + [op]) == match FoldLog(log)
                                   case Success(b) => Fold.Note(b, op)
                                   case Failure(e) => Failure(e)
  {
    assert (log + [op])[..|log|] == log;
  }
}
