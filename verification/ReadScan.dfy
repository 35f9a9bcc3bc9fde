/** A keyspace scan that reads through the transaction's own buffered writes, while the buffer may still grow. */
module ReadScan {
  import opened Common
  import opened WriteOps
  import opened Buffer
  import opened Overlay

  type Emitted = seq<(Bytes, Row)>

  /** What the scan is of: the table, the asking command, the server's keys, and what each key's fetch answers. */
  datatype Question = Question(relid: nat, curcid: nat, keys: seq<Bytes>, fetch: Bytes -> Option<Row>)

  function Flatten(pages: seq<seq<Bytes>>): seq<Bytes> {
    if pages == [] then [] else pages[0] + Flatten(pages[1..])
  }

  function Ruling(q: Question, ops: Log, k: Bytes): Verdict {
    VerdictOn(ops, q.relid, k, q.curcid)
  }

  /** This transaction created the key, in a command whenever. */
  predicate Inserted(q: Question, ops: Log, k: Bytes) {
    exists i :: 0 <= i < |ops| && ops[i].relid == q.relid && ops[i].kind == Insert && ops[i].key == k
  }

  /**
   The row a key should give: the newest visible buffered row where there is one, nothing where the newest visible
   operation is a DELETE, and otherwise the server's. A key the server does not have counts only if created here.
   */
  function Expected(q: Question, ops: Log, k: Bytes): (row: Option<Row>)
    ensures row == match Ruling(q, ops, k)
                   case Replace(row) => if k in q.keys || Inserted(q, ops, k) then Some(row) else None
                   case Hide => None
                   case Pass => if k in q.keys then q.fetch(k) else None
  {
    NewestDecides(ops, q.relid, k, q.curcid);
    var served := if k in q.keys then q.fetch(k) else None;
    match NewestRules(ops, q.relid, k, q.curcid)
    case Pass => served
    case Hide => None
    case Replace(row) => if k in q.keys || Inserted(q, ops, k) then Some(row) else None
  }

  predicate OneRowPerKey(out: Emitted) {
    forall i, j :: 0 <= i < j < |out| ==> out[i].0 != out[j].0
  }

  predicate Gave(out: Emitted, k: Bytes) {
    exists i :: 0 <= i < |out| && out[i].0 == k
  }

  /** Every key's expected row, exactly once, and no other. */
  ghost predicate Answers(q: Question, ops: Log, out: Emitted) {
    OneRowPerKey(out) && forall k, row :: (k, row) in out <==> Expected(q, ops, k) == Some(row)
  }

  // ----- Mid-scan -----

  /** The buffer has only grown, by operations the asking command cannot see. */
  ghost predicate OnlyLater(q: Question, base: Log, ops: Log) {
    base <= ops && forall i :: |base| <= i < |ops| ==> ops[i].cid >= q.curcid
  }

  lemma VerdictIsStable(q: Question, base: Log, ops: Log, k: Bytes)
    requires OnlyLater(q, base, ops)
    ensures Ruling(q, ops, k) == Ruling(q, base, k)
  {
    assert ops == base + ops[|base|..];
    LaterOpsAreInvisible(base, ops[|base|..], q.relid, k, q.curcid);
  }

  /** With nothing buffered there is no verdict but the server's. */
  lemma NothingBuffered(q: Question, ops: Log, k: Bytes)
    requires OnlyLater(q, [], ops)
    ensures Ruling(q, ops, k) == Pass
  {
    VerdictIsStable(q, [], ops, k);
  }

  /** What has been given and marked when the first `visited` server keys are behind the scan. */
  ghost predicate Progress(q: Question, base: Log, ops: Log, visited: nat, seen: set<Bytes>, out: Emitted) {
    && visited <= |q.keys|
    && OneRowPerKey(out)
    && (forall i :: 0 <= i < |out| ==> Expected(q, ops, out[i].0) == Some(out[i].1))
    && (forall i :: 0 <= i < |out| && out[i].0 in q.keys ==> out[i].0 in q.keys[..visited])
    && (forall j :: 0 <= j < visited && Expected(q, ops, q.keys[j]).Some? ==> Gave(out, q.keys[j]))
    && (base != [] ==>
        && (forall i :: 0 <= i < |out| ==> out[i].0 in seen)
        && (forall j :: 0 <= j < visited ==> q.keys[j] in seen)
        && (forall k :: k in seen && k !in q.keys ==> Gave(out, k)))
  }

  lemma ExpectedGrows(q: Question, base: Log, ops: Log, more: Log, k: Bytes)
    requires OnlyLater(q, base, ops) && OnlyLater(q, base, ops + more)
    ensures k in q.keys ==> Expected(q, ops + more, k) == Expected(q, ops, k)
    ensures Expected(q, ops, k).Some? ==> Expected(q, ops + more, k) == Expected(q, ops, k)
  {
    VerdictIsStable(q, base, ops, k);
    VerdictIsStable(q, base, ops + more, k);
    if Inserted(q, ops, k) {
      var i :| 0 <= i < |ops| && ops[i].relid == q.relid && ops[i].kind == Insert && ops[i].key == k;
      assert (ops + more)[i] == ops[i];
    }
  }

  lemma ProgressSurvivesAppends(q: Question, base: Log, ops: Log, more: Log, visited: nat, seen: set<Bytes>,
                                out: Emitted)
    requires Progress(q, base, ops, visited, seen, out)
    requires OnlyLater(q, base, ops) && OnlyLater(q, base, ops + more)
    ensures Progress(q, base, ops + more, visited, seen, out)
  {
    hide Expected, OnlyLater;
    forall i | 0 <= i < |out| ensures Expected(q, ops + more, out[i].0) == Some(out[i].1) {
      ExpectedGrows(q, base, ops, more, out[i].0);
    }
    forall j | 0 <= j < visited && Expected(q, ops + more, q.keys[j]).Some? ensures Gave(out, q.keys[j]) {
      ExpectedGrows(q, base, ops, more, q.keys[j]);
    }
  }

  predicate NoRepeats(keys: seq<Bytes>) {
    forall i, j :: 0 <= i < j < |keys| ==> keys[i] != keys[j]
  }

  lemma NotVisitedBefore(q: Question, visited: nat)
    requires visited < |q.keys| && NoRepeats(q.keys)
    ensures q.keys[visited] !in q.keys[..visited]
    ensures q.keys[..visited + 1] == q.keys[..visited] + [q.keys[visited]]
  {}

  /** One server key taken: marked when anything is buffered, given when a row is expected of it. */
  lemma VisitMakesProgress(q: Question, base: Log, ops: Log, visited: nat, seen: set<Bytes>, out: Emitted,
                           row: Option<Row>, seen': set<Bytes>)
    requires Progress(q, base, ops, visited, seen, out) && visited < |q.keys| && NoRepeats(q.keys)
    requires row == Expected(q, ops, q.keys[visited])
    requires seen' == seen + {q.keys[visited]} || (base == [] && seen' == seen)
    ensures Progress(q, base, ops, visited + 1, seen', if row.Some? then out + [(q.keys[visited], row.value)] else out)
  {
    hide Expected, NoRepeats;
    NotVisitedBefore(q, visited);
    if row.Some? {
      VisitGives(q, base, ops, visited, seen, out, row.value, seen');
    }
  }

  lemma VisitGives(q: Question, base: Log, ops: Log, visited: nat, seen: set<Bytes>, out: Emitted, row: Row,
                   seen': set<Bytes>)
    requires Progress(q, base, ops, visited, seen, out) && visited < |q.keys|
    requires Expected(q, ops, q.keys[visited]) == Some(row) && q.keys[visited] !in q.keys[..visited]
    requires q.keys[..visited + 1] == q.keys[..visited] + [q.keys[visited]]
    requires seen' == seen + {q.keys[visited]} || (base == [] && seen' == seen)
    ensures Progress(q, base, ops, visited + 1, seen', out + [(q.keys[visited], row)])
  {
    hide Expected, Gave, Inserted, Ruling;
    var k, out' := q.keys[visited], out + [(q.keys[visited], row)];
    assert forall i :: 0 <= i < |out| ==> out'[i] == out[i] && out[i].0 != k;
    GaveMore(out, out');
    GaveLast(out, k, row);
  }

  lemma GaveLast(out: Emitted, k: Bytes, row: Row)
    ensures Gave(out + [(k, row)], k)
  {
    assert (out + [(k, row)])[|out|].0 == k;
  }

  lemma GaveMore(out: Emitted, out': Emitted)
    requires out <= out'
    ensures forall k :: Gave(out, k) ==> Gave(out', k)
  {
    forall k | Gave(out, k) ensures Gave(out', k) {
      var i :| 0 <= i < |out| && out[i].0 == k;
      assert out'[i] == out[i];
    }
  }

  /** One created key injected: not seen before, so neither on the server nor given. */
  lemma InjectMakesProgress(q: Question, base: Log, ops: Log, seen: set<Bytes>, out: Emitted, k: Bytes, row: Row)
    requires Progress(q, base, ops, |q.keys|, seen, out) && base != [] && k !in seen
    requires Ruling(q, ops, k) == Replace(row) && Inserted(q, ops, k)
    ensures Progress(q, base, ops, |q.keys|, seen + {k}, out + [(k, row)])
  {
    hide Ruling, Inserted;
    assert Expected(q, ops, k) == Some(row);
    GaveMore(out, out + [(k, row)]);
    assert (out + [(k, row)])[|out|].0 == k;
    assert q.keys[..|q.keys|] == q.keys;
    assert k !in q.keys;
  }

  predicate Candidate(q: Question, op: WriteOp) {
    op.relid == q.relid && op.kind == Insert
  }

  /** Every created and still visible row of the first `n` operations has been seen. */
  ghost predicate Swept(q: Question, ops: Log, n: nat, seen: set<Bytes>) {
    n <= |ops| && forall i :: 0 <= i < n && Candidate(q, ops[i]) && Ruling(q, ops, ops[i].key).Replace? ==>
      ops[i].key in seen
  }

  lemma SweptAnswers(q: Question, base: Log, ops: Log, seen: set<Bytes>, out: Emitted)
    requires OnlyLater(q, base, ops) && Progress(q, base, ops, |q.keys|, seen, out)
    requires base != [] ==> Swept(q, ops, |ops|, seen)
    ensures Answers(q, ops, out)
  {
    forall k, row | Expected(q, ops, k) == Some(row) ensures (k, row) in out {
      ExpectedWasGiven(q, base, ops, seen, out, k);
      var i :| 0 <= i < |out| && out[i].0 == k;
      assert out[i] == (k, row);
    }
  }

  lemma ExpectedWasGiven(q: Question, base: Log, ops: Log, seen: set<Bytes>, out: Emitted, k: Bytes)
    requires OnlyLater(q, base, ops) && Progress(q, base, ops, |q.keys|, seen, out)
    requires base != [] ==> Swept(q, ops, |ops|, seen)
    requires Expected(q, ops, k).Some?
    ensures Gave(out, k)
  {
    if k in q.keys {
      var j :| 0 <= j < |q.keys| && q.keys[j] == k;
    } else {
      if base == [] {
        NothingBuffered(q, ops, k);
      }
      var i :| 0 <= i < |ops| && ops[i].relid == q.relid && ops[i].kind == Insert && ops[i].key == k;
    }
  }

  // ----- The scan -----

  class TableScan {
    const buffer: WriteBuffer
    const overlay: OverlayIndex
    const q: Question
    /** What SCAN will answer, page by page; a page may be empty. */
    const pages: seq<seq<Bytes>>
    var nextPage: nat
    var keys: seq<Bytes>
    var nextKey: nat
    var seen: set<Bytes>
    var tail: bool
    var iterGeneration: nat
    var iterNext: nat
    /** The buffer when the scan began, and the rows given since. */
    ghost var base: Log
    ghost var out: Emitted

    ghost function Visited(): int
      reads this
    {
      |q.keys| - |keys| + nextKey - |Flatten(if nextPage <= |pages| then pages[nextPage..] else [])|
    }

    /** Everything but the tail iterator. */
    ghost predicate Consistent()
      reads this, buffer, overlay
    {
      && overlay.buffer == buffer && overlay.Valid()
      && nextPage <= |pages| && nextKey <= |keys|
      && NoRepeats(q.keys)
      && 0 <= Visited() <= |q.keys| && q.keys[Visited()..] == keys[nextKey..] + Flatten(pages[nextPage..])
      && OnlyLater(q, base, buffer.ops)
      && Progress(q, base, buffer.ops, Visited(), seen, out)
    }

    ghost predicate Valid()
      reads this, buffer, overlay
    {
      && Consistent()
      && (tail ==>
          && Visited() == |q.keys|
          && iterGeneration <= buffer.generation
          && (iterGeneration == buffer.generation ==> Swept(q, buffer.ops, iterNext, seen)))
    }

    constructor (overlay: OverlayIndex, relid: nat, curcid: nat, pages: seq<seq<Bytes>>, fetch: Bytes -> Option<Row>)
      requires overlay.Valid() && NoRepeats(Flatten(pages))
      ensures Valid() && this.overlay == overlay && this.buffer == overlay.buffer && out == [] && base == buffer.ops
      ensures q == Question(relid, curcid, Flatten(pages), fetch)
    {
      this.overlay, this.buffer := overlay, overlay.buffer;
      this.q, this.pages := Question(relid, curcid, Flatten(pages), fetch), pages;
      nextPage, keys, nextKey, seen := 0, [], 0, {};
      tail, iterGeneration, iterNext := false, 0, 0;
      base, out := overlay.buffer.ops, [];
      new;
      assert pages[0..] == pages;
    }

    /** Keep asking until a page yields keys; an empty page is not the end. */
    method Refill() returns (more: bool)
      requires Valid() && nextKey == |keys|
      modifies this`nextPage, this`keys, this`nextKey
      ensures Valid() && Visited() == old(Visited())
      ensures more ==> nextKey < |keys|
      ensures !more ==> nextKey == |keys| && Visited() == |q.keys|
    {
      hide Progress, OnlyLater, NoRepeats, Swept, Refines;
      while nextPage < |pages|
        invariant Valid() && nextKey == |keys| && Visited() == old(Visited())
        decreases |pages| - nextPage
      {
        keys, nextKey := pages[nextPage], 0;
        assert pages[nextPage..][1..] == pages[nextPage + 1..];
        nextPage := nextPage + 1;
        if keys != [] {
          return true;
        }
      }
      return false;
    }

    /** The overlay's word on the key just taken, with the key marked when anything is buffered. */
    method ApplyOverlay(k: Bytes) returns (v: Verdict)
      requires overlay.Valid() && overlay.buffer == buffer
      modifies this`seen, overlay
      ensures overlay.Valid() && v == Ruling(q, buffer.ops, k)
      ensures seen == if buffer.ops == [] then old(seen) else old(seen) + {k}
    {
      if buffer.ops == [] {
        return Pass;
      }
      v := overlay.Check(q.relid, k, q.curcid);
      seen := seen + {k};
    }

    /** The next created and visible row, restarting if the buffer has moved. */
    method IterNext() returns (r: Option<(Bytes, Row)>)
      requires Valid() && tail
      modifies this`iterGeneration, this`iterNext, overlay
      ensures Consistent() && iterGeneration == buffer.generation
      ensures r.None? ==> Swept(q, buffer.ops, |buffer.ops|, seen) && iterNext == |buffer.ops|
      ensures r.Some? ==>
                && Ruling(q, buffer.ops, r.value.0) == Replace(r.value.1) && Inserted(q, buffer.ops, r.value.0)
                && Swept(q, buffer.ops, iterNext, seen + {r.value.0})
                && iterNext <= |buffer.ops| && (old(iterGeneration) == iterGeneration ==> iterNext > old(iterNext))
    {
      hide Progress, OnlyLater, NoRepeats, Refines, Flatten, On, Judge, NewestRules;
      if iterGeneration != buffer.generation {
        iterGeneration, iterNext := buffer.generation, 0;
      }
      while iterNext < |buffer.ops|
        invariant Consistent() && iterGeneration == buffer.generation
        invariant Swept(q, buffer.ops, iterNext, seen)
        invariant old(iterGeneration) == iterGeneration ==> iterNext >= old(iterNext)
        decreases |buffer.ops| - iterNext
      {
        var op := buffer.ops[iterNext];
        iterNext := iterNext + 1;
        if Candidate(q, op) {
          var v := overlay.Check(q.relid, op.key, q.curcid);
          if v.Replace? {
            return Some((op.key, v.row));
          }
        }
      }
      return None;
    }

    /** Emit one key this transaction created that has not been seen, or report that there is none left. */
    method Inject() returns (r: Option<(Bytes, Row)>)
      requires Valid() && tail && buffer.ops != []
      modifies this`iterGeneration, this`iterNext, this`seen, this`out, overlay
      ensures Valid()
      ensures r.None? ==> out == old(out) && Answers(q, buffer.ops, out)
      ensures r.Some? ==> out == old(out) + [r.value]
    {
      hide Progress, OnlyLater, NoRepeats, Refines, Flatten, Swept, Ruling, Inserted, Answers;
      while true
        invariant Valid() && out == old(out) && seen == old(seen)
        decreases iterGeneration != buffer.generation, |buffer.ops| - iterNext
      {
        r := IterNext();
        if r.None? {
          SweptAnswers(q, base, buffer.ops, seen, out);
          return;
        }
        if r.value.0 !in seen {
          SomethingWasBuffered(q, base, buffer.ops, r.value.0);
          InjectMakesProgress(q, base, buffer.ops, seen, out, r.value.0, r.value.1);
          seen := seen + {r.value.0};
          out := out + [r.value];
          return;
        }
        assert seen + {r.value.0} == seen;
      }
    }

    /** The server has no more keys: give what this transaction created itself. */
    method DrainTail() returns (r: Option<(Bytes, Row)>)
      requires Valid() && Visited() == |q.keys|
      modifies this`tail, this`iterGeneration, this`iterNext, this`seen, this`out, overlay
      ensures Valid()
      ensures r.None? ==> out == old(out) && Answers(q, buffer.ops, out)
      ensures r.Some? ==> out == old(out) + [r.value]
    {
      hide Progress, OnlyLater, NoRepeats, Refines, Flatten, Answers;
      if buffer.ops == [] {
        assert base == [] by { NothingAtFirst(q, base, buffer.ops); }
        SweptAnswers(q, base, buffer.ops, seen, out);
        return None;
      }
      if !tail {
        tail := true;
        iterGeneration, iterNext := buffer.generation, 0;
      }
      r := Inject();
    }

    /** One key of the current page: a row, or nothing and the scan goes on. */
    method TakeKey() returns (r: Option<(Bytes, Row)>)
      requires Valid() && nextKey < |keys|
      modifies this`nextKey, this`seen, this`out, overlay
      ensures Valid() && Visited() == old(Visited()) + 1
      ensures out == if r.Some? then old(out) + [r.value] else old(out)
    {
      hide Progress, OnlyLater, NoRepeats, Refines, Swept, Ruling, Flatten, Expected;
      assert !tail by { PagesLeft(); }
      ghost var visited, before := Visited(), seen;
      var k := keys[nextKey];
      assert q.keys[visited..][0] == k && q.keys[visited..][1..] == q.keys[visited + 1..];
      nextKey := nextKey + 1;
      var v := ApplyOverlay(k);
      var row := match v
        case Replace(row) => Some(row)
        case Hide => None
        case Pass => q.fetch(k);
      assert row == Expected(q, buffer.ops, k) by { ExpectedOnServer(q, buffer.ops, k, v); }
      NothingAtFirst(q, base, buffer.ops);
      VisitMakesProgress(q, base, buffer.ops, visited, before, out, row, seen);
      if row.Some? {
        r := Some((k, row.value));
        out := out + [(k, row.value)];
      } else {
        r := None;
      }
    }

    /** The tail begins only when every server key has been taken. */
    lemma PagesLeft()
      requires Valid() && nextKey < |keys|
      ensures !tail
    {}

    /** One row, or the end of the scan. No tuple from one key is not the end. */
    method Fetch() returns (r: Option<(Bytes, Row)>)
      requires Valid()
      modifies this, overlay
      ensures Valid() && base == old(base)
      ensures r.None? ==> out == old(out) && Answers(q, buffer.ops, out)
      ensures r.Some? ==> out == old(out) + [r.value]
    {
      hide Progress, OnlyLater, NoRepeats, Refines, Swept, Answers, Flatten;
      while true
        invariant Valid() && out == old(out) && base == old(base)
        decreases |q.keys| - Visited()
      {
        if nextKey == |keys| {
          var more := Refill();
          if !more {
            r := DrainTail();
            return;
          }
        }
        r := TakeKey();
        if r.Some? {
          return;
        }
      }
    }

    /** Another statement writes between two fetches: the scan's answer so far stands. */
    method Arrive(op: WriteOp, level: nat)
      requires Valid() && op.cid >= q.curcid
      modifies buffer
      ensures Valid() && buffer.ops == old(buffer.ops) + [op]
    {
      hide Progress, NoRepeats, Flatten, Swept, Refines;
      ghost var before := buffer.ops;
      buffer.Append(op, level);
      ProgressSurvivesAppends(q, base, before, [op], Visited(), seen, out);
    }
  }

  lemma ExpectedOnServer(q: Question, ops: Log, k: Bytes, v: Verdict)
    requires k in q.keys && v == Ruling(q, ops, k)
    ensures Expected(q, ops, k) == match v
                                   case Replace(row) => Some(row)
                                   case Hide => None
                                   case Pass => q.fetch(k)
  {}

  lemma NothingAtFirst(q: Question, base: Log, ops: Log)
    requires OnlyLater(q, base, ops)
    ensures ops == [] ==> base == []
  {}

  lemma SomethingWasBuffered(q: Question, base: Log, ops: Log, k: Bytes)
    requires OnlyLater(q, base, ops) && Ruling(q, ops, k).Replace?
    ensures base != []
  {
    VerdictIsStable(q, base, ops, k);
  }

  // ----- How many rows there can be -----

  lemma {:induction false} MineIsBuffered(ops: Log, id: Identity)
    requires On(ops, id) != []
    ensures exists i :: 0 <= i < |ops| && IdentityOf(ops[i]) == id
  {
    if ops == [] {
    } else {
      var front := ops[..|ops| - 1];
      if IdentityOf(ops[|ops| - 1]) != id {
        assert On(front, id) + [] == On(front, id);
        MineIsBuffered(front, id);
        var i :| 0 <= i < |front| && IdentityOf(front[i]) == id;
        assert ops[i] == front[i];
      }
    }
  }

  function BufferedKeys(ops: Log): seq<Bytes> {
    seq(|ops|, i requires 0 <= i < |ops| => ops[i].key)
  }

  /** A row comes from a key the server has or from one the buffer held when the scan began. */
  lemma RowHasASource(q: Question, base: Log, ops: Log, k: Bytes)
    requires OnlyLater(q, base, ops) && Expected(q, ops, k).Some?
    ensures k in q.keys + BufferedKeys(base)
  {
    hide OnlyLater;
    VerdictIsStable(q, base, ops, k);
    if k in q.keys {
      assert k in q.keys + BufferedKeys(base);
    } else {
      MineIsBuffered(base, (q.relid, k));
      var i :| 0 <= i < |base| && IdentityOf(base[i]) == (q.relid, k);
      assert (q.keys + BufferedKeys(base))[|q.keys| + i] == k;
    }
  }

  /** Distinct entries of a sequence are no more than its length. */
  lemma {:induction false} DistinctAreFewer(out: Emitted, all: seq<Bytes>)
    requires OneRowPerKey(out) && forall i :: 0 <= i < |out| ==> out[i].0 in all
    ensures |out| <= |all|
  {
    if out == [] {
    } else {
      var front, k := out[..|out| - 1], out[|out| - 1].0;
      var x :| 0 <= x < |all| && all[x] == k;
      var rest := all[..x] + all[x + 1..];
      forall i | 0 <= i < |front| ensures front[i].0 in rest {
        assert front[i] == out[i] && out[i].0 in all && out[i].0 != k;
      }
      DistinctAreFewer(front, rest);
    }
  }

  lemma RowsAreBounded(q: Question, base: Log, ops: Log, visited: nat, seen: set<Bytes>, out: Emitted)
    requires OnlyLater(q, base, ops) && Progress(q, base, ops, visited, seen, out)
    ensures |out| <= |q.keys| + |base|
  {
    hide OnlyLater, Expected;
    forall i | 0 <= i < |out| ensures out[i].0 in q.keys + BufferedKeys(base) {
      RowHasASource(q, base, ops, out[i].0);
    }
    DistinctAreFewer(out, q.keys + BufferedKeys(base));
  }

  /**
   Any run: between fetches the buffer grows by operations of the asking command or later, however many. The scan ends
   within one fetch more than there are server keys and operations buffered when it began.
   */
  method ReadYourOwnWrites(scan: TableScan, arrivals: seq<Log>) returns (finished: bool)
    requires scan.Valid() && scan.out == []
    requires forall i, j :: 0 <= i < |arrivals| && 0 <= j < |arrivals[i]| ==> arrivals[i][j].cid >= scan.q.curcid
    modifies scan, scan.overlay, scan.buffer
    ensures scan.Valid() && OneRowPerKey(scan.out) && scan.base == old(scan.base)
    ensures finished ==> Answers(scan.q, scan.buffer.ops, scan.out)
    ensures |arrivals| > |scan.q.keys| + |scan.base| ==> finished
  {
    hide Progress, OnlyLater, NoRepeats, Refines, Swept, Answers, Flatten;
    for i := 0 to |arrivals|
      invariant scan.Valid() && |scan.out| == i && scan.base == old(scan.base)
    {
      for j := 0 to |arrivals[i]|
        invariant scan.Valid() && |scan.out| == i && scan.base == old(scan.base)
      {
        scan.Arrive(arrivals[i][j], 1);
      }
      var r := scan.Fetch();
      if r.None? {
        RowsAreDistinct(scan.q, scan.base, scan.buffer.ops, scan.Visited(), scan.seen, scan.out);
        return true;
      }
    }
    RowsAreDistinct(scan.q, scan.base, scan.buffer.ops, scan.Visited(), scan.seen, scan.out);
    RowsAreBounded(scan.q, scan.base, scan.buffer.ops, scan.Visited(), scan.seen, scan.out);
    return false;
  }

  lemma RowsAreDistinct(q: Question, base: Log, ops: Log, visited: nat, seen: set<Bytes>, out: Emitted)
    requires Progress(q, base, ops, visited, seen, out)
    ensures OneRowPerKey(out)
  {}

  /** A later INSERT on a key the command already sees, that neither the server nor the buffer then had. */
  predicate Reveals(q: Question, base: Log, op: WriteOp) {
    Candidate(q, op) && Ruling(q, base, op.key).Replace? && op.key !in q.keys && !Inserted(q, base, op.key)
  }

  lemma InsertedEarlier(q: Question, base: Log, ops: Log, k: Bytes)
    requires base <= ops
    ensures Inserted(q, base, k) ==> Inserted(q, ops, k)
    ensures Inserted(q, ops, k) && !Inserted(q, base, k) ==>
              exists i :: |base| <= i < |ops| && Candidate(q, ops[i]) && ops[i].key == k
  {
    assert forall j :: 0 <= j < |base| ==> base[j] == ops[j];
    if Inserted(q, base, k) {
      var i :| 0 <= i < |base| && base[i].relid == q.relid && base[i].kind == Insert && base[i].key == k;
      assert base[i] == ops[i];
    }
    if Inserted(q, ops, k) && !Inserted(q, base, k) {
      var i :| 0 <= i < |ops| && ops[i].relid == q.relid && ops[i].kind == Insert && ops[i].key == k;
      assert Candidate(q, ops[i]);
    }
  }

  /** The answer is that of the buffer as the scan began, exactly when nothing that arrived since reveals a row. */
  lemma {:induction false} ArrivalsChangeNothing(q: Question, base: Log, ops: Log)
    requires OnlyLater(q, base, ops)
    ensures (forall k :: Expected(q, ops, k) == Expected(q, base, k)) <==>
            forall i :: |base| <= i < |ops| ==> !Reveals(q, base, ops[i])
  {
    hide Inserted, Ruling, Candidate;
    forall k ensures Ruling(q, ops, k) == Ruling(q, base, k) && (Inserted(q, base, k) ==> Inserted(q, ops, k)) {
      VerdictIsStable(q, base, ops, k);
      InsertedEarlier(q, base, ops, k);
    }
    if i :| |base| <= i < |ops| && Reveals(q, base, ops[i]) {
      CandidateInserts(q, ops, i);
      assert Expected(q, ops, ops[i].key) != Expected(q, base, ops[i].key);
    } else {
      forall k ensures Expected(q, ops, k) == Expected(q, base, k) {
        InsertedEarlier(q, base, ops, k);
      }
    }
  }

  lemma CandidateInserts(q: Question, ops: Log, i: nat)
    requires i < |ops| && Candidate(q, ops[i])
    ensures Inserted(q, ops, ops[i].key)
  {}
}
