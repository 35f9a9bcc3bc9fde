/** The overlay's index: every operation on a key, in buffer order, extended while the buffer only grows. */
module Overlay {
  import opened Common
  import opened WriteOps
  import opened Buffer

  /** Two tables over one key are two identities. */
  type Identity = (nat, Bytes)

  function IdentityOf(op: WriteOp): Identity {
    (op.relid, op.key)
  }

  /** The buffered operations with one identity, in buffer order. */
  function On(ops: Log, id: Identity): Log {
    if ops == [] then []
    else
      var op := ops[|ops| - 1];
      On(ops[..|ops| - 1], id) + if IdentityOf(op) == id then [op] else []
  }

  type Index = map<Identity, Log>

  /** Each entry is the subsequence of the buffer with its identity, and there is an entry where there is one. */
  ghost predicate Refines(tab: Index, ops: Log) {
    forall id :: (id in tab <==> On(ops, id) != []) && (id in tab ==> tab[id] == On(ops, id))
  }

  lemma OnSnoc(ops: Log, op: WriteOp, id: Identity)
    ensures On(ops + [op], id) == On(ops, id) + if IdentityOf(op) == id then [op] else []
  {
    assert (ops + [op])[..|ops|] == ops;
  }

  // ----- What a command may see -----

  datatype Verdict = Pass | Hide | Replace(row: Row)

  /** The newest operation older than the asking command decides; without a stored row the server's stands. */
  function Judge(mine: Log, curcid: nat): Verdict {
    if mine == [] then Pass
    else
      var op := mine[|mine| - 1];
      if op.cid >= curcid then Judge(mine[..|mine| - 1], curcid)
      else if op.kind == Delete then Hide
      else if op.row.None? then Pass
      else Replace(op.row.value)
  }

  /** The verdict of the whole buffer on a key, for a command. */
  function VerdictOn(ops: Log, relid: nat, key: Bytes, curcid: nat): Verdict {
    Judge(On(ops, (relid, key)), curcid)
  }

  /** The operation has this identity and is older than the asking command. */
  predicate Visible(op: WriteOp, relid: nat, key: Bytes, curcid: nat) {
    op.relid == relid && op.key == key && op.cid < curcid
  }

  /** The newest buffered operation with an identity that a command can see. */
  function Newest(ops: Log, relid: nat, key: Bytes, curcid: nat): Option<WriteOp> {
    if ops == [] then None
    else if Visible(ops[|ops| - 1], relid, key, curcid) then Some(ops[|ops| - 1])
    else Newest(ops[..|ops| - 1], relid, key, curcid)
  }

  /** It is the operation at the last place in the buffer with the identity and an older command, if there is one. */
  lemma {:induction false} NewestIsTheLastVisible(ops: Log, relid: nat, key: Bytes, curcid: nat)
    ensures var r := Newest(ops, relid, key, curcid);
            && (r.None? <==> forall i :: 0 <= i < |ops| ==> !Visible(ops[i], relid, key, curcid))
            && (r.Some? ==>
                exists i :: 0 <= i < |ops| && r.value == ops[i] && Visible(ops[i], relid, key, curcid)
                            && forall j :: i < j < |ops| ==> !Visible(ops[j], relid, key, curcid))
  {
    hide Visible;
    if ops == [] {
    } else {
      var front, last := ops[..|ops| - 1], |ops| - 1;
      NewestIsTheLastVisible(front, relid, key, curcid);
      assert forall i :: 0 <= i < last ==> front[i] == ops[i];
      if Visible(ops[last], relid, key, curcid) {
        assert Newest(ops, relid, key, curcid) == Some(ops[last]);
      } else if Newest(front, relid, key, curcid).Some? {
        var i :| 0 <= i < |front| && Newest(front, relid, key, curcid).value == front[i]
                 && Visible(front[i], relid, key, curcid)
                 && forall j :: i < j < |front| ==> !Visible(front[j], relid, key, curcid);
        assert Visible(ops[i], relid, key, curcid);
      }
    }
  }

  /** A DELETE hides, a stored row replaces, and otherwise the server's row stands. */
  function NewestRules(ops: Log, relid: nat, key: Bytes, curcid: nat): Verdict {
    match Newest(ops, relid, key, curcid)
    case None => Pass
    case Some(op) => if op.kind == Delete then Hide else if op.row.Some? then Replace(op.row.value) else Pass
  }

  lemma JudgeSnoc(mine: Log, op: WriteOp, curcid: nat)
    ensures Judge(mine + [op], curcid)
            == if op.cid >= curcid then Judge(mine, curcid)
               else if op.kind == Delete then Hide else if op.row.Some? then Replace(op.row.value) else Pass
  {
    assert (mine + [op])[..|mine|] == mine;
  }

  /** The verdict is what the newest visible operation rules. */
  lemma {:induction false} NewestDecides(ops: Log, relid: nat, key: Bytes, curcid: nat)
    ensures VerdictOn(ops, relid, key, curcid) == NewestRules(ops, relid, key, curcid)
  {
    hide Judge, On;
    if ops == [] {
      NobodyRules((relid, key), curcid);
    } else {
      var front, op := ops[..|ops| - 1], ops[|ops| - 1];
      var mine := On(front, (relid, key));
      NewestDecides(front, relid, key, curcid);
      OnSnoc(front, op, (relid, key));
      assert front + [op] == ops && mine + [] == mine;
      JudgeSnoc(mine, op, curcid);
    }
  }

  lemma NobodyRules(id: Identity, curcid: nat)
    ensures Judge(On([], id), curcid) == Pass
  {}

  /** Operations of the asking command or later are invisible to it. */
  lemma {:induction false} LaterOpsAreInvisible(ops: Log, more: Log, relid: nat, key: Bytes, curcid: nat)
    requires forall i :: 0 <= i < |more| ==> more[i].cid >= curcid
    ensures VerdictOn(ops + more, relid, key, curcid) == VerdictOn(ops, relid, key, curcid)
  {
    if more == [] {
      assert ops + more == ops;
    } else {
      var front, op := more[..|more| - 1], more[|more| - 1];
      LaterOpsAreInvisible(ops, front, relid, key, curcid);
      assert ops + more == (ops + front) + [op];
      OnSnoc(ops + front, op, (relid, key));
      assert On(ops + front, (relid, key)) + [] == On(ops + front, (relid, key));
      assert (On(ops + front, (relid, key)) + [op])[..|On(ops + front, (relid, key))|] == On(ops + front, (relid, key));
    }
  }

  class OverlayIndex {
    const buffer: WriteBuffer
    var have: bool
    var builtGeneration: nat
    var builtShrinkGeneration: nat
    /** How many operations the index covers: where an extension resumes. */
    var builtTail: nat
    var tab: Index
    ghost var builtOps: Log

    ghost predicate Valid()
      reads this, buffer
    {
      && buffer.Valid()
      && (have ==>
          && Refines(tab, builtOps)
          && builtTail == |builtOps|
          && builtGeneration <= buffer.generation
          && builtShrinkGeneration <= buffer.shrinkGeneration
          && (builtShrinkGeneration == buffer.shrinkGeneration ==> builtOps <= buffer.ops)
          && (builtGeneration == buffer.generation ==> builtOps == buffer.ops))
    }

    constructor (buffer: WriteBuffer)
      requires buffer.Valid()
      ensures Valid() && this.buffer == buffer
    {
      this.buffer := buffer;
      have, builtGeneration, builtShrinkGeneration, builtTail, tab, builtOps := false, 0, 0, 0, map[], [];
    }

    method Reset()
      requires buffer.Valid()
      modifies this
      ensures Valid() && !have && tab == map[] && builtOps == []
    {
      have, builtGeneration, builtShrinkGeneration, builtTail, tab, builtOps := false, 0, 0, 0, map[], [];
    }

    method Record(op: WriteOp)
      requires Refines(tab, builtOps)
      modifies this`tab, this`builtOps
      ensures Refines(tab, builtOps) && builtOps == old(builtOps) + [op]
    {
      var id := IdentityOf(op);
      forall x ensures On(builtOps + [op], x) == On(builtOps, x) + if id == x then [op] else [] {
        OnSnoc(builtOps, op, x);
      }
      assert forall x :: On(builtOps, x) + [] == On(builtOps, x);
      tab := tab[id := (if id in tab then tab[id] else []) + [op]];
      builtOps := builtOps + [op];
    }

    /** Record the buffer from position `from` on. */
    method RecordFrom(from: nat)
      requires Refines(tab, builtOps) && from <= |buffer.ops| && builtOps == buffer.ops[..from]
      modifies this`tab, this`builtOps
      ensures Refines(tab, builtOps) && builtOps == buffer.ops
    {
      var i := from;
      while i < |buffer.ops|
        invariant from <= i <= |buffer.ops| && Refines(tab, builtOps) && builtOps == buffer.ops[..i]
      {
        Record(buffer.ops[i]);
        i := i + 1;
      }
      assert buffer.ops[..|buffer.ops|] == buffer.ops;
    }

    /** Bring the index up to date: nothing to do, extend from the tail, or rebuild after a shrink. */
    method Build()
      requires Valid()
      modifies this
      ensures Valid() && have && builtOps == buffer.ops && Refines(tab, buffer.ops)
    {
      if have && builtGeneration == buffer.generation {
        return;
      }
      if have && builtShrinkGeneration == buffer.shrinkGeneration {
        RecordFrom(builtTail);
      } else {
        Reset();
        NothingIndexed();
        RecordFrom(0);
        builtShrinkGeneration := buffer.shrinkGeneration;
        have := true;
      }
      builtTail := |buffer.ops|;
      builtGeneration := buffer.generation;
    }

    method Check(relid: nat, key: Bytes, curcid: nat) returns (v: Verdict)
      requires Valid()
      modifies this
      ensures Valid() && v == VerdictOn(buffer.ops, relid, key, curcid)
      ensures v == NewestRules(buffer.ops, relid, key, curcid)
    {
      hide NewestRules;
      NewestDecides(buffer.ops, relid, key, curcid);
      if buffer.ops == [] {
        return Pass;
      }
      Build();
      var id := (relid, key);
      if id !in tab {
        assert On(buffer.ops, id) == [];
        return Pass;
      }
      var mine := tab[id];
      var i := |mine|;
      assert mine[..i] == mine;
      while i > 0
        invariant 0 <= i <= |mine| && Judge(mine, curcid) == Judge(mine[..i], curcid)
      {
        var op := mine[i - 1];
        assert mine[..i][..i - 1] == mine[..i - 1];
        if op.cid < curcid {
          if op.kind == Delete {
            return Hide;
          }
          return if op.row.None? then Pass else Replace(op.row.value);
        }
        i := i - 1;
      }
      return Pass;
    }
  }

  lemma NothingIndexed()
    ensures Refines(map[], [])
  {}

  // ----- Any run of the buffer and the index -----

  datatype Event = Append(op: WriteOp, level: nat) | Truncate(level: nat) | Discard | Build

  /** Whatever the buffer goes through, a build answers for the buffer as it is. */
  method Replay(index: OverlayIndex, events: seq<Event>)
    requires index.Valid()
    modifies index, index.buffer
    ensures index.Valid() && index.have && Refines(index.tab, index.buffer.ops)
  {
    for i := 0 to |events|
      invariant index.Valid()
    {
      match events[i]
      case Append(op, level) =>
        index.buffer.Append(op, level);
      case Truncate(level) =>
        index.buffer.Truncate(level);
      case Discard =>
        index.buffer.Reset();
      case Build =>
        index.Build();
    }
    index.Build();
  }
}
