/** The transaction's write buffer: an ordered log whose suffix a savepoint can take back. */
module Buffer {
  import opened WriteOps

  class WriteBuffer {
    var ops: Log
    /** The nest level each operation belongs to; a committed savepoint hands its operations to its parent. */
    var levels: seq<nat>
    /** Advances whenever the log changes. */
    var generation: nat
    /** Advances only when the log shrinks. */
    var shrinkGeneration: nat

    ghost predicate Valid()
      reads this
    {
      |levels| == |ops|
    }

    constructor ()
      ensures Valid() && ops == []
    {
      ops, levels, generation, shrinkGeneration := [], [], 0, 0;
    }

    method Append(op: WriteOp, level: nat)
      requires Valid()
      modifies this
      ensures Valid() && ops == old(ops) + [op] && levels == old(levels) + [level]
      ensures generation == old(generation) + 1 && shrinkGeneration == old(shrinkGeneration)
    {
      ops, levels := ops + [op], levels + [level];
      generation := generation + 1;
    }

    /** Unlink operations from the tail for as long as they belong to `level` or deeper. */
    method Truncate(level: nat)
      requires Valid()
      modifies this
      ensures Valid() && ops <= old(ops) && levels == old(levels)[..|ops|]
      ensures ops != [] ==> levels[|levels| - 1] < level
      ensures forall i :: |ops| <= i < |old(ops)| ==> old(levels)[i] >= level
      ensures ops == old(ops) ==> generation == old(generation) && shrinkGeneration == old(shrinkGeneration)
      ensures ops != old(ops) ==> generation == old(generation) + 1 && shrinkGeneration == old(shrinkGeneration) + 1
    {
      var dropped := false;
      while ops != [] && levels[|levels| - 1] >= level
        invariant Valid() && ops <= old(ops) && levels == old(levels)[..|ops|]
        invariant forall i :: |ops| <= i < |old(ops)| ==> old(levels)[i] >= level
        invariant dropped <==> |ops| < |old(ops)|
        invariant generation == old(generation) && shrinkGeneration == old(shrinkGeneration)
        decreases |ops|
      {
        ops, levels := ops[..|ops| - 1], levels[..|levels| - 1];
        dropped := true;
      }
      if dropped {
        generation := generation + 1;
        shrinkGeneration := shrinkGeneration + 1;
      }
    }

    /** Hand the suffix that belongs to `level` or deeper to the level above. */
    method Promote(level: nat)
      requires Valid() && level > 0
      modifies this`levels
      ensures Valid()
      ensures exists j :: 0 <= j <= |levels| && (j > 0 ==> old(levels)[j - 1] < level)
                          && levels[..j] == old(levels)[..j]
                          && forall i :: j <= i < |levels| ==> old(levels)[i] >= level && levels[i] == level - 1
    {
      var j := |levels|;
      while j > 0 && levels[j - 1] >= level
        invariant 0 <= j <= |levels| == |old(levels)|
        invariant levels[..j] == old(levels)[..j]
        invariant forall i :: j <= i < |levels| ==> old(levels)[i] >= level && levels[i] == level - 1
      {
        j := j - 1;
        levels := levels[j := level - 1];
      }
      assert j > 0 ==> levels[..j][j - 1] == old(levels)[..j][j - 1];
    }

    method Reset()
      modifies this
      ensures Valid() && ops == []
      ensures generation == old(generation) + 1 && shrinkGeneration == old(shrinkGeneration) + 1
    {
      ops, levels := [], [];
      generation := generation + 1;
      shrinkGeneration := shrinkGeneration + 1;
    }
  }
}
