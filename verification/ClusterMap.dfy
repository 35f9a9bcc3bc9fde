/** The slot map: primaries interned in the order they are met, and the owner of each of the 16384 slots. */
module ClusterMap {
  import opened Common

  datatype Node = Node(host: Bytes, port: int)

  const NSLOTS := 16384

  /** `owner` is an index into `nodes`, or -1 for a slot nobody claims. */
  datatype SlotMap = SlotMap(nodes: seq<Node>, owner: seq<int>)

  predicate DistinctNodes(nodes: seq<Node>) {
    forall i, j :: 0 <= i < j < |nodes| ==> nodes[i] != nodes[j]
  }

  predicate Owners(owner: seq<int>, n: nat) {
    |owner| == NSLOTS && forall s :: 0 <= s < NSLOTS ==> -1 <= owner[s] < n
  }

  predicate Sound(m: SlotMap) {
    DistinctNodes(m.nodes) && Owners(m.owner, |m.nodes|)
  }

  /**
   Whether one of the first `n` ranges of a flat list covers slot `s`: integers two at a time, ill-formed pairs
   ignored.
   */
  predicate Covers(ranges: seq<Option<int>>, n: nat, s: int)
    requires 2 * n <= |ranges|
  {
    exists i :: 0 <= i < n && InRange(ranges[2 * i], ranges[2 * i + 1], s)
  }

  predicate InRange(lo: Option<int>, hi: Option<int>, s: int) {
    lo.Some? && hi.Some? && 0 <= lo.value <= s <= hi.value < NSLOTS
  }

  class Builder {
    var nodes: seq<Node>
    const owner: array<int>

    ghost predicate Valid()
      reads this, owner
    {
      owner.Length == NSLOTS && Owners(owner[..], |nodes|) && forall i :: 0 <= i < |nodes| ==> NUL !in nodes[i].host
    }

    constructor ()
      ensures Valid() && nodes == [] && fresh(owner)
    {
      nodes := [];
      owner := new int[NSLOTS](_ => -1);
    }

    /** The index of a primary, added if it is not there; hosts without a NUL keep the nodes distinct. */
    method Intern(host: Bytes, port: int) returns (i: nat)
      requires Valid()
      modifies this`nodes
      ensures Valid() && i < |nodes| && nodes[i] == Node(CStr(host), port)
      ensures nodes == old(nodes) || nodes == old(nodes) + [Node(CStr(host), port)]
      ensures NUL !in host && old(DistinctNodes(nodes)) ==> DistinctNodes(nodes)
    {
      hide CStr;
      if NUL !in host { CStrOfPlain(host); }
      i := 0;
      while i < |nodes|
        invariant i <= |nodes| && forall j :: 0 <= j < i ==> nodes[j] != Node(host, port)
      {
        if nodes[i].port == port && |nodes[i].host| == |host| && nodes[i].host == host {
          return;
        }
        i := i + 1;
      }
      nodes := nodes + [Node(CStr(host), port)];
    }

    method ApplySlots(ranges: seq<Option<int>>, node: nat)
      requires Valid() && node < |nodes|
      modifies owner
      ensures Valid()
      ensures forall s :: 0 <= s < NSLOTS ==> owner[s] == if Covers(ranges, |ranges| / 2, s) then node
          else old(owner[s])
    {
      var i := 0;
      while i < |ranges| / 2
        invariant i <= |ranges| / 2 && Valid()
        invariant forall s :: 0 <= s < NSLOTS ==> owner[s] == if Covers(ranges, i, s) then node else old(owner[s])
      {
        var lo, hi := ranges[2 * i], ranges[2 * i + 1];
        if lo.Some? && hi.Some? && lo.value >= 0 && hi.value < NSLOTS && lo.value <= hi.value {
          for s := lo.value to hi.value + 1
            invariant Valid()
            invariant forall t :: 0 <= t < NSLOTS ==>
              owner[t] == if Covers(ranges, i, t) || lo.value <= t < s then node else old(owner[t])
          {
            owner[s] := node;
          }
        }
        forall s | 0 <= s < NSLOTS ensures Covers(ranges, i + 1, s) <==> Covers(ranges, i, s) || InRange(lo, hi, s) {
          CoversOneMore(ranges, i, s);
        }
        i := i + 1;
      }
    }
  }

  lemma CoversOneMore(ranges: seq<Option<int>>, n: nat, s: int)
    requires 2 * n + 1 < |ranges|
    ensures Covers(ranges, n + 1, s) <==> Covers(ranges, n, s) || InRange(ranges[2 * n], ranges[2 * n + 1], s)
  {}
}
