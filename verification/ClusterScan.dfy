/** A scan of a cluster: every primary in turn, keys asked of the node that owns them, redirects chased or reported. */
module ClusterScan {
  import opened Common
  import opened Slot
  import opened ClusterMap

  // ----- Which node is asked for which key -----

  /** The owner's index in the captured map, or -1. */
  function OwnerOf(m: SlotMap, key: Bytes): int
    requires Sound(m)
  {
    m.owner[SlotOf(key)]
  }

  /** A key is asked of the node that owns its slot, and an unplaced one of the node the scan is on. */
  predicate AskedAt(m: SlotMap, n: nat, key: Bytes)
    requires Sound(m) && n < |m.nodes|
  {
    OwnerOf(m, key) < 0 || m.nodes[OwnerOf(m, key)] == m.nodes[n]
  }

  function KeysFor(m: SlotMap, n: nat, keys: seq<Bytes>): seq<Bytes>
    requires Sound(m) && n < |m.nodes|
  {
    if keys == [] then []
    else
      var front, k := KeysFor(m, n, keys[..|keys| - 1]), keys[|keys| - 1];
      if AskedAt(m, n, k) then front + [k] else front
  }

  /**
   A placed key is asked of its owner, as often as it was named, and of no other node; an unplaced one of every node.
   */
  lemma {:induction false} PlacedKeysGoToOneNode(m: SlotMap, n: nat, keys: seq<Bytes>, k: Bytes)
    requires Sound(m) && n < |m.nodes|
    ensures multiset(KeysFor(m, n, keys))[k]
            == if OwnerOf(m, k) == n || OwnerOf(m, k) < 0 then multiset(keys)[k] else 0
  {
    hide SlotOf;
    if keys == [] {
    } else {
      var front, last := keys[..|keys| - 1], keys[|keys| - 1];
      PlacedKeysGoToOneNode(m, n, front, k);
      assert keys == front + [last];
      assert AskedAt(m, n, last) <==> OwnerOf(m, last) == n || OwnerOf(m, last) < 0;
    }
  }

  lemma AskedIsIn(m: SlotMap, n: nat, keys: seq<Bytes>, k: Bytes)
    requires Sound(m) && n < |m.nodes|
    ensures k in KeysFor(m, n, keys) <==> k in keys && (OwnerOf(m, k) == n || OwnerOf(m, k) < 0)
  {
    hide KeysFor, OwnerOf;
    PlacedKeysGoToOneNode(m, n, keys, k);
    assert k in multiset(KeysFor(m, n, keys)) <==> k in KeysFor(m, n, keys);
    assert k in multiset(keys) <==> k in keys;
  }

  lemma {:induction false} AllAskedHere(m: SlotMap, n: nat, keys: seq<Bytes>)
    requires Sound(m) && n < |m.nodes|
    ensures forall i :: 0 <= i < |KeysFor(m, n, keys)| ==> AskedAt(m, n, KeysFor(m, n, keys)[i])
  {
    hide AskedAt;
    if keys == [] {
    } else {
      AllAskedHere(m, n, keys[..|keys| - 1]);
    }
  }

  // ----- The copy a redirected key is kept as -----

  /**
   Reading back as many bytes as the key had from a copy that stopped at its first NUL: `beyond` is what lies past it.
   */
  function Recalled(key: Bytes, beyond: Bytes): Bytes {
    var copy := CStr(key) + [NUL];
    if |key| <= |copy| then copy[..|key|]
    else copy + (if |beyond| < |key| - |copy| then beyond else beyond[..|key| - |copy|])
  }

  /** No NUL before the last byte. */
  predicate Whole(key: Bytes) {
    key == [] || NUL !in key[..|key| - 1]
  }

  lemma {:induction false} WholeIsAllCopied(key: Bytes)
    ensures Whole(key) <==> |key| <= |CStr(key)| + 1
  {
    if |key| <= 1 {
    } else {
      AllButTheLast(key);
      WholeIsAllCopied(key[1..]);
    }
  }

  lemma AllButTheLast(key: Bytes)
    requires |key| > 1
    ensures key[..|key| - 1] == [key[0]] + key[1..][..|key| - 2]
  {}

  lemma WholeIsRecalled(key: Bytes, beyond: Bytes)
    requires Whole(key)
    ensures Recalled(key, beyond) == key
  {
    WholeIsAllCopied(key);
  }

  /** A redirected key is asked for again under its own name, whatever memory holds, exactly when it is whole. */
  lemma {:induction false} RecalledExactlyWhenWhole(key: Bytes)
    ensures (forall beyond :: Recalled(key, beyond) == key) <==> Whole(key)
  {
    if Whole(key) {
      forall beyond ensures Recalled(key, beyond) == key {
        WholeIsRecalled(key, beyond);
      }
    } else {
      NotRecalled(key);
    }
  }

  lemma NotRecalled(key: Bytes)
    requires !Whole(key)
    ensures exists beyond :: Recalled(key, beyond) != key
  {
    WholeIsAllCopied(key);
    var n := |CStr(key)| + 1;
    var last := key[|key| - 1];
    var beyond: Bytes := key[n..|key| - 1] + [if last == NUL then 'x' else NUL];
    assert Recalled(key, beyond)[|key| - 1] == beyond[|key| - 1 - n] != last;
  }

  lemma {:induction false} TwoBytesWithANul()
    ensures Recalled([NUL, 'a'], ['b']) == [NUL, 'b']
  {}

  // ----- The scan -----

  datatype Answer = Moved | AskElsewhere | Answered

  /** One value fetch: the node, the key, what came back, and the map in force if the key was one asked for by name. */
  datatype Fetch = Fetch(node: Node, key: Bytes, answer: Answer, view: Option<SlotMap>)

  /** A key asked for by name on a cluster was asked of the node that owns its slot, if any does. */
  predicate Routed(f: Fetch) {
    f.view.Some? ==> Sound(f.view.value) && (OwnerOf(f.view.value, f.key) < 0
                                             || f.view.value.nodes[OwnerOf(f.view.value, f.key)] == f.node)
  }

  predicate AllRouted(history: seq<Fetch>) {
    forall i :: 0 <= i < |history| ==> Routed(history[i])
  }

  /**
   Everything outside the scan: the pages each node lists, the maps successive loads return, the answer to the
   t-th fetch, the keys this transaction's own writes decide, and what memory holds past a short copy.
   */
  datatype World = World(
    seed: Node,
    pages: Node -> seq<seq<Bytes>>,
    maps: nat -> SlotMap,
    reply: (nat, Node, Bytes) -> Answer,
    decided: Bytes -> bool,
    beyond: nat -> Bytes)

  /** Every traversal has a page, and every map a primary. */
  ghost predicate Usable(w: World) {
    (forall n :: w.pages(n) != []) && (forall i :: Sound(w.maps(i)) && w.maps(i).nodes != [])
  }

  lemma PagesExist(w: World, n: Node)
    requires Usable(w)
    ensures w.pages(n) != []
  {}

  /** `key` got a reply that is not a redirect, or a verdict from the transaction's own writes. */
  predicate Settled(w: World, history: seq<Fetch>, key: Bytes) {
    exists i :: 0 <= i < |history| && history[i].key == key && (history[i].answer.Answered? || w.decided(key))
  }

  /** The trace is what the world answered. */
  predicate Faithful(w: World, history: seq<Fetch>) {
    forall i :: 0 <= i < |history| ==> history[i].answer == w.reply(i, history[i].node, history[i].key)
  }

  lemma FaithfulSnoc(w: World, history: seq<Fetch>, f: Fetch)
    requires Faithful(w, history) && f.answer == w.reply(|history|, f.node, f.key)
    ensures Faithful(w, history + [f])
  {}

  lemma SettledStays(w: World, history: seq<Fetch>, f: Fetch, k: Bytes)
    ensures Settled(w, history, k) || (f.key == k && (f.answer.Answered? || w.decided(k))) <==>
        Settled(w, history + [f], k)
  {
    var h := history + [f];
    if Settled(w, history, k) {
      var i :| 0 <= i < |history| && history[i].key == k && (history[i].answer.Answered? || w.decided(k));
      assert h[i].key == k;
    }
    assert h[|history|] == f;
  }

  datatype Rank = Rank(passes: nat, walking: nat, nodes: nat, pages: nat)

  predicate Below(a: Rank, b: Rank) {
    || a.passes < b.passes
    || (a.passes == b.passes
        && (|| a.walking < b.walking
            || (a.walking == b.walking && (a.nodes < b.nodes || (a.nodes == b.nodes && a.pages < b.pages)))))
  }

  const PASSES := 3

  class Scan {
    const world: World
    const fanout: bool
    const named: bool
    const first: SlotMap

    var cache: Option<SlotMap>
    var loads: nat
    var passMap: SlotMap
    var curNode: nat
    var started: bool
    var cursor: Option<nat>
    var planKeys: seq<Bytes>
    var keys: seq<Bytes>
    var nextKey: nat
    var redirected: seq<Bytes>
    var passes: nat
    var retryPass: bool

    var clock: nat

    ghost var given: set<Bytes>
    ghost var history: seq<Fetch>
    ghost var retries: nat

    predicate Keyed()
      reads this
    {
      retryPass || named
    }

    function Peer(): Node
      requires fanout ==> curNode < |passMap.nodes|
      reads this
    {
      if fanout then passMap.nodes[curNode] else world.seed
    }

    /** A named key this pass still has to ask for: of the node it is about to open, or of a later one. */
    ghost predicate Waiting(k: Bytes)
      requires fanout ==> Sound(passMap)
      reads this
    {
      && Keyed() && k in planKeys
      && if fanout
         then OwnerOf(passMap, k) >= curNode + (if started then 1 else 0) ||
           (OwnerOf(passMap, k) < 0 && curNode == 0 && !started)
         else !started
    }

    ghost predicate Accounted(k: Bytes)
      requires nextKey <= |keys| && (fanout ==> Sound(passMap))
      reads this
    {
      Settled(world, history, k) || k in redirected || k in keys[nextKey..] || Waiting(k)
    }

    ghost predicate Shaped()
      reads this
    {
      && Usable(world) && nextKey <= |keys|
      && (fanout ==> Sound(passMap) && curNode < |passMap.nodes|)
      && (cache.Some? ==> Sound(cache.value) && cache.value.nodes != [])
      && retries + passes == (if fanout then PASSES else 0)
      && clock == |history| && Faithful(world, history)
      && (cursor.Some? ==> started && cursor.value < |world.pages(Peer())|)
    }

    /** The first `n` pages of a node have been read. */
    ghost predicate Listed(node: Node, n: nat)
      requires n <= |world.pages(node)|
      reads this
    {
      forall p, k :: 0 <= p < n && k in world.pages(node)[p] ==> k in given
    }

    ghost predicate AllListed()
      reads this
    {
      if fanout then forall j :: 0 <= j < |first.nodes| ==> Listed(first.nodes[j], |world.pages(first.nodes[j])|)
      else Listed(world.seed, |world.pages(world.seed)|)
    }

    /** A walk of the keyspace has read every page before the one it is at; a retry pass begins when it has read all. */
    ghost predicate Covered()
      requires Shaped()
      reads this
    {
      named
      || (if retryPass then AllListed()
          else
            && (fanout ==> passMap == first)
            && (fanout ==> forall j :: 0 <= j < curNode ==> Listed(first.nodes[j], |world.pages(first.nodes[j])|))
            && (started ==> Listed(Peer(), if cursor.Some? then cursor.value else |world.pages(Peer())|)))
    }

    /** Keys queued by name are queued at their owner, and so was every one fetched before. */
    ghost predicate OnTheWay()
      requires Shaped()
      reads this
    {
      && AllRouted(history)
      && (Keyed() && fanout ==> forall i :: nextKey <= i < |keys| ==> AskedAt(passMap, curNode, keys[i]))
    }

    /** Every whole key given or discovered is settled, owed a retry, queued, or waiting for its node. */
    ghost predicate Valid()
      reads this
    {
      Shaped() && Covered() && OnTheWay() && forall k :: k in given && Whole(k) ==> Accounted(k)
    }

    ghost function RankOf(): Rank
      requires Shaped()
      reads this
    {
      Rank(passes, if Keyed() then 0 else 1,
           (if fanout then |passMap.nodes| - curNode else 1) + (if started then 0 else 1),
           if !Keyed() && cursor.Some? then |world.pages(Peer())| - cursor.value else 0)
    }

    /** A scan of the keyspace, or of named keys; on a cluster it begins on the map's first primary. */
    constructor (world: World, cluster: bool, names: Option<seq<Bytes>>)
      requires Usable(world)
      ensures Valid() && nextKey == |keys| && cursor == None && retries == 0
      ensures this.world == world && fanout == cluster && named == names.Some? && history == []
      ensures first == world.maps(0)
      ensures given == if names.Some? then set k | k in names.value else {}
    {
      this.world, fanout, named, first := world, cluster, names.Some?, world.maps(0);
      cache, loads, passMap := Some(world.maps(0)), 1, world.maps(0);
      curNode, started, cursor := 0, false, None;
      planKeys := if names.Some? then names.value else [];
      keys, nextKey, redirected, retryPass := [], 0, [], false;
      passes := if cluster then PASSES else 0;
      clock, history, retries := 0, [], 0;
      given := if names.Some? then set k | k in names.value else {};
    }

    method LoadMap() returns (m: SlotMap)
      requires Usable(world) && (cache.Some? ==> Sound(cache.value) && cache.value.nodes != [])
      modifies this`cache, this`loads
      ensures cache == Some(m) && Sound(m) && m.nodes != []
      ensures if old(cache).Some? then Some(m) == old(cache) && loads == old(loads)
              else m == world.maps(old(loads)) && loads == old(loads) + 1
    {
      if cache.None? {
        cache := Some(world.maps(loads));
        loads := loads + 1;
      }
      m := cache.value;
    }

    /** A fresh traversal on another node. */
    method Attach(n: nat)
      modifies this`curNode, this`started, this`cursor
      ensures curNode == n && !started && cursor == None
    {
      curNode, started, cursor := n, false, None;
    }

    method Advance() returns (moved: bool)
      requires Shaped() && started && cursor == None
      modifies this`curNode, this`started, this`cursor
      ensures Shaped() && cursor == None && moved == (fanout && old(curNode) + 1 < |passMap.nodes|)
      ensures if moved then curNode == old(curNode) + 1 && !started else curNode == old(curNode) && started
    {
      if !fanout || curNode + 1 >= |passMap.nodes| {
        return false;
      }
      Attach(curNode + 1);
      return true;
    }

    /** The plan's keys this node is asked for. */
    method KeysForNode()
      requires Shaped() && fanout
      modifies this`keys, this`nextKey
      ensures Shaped() && keys == KeysFor(passMap, curNode, planKeys) && nextKey == 0
    {
      hide SlotOf;
      var out := [];
      for i := 0 to |planKeys|
        invariant out == KeysFor(passMap, curNode, planKeys[..i])
      {
        assert planKeys[..i + 1][..i] == planKeys[..i];
        var owner := OwnerOf(passMap, planKeys[i]);
        if owner >= 0 && (passMap.nodes[owner].port != passMap.nodes[curNode].port ||
          passMap.nodes[owner].host != passMap.nodes[curNode].host) {
          continue;
        }
        out := out + [planKeys[i]];
      }
      assert planKeys[..|planKeys|] == planKeys;
      keys, nextKey := out, 0;
    }

    /** Begin on the node the scan is attached to. */
    method OpenNode()
      requires Valid() && Keyed() && !started && cursor == None && nextKey == |keys|
      modifies this`started, this`keys, this`nextKey
      ensures Valid() && started && nextKey == 0
      ensures keys == if fanout then KeysFor(passMap, curNode, planKeys) else planKeys
    {
      hide SlotOf, OwnerOf, Settled;
      ghost var was := keys[nextKey..];
      assert was == [];
      if fanout {
        KeysForNode();
      } else {
        keys, nextKey := planKeys, 0;
      }
      started := true;
      forall k | k in given && Whole(k) ensures Accounted(k) {
        assert old(Accounted(k));
        assert keys[0..] == keys;
        if fanout {
          AskedIsIn(passMap, curNode, planKeys, k);
        }
      }
      if fanout {
        AllAskedHere(passMap, curNode, planKeys);
      }
    }

    /** One page of named keys: nodes that own none of them are passed over, not the end of the scan. */
    method KeysPage() returns (more: bool)
      requires Valid() && Keyed() && cursor == None && nextKey == |keys|
      modifies this`curNode, this`started, this`cursor, this`keys, this`nextKey
      ensures Valid() && cursor == None
      ensures more ==> Below(RankOf(), old(RankOf()))
      ensures !more ==> nextKey == |keys| && forall k :: !Waiting(k)
    {
      hide SlotOf, Settled;
      if planKeys == [] {
        return false;
      }
      while !started || fanout
        invariant Valid() && cursor == None && nextKey == |keys|
        invariant RankOf() == old(RankOf()) || Below(RankOf(), old(RankOf()))
        decreases RankOf().nodes
      {
        if started {
          var moved := Step();
          if !moved {
            return false;
          }
        }
        OpenNode();
        if |keys| > 0 {
          return true;
        }
      }
      return false;
    }

    /** Advancing asks nothing twice and skips nothing: who was waiting still is, and at the last node nobody is. */
    method Step() returns (moved: bool)
      requires Valid() && started && cursor == None && nextKey == |keys|
      modifies this`curNode, this`started, this`cursor
      ensures Valid() && cursor == None
      ensures if moved then !started && RankOf() == old(RankOf()) else forall k :: !Waiting(k)
      ensures moved ==> fanout
      ensures !moved && fanout ==> curNode + 1 == |passMap.nodes|
      ensures !moved ==> started && curNode == old(curNode)
    {
      hide SlotOf, Settled;
      moved := Advance();
      forall k | k in given && Whole(k) ensures Accounted(k) {
        assert old(Accounted(k));
      }
    }

    /** Nothing is owed a retry, a retry begins, or the budget is spent and the scan says so. */
    method RetryPass() returns (r: Result<bool, nat>)
      requires Valid() && cursor == None && nextKey == |keys| && forall k :: !Waiting(k)
      requires !named ==> AllListed()
      modifies this
      ensures unchanged(`keys, `nextKey, `history, `given)
      ensures Valid() && cursor == None && (!named ==> AllListed())
      ensures r == Success(true) ==>
                Some(passMap) == if old(cache).Some? then old(cache) else Some(world.maps(old(loads)))
      ensures r == Success(false) ==> redirected == [] && forall k :: !Waiting(k)
      ensures r == Success(true) ==> Keyed() && redirected == [] && passes == old(passes) - 1
      ensures r.Failure? ==> r.error == |redirected| > 0 && (fanout ==> retries == PASSES)
    {
      hide Settled, Waiting, Faithful, Usable, Sound, Whole;
      if redirected == [] {
        return Success(false);
      }
      if passes == 0 {
        return Failure(|redirected|);
      }
      BeginPass();
      return Success(true);
    }

    /** The redirected keys become the plan, under a map loaded afresh if a MOVED dropped the old one. */
    method BeginPass()
      requires Valid() && cursor == None && nextKey == |keys| && passes > 0 && forall k :: !Waiting(k)
      requires !named ==> AllListed()
      modifies this
      ensures unchanged(`keys, `nextKey, `history, `given) && (!named ==> AllListed())
      ensures Some(passMap) == if old(cache).Some? then old(cache) else Some(world.maps(old(loads)))
      ensures Valid() && cursor == None && Keyed() && redirected == [] && passes == old(passes) - 1
    {
      hide Valid, Settled, Waiting, Faithful, Usable, Sound, Whole, Accounted;
      ValidIsShaped();
      SpendPass();
      Reload();
      PassAccounts();
    }

    method SpendPass()
      requires passes > 0
      modifies this`passes, this`retries, this`planKeys, this`redirected, this`retryPass
      ensures passes == old(passes) - 1 && retries == old(retries) + 1 && planKeys == old(redirected) &&
          redirected == [] && retryPass
    {
      passes, retries := passes - 1, retries + 1;
      planKeys, redirected := redirected, [];
      retryPass := true;
    }

    /** Back to the first primary of the current map. */
    method Reload()
      requires Usable(world) && (cache.Some? ==> Sound(cache.value) && cache.value.nodes != [])
      modifies this`cache, this`loads, this`passMap, this`curNode, this`started, this`cursor
      ensures cache == Some(passMap) && Sound(passMap) && passMap.nodes != []
      ensures if old(cache).Some? then Some(passMap) == old(cache) else passMap == world.maps(old(loads))
      ensures curNode == 0 && !started && cursor == None
    {
      var m := LoadMap();
      passMap := m;
      Attach(0);
    }

    lemma ValidIsShaped()
      requires Valid()
      ensures Shaped()
    {}

    /** What was owed a retry is now waiting, and everything else is as settled as it was. */
    twostate lemma PassAccounts()
      requires old(Valid()) && old(nextKey == |keys|) && forall k :: !old(Waiting(k))
      requires unchanged(`keys, `nextKey, `history, `given) && planKeys == old(redirected)
      requires Shaped() && retryPass && !started && curNode == 0 && (named || AllListed())
      ensures Valid()
    {
      hide Settled, Waiting, Faithful, Usable, Sound, Whole, OwnerOf;
      assert keys[nextKey..] == [];
      forall k | k in given && Whole(k) ensures Accounted(k) {
        assert old(Accounted(k));
        if k in planKeys {
          FreshPassWaits(k);
        }
      }
    }

    lemma FreshPassWaits(k: Bytes)
      requires Shaped() && Keyed() && !started && curNode == 0 && k in planKeys
      ensures Waiting(k)
    {}

    /** The next page of the keyspace; a node with no page left gives way to the next primary. */
    method NextPage() returns (more: bool)
      requires Valid() && !Keyed() && nextKey == |keys|
      modifies this`curNode, this`started, this`cursor, this`keys, this`nextKey, this`given
      ensures Valid() && !Keyed() && given >= old(given)
      ensures more ==> Below(RankOf(), old(RankOf())) && forall k :: k in keys ==> k in given
      ensures !more ==> cursor == None && nextKey == |keys| && (!named ==> AllListed())
    {
      hide SlotOf, OwnerOf, Settled, Waiting, Sound, Faithful, Whole, Usable;
      if started && cursor.None? {
        var moved := Step();
        if !moved {
          WalkedThrough();
          return false;
        }
      }
      ReadPage();
      return true;
    }

    /** The last page of the last primary has been read. */
    lemma WalkedThrough()
      requires Valid() && !Keyed() && started && cursor == None && (fanout ==> curNode + 1 == |passMap.nodes|)
      ensures AllListed()
    {
      hide Accounted, Whole, AllRouted;
    }

    /** The page at the cursor, or the first page of a node not yet started. */
    method ReadPage()
      requires Valid() && !Keyed() && nextKey == |keys| && (started ==> cursor.Some?)
      modifies this`started, this`cursor, this`keys, this`nextKey, this`given
      ensures Valid() && !Keyed() && given == old(given) + (set k | k in keys)
      ensures Below(RankOf(), old(RankOf()))
    {
      hide SlotOf, OwnerOf, Settled, Waiting, Sound, Faithful, Whole, Usable, Accounted, AllRouted;
      PagesExist(world, Peer());
      var pages := world.pages(Peer());
      var p := if started then cursor.value else 0;
      keys, nextKey := pages[p], 0;
      started, cursor := true, if p + 1 < |pages| then Some(p + 1) else None;
      given := given + set k | k in keys;
      PageAccounts();
    }

    /** What was accounted for still is, and the keys of a page just read are queued. */
    twostate lemma PageAccounts()
      requires old(Valid()) && Shaped() && !Keyed() && old(nextKey == |keys|) && nextKey == 0
      requires unchanged(`passMap, `planKeys, `redirected, `retryPass, `history)
      requires given == old(given) + (set k | k in keys)
      ensures forall k :: k in given && Whole(k) ==> Accounted(k)
    {
      hide SlotOf, OwnerOf, Settled, Waiting, Sound, Faithful, Whole, Usable, Covered, OnTheWay;
      NobodyWasNamed();
      assert old(keys[nextKey..]) == [] && keys[nextKey..] == keys;
      forall k | k in given && Whole(k) ensures Accounted(k) {
        assert k in old(given) ==> old(Accounted(k));
      }
    }

    twostate lemma NobodyWasNamed()
      requires old(Shaped()) && old(!Keyed())
      ensures forall k :: !old(Waiting(k))
    {}

    method Refill() returns (r: Result<bool, nat>)
      requires Valid() && nextKey == |keys| && (Keyed() ==> cursor == None)
      modifies this
      ensures Valid() && (Keyed() ==> cursor == None) && given >= old(given)
      ensures r == Success(true) ==> Below(RankOf(), old(RankOf()))
      ensures r == Success(false) ==> forall k :: k in given && Whole(k) ==> Settled(world, history, k)
      ensures r == Success(false) && !named ==> AllListed()
      ensures r.Failure? ==> r.error > 0 && (fanout ==> retries == PASSES)
    {
      hide SlotOf, Settled, Waiting, OwnerOf;
      if Keyed() {
        var more := KeysPage();
        if more {
          return Success(true);
        }
      } else {
        while true
          invariant Valid() && !Keyed() && nextKey == |keys| && given >= old(given)
          invariant RankOf() == old(RankOf()) || Below(RankOf(), old(RankOf()))
          invariant passes == old(passes)
          decreases RankOf().nodes, RankOf().pages
        {
          var more := NextPage();
          if !more {
            break;
          }
          if |keys| > 0 {
            return Success(true);
          }
        }
        NobodyNamed();
      }
      r := RetryPass();
      if r.Failure? {
        return;
      }
      if !r.value {
        NothingLeft();
        return;
      }
      var more := KeysPage();
      if !more {
        NothingLeft();
      }
      return Success(more);
    }

    lemma NobodyNamed()
      requires Shaped() && !Keyed()
      ensures forall k :: !Waiting(k)
    {}

    lemma NothingLeft()
      requires Valid() && nextKey == |keys| && redirected == [] && forall k :: !Waiting(k)
      ensures forall k :: k in given && Whole(k) ==> Settled(world, history, k)
    {
      assert keys[nextKey..] == [];
    }

    /** A redirected key is kept for the next pass; a MOVED drops the cached map and an ASK does not. */
    method Redirected(key: Bytes, answer: Answer)
      requires !answer.Answered?
      modifies this`redirected, this`cache
      ensures redirected == old(redirected) + [Recalled(key, world.beyond(clock))]
      ensures cache == if answer.Moved? then None else old(cache)
    {
      redirected := redirected + [Recalled(key, world.beyond(clock))];
      if !answer.AskElsewhere? {
        cache := None;
      }
    }

    /** One key: its reply is always taken, and only the transaction's own writes go before a redirect. */
    method TakeKey()
      requires Valid() && nextKey < |keys|
      modifies this`nextKey, this`redirected, this`cache, this`clock, this`history
      ensures Valid() && RankOf() == old(RankOf()) && nextKey == old(nextKey) + 1
    {
      hide Valid, Shaped, Covered, OnTheWay, Accounted, RankOf, Recalled;
      ValidParts();
      PeerIsThere();
      var key, node := keys[nextKey], Peer();
      var answer := world.reply(clock, node, key);
      if !world.decided(key) && !answer.Answered? {
        Redirected(key, answer);
      }
      nextKey, clock := nextKey + 1, clock + 1;
      ghost var f := Fetch(node, key, answer, if Keyed() && fanout then Some(passMap) else None);
      history := history + [f];
      Taken(f);
    }

    lemma PeerIsThere()
      requires Shaped()
      ensures fanout ==> curNode < |passMap.nodes|
    {}

    /** One more key fetched, its reply taken, and nothing else changed. */
    twostate lemma Taken(f: Fetch)
      requires old(Valid()) && old(nextKey) < |keys| && (fanout ==> curNode < |passMap.nodes|)
      requires unchanged(`passes, `retries, `loads, `passMap, `curNode, `started, `cursor, `planKeys, `retryPass, `keys,
                         `given)
      requires nextKey == old(nextKey) + 1 && clock == old(clock) + 1 && history == old(history) + [f]
      requires f.key == keys[old(nextKey)] && f.node == Peer() && f.answer == world.reply(old(clock), f.node, f.key)
      requires f.view == if Keyed() && fanout then Some(passMap) else None
      requires cache == old(cache) || cache == None
      requires redirected == old(redirected) + if !world.decided(f.key) && !f.answer.Answered?
                 then [Recalled(f.key, world.beyond(old(clock)))] else []
      ensures Valid() && RankOf() == old(RankOf())
    {
      hide SlotOf, OwnerOf, Waiting, Usable, Sound, Settled, Whole, Faithful, Recalled, Covered, OnTheWay, Accounted,
           Valid, RankOf;
      assert old(Shaped()) && old(Covered()) && old(OnTheWay()) by { ValidPartsBefore(); }
      FaithfulSnoc(world, old(history), f);
      CoveredKept();
      OneMoreOnTheWay(f);
      StillAccounted(f);
      Assembled();
      RankKept();
    }

    twostate lemma ValidPartsBefore()
      requires old(Valid())
      ensures old(Shaped()) && old(Covered()) && old(OnTheWay())
    {}

    lemma ValidParts()
      requires Valid()
      ensures Shaped() && Covered() && OnTheWay()
    {}

    lemma Assembled()
      requires Shaped() && Covered() && OnTheWay() && forall k :: k in given && Whole(k) ==> Accounted(k)
      ensures Valid()
    {}

    twostate lemma RankKept()
      requires old(Shaped()) && Shaped()
      requires unchanged(`passes, `retryPass, `passMap, `curNode, `started, `cursor)
      ensures RankOf() == old(RankOf())
    {
      hide Usable, Sound, Faithful;
    }

    twostate lemma StillAccounted(f: Fetch)
      requires old(Valid()) && Shaped() && old(nextKey) < |keys|
      requires unchanged(`passMap, `curNode, `started, `planKeys, `retryPass, `keys, `given)
      requires nextKey == old(nextKey) + 1 && history == old(history) + [f] && f.key == keys[old(nextKey)]
      requires redirected == old(redirected) + if !world.decided(f.key) && !f.answer.Answered?
                 then [Recalled(f.key, world.beyond(old(clock)))] else []
      ensures forall k :: k in given && Whole(k) ==> Accounted(k)
    {
      hide SlotOf, OwnerOf, Waiting, Usable, Sound, Settled, Whole, Faithful, Recalled, Covered, OnTheWay;
      assert keys[old(nextKey)..] == [f.key] + keys[nextKey..];
      forall k | k in given && Whole(k) ensures Accounted(k) {
        assert old(Accounted(k));
        WaitingKept(k);
        SettledStays(world, old(history), f, k);
        if k == f.key {
          WholeIsRecalled(k, world.beyond(old(clock)));
        }
      }
    }

    twostate lemma CoveredKept()
      requires old(Shaped()) && old(Covered()) && Shaped()
      requires unchanged(`passMap, `curNode, `started, `cursor, `retryPass, `given)
      ensures Covered()
    {
      hide Usable, Sound, Faithful;
    }

    twostate lemma OneMoreOnTheWay(f: Fetch)
      requires old(Shaped()) && old(OnTheWay()) && Shaped() && old(nextKey) < |keys|
      requires unchanged(`passMap, `curNode, `retryPass, `keys, `planKeys)
      requires nextKey == old(nextKey) + 1 && history == old(history) + [f]
      requires f.key == keys[old(nextKey)] && f.node == Peer()
      requires f.view == if Keyed() && fanout then Some(passMap) else None
      ensures OnTheWay()
    {
      hide SlotOf, Usable, Sound, Faithful;
    }

    twostate lemma WaitingKept(k: Bytes)
      requires unchanged(`passMap, `curNode, `started, `planKeys, `retryPass) && (fanout ==> Sound(passMap))
      ensures Waiting(k) == old(Waiting(k))
    {}

    /**
     A scan that ends without an error has settled every whole key it was given or discovered, and a walk of the
     keyspace has discovered every key of every page of every primary; one that gives up on redirects says for how
     many keys, after exactly three retry passes on a cluster. A key asked for by name is asked of its owner.
     */
    method Run() returns (r: Result<(), nat>)
      requires Valid() && nextKey == |keys| && (Keyed() ==> cursor == None)
      modifies this
      ensures Valid() && given >= old(given) && retries <= PASSES
      ensures r.Success? ==> forall k :: k in given && Whole(k) ==> Settled(world, history, k)
      ensures r.Success? && !named ==> AllListed()
      ensures AllRouted(history)
      ensures r.Failure? ==> r.error > 0 && (fanout ==> retries == PASSES)
    {
      hide SlotOf, OwnerOf, Waiting, Usable, Sound, Settled, Whole, Accounted;
      while true
        invariant Valid() && (Keyed() ==> cursor == None) && given >= old(given)
        decreases RankOf().passes, RankOf().walking, RankOf().nodes, RankOf().pages, |keys| - nextKey
      {
        if nextKey < |keys| {
          TakeKey();
        } else {
          var more := Refill();
          if more.Failure? {
            return Failure(more.error);
          }
          if !more.value {
            return Success(());
          }
        }
      }
    }
  }
}
