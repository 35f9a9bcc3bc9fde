/**
 Pipelined reads: a batch that queues, flushes and takes in order, and a scan that asks several things of each key.
 */
module Pipeline {
  import opened Common

  datatype Verb = Membership | FieldCount | Expiries | Fetch | Discover

  /** One command; `key` is empty for the cursor step. */
  datatype Command = Command(verb: Verb, key: Bytes)

  datatype Reply = Integer(n: int) | Page(keys: seq<Bytes>) | Other(text: Bytes)

  /** A connection's replies: what the server answers to the n-th command sent on it. */
  type Server = (nat, Command) -> Reply

  class Batch {
    const server: Server
    const maxInflight: nat
    var queued: nat
    var outstanding: nat
    var flushes: nat
    var current: Option<Reply>

    /** The connection underneath: the output buffer, what has been sent and not answered, and how much has been. */
    var buffer: seq<Command>
    var wire: seq<Command>
    var answered: nat

    ghost predicate Valid()
      reads this
    {
      maxInflight > 0 && queued == |buffer| < maxInflight && outstanding == |wire|
    }

    /** The commands whose replies are still to be taken, in the order the replies will come. */
    ghost function Due(): seq<Command>
      reads this
    {
      wire + buffer
    }

    constructor (server: Server, pipelineBatch: nat)
      requires pipelineBatch > 0
      ensures Valid() && Due() == [] && flushes == 0 && queued == 0 && answered == 0
      ensures this.server == server && maxInflight == pipelineBatch
    {
      this.server, maxInflight := server, pipelineBatch;
      queued, outstanding, flushes, current := 0, 0, 0, None;
      buffer, wire, answered := [], [], 0;
    }

    method Flush()
      requires queued == |buffer| && outstanding == |wire|
      modifies this`wire, this`buffer, this`outstanding, this`queued, this`flushes
      ensures queued == 0 && buffer == [] && outstanding == |wire| && wire == old(Due())
      ensures flushes == old(flushes) + if old(queued) == 0 then 0 else 1
    {
      if queued == 0 {
        return;
      }
      wire, buffer := wire + buffer, [];
      outstanding := outstanding + queued;
      queued := 0;
      flushes := flushes + 1;
    }

    method Add(cmd: Command)
      requires Valid()
      modifies this`wire, this`buffer, this`outstanding, this`queued, this`flushes
      ensures Valid() && Due() == old(Due()) + [cmd]
      ensures flushes == old(flushes) + (old(queued) + 1) / maxInflight && queued == (old(queued) + 1) % maxInflight
    {
      buffer := buffer + [cmd];
      queued := queued + 1;
      assert wire + buffer == old(Due()) + [cmd];
      if queued >= maxInflight {
        Flush();
      }
    }

    function Pending(): nat
      reads this
    {
      queued + outstanding
    }

    method Next() returns (r: Option<Reply>)
      requires Valid()
      modifies this
      ensures Valid() && queued == 0 && current == r
      ensures flushes == old(flushes) + if old(queued) == 0 then 0 else 1
      ensures old(Due()) == [] ==> r == None && Due() == [] && answered == old(answered)
      ensures old(Due()) != [] ==>
                && r == Some(server(old(answered), old(Due())[0]))
                && Due() == old(Due())[1..] && answered == old(answered) + 1
    {
      current := None;
      Flush();
      if outstanding == 0 {
        return None;
      }
      current := Some(server(answered, wire[0]));
      wire, answered := wire[1..], answered + 1;
      outstanding := outstanding - 1;
      return current;
    }

    /** Replies nobody read are drained, so the next statement's first reply is its own. */
    method End()
      requires Valid()
      modifies this
      ensures Valid() && Due() == [] && current == None
      ensures answered == old(answered) + |old(Due())|
    {
      while Pending() > 0
        invariant Valid() && answered + |Due()| == old(answered) + |old(Due())|
        decreases |Due()|
      {
        var _ := Next();
      }
      current := None;
    }
  }

  /** Queueing any number of commands with no take between them: one flush for every full pipeline. */
  method AddAll(batch: Batch, cmds: seq<Command>)
    requires batch.Valid()
    modifies batch`wire, batch`buffer, batch`outstanding, batch`queued, batch`flushes
    ensures batch.Valid() && batch.Due() == old(batch.Due()) + cmds
    ensures batch.flushes == old(batch.flushes) + (old(batch.queued) + |cmds|) / batch.maxInflight
  {
    for i := 0 to |cmds|
      invariant batch.Valid() && batch.Due() == old(batch.Due()) + cmds[..i]
      invariant batch.flushes == old(batch.flushes) + (old(batch.queued) + i) / batch.maxInflight
      invariant batch.queued == (old(batch.queued) + i) % batch.maxInflight
    {
      assert cmds[..i + 1] == cmds[..i] + [cmds[i]];
      assert old(batch.Due()) + cmds[..i] + [cmds[i]] == old(batch.Due()) + cmds[..i + 1];
      OneMore(old(batch.queued) + i, batch.maxInflight);
      batch.Add(cmds[i]);
    }
    assert cmds[..|cmds|] == cmds;
  }

  lemma OneMore(n: nat, m: nat)
    requires m > 0
    ensures (n + 1) / m == n / m + (n % m + 1) / m && (n + 1) % m == (n % m + 1) % m
  {
    var q, r := n / m, n % m;
    if r + 1 == m {
      assert n + 1 == (q + 1) * m;
      Quotient(n + 1, m, q + 1, 0);
      Quotient(r + 1, m, 1, 0);
    } else {
      Quotient(n + 1, m, q, r + 1);
      Quotient(r + 1, m, 0, r + 1);
    }
  }

  lemma AtLeastOne(k: int, m: nat)
    requires k >= 1
    ensures k * m >= m
  {}

  lemma Quotient(n: nat, m: nat, q: nat, r: nat)
    requires m > 0 && n == q * m + r && r < m
    ensures n / m == q && n % m == r
  {
    var q' := n / m;
    DividesBack(n, m);
    assert (q - q') * m == q * m - q' * m;
    if q' < q {
      AtLeastOne(q - q', m);
    } else if q' > q {
      AtLeastOne(q' - q, m);
    }
  }

  lemma DividesBack(n: nat, m: nat)
    requires m > 0
    ensures n == n / m * m + n % m && n % m < m
  {}

  // ----- Several commands a key -----

  /** What a scan asks of every key: fixed for the scan, so queueing and taking agree. */
  datatype Shape = Shape(asksMembership: bool, hmget: bool, expiries: bool)

  function KeyCommands(shape: Shape, key: Bytes): seq<Command> {
    (if shape.asksMembership then [Command(Membership, key)] else [])
    + (if shape.hmget then [Command(FieldCount, key)] else [])
    + (if shape.expiries then [Command(Expiries, key)] else [])
    + [Command(Fetch, key)]
  }

  function PageCommands(shape: Shape, keys: seq<Bytes>): seq<Command> {
    if keys == [] then [] else KeyCommands(shape, keys[0]) + PageCommands(shape, keys[1..])
  }

  /** `r` is the reply to the `verb` asked of `key`, among the commands numbered from `from`. */
  predicate Answers(server: Server, from: nat, shape: Shape, key: Bytes, verb: Verb, r: Reply) {
    exists j :: 0 <= j < |KeyCommands(shape, key)| && KeyCommands(shape, key)[j] == Command(verb, key) &&
      r == server(from + j, Command(verb, key))
  }

  /** What one key's replies leave behind: -1 where nothing was asked or no integer came back. */
  datatype Taken = Taken(key: Bytes, from: nat, member: int, hlen: int, ttl: Option<Reply>, value: Reply)

  predicate IntegerOf(r: Reply, n: int) {
    n == if r.Integer? then r.n else -1
  }

  predicate MemberOf(r: Reply, n: int) {
    n == if r.Integer? then (if r.n != 0 then 1 else 0) else -1
  }

  /** `n` is what the reply to the membership question, where it is asked, says. */
  ghost predicate MemberAnswered(server: Server, from: nat, shape: Shape, key: Bytes, n: int) {
    if shape.asksMembership
    then exists r :: Answers(server, from, shape, key, Membership, r) && MemberOf(r, n)
    else n == -1
  }

  ghost predicate CountAnswered(server: Server, from: nat, shape: Shape, key: Bytes, n: int) {
    if shape.hmget
    then exists r :: Answers(server, from, shape, key, FieldCount, r) && IntegerOf(r, n)
    else n == -1
  }

  predicate ExpiriesAnswered(server: Server, from: nat, shape: Shape, key: Bytes, ttl: Option<Reply>) {
    if shape.expiries then ttl.Some? && Answers(server, from, shape, key, Expiries, ttl.value) else ttl == None
  }

  /** Every part of `t` came from the reply to the command that asked for it of this key. */
  ghost predicate Paired(server: Server, shape: Shape, t: Taken) {
    && Answers(server, t.from, shape, t.key, Fetch, t.value)
    && MemberAnswered(server, t.from, shape, t.key, t.member)
    && CountAnswered(server, t.from, shape, t.key, t.hlen)
    && ExpiriesAnswered(server, t.from, shape, t.key, t.ttl)
  }

  lemma FirstDue(due: seq<Command>, asked: bool, cmd: Command, rest: seq<Command>)
    requires due == (if asked then [cmd] else []) + rest
    ensures asked ==> due != [] && due[0] == cmd && due[1..] == rest
    ensures !asked ==> due == rest
  {}

  class PageReader {
    const batch: Batch
    const shape: Shape
    var keys: seq<Bytes>
    var nextKey: nat

    ghost predicate Valid()
      reads this, batch
    {
      batch.Valid() && nextKey <= |keys| && batch.Due() == PageCommands(shape, keys[nextKey..])
    }

    constructor (batch: Batch, shape: Shape)
      requires batch.Valid() && batch.Due() == []
      ensures Valid() && this.batch == batch && this.shape == shape && nextKey == |keys|
    {
      this.batch, this.shape, keys, nextKey := batch, shape, [], 0;
    }

    method QueueKey(key: Bytes)
      requires batch.Valid()
      modifies batch`wire, batch`buffer, batch`outstanding, batch`queued, batch`flushes
      ensures batch.Valid() && batch.Due() == old(batch.Due()) + KeyCommands(shape, key)
    {
      if shape.asksMembership {
        batch.Add(Command(Membership, key));
      }
      if shape.hmget {
        batch.Add(Command(FieldCount, key));
      }
      if shape.expiries {
        batch.Add(Command(Expiries, key));
      }
      batch.Add(Command(Fetch, key));
    }

    /** Queue every command of every key of the page; nothing else is due when a page begins. */
    method QueuePage(page: seq<Bytes>)
      requires batch.Valid() && batch.Due() == []
      modifies this, batch`wire, batch`buffer, batch`outstanding, batch`queued, batch`flushes
      ensures Valid() && keys == page && nextKey == 0
    {
      hide KeyCommands;
      keys, nextKey := page, 0;
      for i := 0 to |page|
        invariant batch.Valid() && keys == page && nextKey == 0
        invariant batch.Due() == PageCommands(shape, page[..i])
      {
        QueueKey(page[i]);
        PageCommandsSnoc(shape, page, i);
      }
      assert page[..|page|] == page == keys[nextKey..];
    }

    /** The replies to this key's commands, all of them and no others, whatever else happens to the key. */
    method TakeReplies() returns (t: Taken)
      requires Valid() && nextKey < |keys|
      modifies this`nextKey, batch
      ensures Valid() && keys == old(keys) && nextKey == old(nextKey) + 1
      ensures t.key == keys[old(nextKey)] && t.from == old(batch.answered) && Paired(batch.server, shape, t)
      ensures batch.answered == old(batch.answered) + |KeyCommands(shape, t.key)|
      ensures batch.current == Some(t.value)
    {
      hide PageCommands, KeyCommands, MemberOf, IntegerOf;
      var key, from := keys[nextKey], batch.answered;
      ghost var rest := PageCommands(shape, keys[nextKey + 1..]);
      PageCommandsFirst(shape, keys, nextKey);
      nextKey := nextKey + 1;
      var member := TakeMembership(key, rest);
      var hlen := TakeFieldCount(key, from, rest);
      var ttl := TakeExpiries(key, from, rest);
      FirstDue(batch.Due(), true, Command(Fetch, key), rest);
      var value := batch.Next();
      t := Taken(key, from, member, hlen, ttl, value.value);
      FetchIsLast(shape, key);
      assert Answers(batch.server, from, shape, key, Fetch, t.value);
    }

    method TakeMembership(key: Bytes, ghost rest: seq<Command>) returns (member: int)
      requires batch.Valid() && batch.Due() == KeyCommands(shape, key) + rest
      modifies batch
      ensures batch.Valid() && batch.Due() == AfterMembership(shape, key) + rest
      ensures batch.answered == old(batch.answered) + if shape.asksMembership then 1 else 0
      ensures MemberAnswered(batch.server, old(batch.answered), shape, key, member)
    {
      member := -1;
      KeyCommandsSplit(shape, key);
      FirstDue(batch.Due(), shape.asksMembership, Command(Membership, key), AfterMembership(shape, key) + rest);
      if shape.asksMembership {
        var r := batch.Next();
        if r.value.Integer? {
          member := if r.value.n != 0 then 1 else 0;
        }
        assert KeyCommands(shape, key)[0] == Command(Membership, key);
        assert Answers(batch.server, old(batch.answered), shape, key, Membership, r.value) && MemberOf(r.value, member);
      }
    }

    method TakeFieldCount(key: Bytes, from: nat, ghost rest: seq<Command>) returns (hlen: int)
      requires batch.Valid() && batch.Due() == AfterMembership(shape, key) + rest
      requires batch.answered == from + if shape.asksMembership then 1 else 0
      modifies batch
      ensures batch.Valid() && batch.Due() == AfterFieldCount(shape, key) + rest
      ensures batch.answered == old(batch.answered) + if shape.hmget then 1 else 0
      ensures CountAnswered(batch.server, from, shape, key, hlen)
    {
      hlen := -1;
      FirstDue(batch.Due(), shape.hmget, Command(FieldCount, key), AfterFieldCount(shape, key) + rest);
      if shape.hmget {
        var r := batch.Next();
        if r.value.Integer? {
          hlen := r.value.n;
        }
        ghost var j := if shape.asksMembership then 1 else 0;
        assert KeyCommands(shape, key)[j] == Command(FieldCount, key);
        assert Answers(batch.server, from, shape, key, FieldCount, r.value) && IntegerOf(r.value, hlen);
      }
    }

    method TakeExpiries(key: Bytes, from: nat, ghost rest: seq<Command>) returns (ttl: Option<Reply>)
      requires batch.Valid() && batch.Due() == AfterFieldCount(shape, key) + rest
      requires batch.answered == from + Asked(shape)
      modifies batch
      ensures batch.Valid() && batch.Due() == [Command(Fetch, key)] + rest
      ensures batch.answered == old(batch.answered) + if shape.expiries then 1 else 0
      ensures ExpiriesAnswered(batch.server, from, shape, key, ttl)
    {
      ttl := None;
      FirstDue(batch.Due(), shape.expiries, Command(Expiries, key), [Command(Fetch, key)] + rest);
      if shape.expiries {
        ttl := batch.Next();
        assert KeyCommands(shape, key)[Asked(shape)] == Command(Expiries, key);
      }
    }

    /** The next page: nothing is due, so the reply taken is the one to this SCAN. */
    method NextPage() returns (page: Option<seq<Bytes>>)
      requires Valid() && nextKey == |keys|
      modifies this, batch
      ensures Valid() && batch.answered == old(batch.answered) + 1
      ensures var r := batch.server(old(batch.answered), Command(Discover, []));
              page == if r.Page? then Some(r.keys) else None
      ensures keys == Listed(batch.server(old(batch.answered), Command(Discover, []))) && nextKey == 0
    {
      assert keys[nextKey..] == [] && batch.Due() == [] && batch.Pending() == 0;
      batch.Add(Command(Discover, []));
      var r := batch.Next();
      page := if r.value.Page? then Some(r.value.keys) else None;
      QueuePage(if page.Some? then page.value else []);
    }

    /** Any number of pages: the keys the server listed, all of them and in order, each with its own replies. */
    method Traverse(pages: nat) returns (rows: seq<Taken>, ghost scans: seq<nat>)
      requires Valid() && nextKey == |keys|
      modifies this, batch
      ensures Valid() && nextKey == |keys| && batch.Pending() == 0
      ensures |scans| == pages && Read(rows, Joined(batch.server, scans), batch.answered)
    {
      hide Joined, Read, PageCommands;
      rows, scans := [], [];
      NothingRead(batch.answered);
      JoinedSnoc(batch.server, []);
      for p := 0 to pages
        invariant Valid() && nextKey == |keys| && |scans| == p
        invariant Read(rows, Joined(batch.server, scans), batch.answered)
      {
        ghost var before, at := Joined(batch.server, scans), batch.answered;
        scans := scans + [at];
        assert scans[..|scans| - 1] + [at] == scans;
        JoinedSnoc(batch.server, scans);
        ReadLater(rows, before, at);
        var _ := NextPage();
        rows := TakePage(rows, before);
      }
      assert keys[nextKey..] == [];
      NoCommands(shape);
    }

    lemma NothingRead(now: nat)
      ensures Read([], [], now)
    {}

    lemma ReadLater(rows: seq<Taken>, listed: seq<Bytes>, now: nat)
      requires Read(rows, listed, now)
      ensures Read(rows, listed, now + 1)
    {
      hide Paired;
    }

    /** `rows` are the keys `listed`, in order, each paired with its own replies, none of them after `now`. */
    ghost predicate Read(rows: seq<Taken>, listed: seq<Bytes>, now: nat)
    {
      && |rows| == |listed|
      && (forall i :: 0 <= i < |rows| ==> rows[i].key == listed[i] && Paired(batch.server, shape, rows[i]))
      && (forall i :: 0 < i < |rows| ==> rows[i - 1].from < rows[i].from)
      && (rows != [] ==> rows[|rows| - 1].from < now)
    }

    method TakePage(before: seq<Taken>, ghost listed: seq<Bytes>) returns (rows: seq<Taken>)
      requires Valid() && nextKey == 0 && Read(before, listed, batch.answered)
      modifies this`nextKey, batch
      ensures Valid() && nextKey == |keys| && keys == old(keys) && Read(rows, listed + keys, batch.answered)
    {
      hide Paired;
      rows := before;
      while nextKey < |keys|
        invariant Valid() && keys == old(keys) && Read(rows, listed + keys[..nextKey], batch.answered)
      {
        var t := TakeReplies();
        rows := rows + [t];
        assert listed + keys[..nextKey] == listed + keys[..nextKey - 1] + [t.key];
      }
      assert keys[..nextKey] == keys;
    }
  }

  function Listed(r: Reply): seq<Bytes> {
    if r.Page? then r.keys else []
  }

  /** The keys listed by the cursor steps sent as commands number `scans`. */
  function Joined(server: Server, scans: seq<nat>): seq<Bytes> {
    if scans == [] then []
    else Joined(server, scans[..|scans| - 1]) + Listed(server(scans[|scans| - 1], Command(Discover, [])))
  }

  lemma NoCommands(shape: Shape)
    ensures PageCommands(shape, []) == []
  {}

  lemma JoinedSnoc(server: Server, scans: seq<nat>)
    ensures Joined(server, scans) == if scans == [] then []
            else Joined(server, scans[..|scans| - 1]) + Listed(server(scans[|scans| - 1], Command(Discover, [])))
  {}

  function Asked(shape: Shape): nat {
    (if shape.asksMembership then 1 else 0) + if shape.hmget then 1 else 0
  }

  function AfterFieldCount(shape: Shape, key: Bytes): seq<Command> {
    (if shape.expiries then [Command(Expiries, key)] else []) + [Command(Fetch, key)]
  }

  function AfterMembership(shape: Shape, key: Bytes): seq<Command> {
    (if shape.hmget then [Command(FieldCount, key)] else []) + AfterFieldCount(shape, key)
  }

  lemma FetchIsLast(shape: Shape, key: Bytes)
    ensures var n := Asked(shape) + if shape.expiries then 1 else 0;
            |KeyCommands(shape, key)| == n + 1 && KeyCommands(shape, key)[n] == Command(Fetch, key)
  {}

  lemma KeyCommandsSplit(shape: Shape, key: Bytes)
    ensures KeyCommands(shape, key) ==
        (if shape.asksMembership then [Command(Membership, key)] else []) + AfterMembership(shape, key)
  {}

  lemma PageCommandsFirst(shape: Shape, keys: seq<Bytes>, i: nat)
    requires i < |keys|
    ensures PageCommands(shape, keys[i..]) == KeyCommands(shape, keys[i]) + PageCommands(shape, keys[i + 1..])
  {
    assert keys[i..][1..] == keys[i + 1..];
  }

  lemma {:induction false} PageCommandsSnoc(shape: Shape, keys: seq<Bytes>, i: nat)
    requires i < |keys|
    ensures PageCommands(shape, keys[..i + 1]) == PageCommands(shape, keys[..i]) + KeyCommands(shape, keys[i])
  {
    hide KeyCommands;
    if i == 0 {
      assert keys[..1][1..] == [];
    } else {
      PageCommandsSnoc(shape, keys[1..], i - 1);
      assert keys[1..][..i] == keys[..i + 1][1..] && keys[1..][..i - 1] == keys[..i][1..];
    }
  }
}
