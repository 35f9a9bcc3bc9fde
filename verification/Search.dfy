/**
 Nearest-neighbour search with a filter weaker than the query: fetch, recheck, and fetch more when too few survive.
 */
module Search {
  import opened Common

  /** One entry of a reply: a key with no bytes, or fields that are no array, is not a document. */
  datatype Doc = Doc(key: Option<Bytes>, fields: Option<Bytes>)

  predicate Readable(d: Doc) {
    d.key.Some? && d.fields.Some?
  }

  const MAX_K := 65536

  datatype SearchError = GaveUp(fetched: nat)

  /** The documents of `docs` that satisfy `p`, in order. */
  function Select(docs: seq<Doc>, p: Doc -> bool): seq<Doc> {
    if docs == [] then []
    else
      var d := docs[|docs| - 1];
      Select(docs[..|docs| - 1], p) + if p(d) then [d] else []
  }

  lemma SelectSnoc(docs: seq<Doc>, d: Doc, p: Doc -> bool)
    ensures Select(docs + [d], p) == Select(docs, p) + if p(d) then [d] else []
  {
    assert (docs + [d])[..|docs|] == docs;
  }

  /** What survives of a prefix is a prefix of what survives. */
  lemma {:induction false} SelectPrefix(docs: seq<Doc>, i: nat, p: Doc -> bool)
    requires i <= |docs|
    ensures |Select(docs[..i], p)| <= |Select(docs, p)| &&
        Select(docs[..i], p) == Select(docs, p)[..|Select(docs[..i], p)|]
    decreases |docs|
  {
    if i == |docs| {
      assert docs[..i] == docs;
    } else {
      var front := docs[..|docs| - 1];
      SelectPrefix(front, i, p);
      assert front[..i] == docs[..i];
    }
  }

  /** Row `i` of the ranking, if it qualifies, is the next survivor. */
  lemma NextSurvivor(docs: seq<Doc>, i: nat, p: Doc -> bool)
    requires i < |docs|
    ensures |Select(docs[..i + 1], p)| == |Select(docs[..i], p)| + if p(docs[i]) then 1 else 0
    ensures p(docs[i]) ==>
              |Select(docs[..i], p)| < |Select(docs, p)| && Select(docs, p)[|Select(docs[..i], p)|] == docs[i]
  {
    assert docs[..i + 1] == docs[..i] + [docs[i]];
    SelectSnoc(docs[..i], docs[i], p);
    SelectPrefix(docs, i + 1, p);
    if p(docs[i]) {
      assert Select(docs[..i + 1], p)[|Select(docs[..i], p)|] == docs[i];
    }
  }

  /** A filter that keeps every row the query wants takes none of them away. */
  lemma {:induction false} FilterThenQual(table: seq<Doc>, filter: Doc -> bool, qual: Doc -> bool)
    requires forall d :: qual(d) ==> filter(d)
    ensures Select(Select(table, filter), qual) == Select(table, qual)
  {
    if table == [] {
    } else {
      var front, d := table[..|table| - 1], table[|table| - 1];
      FilterThenQual(front, filter, qual);
      SelectSnoc(Select(front, filter), d, qual);
      assert Select(front, filter) + [] == Select(front, filter);
      assert Select(front, qual) + [] == Select(front, qual);
    }
  }

  function Min(a: nat, b: nat): nat {
    if a < b then a else b
  }

  /** A row qualifies when it can be read and the query's own clause keeps it. */
  function Qual(wanted: Doc -> bool): Doc -> bool {
    d => Readable(d) && wanted(d)
  }

  /** The ranking goes on for as far as a search looks, and holds fewer than `k` rows that qualify there. */
  predicate OutOfReach(ranking: seq<Doc>, wanted: Doc -> bool, k: nat) {
    var limit := if k < MAX_K then MAX_K else k;
    |ranking| >= limit && |Select(ranking[..limit], Qual(wanted))| < k
  }

  class KnnScan {
    /** Every document the pushed filter matches, nearest first: FT.SEARCH asked for n answers the first n. */
    const ranking: seq<Doc>
    const wanted: Doc -> bool
    const k: nat
    /** The filter is the query's own clause, so every match that can be read qualifies. */
    const exact: bool
    var reply: seq<Doc>
    var row: nat
    var ran: bool
    var emitted: nat
    var fetchedK: nat
    var returned: nat
    var passSurvivors: nat
    ghost var out: seq<Doc>

    ghost predicate Valid()
      reads this
    {
      && (exact ==> forall d :: d in ranking && Readable(d) ==> wanted(d))
      && emitted <= k && emitted <= |Select(ranking, Qual(wanted))|
      && out == Select(ranking, Qual(wanted))[..emitted]
      && (!ran ==> emitted == 0 && fetchedK == 0 && passSurvivors == 0)
      && (ran ==>
          && k <= fetchedK && (exact ==> fetchedK == k) && (fetchedK == k || fetchedK <= MAX_K)
          && reply == ranking[..Min(fetchedK, |ranking|)] && returned == |reply|
          && row <= |reply| && emitted <= |Select(reply, Qual(wanted))|
          && passSurvivors == |Select(reply[..row], Qual(wanted))|
          && (passSurvivors <= emitted || emitted == k)
          && (exact ==> emitted == passSurvivors))
    }

    constructor (ranking: seq<Doc>, wanted: Doc -> bool, k: nat, exact: bool)
      requires exact ==> forall d :: d in ranking && Readable(d) ==> wanted(d)
      ensures Valid() && this.ranking == ranking && this.wanted == wanted && this.k == k && this.exact == exact &&
          out == []
    {
      this.ranking, this.wanted, this.k, this.exact := ranking, wanted, k, exact;
      reply, row, ran, emitted, fetchedK, returned, passSurvivors, out := [], 0, false, 0, 0, 0, 0, [];
    }

    /** Ask the server for the first `asked` entries of the ranking, and start on them. */
    method Run(asked: nat)
      requires emitted <= k && emitted <= |Select(ranking, Qual(wanted))| &&
          out == Select(ranking, Qual(wanted))[..emitted]
      requires exact ==> asked == k && emitted == 0 && forall d :: d in ranking && Readable(d) ==> wanted(d)
      requires k <= asked && (asked == k || asked <= MAX_K)
      requires emitted <= |Select(ranking[..Min(asked, |ranking|)], Qual(wanted))|
      modifies this`reply, this`row, this`ran, this`fetchedK, this`returned, this`passSurvivors
      ensures Valid() && ran && row == 0 && fetchedK == asked
    {
      fetchedK := asked;
      reply := if asked < |ranking| then ranking[..asked] else ranking;
      row, ran, passSurvivors := 0, true, 0;
      returned := |reply|;
      assert reply[..0] == [];
    }

    /** Ask again for more, unless enough came, everything came, or the cap is reached. */
    method Grow() returns (r: Result<bool, SearchError>)
      requires Valid() && ran && row == |reply|
      modifies this`reply, this`row, this`ran, this`fetchedK, this`returned, this`passSurvivors
      ensures Valid() && ran
      ensures r == Success(true) ==>
                old(fetchedK) < fetchedK && fetchedK == Min(2 * old(fetchedK), MAX_K) && row == 0
      ensures r == Success(false) ==> fetchedK == old(fetchedK) && row == |reply| && emitted == |Answer()|
      ensures r.Failure? ==> r == Failure(GaveUp(Limit())) && OutOfReach(ranking, wanted, k) && !exact
      ensures r.Success? ==> exact || !OutOfReach(ranking, wanted, k) || r.value
    {
      if exact || emitted >= k || returned < fetchedK {
        Settled();
        if !exact {
          EnoughIsInReach();
        }
        return Success(false);
      }
      assert reply[..row] == reply == ranking[..fetchedK];
      if fetchedK >= MAX_K {
        return Failure(GaveUp(fetchedK));
      }
      StillThere(fetchedK, Min(2 * fetchedK, MAX_K));
      Run(if fetchedK < MAX_K / 2 then fetchedK * 2 else MAX_K);
      return Success(true);
    }

    /** A longer beginning of the ranking holds no fewer rows that qualify. */
    lemma StillThere(a: nat, b: nat)
      requires a <= b
      ensures |Select(ranking[..Min(a, |ranking|)], Qual(wanted))|
              <= |Select(ranking[..Min(b, |ranking|)], Qual(wanted))|
    {
      var longer := ranking[..Min(b, |ranking|)];
      SelectPrefix(longer, Min(a, |ranking|), Qual(wanted));
      assert longer[..Min(a, |ranking|)] == ranking[..Min(a, |ranking|)];
    }

    lemma EnoughIsInReach()
      requires Valid() && ran && (emitted >= k || returned < fetchedK)
      ensures !OutOfReach(ranking, wanted, k)
    {
      if |ranking| >= Limit() {
        StillThere(fetchedK, Limit());
      }
    }

    /** As far down the ranking as a search ever looks. */
    function Limit(): nat
      reads this
    {
      if k < MAX_K then MAX_K else k
    }

    /**
     What a search should give: with its own clause as filter, what can be read of the k nearest; else the k nearest.
     */
    ghost function Answer(): seq<Doc>
      reads this
    {
      if exact then Select(ranking[..Min(k, |ranking|)], Qual(wanted))
        else Select(ranking, Qual(wanted))[..Min(k, |Select(ranking, Qual(wanted))|)]
    }

    /** A spent reply that is not grown has given all there is to give. */
    lemma Settled()
      requires Valid() && ran && row == |reply| && (exact || emitted >= k || returned < fetchedK)
      ensures emitted == |Answer()|
    {
      assert reply[..row] == reply;
      SelectNoLonger(reply, Qual(wanted));
      if !exact && emitted < k {
        assert ranking[..|ranking|] == ranking;
      }
    }

    /** The rows given are always the beginning of the answer. */
    lemma GivenIsTheAnswer()
      requires Valid() && ran && emitted == |Answer()|
      ensures out == Answer()
    {
      SelectPrefix(ranking, Min(k, |ranking|), Qual(wanted));
    }

    /** One row of the reply: skipped, emitted, or one too many. */
    method TakeRow() returns (r: Option<Doc>, done: bool)
      requires Valid() && ran && row < |reply|
      modifies this`row, this`emitted, this`passSurvivors, this`out
      ensures Valid() && row == old(row) + 1
      ensures r.Some? ==> !done && out == old(out) + [r.value] && emitted == old(emitted) + 1
      ensures r.None? ==> out == old(out) && emitted == old(emitted)
      ensures done ==> emitted == k && !exact && !OutOfReach(ranking, wanted, k)
    {
      hide Select, Readable;
      var d := reply[row];
      ghost var all := Select(ranking, Qual(wanted));
      assert reply[..row] == ranking[..row] && reply[..row + 1] == ranking[..row + 1];
      NextSurvivor(ranking, row, Qual(wanted));
      SelectNoLonger(reply[..row], Qual(wanted));
      row := row + 1;
      SelectPrefix(reply, row, Qual(wanted));
      if !Readable(d) {
        return None, false;
      }
      if !wanted(d) {
        return None, false;
      }
      passSurvivors := passSurvivors + 1;
      if passSurvivors <= emitted {
        return None, false;
      }
      if emitted >= k {
        EnoughIsInReach();
        return None, true;
      }
      assert all[..emitted + 1] == all[..emitted] + [d];
      emitted := emitted + 1;
      out := out + [d];
      return Some(d), false;
    }

    /** The next row, the end of the search, or giving up. */
    method Next() returns (r: Result<Option<Doc>, SearchError>)
      requires Valid()
      modifies this
      ensures Valid()
      ensures r.Success? && r.value.Some? ==> out == old(out) + [r.value.value]
      ensures r.Success? && r.value.None? ==> out == old(out) == Answer()
      ensures r.Failure? ==> out == old(out) && r.error == GaveUp(Limit()) && OutOfReach(ranking, wanted, k) && !exact
      ensures r.Success? && r.value.None? ==> exact || !OutOfReach(ranking, wanted, k)
    {
      hide Select;
      if !ran {
        Run(k);
      }
      while true
        invariant Valid() && ran && out == old(out)
        decreases if fetchedK < MAX_K then MAX_K - fetchedK else 0, |reply| - row
      {
        if row == |reply| {
          var grown := Grow();
          if grown.Failure? {
            return Failure(grown.error);
          }
          if !grown.value {
            GivenIsTheAnswer();
            return Success(None);
          }
        } else {
          var d, done := TakeRow();
          if done {
            return Success(None);
          }
          if d.Some? {
            return Success(d);
          }
        }
      }
    }
  }

  // ----- When an exact filter gives the k nearest -----

  lemma {:induction false} SelectAppend(a: seq<Doc>, b: seq<Doc>, p: Doc -> bool)
    ensures Select(a + b, p) == Select(a, p) + Select(b, p)
  {
    if b == [] {
      assert a + b == a;
    } else {
      var front, d := b[..|b| - 1], b[|b| - 1];
      SelectAppend(a, front, p);
      assert a + b == (a + front) + [d];
      SelectSnoc(a + front, d, p);
    }
  }

  lemma {:induction false} SelectIsFull(docs: seq<Doc>, p: Doc -> bool)
    ensures |Select(docs, p)| == |docs| <==> forall d :: d in docs ==> p(d)
  {
    if docs == [] {
    } else {
      var front, d := docs[..|docs| - 1], docs[|docs| - 1];
      SelectIsFull(front, p);
      SelectNoLonger(front, p);
      assert docs == front + [d];
    }
  }

  lemma {:induction false} SelectIsEmpty(docs: seq<Doc>, p: Doc -> bool)
    ensures Select(docs, p) == [] <==> forall d :: d in docs ==> !p(d)
  {
    if docs == [] {
    } else {
      var front, d := docs[..|docs| - 1], docs[|docs| - 1];
      SelectIsEmpty(front, p);
      assert docs == front + [d];
    }
  }

  /** Everything among the k nearest can be read, or nothing beyond them can. */
  predicate NothingIsMissed(ranking: seq<Doc>, k: nat) {
    var m := Min(k, |ranking|);
    (forall d :: d in ranking[..m] ==> Readable(d)) || (forall d :: d in ranking[m..] ==> !Readable(d))
  }

  function Nearest(ranking: seq<Doc>, wanted: Doc -> bool, k: nat): seq<Doc> {
    var all := Select(ranking, Qual(wanted));
    all[..Min(k, |all|)]
  }

  /** What can be read of the first k entries is the k nearest that can be read, exactly when nothing is missed. */
  lemma {:induction false} FirstPassIsEnoughExactly(ranking: seq<Doc>, wanted: Doc -> bool, k: nat)
    requires forall d :: d in ranking && Readable(d) ==> wanted(d)
    ensures Select(ranking[..Min(k, |ranking|)], Qual(wanted)) == Nearest(ranking, wanted, k) <==>
            NothingIsMissed(ranking, k)
  {
    hide Select;
    var m, q := Min(k, |ranking|), Qual(wanted);
    var near, far := ranking[..m], ranking[m..];
    assert ranking == near + far;
    SelectAppend(near, far, q);
    SelectNoLonger(near, q);
    SelectIsFull(near, q);
    SelectIsEmpty(far, q);
    assert forall d :: d in near || d in far ==> (q(d) <==> Readable(d));
    assert |Select(near, q)| == |Nearest(ranking, wanted, k)| ==> Select(near, q) == Nearest(ranking, wanted, k);
  }

  /** The nearest entry cannot be read, the next can: a search for one row with an exact filter gives none. */
  lemma {:induction false} UnreadableNearestIsMissed(wanted: Doc -> bool, d: Doc)
    requires Readable(d) && wanted(d)
    ensures var ranking := [Doc(None, None), d];
            && Select(ranking[..1], Qual(wanted)) == [] && Nearest(ranking, wanted, 1) == [d]
            && !NothingIsMissed(ranking, 1)
  {
    var ranking := [Doc(None, None), d];
    assert ranking[..1] == [Doc(None, None)] && ranking[..1][..0] == [];
    assert ranking[0] in ranking[..1] && ranking[1..] == [d] && d in ranking[1..];
    SelectSnoc(ranking[..1], d, Qual(wanted));
    assert ranking[..1] + [d] == ranking;
  }

  /**
   A search that ends without error gave the k nearest qualifying rows of the table, nearest first, and no others. With
   the query's own clause as filter there is no second pass: it gave what can be read of the first k, and that is the k
   nearest if and only if nothing is missed.
   */
  method NearestQualifying(table: seq<Doc>, filter: Doc -> bool, wanted: Doc -> bool, k: nat, exact: bool)
    returns (r: Result<seq<Doc>, SearchError>)
    requires forall d :: Qual(wanted)(d) ==> filter(d)
    requires exact ==> forall d :: filter(d) && Readable(d) ==> wanted(d)
    ensures r.Success? && !exact ==> r.value == Nearest(table, wanted, k)
    ensures r.Success? && exact ==>
              (r.value == Nearest(table, wanted, k) <==> NothingIsMissed(Select(table, filter), k))
    ensures r.Success? && exact ==>
              var ranking := Select(table, filter); r.value == Select(ranking[..Min(k, |ranking|)], Qual(wanted))
    ensures r.Failure? <==> !exact && OutOfReach(Select(table, filter), wanted, k)
  {
    SelectKeeps(table, filter);
    FilterThenQual(table, filter, Qual(wanted));
    ghost var ranking := Select(table, filter);
    if exact {
      FirstPassIsEnoughExactly(ranking, wanted, k);
    }
    var scan := new KnnScan(Select(table, filter), wanted, k, exact);
    var rows: seq<Doc> := [];
    while true
      invariant scan.Valid() && scan.ranking == Select(table, filter) && scan.wanted == wanted && scan.k == k &&
          scan.exact == exact
      invariant rows == scan.out && fresh(scan)
      decreases k - |rows|
    {
      var next := scan.Next();
      if next.Failure? {
        return Failure(next.error);
      }
      if next.value.None? {
        return Success(rows);
      }
      rows := rows + [next.value.value];
    }
  }

  lemma {:induction false} SelectKeeps(docs: seq<Doc>, p: Doc -> bool)
    ensures forall d :: d in Select(docs, p) ==> p(d) && d in docs
  {
    if docs == [] {
    } else {
      SelectKeeps(docs[..|docs| - 1], p);
    }
  }

  lemma {:induction false} SelectNoLonger(docs: seq<Doc>, p: Doc -> bool)
    ensures |Select(docs, p)| <= |docs|
  {
    if docs == [] {
    } else {
      SelectNoLonger(docs[..|docs| - 1], p);
    }
  }
}
