/**
 LIKE narrowed to a SCAN pattern: the literal prefix, the glob that matches exactly it, and the keys neither can lose.
 */
module Like {
  import opened Common

  // ----- PostgreSQL's LIKE -----

  /** What is left after one character, whose length in bytes is the encoding's business and at least 1. */
  function AfterChar(charLen: Bytes -> nat, s: Bytes): (r: Bytes)
    requires s != []
    ensures |r| < |s|
  {
    var n := charLen(s);
    s[if n < 1 then 1 else if n > |s| then |s| else n..]
  }

  /**
   '%' is any run of characters, '_' any one, and a backslash makes the next byte ordinary; a last backslash matches
   nothing.
   */
  predicate Matches(charLen: Bytes -> nat, p: Bytes, s: Bytes)
    decreases |p| + |s|
  {
    if p == [] then s == []
    else if p[0] == '%' then Matches(charLen, p[1..], s) || (s != [] && Matches(charLen, p, AfterChar(charLen, s)))
    else if s == [] then false
    else if p[0] == '_' then Matches(charLen, p[1..], AfterChar(charLen, s))
    else if p[0] == '\\' then |p| >= 2 && p[1] == s[0] && Matches(charLen, p[2..], s[1..])
    else p[0] == s[0] && Matches(charLen, p[1..], s[1..])
  }

  /** The bytes before the first wildcard, unescaped. */
  function LikePrefix(p: Bytes): Bytes {
    if p == [] || p[0] == '%' || p[0] == '_' then []
    else if p[0] == '\\' then (if |p| < 2 then [] else [p[1]] + LikePrefix(p[2..]))
    else [p[0]] + LikePrefix(p[1..])
  }

  lemma PrefixAt(p: Bytes, i: nat)
    requires i <= |p|
    ensures LikePrefix(p[i..]) == if i == |p| || p[i] == '%' || p[i] == '_' then []
                                  else if p[i] == '\\' then (if i + 1 == |p| then []
                                    else [p[i + 1]] + LikePrefix(p[i + 2..]))
                                  else [p[i]] + LikePrefix(p[i + 1..])
  {
    assert i + 2 <= |p| ==> p[i..][2..] == p[i + 2..];
    assert i + 1 <= |p| ==> p[i..][1..] == p[i + 1..];
  }

  method FindPrefix(patt: Bytes) returns (r: Option<Bytes>)
    ensures r == if LikePrefix(patt) == [] then None else Some(LikePrefix(patt))
  {
    hide LikePrefix;
    var buf: Bytes, i := [], 0;
    assert patt[0..] == patt && [] + LikePrefix(patt) == LikePrefix(patt);
    while i < |patt|
      invariant i <= |patt| && buf + LikePrefix(patt[i..]) == LikePrefix(patt)
    {
      PrefixAt(patt, i);
      ghost var before, rest := buf, LikePrefix(patt[i..]);
      if patt[i] == '%' || patt[i] == '_' {
        break;
      }
      if patt[i] == '\\' {
        i := i + 1;
        if i >= |patt| {
          assert buf + rest == buf;
          break;
        }
      }
      buf := buf + [patt[i]];
      i := i + 1;
      assert before + rest == buf + LikePrefix(patt[i..]);
    }
    PrefixAt(patt, i);
    assert buf + [] == buf;
    return if buf == [] then None else Some(buf);
  }

  lemma {:induction false} MatchesStartWithPrefix(charLen: Bytes -> nat, p: Bytes, s: Bytes)
    requires Matches(charLen, p, s)
    ensures StartsWith(s, LikePrefix(p))
    decreases |p|
  {
    if p != [] && p[0] != '%' && p[0] != '_' {
      var k := if p[0] == '\\' then 2 else 1;
      MatchesStartWithPrefix(charLen, p[k..], s[1..]);
      assert s == [s[0]] + s[1..];
    }
  }

  /** `p` is a way of writing the bytes of `lit`: each as itself unless it is special, or behind a backslash. */
  predicate Spells(p: Bytes, lit: Bytes) {
    if lit == [] then p == []
    else
      || (p != [] && p[0] == lit[0] && p[0] !in {'%', '_', '\\'} && Spells(p[1..], lit[1..]))
      || (|p| >= 2 && p[0] == '\\' && p[1] == lit[0] && Spells(p[2..], lit[1..]))
  }

  /** Where a literal beginning cannot go on: the end, a wildcard, or a backslash with nothing behind it. */
  predicate Stops(p: Bytes) {
    p == [] || p[0] == '%' || p[0] == '_' || p == ['\\']
  }

  /** The prefix is all of the pattern's literal beginning, unescaped: it stops only where it has to. */
  lemma {:induction false} PrefixIsTheWholeLiteral(p: Bytes, a: Bytes, rest: Bytes, lit: Bytes)
    requires p == a + rest && Spells(a, lit) && Stops(rest)
    ensures LikePrefix(p) == lit
    decreases |a|
  {
    if lit == [] {
      assert p == rest;
    } else {
      var k := if p[0] == '\\' then 2 else 1;
      assert p[0] == a[0] && (|a| >= 2 ==> p[1] == a[1]) && p[k..] == a[k..] + rest;
      PrefixIsTheWholeLiteral(p[k..], a[k..], rest, lit[1..]);
    }
  }

  /** Every pattern has such a beginning. */
  lemma {:induction false} EveryPatternBegins(p: Bytes) returns (i: nat)
    ensures i <= |p| && Spells(p[..i], LikePrefix(p)) && Stops(p[i..])
    decreases |p|
  {
    if Stops(p) {
      i := 0;
    } else {
      var k := if p[0] == '\\' then 2 else 1;
      var j := EveryPatternBegins(p[k..]);
      i := j + k;
      assert p[..i][k..] == p[k..][..j] && p[i..] == p[k..][j..];
    }
  }

  /** A pattern without wildcards matches its literal and nothing else. */
  lemma {:induction false} LiteralMatchesItself(charLen: Bytes -> nat, p: Bytes, lit: Bytes, s: Bytes)
    requires Spells(p, lit)
    ensures Matches(charLen, p, s) <==> s == lit
    decreases |p|
  {
    if lit == [] {
    } else {
      var k := if p[0] == '\\' then 2 else 1;
      if s != [] {
        LiteralMatchesItself(charLen, p[k..], lit[1..], s[1..]);
        assert s == [s[0]] + s[1..] && lit == [lit[0]] + lit[1..];
      }
    }
  }

  // ----- Valkey's glob -----

  /** The rest of a character class after its '[' and '^': whether `c` has been named, and the pattern after the ']'. */
  function Class(p: Bytes, c: Byte, hit: bool): (r: (bool, Bytes))
    ensures |r.1| <= |p|
  {
    if p == [] then (hit, [])
    else if p[0] == '\\' && |p| >= 2 then Class(p[2..], c, hit || p[1] == c)
    else if p[0] == ']' then (hit, p[1..])
    else if |p| >= 3 && p[1] == '-' then Class(p[3..], c, hit || p[0] <= c <= p[2] || p[2] <= c <= p[0])
    else Class(p[1..], c, hit || p[0] == c)
  }

  predicate Glob(p: Bytes, s: Bytes)
    decreases |p| + |s|
  {
    if p == [] then s == []
    else if p[0] == '*' then Glob(p[1..], s) || (s != [] && Glob(p, s[1..]))
    else if s == [] then false
    else if p[0] == '?' then Glob(p[1..], s[1..])
    else if p[0] == '[' then
      var negated := |p| >= 2 && p[1] == '^';
      var (hit, rest) := Class(if negated then p[2..] else p[1..], s[0], false);
      hit != negated && Glob(rest, s[1..])
    else if p[0] == '\\' && |p| >= 2 then p[1] == s[0] && Glob(p[2..], s[1..])
    else p[0] == s[0] && Glob(p[1..], s[1..])
  }

  predicate IsMeta(c: Byte) {
    c == '*' || c == '?' || c == '[' || c == ']' || c == '\\'
  }

  function Quoted(c: Byte): Bytes {
    if IsMeta(c) then ['\\', c] else [c]
  }

  function Escape(s: Bytes): Bytes {
    if s == [] then [] else Escape(s[..|s| - 1]) + Quoted(s[|s| - 1])
  }

  method EscapeGlob(str: Bytes) returns (result: Bytes)
    ensures result == Escape(str)
  {
    result := [];
    for i := 0 to |str|
      invariant result == Escape(str[..i])
    {
      assert str[..i + 1][..i] == str[..i];
      var c := str[i];
      if c == '*' || c == '?' || c == '[' || c == ']' || c == '\\' {
        result := result + ['\\'];
      }
      result := result + [c];
    }
    assert str[..|str|] == str;
  }

  lemma {:induction false} StarMatchesAll(s: Bytes)
    ensures Glob("*", s)
  {
    if s == [] {
    } else {
      StarMatchesAll(s[1..]);
    }
  }

  lemma {:induction false} EscapeCons(s: Bytes)
    requires s != []
    ensures Escape(s) == Quoted(s[0]) + Escape(s[1..])
  {
    if |s| > 1 {
      EscapeCons(s[..|s| - 1]);
      assert s[1..][..|s| - 2] == s[..|s| - 1][1..];
    } else {
      assert s[..0] == [] && s[1..] == [];
    }
  }

  lemma QuotedMatchesItself(c: Byte, rest: Bytes, s: Bytes)
    ensures Glob(Quoted(c) + rest, s) <==> s != [] && s[0] == c && Glob(rest, s[1..])
  {
    var p := Quoted(c) + rest;
    assert p[0] == Quoted(c)[0] && p[|Quoted(c)|..] == rest;
  }

  /** The generated pattern matches the keys with that prefix and no others, whatever bytes the prefix holds. */
  lemma {:induction false} EscapedGlobIsPrefix(a: Bytes, s: Bytes)
    ensures Glob(Escape(a) + "*", s) <==> StartsWith(s, a)
    decreases |a|
  {
    hide Glob, Quoted;
    if a == [] {
      assert Escape(a) + "*" == "*";
      StarMatchesAll(s);
    } else {
      var rest := Escape(a[1..]) + "*";
      EscapeCons(a);
      assert Escape(a) + "*" == Quoted(a[0]) + rest;
      QuotedMatchesItself(a[0], rest, s);
      if s != [] {
        EscapedGlobIsPrefix(a[1..], s[1..]);
        StartsWithCons(a, s);
      }
    }
  }

  lemma StartsWithCons(a: Bytes, s: Bytes)
    requires a != [] && s != []
    ensures StartsWith(s, a) <==> s[0] == a[0] && StartsWith(s[1..], a[1..])
  {
    if StartsWith(s, a) {
      assert s[1..][..|a| - 1] == s[..|a|][1..];
      assert s[0] == s[..|a|][0];
    }
    if s[0] == a[0] && StartsWith(s[1..], a[1..]) {
      assert s[..|a|] == [s[0]] + s[1..][..|a| - 1];
      assert a == [a[0]] + a[1..];
    }
  }

  // ----- The pattern a scan uses -----

  /** The prefix a scan asks for: the LIKE's when it extends the table's, and otherwise the table's. */
  function Chosen(keyprefix: Option<Bytes>, like: Option<Bytes>): Option<Bytes> {
    if like.Some? && (keyprefix.None? || StartsWith(CStr(like.value), CStr(keyprefix.value))) then
      Some(CStr(like.value))
    else if keyprefix.Some? then Some(CStr(keyprefix.value)) else None
  }

  function Pattern(keyset: Option<Bytes>, keyprefix: Option<Bytes>, like: Option<Bytes>): Option<Bytes> {
    if keyset.Some? || Chosen(keyprefix, like).None? then None else Some(Escape(Chosen(keyprefix, like).value) + "*")
  }

  method ScanPattern(keyset: Option<Bytes>, keyprefix: Option<Bytes>, like: Option<Bytes>) returns (r: Option<Bytes>)
    ensures r == Pattern(keyset, keyprefix, like)
  {
    hide CStr, StartsWith;
    var prefix := keyprefix;
    if keyset.Some? {
      return None;
    }
    if like.Some? && (prefix.None? || StartsWith(CStr(like.value), CStr(prefix.value))) {
      prefix := like;
    }
    if prefix.None? {
      return None;
    }
    var escaped := EscapeGlob(CStr(prefix.value));
    return Some(escaped + "*");
  }

  /** The keys a table with this prefix holds. */
  predicate InTable(keyprefix: Option<Bytes>, key: Bytes) {
    keyprefix.Some? ==> StartsWith(key, CStr(keyprefix.value))
  }

  /** The LIKE clause as the scan sees it: no clause, or the one its prefix was taken from. */
  predicate Wanted(charLen: Bytes -> nat, like: Option<Bytes>, key: Bytes) {
    like.Some? ==> Matches(charLen, like.value, key)
  }

  function PrefixOf(like: Option<Bytes>): Option<Bytes> {
    if like.None? || LikePrefix(like.value) == [] then None else Some(LikePrefix(like.value))
  }

  /**
   Sound and scoped, for a table that scans the keyspace: no key of the table that the LIKE accepts is missed,
   and no key outside the table is returned. The filter above the scan does the rest.
   */
  lemma {:induction false} NarrowingIsSoundAndScoped(charLen: Bytes -> nat, keyprefix: Option<Bytes>,
                                                     like: Option<Bytes>, key: Bytes)
    ensures var pattern := Pattern(None, keyprefix, PrefixOf(like));
            && (InTable(keyprefix, key) && Wanted(charLen, like, key) && pattern.Some? ==> Glob(pattern.value, key))
            && (pattern.Some? && Glob(pattern.value, key) ==> InTable(keyprefix, key))
            && (pattern.None? ==> InTable(keyprefix, key))
  {
    hide Glob, Escape, Matches;
    ChosenIsSoundAndScoped(charLen, keyprefix, like, key);
    var chosen := Chosen(keyprefix, PrefixOf(like));
    if chosen.Some? {
      EscapedGlobIsPrefix(chosen.value, key);
    }
  }

  /**
   The pattern matches exactly the table's keys that begin with the LIKE's literal, when that literal extends the
   table's prefix; a literal that does not extend it narrows nothing.
   */
  lemma {:induction false} PatternMatchesExactly(keyprefix: Option<Bytes>, like: Option<Bytes>, key: Bytes)
    ensures var lit := PrefixOf(like);
            var narrows := lit.Some? && (keyprefix.None? || StartsWith(CStr(lit.value), CStr(keyprefix.value)));
            var pattern := Pattern(None, keyprefix, lit);
            && (pattern.None? <==> keyprefix.None? && lit.None?)
            && (pattern.Some? ==> (Glob(pattern.value, key) <==>
                  InTable(keyprefix, key) && (narrows ==> StartsWith(key, CStr(lit.value)))))
    ensures forall keyset :: Pattern(Some(keyset), keyprefix, PrefixOf(like)) == None
  {
    hide Glob, Escape, CStr, LikePrefix;
    var lit := PrefixOf(like);
    var chosen := Chosen(keyprefix, lit);
    if chosen.Some? {
      EscapedGlobIsPrefix(chosen.value, key);
    }
    if lit.Some? && keyprefix.Some? && StartsWith(key, CStr(lit.value)) {
      PrefixOfPrefix(key, CStr(lit.value), CStr(keyprefix.value));
    }
  }

  lemma ChosenIsSoundAndScoped(charLen: Bytes -> nat, keyprefix: Option<Bytes>, like: Option<Bytes>, key: Bytes)
    ensures var chosen := Chosen(keyprefix, PrefixOf(like));
            && (InTable(keyprefix, key) && Wanted(charLen, like, key) && chosen.Some? ==> StartsWith(key, chosen.value))
            && (chosen.Some? && StartsWith(key, chosen.value) ==> InTable(keyprefix, key))
            && (chosen.None? ==> InTable(keyprefix, key))
  {
    hide Matches;
    if like.Some? && Matches(charLen, like.value, key) {
      MatchesStartWithPrefix(charLen, like.value, key);
      PrefixOfPrefix(key, LikePrefix(like.value), CStr(LikePrefix(like.value)));
    }
    if PrefixOf(like).Some? && keyprefix.Some? && StartsWith(key, CStr(PrefixOf(like).value)) {
      PrefixOfPrefix(key, CStr(PrefixOf(like).value), CStr(keyprefix.value));
    }
  }

  lemma PrefixOfPrefix(s: Bytes, a: Bytes, b: Bytes)
    requires StartsWith(s, a)
    ensures StartsWith(a, b) ==> StartsWith(s, b)
  {
    if StartsWith(a, b) {
      assert s[..|b|] == s[..|a|][..|b|];
    }
  }
}
