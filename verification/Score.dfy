/** What is accepted as a zset score: the grammar, the loop that walks it, and the verdict on every byte string. */
module Score {
  import opened Common
  import opened Decimal

  // ----- The grammar -----

  predicate IsSign(c: Byte) {
    c == '+' || c == '-'
  }

  predicate Sign(s: Bytes) {
    s == [] || (|s| == 1 && IsSign(s[0]))
  }

  predicate Mark(s: Bytes) {
    |s| == 1 && (s[0] == 'e' || s[0] == 'E')
  }

  predicate Mantissa(whole: Bytes, point: bool, fraction: Bytes) {
    AllDigits(whole) && AllDigits(fraction) && whole + fraction != [] && (!point ==> fraction == [])
  }

  predicate Exponent(mark: Bytes, sign: Bytes, digits: Bytes) {
    (mark == [] && sign == [] && digits == []) || (Mark(mark) && Sign(sign) && digits != [] && AllDigits(digits))
  }

  function Spelled(sign: Bytes, whole: Bytes, point: bool, fraction: Bytes, mark: Bytes, esign: Bytes,
                   digits: Bytes): Bytes {
    sign + whole + (if point then "." else "") + fraction + mark + esign + digits
  }

  /** [+-]? ( D+ ( . D* )? | . D+ ) ( [eE] [+-]? D+ )? */
  ghost predicate IsScore(s: Bytes) {
    exists sign, whole, point, fraction, mark, esign, digits ::
      && s == Spelled(sign, whole, point, fraction, mark, esign, digits)
      && Sign(sign) && Mantissa(whole, point, fraction) && Exponent(mark, esign, digits)
  }

  // ----- The scan -----

  /** The end of the run of digits that starts at `i`. */
  function RunEnd(s: Bytes, i: nat): (e: nat)
    requires i <= |s|
    ensures i <= e <= |s| && AllDigits(s[i..e]) && (e < |s| ==> !IsDigit(s[e]))
    decreases |s| - i
  {
    if i < |s| && IsDigit(s[i]) then RunEnd(s, i + 1) else i
  }

  function SignEnd(s: Bytes, i: nat): (e: nat)
    requires i <= |s|
    ensures i <= e <= |s|
  {
    if i < |s| && IsSign(s[i]) then i + 1 else i
  }

  /** Where the fraction ends, given where the whole part does. */
  function FractionEnd(s: Bytes, i: nat): (e: nat)
    requires i <= |s|
    ensures i <= e <= |s|
  {
    if i < |s| && s[i] == '.' then RunEnd(s, i + 1) else i
  }

  function ExponentEnd(s: Bytes, i: nat): (e: nat)
    requires i <= |s|
    ensures i <= e <= |s|
  {
    if i < |s| && (s[i] == 'e' || s[i] == 'E') then
      var start := SignEnd(s, i + 1);
      var e := RunEnd(s, start);
      if e > start then e else i
    else i
  }

  /** How far a score extends from the start of `s`, or 0. */
  function Scan(s: Bytes): (n: nat)
    ensures n <= |s|
  {
    var i := SignEnd(s, 0);
    var w := RunEnd(s, i);
    var f := FractionEnd(s, w);
    if w == i && f <= w + 1 then 0 else ExponentEnd(s, f)
  }

  method SkipDigits(s: Bytes, start: nat) returns (i: nat, count: nat)
    requires start <= |s|
    ensures i == RunEnd(s, start) && count == i - start
  {
    i, count := start, 0;
    while i < |s| && '0' <= s[i] <= '9'
      invariant start <= i <= |s| && count == i - start && RunEnd(s, i) == RunEnd(s, start)
    {
      i, count := i + 1, count + 1;
    }
  }

  method ScoreScan(s: Bytes) returns (end: nat)
    ensures end == Scan(s)
  {
    hide RunEnd, AllDigits;
    var i, digits := 0, 0;
    if i < |s| && (s[i] == '+' || s[i] == '-') {
      i := i + 1;
    }
    i, digits := SkipDigits(s, i);
    if i < |s| && s[i] == '.' {
      var more;
      i, more := SkipDigits(s, i + 1);
      digits := digits + more;
    }
    if digits == 0 {
      return 0;
    }
    end := i;
    if i < |s| && (s[i] == 'e' || s[i] == 'E') {
      i := i + 1;
      if i < |s| && (s[i] == '+' || s[i] == '-') {
        i := i + 1;
      }
      var edigits;
      i, edigits := SkipDigits(s, i);
      if edigits > 0 {
        end := i;
      }
    }
  }

  // ----- The scan is the grammar -----

  lemma {:induction false} DigitsReach(s: Bytes, i: nat, j: nat)
    requires i <= j <= |s| && AllDigits(s[i..j])
    ensures j <= RunEnd(s, i) && (j < |s| && !IsDigit(s[j]) ==> j == RunEnd(s, i))
    decreases j - i
  {
    if i == j {
    } else {
      assert s[i] == s[i..j][0];
      assert s[i + 1..j] == s[i..j][1..];
      DigitsReach(s, i + 1, j);
    }
  }

  /** Reading an exponent off `s` at `i` reaches no further than the scan does. */
  lemma ExponentReach(s: Bytes, i: nat, mark: Bytes, sign: Bytes, digits: Bytes)
    requires Exponent(mark, sign, digits) && i + |mark + sign + digits| <= |s|
    requires s[i..i + |mark + sign + digits|] == mark + sign + digits
    ensures i + |mark + sign + digits| <= ExponentEnd(s, i)
  {
    hide RunEnd, AllDigits;
    var e := mark + sign + digits;
    if mark != [] {
      var start := i + 1 + |sign|;
      assert s[i] == s[i..i + |e|][0] == mark[0];
      assert s[i + 1] == s[i..i + |e|][1] == (sign + digits)[0];
      assert s[start..i + |e|] == s[i..i + |e|][1 + |sign|..] == digits;
      FirstDigit(digits);
      assert SignEnd(s, i + 1) == start;
      DigitsReach(s, start, i + |e|);
    }
  }

  lemma FirstDigit(digits: Bytes)
    requires digits != [] && AllDigits(digits)
    ensures !IsSign(digits[0]) && digits[0] != '.' && digits[0] != 'e' && digits[0] != 'E'
  {}

  predicate IsMark(c: Byte) {
    c == 'e' || c == 'E'
  }

  function Number(whole: Bytes, point: bool, fraction: Bytes): Bytes {
    whole + (if point then "." else "") + fraction
  }

  lemma {:induction false} WholeReach(s: Bytes, i: nat, whole: Bytes, point: bool, fraction: Bytes)
    requires Mantissa(whole, point, fraction)
    requires var m := Number(whole, point, fraction); i + |m| <= |s| && s[i..i + |m|] == m
    ensures i + |whole| <= RunEnd(s, i)
    ensures point ==> i + |whole| == RunEnd(s, i) && s[i + |whole|] == '.'
  {
    hide RunEnd, AllDigits;
    var m := Number(whole, point, fraction);
    assert s[i..i + |whole|] == s[i..i + |m|][..|whole|] == whole;
    DigitsReach(s, i, i + |whole|);
    if point {
      assert s[i + |whole|] == s[i..i + |m|][|whole|] == '.';
    }
  }

  /** The same for a mantissa; and if an exponent mark follows it, it is all the digits there are. */
  lemma {:induction false} MantissaReach(s: Bytes, i: nat, whole: Bytes, point: bool, fraction: Bytes)
    requires Mantissa(whole, point, fraction)
    requires var m := Number(whole, point, fraction); i + |m| <= |s| && s[i..i + |m|] == m
    ensures var end, w := i + |Number(whole, point, fraction)|, RunEnd(s, i);
            var f := FractionEnd(s, w);
            end <= f && (w > i || f > w + 1) && (end < |s| && IsMark(s[end]) ==> end == f)
  {
    hide RunEnd, AllDigits;
    var m := Number(whole, point, fraction);
    var end := i + |m|;
    WholeReach(s, i, whole, point, fraction);
    if point {
      var start := i + |whole| + 1;
      assert s[start..end] == s[i..end][|whole| + 1..] == fraction;
      DigitsReach(s, start, end);
    } else {
      assert s[i..end] == whole;
      DigitsReach(s, i, end);
    }
  }

  lemma {:induction false} SignReach(s: Bytes, sign: Bytes, whole: Bytes, point: bool, fraction: Bytes)
    requires Sign(sign) && Mantissa(whole, point, fraction)
    requires var m := sign + Number(whole, point, fraction); |m| <= |s| && s[..|m|] == m
    ensures SignEnd(s, 0) == |sign|
  {
    hide AllDigits;
    var m := sign + Number(whole, point, fraction);
    assert s[0] == s[..|m|][0] == m[0];
    if sign == [] && whole != [] {
      FirstDigit(whole);
    }
  }

  lemma {:induction false} LongestScore(s: Bytes, sign: Bytes, whole: Bytes, point: bool, fraction: Bytes, mark: Bytes,
                                        esign: Bytes, digits: Bytes)
    requires Sign(sign) && Mantissa(whole, point, fraction) && Exponent(mark, esign, digits)
    requires var t := Spelled(sign, whole, point, fraction, mark, esign, digits); |t| <= |s| && s[..|t|] == t
    ensures 0 < |Spelled(sign, whole, point, fraction, mark, esign, digits)| <= Scan(s)
  {
    hide RunEnd, AllDigits, Sign, Mantissa, Exponent, SignEnd, FractionEnd, ExponentEnd;
    var t := Spelled(sign, whole, point, fraction, mark, esign, digits);
    var m, e := Number(whole, point, fraction), mark + esign + digits;
    var i, end := |sign|, |sign + m|;
    assert t == sign + m + e && |t| == end + |e|;
    assert s[..end] == s[..|t|][..end] == sign + m;
    assert s[i..end] == s[..|t|][i..end] == m;
    assert s[end..|t|] == s[..|t|][end..] == e;
    SignReach(s, sign, whole, point, fraction);
    MantissaReach(s, i, whole, point, fraction);
    MarkFirst(s, end, mark, esign, digits);
    if mark != [] {
      ExponentReach(s, end, mark, esign, digits);
    } else {
      NoMark(mark, esign, digits);
    }
    NonEmptyMantissa(whole, point, fraction);
  }

  lemma NonEmptyMantissa(whole: Bytes, point: bool, fraction: Bytes)
    requires Mantissa(whole, point, fraction)
    ensures Number(whole, point, fraction) != []
  {}

  lemma NoMark(mark: Bytes, sign: Bytes, digits: Bytes)
    requires Exponent(mark, sign, digits) && mark == []
    ensures mark + sign + digits == []
  {}

  lemma {:induction false} MarkFirst(s: Bytes, i: nat, mark: Bytes, sign: Bytes, digits: Bytes)
    requires Exponent(mark, sign, digits)
    requires var e := mark + sign + digits; i + |e| <= |s| && s[i..i + |e|] == e
    ensures mark != [] ==> i < |s| && IsMark(s[i])
  {
    var e := mark + sign + digits;
    if mark != [] {
      assert s[i] == s[i..i + |e|][0];
    }
  }

  lemma ScannedExponent(s: Bytes, i: nat) returns (mark: Bytes, sign: Bytes, digits: Bytes)
    requires i <= |s|
    ensures Exponent(mark, sign, digits) && s[i..ExponentEnd(s, i)] == mark + sign + digits
  {
    hide RunEnd, AllDigits;
    if ExponentEnd(s, i) == i {
      mark, sign, digits := [], [], [];
    } else {
      var start := SignEnd(s, i + 1);
      mark, sign, digits := s[i..i + 1], s[i + 1..start], s[start..RunEnd(s, start)];
    }
  }

  lemma ScannedMantissa(s: Bytes, i: nat) returns (whole: Bytes, point: bool, fraction: Bytes)
    requires i <= |s| && (RunEnd(s, i) > i || FractionEnd(s, RunEnd(s, i)) > RunEnd(s, i) + 1)
    ensures Mantissa(whole, point, fraction)
    ensures s[i..FractionEnd(s, RunEnd(s, i))] == Number(whole, point, fraction)
  {
    hide RunEnd, AllDigits;
    var w := RunEnd(s, i);
    whole, point := s[i..w], w < |s| && s[w] == '.';
    fraction := if point then s[w + 1..RunEnd(s, w + 1)] else [];
    NoDigits();
  }

  lemma NoDigits()
    ensures AllDigits([])
  {}

  lemma ScannedSign(s: Bytes)
    ensures Sign(s[..SignEnd(s, 0)])
  {}

  lemma SpelledInThree(sign: Bytes, whole: Bytes, point: bool, fraction: Bytes, mark: Bytes, esign: Bytes,
                       digits: Bytes)
    ensures Spelled(sign, whole, point, fraction, mark, esign, digits)
            == sign + Number(whole, point, fraction) + (mark + esign + digits)
  {}

  lemma ScannedIsScore(s: Bytes)
    requires Scan(s) > 0
    ensures IsScore(s[..Scan(s)])
  {
    hide RunEnd, AllDigits, SignEnd, FractionEnd, ExponentEnd, Sign, Mantissa, Exponent, Number, Spelled;
    var i := SignEnd(s, 0);
    var f := FractionEnd(s, RunEnd(s, i));
    var whole, point, fraction := ScannedMantissa(s, i);
    var mark, esign, digits := ScannedExponent(s, f);
    ScannedSign(s);
    SpelledInThree(s[..i], whole, point, fraction, mark, esign, digits);
    assert s[..Scan(s)] == s[..i] + s[i..f] + s[f..Scan(s)];
  }

  /** The scan finds the longest prefix in the grammar, and 0 exactly when there is none. */
  lemma {:induction false} ScanIsTheLongestScore(s: Bytes)
    ensures Scan(s) > 0 ==> IsScore(s[..Scan(s)])
    ensures forall n :: 0 <= n <= |s| && IsScore(s[..n]) ==> 0 < n <= Scan(s)
    ensures IsScore(s) <==> Scan(s) == |s| > 0
  {
    hide Scan;
    if Scan(s) > 0 {
      ScannedIsScore(s);
    }
    forall n | 0 <= n <= |s| && IsScore(s[..n]) ensures 0 < n <= Scan(s) {
      PrefixReach(s, n);
    }
    assert s[..|s|] == s;
  }

  lemma PrefixReach(s: Bytes, n: nat)
    requires n <= |s| && IsScore(s[..n])
    ensures 0 < n <= Scan(s)
  {
    hide Scan, Spelled, Sign, Mantissa, Exponent;
    var sign, whole, point, fraction, mark, esign, digits :|
      && s[..n] == Spelled(sign, whole, point, fraction, mark, esign, digits)
      && Sign(sign) && Mantissa(whole, point, fraction) && Exponent(mark, esign, digits);
    LongestScore(s, sign, whole, point, fraction, mark, esign, digits);
  }

  // ----- Infinity, and the verdict -----

  function Lower(c: Byte): Byte {
    if 'A' <= c <= 'Z' then (c as int - 'A' as int + 'a' as int) as char else c
  }

  function Lowered(s: Bytes): (r: Bytes)
    ensures |r| == |s|
  {
    seq(|s|, i requires 0 <= i < |s| => Lower(s[i]))
  }

  /** A spelling of plus or minus infinity that either end produces, in any ASCII case. */
  predicate SpellsInfinity(s: Bytes) {
    var rest := Lowered(s[SignEnd(s, 0)..]);
    rest == "inf" || rest == "infinity"
  }

  method IsInfinite(s: Bytes) returns (r: bool)
    ensures r <==> SpellsInfinity(s)
  {
    var inf: Bytes := "infinity";
    var i := 0;
    if i < |s| && (s[i] == '+' || s[i] == '-') {
      i := i + 1;
    }
    var rest := s[i..];
    if |rest| != 3 && |rest| != 8 {
      return false;
    }
    for j := 0 to |rest|
      invariant Lowered(rest)[..j] == inf[..j]
    {
      assert Lowered(rest)[j] == Lower(rest[j]);
      if Lower(rest[j]) != inf[j] {
        assert Lowered(rest) != inf[..|rest|];
        InfinityPrefix();
        return false;
      }
      assert Lowered(rest)[..j + 1] == Lowered(rest)[..j] + [Lowered(rest)[j]];
      assert inf[..j + 1] == inf[..j] + [inf[j]];
    }
    InfinityPrefix();
    assert Lowered(rest)[..|rest|] == Lowered(rest);
    return true;
  }

  lemma InfinityPrefix()
    ensures "infinity"[..3] == "inf" && "infinity"[..8] == "infinity"
  {}

  datatype Magnitude = Zero | Ordinary | Huge | NonFinite

  /** What strtod reports: how many bytes it consumed, whether errno is ERANGE, and the value's magnitude. */
  datatype Parsed = Parsed(consumed: nat, erange: bool, value: Magnitude)

  /** A conforming strtod reads every byte of a decimal number, and says so when it is out of range. */
  ghost predicate Conforming(strtod: Bytes -> Parsed) {
    forall s :: IsScore(s) ==>
      var p := strtod(s);
      p.consumed == |s| && p.value != NonFinite && (p.value == Huge ==> p.erange)
  }

  datatype Verdict = Ok | Empty | NotANumber | Trailing | Overflow | Underflow | NotFinite

  lemma DigitsHaveNoNul(s: Bytes)
    requires AllDigits(s)
    ensures NUL !in s
  {}

  lemma PartsHaveNoNul(sign: Bytes, whole: Bytes, point: bool, fraction: Bytes, mark: Bytes, esign: Bytes,
                       digits: Bytes)
    requires Sign(sign) && Mantissa(whole, point, fraction) && Exponent(mark, esign, digits)
    ensures NUL !in Spelled(sign, whole, point, fraction, mark, esign, digits)
  {
    hide AllDigits;
    DigitsHaveNoNul(whole);
    DigitsHaveNoNul(fraction);
    if digits != [] {
      DigitsHaveNoNul(digits);
    }
  }

  /** A score holds no NUL, so a C string function sees all of it. */
  lemma {:induction false} ScoresHaveNoNul(s: Bytes)
    requires IsScore(s)
    ensures CStr(s) == s
  {
    hide Spelled, Sign, Mantissa, Exponent;
    var sign, whole, point, fraction, mark, esign, digits :|
      && s == Spelled(sign, whole, point, fraction, mark, esign, digits)
      && Sign(sign) && Mantissa(whole, point, fraction) && Exponent(mark, esign, digits);
    PartsHaveNoNul(sign, whole, point, fraction, mark, esign, digits);
    CStrOfPlain(s);
  }

  /** An infinity is in no way a number to the grammar. */
  lemma InfinityScansNothing(s: Bytes)
    requires SpellsInfinity(s)
    ensures Scan(s) == 0
  {
    var i := SignEnd(s, 0);
    assert Lowered(s[i..])[0] == Lower(s[i]) == 'i';
    assert RunEnd(s, i) == i;
  }

  /**
   Every byte string gets one verdict: in the grammar and in range, or the reason it is not.
   The grammar alone decides acceptance; strtod decides only range.
   */
  method Classify(s: Bytes, strtod: Bytes -> Parsed) returns (v: Verdict)
    ensures v == Empty <==> s == []
    ensures v == Ok || v == Overflow || v == Underflow ==> IsScore(s)
    ensures Conforming(strtod) && IsScore(s) ==>
              v == if !strtod(s).erange then Ok
                   else if strtod(s).value == Huge then Overflow else if strtod(s).value == Zero then Underflow else Ok
    ensures !IsScore(s) ==> (v == NotFinite <==> SpellsInfinity(s))
    ensures !IsScore(s) ==> (v == Trailing <==> exists n :: 0 < n < |s| && IsScore(s[..n]))
  {
    hide Scan, SpellsInfinity, IsScore, CStr;
    ScanIsTheLongestScore(s);
    if |s| == 0 {
      NotInfinite();
      return Empty;
    }
    var used := ScoreScan(s);
    if used == 0 {
      var inf := IsInfinite(s);
      return if inf then NotFinite else NotANumber;
    }
    if used < |s| {
      if SpellsInfinity(s) { InfinityScansNothing(s); }
      assert IsScore(s[..used]);
      return Trailing;
    }
    ScoresHaveNoNul(s);
    var p := strtod(CStr(s));
    if p.consumed != |s| {
      return Trailing;
    }
    if p.erange && p.value == Huge {
      return Overflow;
    }
    if p.erange && p.value == Zero {
      return Underflow;
    }
    if p.value == Huge || p.value == NonFinite {
      return NotFinite;
    }
    return Ok;
  }

  lemma NotInfinite()
    ensures !SpellsInfinity([])
  {
    assert Lowered([]) == [];
  }
}
