/**
 The cluster slot: hash-tag extraction and CRC-16/XMODEM, against polynomial division over GF(2).

 A uint16 is its sixteen bits, most significant first, so a shift, a mask and an exclusive or are what they are in C.
 */
module Slot {
  import opened Common

  // ----- Bits, and polynomials over GF(2), most significant coefficient first -----

  type Poly = seq<bool>

  type Word = w: Poly | |w| ==
    16 witness [false, false, false, false, false, false, false, false, false, false, false, false, false, false, false,
    false]

  function Zeros(n: nat): (z: Poly)
    ensures |z| == n && forall i :: 0 <= i < n ==> !z[i]
  {
    seq(n, _ => false)
  }

  function Add(a: Poly, b: Poly): (c: Poly)
    requires |a| == |b|
    ensures |c| == |a| && forall i :: 0 <= i < |a| ==> c[i] == (a[i] != b[i])
  {
    seq(|a|, i requires 0 <= i < |a| => a[i] != b[i])
  }

  /** q times g, by Horner's rule: (q x + b) g is (q g) x plus b g. */
  function Mul(q: Poly, g: Poly): (p: Poly)
    requires |g| > 0
    ensures |p| == |q| + |g| - 1
  {
    if q == [] then Zeros(|g| - 1)
    else
      var front, b := q[..|q| - 1], q[|q| - 1];
      Add(Mul(front, g) + [false], Zeros(|front|) + if b then g else Zeros(|g|))
  }

  /** x^16 + x^12 + x^5 + 1 */
  const G: Poly := [true, false, false, false, true, false, false, false, false, false, false, true, false, false,
    false, false, true]

  /** `r` is what is left of m x^16 divided by the generator: m x^16 = q G + r, and r has degree below 16. */
  ghost predicate IsRemainder(m: Poly, r: Poly) {
    |r| == 16 && exists q: Poly :: |q| == |m| && Divides(m, q, r)
  }

  predicate Divides(m: Poly, q: Poly, r: Poly)
    requires |q| == |m| && |r| == 16
  {
    m + Zeros(16) == Add(Mul(q, G), Zeros(|m|) + r)
  }

  // ----- There is only one remainder -----

  lemma MulHead(q: Poly, g: Poly, i: nat)
    requires |g| > 0 && q != [] && i < |q|
    ensures Mul(q, g)[i] == if i < |q| - 1 then Mul(q[..|q| - 1], g)[i]
                            else ((if |g| > 1 then Mul(q[..|q| - 1], g)[i] else false) != (q[i] && g[0]))
  {}

  /** With a monic generator the leading coefficients of a product determine the multiplier. */
  lemma {:induction false} MulInjective(p: Poly, q: Poly, g: Poly)
    requires |g| > 0 && g[0] && |p| == |q| && forall i :: 0 <= i < |q| ==> Mul(p, g)[i] == Mul(q, g)[i]
    ensures p == q
  {
    if q == [] {
    } else {
      var n := |q| - 1;
      forall i | 0 <= i < n ensures Mul(p[..n], g)[i] == Mul(q[..n], g)[i] {
        MulHead(p, g, i);
        MulHead(q, g, i);
      }
      MulInjective(p[..n], q[..n], g);
      MulHead(p, g, n);
      MulHead(q, g, n);
    }
  }

  lemma DividesAt(m: Poly, q: Poly, r: Poly, i: nat)
    requires |q| == |m| && |r| == 16 && Divides(m, q, r) && i < |m| + 16
    ensures Mul(q, G)[i] == if i < |m| then m[i] else r[i - |m|]
  {
    assert (m + Zeros(16))[i] == (Mul(q, G)[i] != (Zeros(|m|) + r)[i]);
  }

  /** The remainder is unique, so a residue with the division property is the CRC. */
  lemma {:induction false} RemainderIsUnique(m: Poly, r: Poly, s: Poly)
    requires IsRemainder(m, r) && IsRemainder(m, s)
    ensures r == s
  {
    hide Mul, Divides;
    var p: Poly :| |p| == |m| && Divides(m, p, r);
    var q: Poly :| |q| == |m| && Divides(m, q, s);
    forall i | 0 <= i < |m| ensures Mul(p, G)[i] == Mul(q, G)[i] {
      DividesAt(m, p, r, i);
      DividesAt(m, q, s, i);
    }
    MulInjective(p, q, G);
    forall i | 0 <= i < 16 ensures r[i] == s[i] {
      DividesAt(m, p, r, |m| + i);
      DividesAt(m, q, s, |m| + i);
    }
  }

  // ----- The code -----

  /** 0x1021 */
  const POLY: Word := [false, false, false, true, false, false, false, false, false, false, true, false, false, false,
    false, true]

  /** A byte read through unsigned char. */
  function ByteBits(b: Byte): (p: Poly)
    ensures |p| == 8
  {
    var n := b as int;
    [n / 128 % 2 == 1, n / 64 % 2 == 1, n / 32 % 2 == 1, n / 16 % 2 == 1, n / 8 % 2 == 1, n / 4 % 2 == 1,
      n / 2 % 2 == 1, n % 2 == 1]
  }

  function ShiftLeft(w: Word): Word {
    w[1..] + [false]
  }

  /** One turn of the inner loop: shift, and add the polynomial if a bit fell out. */
  function ShiftReduce(crc: Word): Word {
    if crc[0] then Add(ShiftLeft(crc), POLY) else ShiftLeft(crc)
  }

  function Repeat(crc: Word, times: nat): Word {
    if times == 0 then crc else ShiftReduce(Repeat(crc, times - 1))
  }

  function ByteStep(crc: Word, b: Byte): Word {
    Repeat(Add(crc, ByteBits(b) + Zeros(8)), 8)
  }

  function Crc(s: Bytes): Word {
    if s == [] then Zeros(16) else ByteStep(Crc(s[..|s| - 1]), s[|s| - 1])
  }

  method Crc16(buf: Bytes) returns (crc: Word)
    ensures crc == Crc(buf)
  {
    hide Add, ByteBits;
    crc := Zeros(16);
    for i := 0 to |buf|
      invariant crc == Crc(buf[..i])
    {
      assert buf[..i + 1][..i] == buf[..i];
      crc := Add(crc, ByteBits(buf[i]) + Zeros(8));
      ghost var start := crc;
      for bit := 0 to 8
        invariant crc == Repeat(start, bit)
      {
        crc := if crc[0] then Add(ShiftLeft(crc), POLY) else ShiftLeft(crc);
      }
    }
    assert buf[..|buf|] == buf;
  }

  // ----- Long division, one message bit at a time -----

  /** Bring down one message bit, and subtract the generator if the leading coefficient is then 1. */
  function BringDown(r: Word, bit: bool): Word {
    if r[0] != bit then Add(ShiftLeft(r), POLY) else ShiftLeft(r)
  }

  function BringDownAll(r: Word, bits: Poly): Word {
    if bits == [] then r else BringDown(BringDownAll(r, bits[..|bits| - 1]), bits[|bits| - 1])
  }

  lemma ProductAt(q: Poly, t: bool, i: nat)
    requires i < |q| + 17
    ensures Mul(q + [t], G)[i] == ((i < |q| + 16 && Mul(q, G)[i]) != (i >= |q| && t && G[i - |q|]))
  {
    assert (q + [t])[..|q|] == q;
  }

  lemma GeneratorTail(i: nat)
    requires i < 16
    ensures G[0] && G[i + 1] == POLY[i]
  {
    assert G[1..] == POLY;
    assert G[i + 1] == G[1..][i];
  }

  lemma BroughtDownAt(r: Word, bit: bool, i: nat)
    requires i < 16
    ensures BringDown(r, bit)[i] == ((i < 15 && r[i + 1]) != (r[0] != bit && POLY[i]))
  {}

  /** One step of long division: a quotient bit, and the identity carried over to the longer message. */
  lemma DivideOneBit(m: Poly, q: Poly, r: Word, bit: bool)
    requires |q| == |m| && Divides(m, q, r)
    ensures Divides(m + [bit], q + [r[0] != bit], BringDown(r, bit))
  {
    hide Mul, BringDown, Divides;
    var t, n, r' := r[0] != bit, |m|, BringDown(r, bit);
    forall i | 0 <= i < n + 17 ensures (m + [bit] + Zeros(16))[i] == (Mul(q + [t], G)[i] != (Zeros(n + 1) + r')[i]) {
      ProductAt(q, t, i);
      if i < n + 16 {
        DividesAt(m, q, r, i);
      }
      if i > n {
        BroughtDownAt(r, bit, i - n - 1);
        GeneratorTail(i - n - 1);
      } else if i == n {
        GeneratorTail(0);
      }
    }
    DividesFromBits(m + [bit], q + [t], r');
  }

  lemma DividesFromBits(m: Poly, q: Poly, r: Word)
    requires |q| == |m| && forall i :: 0 <= i < |m| + 16 ==> (m + Zeros(16))[i] == (Mul(q, G)[i] != (Zeros(|m|) + r)[i])
    ensures Divides(m, q, r)
  {}

  lemma {:induction false} DivideBits(m: Poly, r: Word, bits: Poly)
    requires IsRemainder(m, r)
    ensures IsRemainder(m + bits, BringDownAll(r, bits))
  {
    hide Divides, BringDown;
    if bits == [] {
      assert m + bits == m;
    } else {
      var front, b := bits[..|bits| - 1], bits[|bits| - 1];
      DivideBits(m, r, front);
      var r1 := BringDownAll(r, front);
      var q: Poly :| |q| == |m + front| && Divides(m + front, q, r1);
      DivideOneBit(m + front, q, r1, b);
      assert m + front + [b] == m + bits;
    }
  }

  // ----- A byte at a time -----

  function Message(s: Bytes): (p: Poly)
    ensures |p| == 8 * |s|
  {
    if s == [] then [] else Message(s[..|s| - 1]) + ByteBits(s[|s| - 1])
  }

  /** The bits still to come, mixed into the top of the register, each fall out as the division needs them. */
  lemma MixedStep(r: Word, x: Word)
    ensures ShiftReduce(Add(r, x)) == Add(BringDown(r, x[0]), ShiftLeft(x))
  {}

  /** What is left of the byte after `t` shifts. */
  function Ahead(bits: Poly, t: nat): Word
    requires |bits| == 8 && t <= 8
  {
    bits[t..] + Zeros(8 + t)
  }

  lemma AheadShifts(bits: Poly, t: nat)
    requires |bits| == 8 && t < 8
    ensures ShiftLeft(Ahead(bits, t)) == Ahead(bits, t + 1) && Ahead(bits, t)[0] == bits[t]
  {}

  lemma {:induction false} ByteIsEightBits(r: Word, bits: Poly, t: nat)
    requires |bits| == 8 && t <= 8
    ensures Repeat(Add(r, Ahead(bits, 0)), t) == Add(BringDownAll(r, bits[..t]), Ahead(bits, t))
  {
    hide ShiftReduce, BringDown, Ahead, Add;
    if t > 0 {
      ByteIsEightBits(r, bits, t - 1);
      assert bits[..t][..t - 1] == bits[..t - 1];
      AheadShifts(bits, t - 1);
      MixedStep(BringDownAll(r, bits[..t - 1]), Ahead(bits, t - 1));
    } else {
      assert bits[..0] == [];
    }
  }

  lemma ByteStepDivides(r: Word, b: Byte)
    ensures ByteStep(r, b) == BringDownAll(r, ByteBits(b))
  {
    hide Repeat, BringDownAll, ByteBits;
    var bits := ByteBits(b);
    ByteIsEightBits(r, bits, 8);
    assert bits[..8] == bits && Ahead(bits, 0) == bits + Zeros(8) && Ahead(bits, 8) == Zeros(16);
    assert Add(BringDownAll(r, bits), Zeros(16)) == BringDownAll(r, bits);
  }

  lemma {:induction false} CrcDivides(s: Bytes)
    ensures IsRemainder(Message(s), Crc(s))
  {
    hide ByteStep, ByteBits;
    if s == [] {
      NothingToDivide();
    } else {
      CrcDivides(s[..|s| - 1]);
      ByteStepDivides(Crc(s[..|s| - 1]), s[|s| - 1]);
      DivideBits(Message(s[..|s| - 1]), Crc(s[..|s| - 1]), ByteBits(s[|s| - 1]));
    }
  }

  /** The loop's register is the one remainder of the message times x^16, which is what CRC-16/XMODEM is. */
  lemma {:induction false} CrcIsTheRemainder(s: Bytes, r: Word)
    ensures IsRemainder(Message(s), r) <==> r == Crc(s)
  {
    hide IsRemainder, Message, Crc;
    CrcDivides(s);
    if IsRemainder(Message(s), r) {
      RemainderIsUnique(Message(s), r, Crc(s));
    }
  }

  lemma NothingToDivide()
    ensures IsRemainder([], Zeros(16))
  {
    assert [] + Zeros(16) == Add(Mul([], G), Zeros(0) + Zeros(16));
    assert Divides([], [], Zeros(16));
  }

  // ----- Hash tags and the slot -----

  function FirstIndex(s: Bytes, c: Byte): (i: nat)
    ensures i <= |s| && c !in s[..i] && (i < |s| ==> s[i] == c)
  {
    if s == [] || s[0] == c then 0 else 1 + FirstIndex(s[1..], c)
  }

  /**
   The bytes a key's slot is computed over: strictly between the first '{' and the first '}' after it, if any are
   there.
   */
  function HashTag(key: Bytes): Bytes {
    var open := FirstIndex(key, '{');
    if open == |key| then key
    else
      var after := key[open + 1..];
      var close := FirstIndex(after, '}');
      if close == |after| || close == 0 then key else after[..close]
  }

  function Number(bits: Poly): (n: nat)
    ensures n < Power2(|bits|)
  {
    if bits == [] then 0 else 2 * Number(bits[..|bits| - 1]) + if bits[|bits| - 1] then 1 else 0
  }

  function Power2(n: nat): (p: nat)
    ensures p > 0
  {
    if n == 0 then 1 else 2 * Power2(n - 1)
  }

  /** The low fourteen bits of the tag's CRC. */
  function SlotOf(key: Bytes): (slot: nat)
    ensures slot < 16384
  {
    assert Power2(14) == 16384 by { SixteenK(); }
    Number(Crc(HashTag(key))[2..])
  }

  lemma SixteenK()
    ensures Power2(14) == 16384
  {
    assert Power2(4) == 16 && Power2(8) == 256 && Power2(12) == 4096;
  }

  /** A number read off its bits is the high bits shifted past the low ones. */
  lemma {:induction false} NumberSplits(bits: Poly, k: nat)
    requires k <= |bits|
    ensures Number(bits) == Number(bits[..k]) * Power2(|bits| - k) + Number(bits[k..])
    decreases |bits| - k
  {
    hide Number, Power2;
    if k == |bits| {
      assert bits[..k] == bits && bits[k..] == [];
      NumberOfNothing();
      NextPower(0);
    } else {
      var front, low := bits[..|bits| - 1], bits[k..];
      NumberSplits(front, k);
      assert front[..k] == bits[..k] && low[..|low| - 1] == front[k..];
      LastBit(bits);
      LastBit(low);
      NextPower(|front| - k);
      Doubled(Number(bits[..k]), Power2(|front| - k), Number(front[k..]), if bits[|bits| - 1] then 1 else 0);
    }
  }

  lemma LastBit(bits: Poly)
    requires bits != []
    ensures Number(bits) == 2 * Number(bits[..|bits| - 1]) + if bits[|bits| - 1] then 1 else 0
  {}

  lemma NextPower(n: nat)
    ensures Power2(n + 1) == 2 * Power2(n) && Power2(0) == 1
  {}

  lemma Doubled(a: nat, b: nat, low: nat, bit: nat)
    ensures 2 * (a * b + low) + bit == a * (2 * b) + (2 * low + bit)
  {
    assert 2 * (a * b) == a * (2 * b);
  }

  lemma NextBit(p: Poly, i: nat, high: nat, n: nat)
    requires i < |p| && Number(p[..i]) == high == n / 2 && p[i] == (n % 2 == 1)
    ensures Number(p[..i + 1]) == n
  {
    assert p[..i + 1][..i] == p[..i];
  }

  lemma FourBits(p: Poly, i: nat, high: nat, n: nat)
    requires i + 4 <= |p| && Number(p[..i]) == high == n / 16
    requires p[i] == (n / 8 % 2 == 1) && p[i + 1] == (n / 4 % 2 == 1)
    requires p[i + 2] == (n / 2 % 2 == 1) && p[i + 3] == (n % 2 == 1)
    ensures Number(p[..i + 4]) == n
  {
    hide Number;
    assert n / 8 / 2 == n / 16 && n / 4 / 2 == n / 8 && n / 2 / 2 == n / 4;
    NextBit(p, i, high, n / 8);
    NextBit(p, i + 1, n / 8, n / 4);
    NextBit(p, i + 2, n / 4, n / 2);
    NextBit(p, i + 3, n / 2, n);
  }

  lemma Halves(n: nat)
    requires n < 256
    ensures n / 16 / 16 == 0 && n / 16 / 8 == n / 128 && n / 16 / 4 == n / 64 && n / 16 / 2 == n / 32
  {}

  /** A byte's bits are the byte, most significant first. */
  lemma {:induction false} ByteBitsAreTheByte(b: Byte)
    ensures Number(ByteBits(b)) == b as int
  {
    hide Number;
    var p, n := ByteBits(b), b as int;
    Halves(n);
    assert p[..0] == [] && p[..8] == p;
    NumberOfNothing();
    FourBits(p, 0, 0, n / 16);
    FourBits(p, 4, n / 16, n);
  }

  lemma NumberOfNothing()
    ensures Number([]) == 0
  {}

  /** The slot is the remainder of the tag's message, as a number, modulo 16384. */
  lemma {:induction false} SlotIsTheRemainder(key: Bytes, r: Word)
    requires IsRemainder(Message(HashTag(key)), r)
    ensures SlotOf(key) == Number(r) % 16384
  {
    hide IsRemainder, Message, HashTag, Crc, Number;
    CrcIsTheRemainder(HashTag(key), r);
    NumberSplits(r, 2);
    SixteenK();
    Remainder(Number(r[..2]), Number(r[2..]));
  }

  lemma Remainder(high: nat, low: nat)
    requires low < 16384
    ensures (high * 16384 + low) % 16384 == low
  {}

  /** `key` has a hash tag `tag`: nothing opens before it and it ends at the first closing brace, not at once. */
  predicate Tagged(key: Bytes, before: Bytes, tag: Bytes, after: Bytes) {
    key == before + "{" + tag + "}" + after && '{' !in before && '}' !in tag && tag != []
  }

  lemma TagIsFound(key: Bytes, before: Bytes, tag: Bytes, after: Bytes)
    requires Tagged(key, before, tag, after)
    ensures HashTag(key) == tag
  {
    FirstIndexIs(key, '{', |before|);
    assert key[..|before|] == before && key[|before| + 1..] == tag + "}" + after;
    FirstIndexIs(key[|before| + 1..], '}', |tag|);
    assert (tag + "}" + after)[..|tag|] == tag;
  }

  /** The slot is taken over the key's hash tag if it has one, and over the whole key otherwise. */
  lemma {:induction false} HashTagIsExact(key: Bytes)
    ensures forall before, tag, after :: Tagged(key, before, tag, after) ==> HashTag(key) == tag
    ensures (forall before, tag, after :: !Tagged(key, before, tag, after)) ==> HashTag(key) == key
  {
    hide HashTag, Tagged;
    forall before, tag, after | Tagged(key, before, tag, after) ensures HashTag(key) == tag {
      TagIsFound(key, before, tag, after);
    }
    if HashTag(key) != key {
      var before, tag, after := TagOf(key);
    }
  }

  lemma TagOf(key: Bytes) returns (before: Bytes, tag: Bytes, after: Bytes)
    requires HashTag(key) != key
    ensures Tagged(key, before, tag, after)
  {
    hide FirstIndex;
    var open := FirstIndex(key, '{');
    var rest := key[open + 1..];
    var close := FirstIndex(rest, '}');
    before, tag, after := key[..open], rest[..close], rest[close + 1..];
    Rejoined(rest, close);
    Rejoined(key, open);
    assert before + [key[open]] + rest == before + [key[open]] + tag + [rest[close]] + after;
  }

  lemma Rejoined(s: Bytes, i: nat)
    requires i < |s|
    ensures s == s[..i] + [s[i]] + s[i + 1..]
  {}

  /** Keys that share a hash tag share a slot, whatever surrounds it. */
  lemma {:induction false} TaggedKeysShareASlot(key: Bytes, before: Bytes, tag: Bytes, after: Bytes)
    requires Tagged(key, before, tag, after)
    ensures SlotOf(key) == SlotOf(tag)
  {
    hide Crc, Number;
    TagIsFound(key, before, tag, after);
    UntaggedHashesWhole(tag);
  }

  lemma {:induction false} FirstIndexIs(s: Bytes, c: Byte, i: nat)
    requires i < |s| && s[i] == c && c !in s[..i]
    ensures FirstIndex(s, c) == i
  {
    if i == 0 {
    } else {
      assert s[0] == s[..i][0];
      assert s[..i] == [s[0]] + s[1..][..i - 1];
      FirstIndexIs(s[1..], c, i - 1);
    }
  }

  lemma UntaggedHashesWhole(tag: Bytes)
    requires '}' !in tag
    ensures HashTag(tag) == tag
  {
    var open := FirstIndex(tag, '{');
    if open < |tag| {
      var after := tag[open + 1..];
      assert forall i :: 0 <= i < |after| ==> after[i] == tag[open + 1 + i];
    }
  }
}
