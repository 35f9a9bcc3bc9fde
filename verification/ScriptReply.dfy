/** The program's replies as text: what fail() and the status line write, and how the flush reads them. */
module ScriptReply {
  import opened Common
  import opened Decimal
  import Script

  datatype Code = Unknown | Ok | Conflict | Missing | WrongType | BadProto | Internal

  const PREFIX: Bytes := "VFDW1"

  const CODES: seq<(Bytes, Code)> :=
    [("OK", Ok), ("CONFLICT", Conflict), ("MISSING", Missing), ("WRONGTYPE", WrongType), ("BADPROTO", BadProto),
      ("INTERNAL", Internal)]

  /** `word` occupies the bytes from `pos` and is bounded there by a space or the end. */
  predicate WordAt(s: Bytes, pos: nat, word: Bytes) {
    && pos + |word| <= |s|
    && s[pos..pos + |word|] == word
    && (pos + |word| == |s| || s[pos + |word|] == ' ')
  }

  /** What follows the code, cut at a NUL as pnstrdup cuts it. */
  function Detail(s: Bytes, pos: nat): Option<Bytes> {
    if pos < |s| then Some(CStr(s[pos..])) else None
  }

  /** The first listed code, from entry `i` on, that stands as a word at `pos`. */
  function FindCode(s: Bytes, pos: nat, i: nat): (Code, Option<Bytes>)
    requires i <= |CODES|
    decreases |CODES| - i
  {
    if i == |CODES| then (BadProto, Detail(s, pos))
    else if WordAt(s, pos, CODES[i].0) then (CODES[i].1, Detail(s, pos + |CODES[i].0| + 1))
    else FindCode(s, pos, i + 1)
  }

  function Classify(s: Bytes): (Code, Option<Bytes>) {
    if !WordAt(s, 0, PREFIX) || |PREFIX| >= |s| then (Unknown, None)
    else FindCode(s, |PREFIX| + 1, 0)
  }

  method ClassifyReply(s: Bytes) returns (code: Code, detail: Option<Bytes>)
    ensures (code, detail) == Classify(s)
  {
    if !WordAt(s, 0, PREFIX) || |PREFIX| >= |s| {
      return Unknown, None;
    }
    var pos := |PREFIX| + 1;
    for i := 0 to |CODES|
      invariant FindCode(s, pos, 0) == FindCode(s, pos, i)
    {
      if WordAt(s, pos, CODES[i].0) {
        return CODES[i].1, Detail(s, pos + |CODES[i].0| + 1);
      }
    }
    return BadProto, Detail(s, pos);
  }

  // ----- What the program writes -----

  function CodeOf(r: Script.Reply): Code {
    match r
    case Applied(_) => Ok
    case Conflict(_, _) => Conflict
    case Missing(_, _) => Missing
    case WrongKind(_) => WrongType
    case BadProto(_, _) => BadProto
    case Internal(_, _) => Internal
    case Raised(_, _) => Unknown
  }

  /** The word each code is written as; a Lua error is the server's text, not the program's. */
  function WordOf(c: Code): Bytes
    requires c != Unknown
  {
    match c
    case Ok => "OK"
    case Conflict => "CONFLICT"
    case Missing => "MISSING"
    case WrongType => "WRONGTYPE"
    case BadProto => "BADPROTO"
    case Internal => "INTERNAL"
  }

  /** The prefix, a space, the code, a space, and what the reply goes on to say. */
  function Text(c: Code, rest: Bytes): Bytes
    requires c != Unknown
  {
    PREFIX + " " + WordOf(c) + " " + rest
  }

  /** A reply says its code and, when applied, the plan count; a refusal goes on to name its plan, key and check. */
  predicate Says(text: Bytes, r: Script.Reply, rest: Bytes) {
    !r.Raised? && text == Text(CodeOf(r), rest) && (r.Applied? ==> rest == Show(r.nplans))
  }

  lemma TextParts(c: Code, rest: Bytes)
    requires c != Unknown
    ensures WordAt(Text(c, rest), 0, PREFIX) && |PREFIX| < |Text(c, rest)|
    ensures WordAt(Text(c, rest), |PREFIX| + 1, WordOf(c))
    ensures Text(c, rest)[|PREFIX| + 1 + |WordOf(c)| + 1..] == rest
  {
    var t, w := Text(c, rest), WordOf(c);
    assert t[..|PREFIX|] == PREFIX;
    assert t[|PREFIX| + 1..|PREFIX| + 1 + |w|] == w;
  }

  /** No code word begins another, so at most one of them stands at any place. */
  lemma OnlyOneWord(s: Bytes, pos: nat, a: Bytes, b: Bytes)
    requires WordAt(s, pos, a) && WordAt(s, pos, b) && ' ' !in a && ' ' !in b
    ensures a == b
  {
    assert forall i :: 0 <= i < |a| ==> a[i] == s[pos + i] && a[i] in a;
    assert forall i :: 0 <= i < |b| ==> b[i] == s[pos + i] && b[i] in b;
  }

  lemma {:induction false} FindsTheCode(c: Code, rest: Bytes, i: nat)
    requires c != Unknown && i <= |CODES| && exists j :: i <= j < |CODES| && CODES[j] == (WordOf(c), c)
    ensures FindCode(Text(c, rest), |PREFIX| + 1, i) == (c, Detail(Text(c, rest), |PREFIX| + 1 + |WordOf(c)| + 1))
    decreases |CODES| - i
  {
    hide WordAt, Text, Detail;
    TextParts(c, rest);
    if WordAt(Text(c, rest), |PREFIX| + 1, CODES[i].0) {
      OnlyOneWord(Text(c, rest), |PREFIX| + 1, CODES[i].0, WordOf(c));
    } else {
      FindsTheCode(c, rest, i + 1);
    }
  }

  lemma EveryCodeIsListed(c: Code)
    requires c != Unknown
    ensures exists j :: 0 <= j < |CODES| && CODES[j] == (WordOf(c), c)
  {
    match c
    case Ok => assert CODES[0] == ("OK", Ok);
    case Conflict => assert CODES[1] == ("CONFLICT", Conflict);
    case Missing => assert CODES[2] == ("MISSING", Missing);
    case WrongType => assert CODES[3] == ("WRONGTYPE", WrongType);
    case BadProto => assert CODES[4] == ("BADPROTO", BadProto);
    case Internal => assert CODES[5] == ("INTERNAL", Internal);
  }

  /** Reading a reply the program wrote gives back its code. */
  lemma {:induction false} ClassifyReadsTheProgram(text: Bytes, r: Script.Reply, rest: Bytes)
    requires Says(text, r, rest)
    ensures Classify(text).0 == CodeOf(r)
    ensures r.Applied? ==> Classify(text).1 == Some(Show(r.nplans))
  {
    var c := CodeOf(r);
    TextParts(c, rest);
    EveryCodeIsListed(c);
    FindsTheCode(c, rest, 0);
    if r.Applied? {
      PlainDigits(r.nplans);
      CStrOfPlain(rest);
    }
  }

  lemma PlainDigits(n: nat)
    ensures NUL !in Show(n)
  {
    assert AllDigits(Show(n)) && !IsDigit(NUL);
  }

  /** `text` is the word, or the word, a space and more. */
  predicate BeginsWithWord(text: Bytes, word: Bytes) {
    text == word || StartsWith(text, word + " ")
  }

  lemma WordIsBounded(s: Bytes, pos: nat, word: Bytes)
    requires pos <= |s|
    ensures WordAt(s, pos, word) <==> BeginsWithWord(s[pos..], word)
  {
    var text, n := s[pos..], |word|;
    if pos + n <= |s| {
      assert text[..n] == s[pos..pos + n];
    }
    if pos + n < |s| {
      assert text[..n + 1] == s[pos..pos + n] + [s[pos + n]];
    }
    if StartsWith(text, word + " ") {
      assert text[..n] == text[..n + 1][..n] == word && text[..n + 1][n] == ' ';
    }
  }

  lemma {:induction false} FindsOnlyTheWord(s: Bytes, pos: nat, i: nat, c: Code)
    requires i <= |CODES| && c != Unknown && c != BadProto
    ensures FindCode(s, pos, i).0 == c <==>
            exists j :: i <= j < |CODES| && CODES[j].1 == c && WordAt(s, pos, CODES[j].0)
    decreases |CODES| - i
  {
    hide WordAt, Detail;
    if i == |CODES| {
    } else {
      FindsOnlyTheWord(s, pos, i + 1, c);
      if WordAt(s, pos, CODES[i].0) && CODES[i].1 != c {
        forall j | i <= j < |CODES| && CODES[j].1 == c ensures !WordAt(s, pos, CODES[j].0) {
          TwoCodes(s, pos, i, j);
        }
      }
    }
  }

  lemma TwoCodes(s: Bytes, pos: nat, i: nat, j: nat)
    requires i < |CODES| && j < |CODES| && CODES[i].1 != CODES[j].1 && WordAt(s, pos, CODES[i].0)
    ensures !WordAt(s, pos, CODES[j].0)
  {
    hide WordAt;
    assert CODES[i].0 != CODES[j].0;
    if WordAt(s, pos, CODES[j].0) {
      OnlyOneWord(s, pos, CODES[i].0, CODES[j].0);
    }
  }

  /**
   The verdict on any text whatever: ours if it begins with the prefix and a space, and then the code whose word stands
   next, or a protocol error if none does.
   */
  lemma {:induction false} ClassifyIsExact(s: Bytes, c: Code)
    ensures Classify(s).0 == Unknown <==> !StartsWith(s, "VFDW1 ")
    ensures c != Unknown && c != BadProto && StartsWith(s, "VFDW1 ") ==>
              (Classify(s).0 == c <==> BeginsWithWord(s[6..], WordOf(c)))
    ensures !StartsWith(s, "VFDW1 ") ==> Classify(s) == (Unknown, None)
  {
    hide WordAt, FindCode, Detail, BeginsWithWord;
    var ours := StartsWith(s, "VFDW1 ");
    assert PREFIX + " " == "VFDW1 ";
    WordIsBounded(s, 0, PREFIX);
    assert s[0..] == s;
    assert ours <==> WordAt(s, 0, PREFIX) && |PREFIX| < |s| by { PrefixThenMore(s); }
    if ours {
      FoundIsKnown(s, 6, 0);
      if c != Unknown && c != BadProto {
        FindsOnlyTheWord(s, 6, 0, c);
        EveryCodeIsListed(c);
        OneWordEach(c);
        WordIsBounded(s, 6, WordOf(c));
      }
    }
  }

  lemma PrefixThenMore(s: Bytes)
    ensures StartsWith(s, "VFDW1 ") <==> BeginsWithWord(s, PREFIX) && |PREFIX| < |s|
  {
    assert PREFIX + " " == "VFDW1 ";
  }

  lemma OneWordEach(c: Code)
    requires c != Unknown
    ensures forall j :: 0 <= j < |CODES| && CODES[j].1 == c ==> CODES[j].0 == WordOf(c)
  {}

  lemma {:induction false} FoundIsKnown(s: Bytes, pos: nat, i: nat)
    requires i <= |CODES|
    ensures FindCode(s, pos, i).0 != Unknown
    decreases |CODES| - i
  {
    hide WordAt, Detail;
    if i == |CODES| {
    } else {
      FoundIsKnown(s, pos, i + 1);
    }
  }
}
