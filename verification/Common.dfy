/** Bytes, and the two result types the rest of the project shares. */
module Common {

  /** A byte, written as a character so that '{' or '%' can be spelled as itself. NUL is a byte like any other. */
  type Byte = c: char | c <= '\U{00FF}' witness 'a'

  type Bytes = seq<Byte>

  const NUL: Byte := '\U{0000}'

  datatype Option<+T> = None | Some(value: T)

  datatype Result<+T, +E> = Success(value: T) | Failure(error: E)

  predicate StartsWith(s: Bytes, prefix: Bytes) {
    |prefix| <= |s| && s[..|prefix|] == prefix
  }

  /** The part of a byte string a C string function sees: everything before the first NUL. */
  function CStr(s: Bytes): (r: Bytes)
    ensures |r| <= |s| && r == s[..|r|]
    ensures NUL !in r
    ensures |r| < |s| ==> s[|r|] == NUL
  {
    if s == [] || s[0] == NUL then [] else [s[0]] + CStr(s[1..])
  }

  lemma {:induction false} CStrOfPlain(s: Bytes)
    requires NUL !in s
    ensures CStr(s) == s
  {
    if s == [] {
    } else {
      CStrOfPlain(s[1..]);
    }
  }
}
