/**
  Text as the C code sees it: a C string is a `string` without the character NUL, and a
  character stands for one octet.  The predicates are those of the C locale.
 */
module CText {

  datatype Option<+T> = None | Some(value: T)

  const NUL: char := 0 as char
  const LF: char := '\n'
  const CR: char := '\r'

  /** `isspace` and `iswspace` in the C locale */
  predicate IsSpace(c: char) {
    c == ' ' || c == '\t' || c == LF || c == 11 as char || c == 12 as char || c == CR
  }

  /** The two characters that RFC 5545 calls white space */
  predicate IsBlank(c: char) {
    c == ' ' || c == '\t'
  }

  /** The size of the parser's fixed buffers */
  const TMP_BUF_SIZE: nat := 80

  predicate IsCString(s: string) {
    NUL !in s
  }

  /** The C string stored in a buffer: everything before the first NUL */
  function CStr(buf: seq<char>): (s: string)
    ensures |s| <= |buf|
    ensures s == buf[..|s|]
    ensures NUL !in s
    ensures |s| < |buf| ==> buf[|s|] == NUL
  {
    if buf == [] || buf[0] == NUL then [] else [buf[0]] + CStr(buf[1..])
  }

  lemma CStrFirst(buf: seq<char>)
    requires buf != []
    ensures buf[0] == NUL ==> CStr(buf) == []
    ensures buf[0] != NUL ==> CStr(buf) == [buf[0]] + CStr(buf[1..])
  {
  }

  lemma CStrUntil(buf: seq<char>, n: nat)
    requires n <= |buf|
    requires NUL !in buf[..n]
    requires n < |buf| ==> buf[n] == NUL
    ensures CStr(buf) == buf[..n]
  {
  }

  /** `strchr`: the index of the first `c`, or the length when there is none */
  function StrChr(s: string, c: char): (n: nat)
    ensures n <= |s|
    ensures c !in s[..n]
    ensures n < |s| ==> s[n] == c
  {
    if s == [] || s[0] == c then 0 else 1 + StrChr(s[1..], c)
  }

  lemma DropDrop(s: string, i: nat, j: nat)
    requires i + j <= |s|
    ensures s[i..][j..] == s[i + j..]
  {
  }

  lemma ConcatAssoc<T>(a: seq<T>, b: seq<T>, c: seq<T>)
    ensures a + b + c == a + (b + c)
  {
  }

  lemma Regroup<T>(a: seq<T>, b: seq<T>, x: T, c: seq<T>)
    ensures a + (b + [x] + c) == a + b + [x] + c
  {
  }
}
