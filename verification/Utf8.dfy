/** Well-formed UTF-8 (RFC 3629, section 4), on characters that stand for octets. */
module Utf8 {

  /** An octet of the form 10xxxxxx */
  predicate IsContinuation(c: char) {
    0x80 <= c as int < 0xC0
  }

  predicate InRange(c: char, lo: int, hi: int) {
    lo <= c as int <= hi
  }

  /** The length of the code point at the start of `s`, or 0 when there is no well-formed one */
  function CodePointLength(s: string): (n: nat)
    ensures n <= 4 && n <= |s|
    ensures n > 0 ==> !IsContinuation(s[0]) && forall i :: 0 < i < n ==> IsContinuation(s[i])
    ensures n > 0 && s[0] as int < 0x80 ==> n == 1
    ensures n > 0 ==> s[0] as int < 0x80 || 0xC2 <= s[0] as int <= 0xF4
  {
    if |s| >= 1 && s[0] as int < 0x80 then 1
    else if |s| >= 2 && InRange(s[0], 0xC2, 0xDF) && IsContinuation(s[1]) then 2
    else if |s| >= 3 && IsContinuation(s[1]) && IsContinuation(s[2])
            && (|| (InRange(s[0], 0xE0, 0xE0) && InRange(s[1], 0xA0, 0xBF))
                || InRange(s[0], 0xE1, 0xEC)
                || (InRange(s[0], 0xED, 0xED) && InRange(s[1], 0x80, 0x9F))
                || InRange(s[0], 0xEE, 0xEF)) then 3
    else if |s| >= 4 && IsContinuation(s[1]) && IsContinuation(s[2]) && IsContinuation(s[3])
            && (|| (InRange(s[0], 0xF0, 0xF0) && InRange(s[1], 0x90, 0xBF))
                || InRange(s[0], 0xF1, 0xF3)
                || (InRange(s[0], 0xF4, 0xF4) && InRange(s[1], 0x80, 0x8F))) then 4
    else 0
  }

  predicate Valid(s: string) {
    s == [] || (CodePointLength(s) > 0 && Valid(s[CodePointLength(s)..]))
  }

  lemma CodePointOfPrefix(s: string, k: nat)
    requires CodePointLength(s) <= k <= |s| && CodePointLength(s) > 0
    ensures CodePointLength(s[..k]) == CodePointLength(s)
  {
  }

  /** A cut before an octet that is not a continuation octet separates code points */
  lemma {:induction false} CutAtBoundary(s: string, k: nat)
    requires Valid(s) && k <= |s| && (k < |s| ==> !IsContinuation(s[k]))
    ensures Valid(s[..k]) && Valid(s[k..])
    decreases |s|
  {
    hide CodePointLength, Valid;
    if k > 0 {
      var n := CodePointLength(s);
      ValidParts(s);
      CutAtBoundary(s[n..], k - n);
      assert s[n..][k - n..] == s[k..];
      assert s[..k][n..] == s[n..][..k - n];
      CodePointOfPrefix(s, k);
      ValidParts(s[..k]);
    } else {
      assert s[0..] == s && s[..0] == [];
      ValidParts([]);
    }
  }

  lemma ValidParts(s: string)
    ensures Valid([])
    ensures s != [] ==> (Valid(s) <==> CodePointLength(s) > 0 && Valid(s[CodePointLength(s)..]))
    ensures s != [] && Valid(s) ==> forall j :: 1 <= j < CodePointLength(s) ==> IsContinuation(s[j])
  {
  }

  /** Every octet of a well-formed text is ASCII, a continuation octet, or 0xC2 to 0xF4 */
  lemma {:induction false} OctetKinds(s: string, i: nat)
    requires Valid(s) && i < |s|
    ensures s[i] as int < 0x80 || IsContinuation(s[i]) || 0xC2 <= s[i] as int <= 0xF4
    ensures s[i] as int < 0x80 && i + 1 < |s| ==> !IsContinuation(s[i + 1])
    decreases |s|
  {
    var n := CodePointLength(s);
    if i >= n {
      OctetKinds(s[n..], i - n);
    } else if n == 1 && |s| > 1 {
      assert CodePointLength(s[1..]) > 0;
    }
  }

  /** Among any four successive octets after the first there is one that starts a code point */
  lemma StartNearby(s: string) returns (i: nat)
    requires Valid(s) && |s| >= 5
    ensures 1 <= i <= 4 && !IsContinuation(s[i])
  {
    i := CodePointLength(s);
    assert CodePointLength(s[i..]) > 0;
  }
}
