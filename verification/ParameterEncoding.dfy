/**
  Parameter values: the encoder of `icalparameter.c` and the in-place decoder of
  `icalparser.c` (section 3 of RFC 6868).
 */
module ParameterEncoding {
  import opened CText

  const DQUOTE: char := '"'

  /** `icalparameter_is_safe_char` */
  predicate IsSafe(c: char, quoted: bool) {
    var b := c as int;
    || c == ' ' || c == '\t' || c == '!' || 0x80 <= b <= 0xF8
    || (quoted && 0x23 <= b <= 0x7E)
    || (!quoted && (0x23 <= b <= 0x2B || 0x2D <= b <= 0x39 || 0x3C <= b <= 0x7E))
  }

  function EncodeChar(c: char, quoted: bool): string {
    if IsSafe(c, quoted) then [c]
    else if c == LF then "^n"
    else if c == '^' then "^^"
    else if c == DQUOTE then "^'"
    else " "
  }

  function EncodeBody(v: string, quoted: bool): string {
    if v == [] then [] else EncodeChar(v[0], quoted) + EncodeBody(v[1..], quoted)
  }

  predicate NeedsQuotes(v: string) {
    v == [] || ';' in v || ':' in v || ',' in v
  }

  /** The text of a parameter value */
  function Encode(v: string): string {
    if NeedsQuotes(v) then [DQUOTE] + EncodeBody(v, true) + [DQUOTE] else EncodeBody(v, false)
  }

  /** `icalparameter_append_encoded_value` */
  method AppendEncodedValue(buf: string, value: string) returns (buf': string)
    ensures buf' == buf + Encode(value)
  {
    buf' := buf;
    var quoted := false;
    if value == "" || ';' in value || ':' in value || ',' in value {
      buf' := buf' + [DQUOTE];
      quoted := true;
    }
    ghost var start := buf';
    for p := 0 to |value|
      invariant start + EncodeBody(value, quoted) == buf' + EncodeBody(value[p..], quoted)
    {
      ConcatAssoc(buf', EncodeChar(value[p], quoted), EncodeBody(value[p + 1..], quoted));
      if IsSafe(value[p], quoted) {
        buf' := buf' + [value[p]];
      } else {
        match value[p]
        case '\n' => buf' := buf' + "^n";
        case '^' => buf' := buf' + "^^";
        case '"' => buf' := buf' + "^'";
        case _ => buf' := buf' + " ";
      }
    }
    assert EncodeBody(value[|value|..], quoted) == [];
    if quoted {
      ConcatAssoc(buf, [DQUOTE], EncodeBody(value, true));
      ConcatAssoc(buf, [DQUOTE] + EncodeBody(value, true), [DQUOTE]);
      buf' := buf' + [DQUOTE];
    }
  }

  // ------------------------------------------------------------------------------------
  // Decoding

  predicate IsEscapeTail(c: char) {
    c == 'n' || c == '^' || c == '\''
  }

  function Unescape(c: char): char {
    if c == 'n' then LF else if c == '^' then '^' else DQUOTE
  }

  /** The decoding of RFC 6868 as a function of the whole text */
  function Decode(s: string): (d: string)
    ensures |d| <= |s|
  {
    if s == [] then []
    else if s[0] == '^' && |s| > 1 && IsEscapeTail(s[1]) then [Unescape(s[1])] + Decode(s[2..])
    else [s[0]] + Decode(s[1..])
  }

  /**
    `parser_decode_param_value`: the decoder works in place and never overwrites input it
    has not read, so the buffer ends up with the decoded text and a tail of zeros.
   */
  method DecodeInPlace(value: array<char>)
    requires NUL in value[..]
    modifies value
    ensures var s := old(CStr(value[..]));
            && value[..|Decode(s)|] == Decode(s)
            && (forall k :: |Decode(s)| <= k < |s| ==> value[k] == NUL)
            && value[|s|..] == old(value[|s|..])
  {
    ghost var s := CStr(value[..]);
    var o := DecodeForward(value, s);
    ClearTail(value, o, |s|);
  }

  /** The decoding loop; `o` is where the output ends */
  method DecodeForward(value: array<char>, ghost s: string) returns (o: nat)
    requires s == CStr(value[..]) && |s| < value.Length
    modifies value
    ensures o <= |s| && value[..o] == Decode(s)
    ensures value[|s|..] == old(value[|s|..])
    ensures forall k :: o <= k < |s| ==> value[k] != NUL
  {
    hide CStr, Decode;
    var i := 0;
    o := 0;
    ghost var done := "";
    assert s[0..] == s && done + Decode(s) == Decode(s);
    while value[i] != NUL
      invariant 0 <= o <= i <= |s|
      invariant forall k :: i <= k < value.Length ==> value[k] == old(value[k])
      invariant forall k :: o <= k < |s| ==> value[k] != NUL
      invariant value[..o] == done && Decode(s) == done + Decode(s[i..])
      decreases |s| - i
    {
      ghost var i0 := i;
      i, o := DecodeOne(value, i, o, s);
      ConcatAssoc(done, [value[o - 1]], Decode(s[i..]));
      done := done + [value[o - 1]];
    }
    DecodeEmpty(s[i..]);
  }

  lemma DecodeEmpty(s: string)
    requires s == []
    ensures Decode(s) == []
  {
  }

  /** One round of the decoding loop: reads at `i`, writes at `o` */
  method DecodeOne(value: array<char>, i: nat, o: nat, ghost s: string) returns (i': nat, o': nat)
    requires o <= i < |s| < value.Length && IsCString(s) && value[|s|] == NUL
    requires forall k :: i <= k < |s| ==> value[k] == s[k]
    modifies value
    ensures i < i' <= |s| && o' == o + 1
    ensures forall k :: 0 <= k < value.Length && k != o ==> value[k] == old(value[k])
    ensures value[o] != NUL
    ensures Decode(s[i..]) == [value[o]] + Decode(s[i'..])
  {
    var found := false;
    if value[i] == '^' {
      match value[i + 1]
      case 'n' => value[o] := LF; found := true;
      case '^' => value[o] := '^'; found := true;
      case '\'' => value[o] := DQUOTE; found := true;
      case _ =>
    }
    if found {
      i' := i + 1;
    } else {
      value[o] := value[i];
      i' := i;
    }
    i', o' := i' + 1, o + 1;
  }

  /** The final loop: zeros up to the NUL that ended the input */
  method ClearTail(value: array<char>, start: nat, ghost end: nat)
    requires start <= end < value.Length && value[end] == NUL
    requires forall k :: start <= k < end ==> value[k] != NUL
    modifies value
    ensures value[..start] == old(value[..start]) && value[end..] == old(value[end..])
    ensures forall k :: start <= k < end ==> value[k] == NUL
  {
    var o := start;
    while value[o] != NUL
      invariant start <= o <= end
      invariant value[..start] == old(value[..start]) && value[end..] == old(value[end..])
      invariant forall k :: start <= k < o ==> value[k] == NUL
      invariant forall k :: o <= k < end ==> value[k] != NUL
      decreases end - o
    {
      value[o] := NUL;
      o := o + 1;
    }
  }

  // ------------------------------------------------------------------------------------
  // Round trip

  /** The characters that the encoder can express */
  predicate IsEncodable(c: char) {
    c == LF || c == DQUOTE || IsSafe(c, true)
  }

  /** The value with everything that the encoder cannot express turned into a space */
  function Blanked(v: string): (b: string)
    ensures |b| == |v|
    ensures (forall i :: 0 <= i < |v| ==> IsEncodable(v[i])) <==> b == v
  {
    if v == [] then []
    else
      var b := [if IsEncodable(v[0]) then v[0] else ' '] + Blanked(v[1..]);
      assert b == v ==> b[1..] == v[1..];
      assert v == [v[0]] + v[1..];
      b
  }

  /** What a caret must not be followed by, because the encoder never doubles carets */
  predicate FormsEscape(c: char) {
    IsEscapeTail(c) || c == LF || c == DQUOTE
  }

  predicate CaretSafe(v: string) {
    forall i :: 0 <= i < |v| - 1 && v[i] == '^' ==> !FormsEscape(v[i + 1])
  }

  /** Quoting is on whenever one of the characters that need it occurs */
  predicate QuotedAsNeeded(v: string, quoted: bool) {
    !quoted ==> ';' !in v && ':' !in v && ',' !in v
  }

  lemma DecodePlain(c: char, r: string)
    requires c != '^' || r == [] || !IsEscapeTail(r[0])
    ensures Decode([c] + r) == [c] + Decode(r)
  {
    assert ([c] + r)[1..] == r;
  }

  lemma DecodeEscape(t: char, r: string)
    requires IsEscapeTail(t)
    ensures Decode(['^'] + ([t] + r)) == [Unescape(t)] + Decode(r)
  {
    assert (['^'] + ([t] + r))[2..] == r;
  }

  lemma EncodeFirst(v: string, quoted: bool)
    requires v != [] && QuotedAsNeeded(v, quoted)
    ensures var r := EncodeBody(v[1..], quoted);
            EncodeBody(v, quoted) ==
            if v[0] == LF then ['^'] + (['n'] + r)
            else if v[0] == DQUOTE then ['^'] + (['\''] + r)
            else [Blanked(v)[0]] + r
    ensures v[0] == LF || v[0] == DQUOTE ==> Blanked(v)[0] == v[0]
    ensures v[0] == '^' <==> Blanked(v)[0] == '^'
  {
    hide Blanked;
    BlankedFirst(v);
    assert v[0] in v;
  }

  lemma BlankedFirst(v: string)
    requires v != []
    ensures Blanked(v)[0] == if IsEncodable(v[0]) then v[0] else ' '
    ensures Blanked(v)[1..] == Blanked(v[1..])
  {
  }

  /** Anything but a caret is decoded on its own */
  lemma DecodeCons(v: string, quoted: bool)
    requires v != [] && QuotedAsNeeded(v, quoted) && v[0] != '^'
    ensures Decode(EncodeBody(v, quoted)) == [Blanked(v)[0]] + Decode(EncodeBody(v[1..], quoted))
  {
    hide Decode, EncodeBody, Blanked;
    var r := EncodeBody(v[1..], quoted);
    EncodeFirst(v, quoted);
    if v[0] == LF {
      DecodeEscape('n', r);
    } else if v[0] == DQUOTE {
      DecodeEscape('\'', r);
    } else {
      DecodePlain(Blanked(v)[0], r);
    }
  }

  /** A caret that does not form an escape is decoded on its own */
  lemma DecodeSafeCaret(v: string, quoted: bool)
    requires v != [] && QuotedAsNeeded(v, quoted) && v[0] == '^' && (|v| == 1 || !FormsEscape(v[1]))
    ensures Decode(EncodeBody(v, quoted)) == "^" + Decode(EncodeBody(v[1..], quoted))
  {
    hide Decode, Blanked;
    EncodeFirst(v, quoted);
    if |v| > 1 {
      EncodeFirst(v[1..], quoted);
      BlankedFirst(v[1..]);
    }
    DecodePlain('^', EncodeBody(v[1..], quoted));
  }

  /** A caret that does form an escape takes the next character with it, or breaks the next escape */
  lemma DecodeUnsafeCaret(v: string, quoted: bool)
    requires QuotedAsNeeded(v, quoted) && |v| > 1 && v[0] == '^' && FormsEscape(v[1])
    ensures var d, r := Decode(EncodeBody(v, quoted)), Decode(EncodeBody(v[2..], quoted));
            if IsEscapeTail(v[1]) then d == [Unescape(v[1])] + r
            else d == "^" + ([if v[1] == LF then 'n' else '\''] + r)
  {
    hide Decode, Blanked, EncodeBody;
    EncodeFirst(v, quoted);
    EncodeFirst(v[1..], quoted);
    BlankedFirst(v[1..]);
    assert v[1..][1..] == v[2..];
    var r := EncodeBody(v[2..], quoted);
    if IsEscapeTail(v[1]) {
      DecodeEscape(v[1], r);
    } else {
      var t := if v[1] == LF then 'n' else '\'';
      DecodeEscape('^', [t] + r);
      DecodePlain(t, r);
    }
  }

  lemma {:induction false} DecodedNotLonger(v: string, quoted: bool)
    requires QuotedAsNeeded(v, quoted)
    ensures |Decode(EncodeBody(v, quoted))| <= |v|
    decreases |v|
  {
    if v == [] {
    } else if v[0] != '^' {
      DecodeCons(v, quoted);
      DecodedNotLonger(v[1..], quoted);
    } else if |v| == 1 || !FormsEscape(v[1]) {
      DecodeSafeCaret(v, quoted);
      DecodedNotLonger(v[1..], quoted);
    } else {
      DecodeUnsafeCaret(v, quoted);
      DecodedNotLonger(v[2..], quoted);
    }
  }

  /**
    Decoding after encoding gives the value back (up to blanks for what cannot be encoded)
    exactly when no caret stands before `n`, `^`, `'`, a double quote or a line feed.
   */
  lemma {:induction false} RoundTrip(v: string, quoted: bool)
    requires QuotedAsNeeded(v, quoted)
    ensures Decode(EncodeBody(v, quoted)) == Blanked(v) <==> CaretSafe(v)
  {
    if v == [] {
    } else {
      hide Decode, EncodeBody, Blanked;
      BlankedFirst(v);
      assert Blanked(v) == [Blanked(v)[0]] + Blanked(v[1..]);
      RoundTrip(v[1..], quoted);
      if v[0] != '^' {
        DecodeCons(v, quoted);
        CaretSafeTail(v);
      } else if |v| > 1 && FormsEscape(v[1]) {
        EscapeBreaks(v, quoted);
      } else {
        DecodeSafeCaret(v, quoted);
        CaretSafeTail(v);
      }
    }
  }

  lemma CaretSafeTail(v: string)
    requires v != [] && (v[0] != '^' || |v| == 1 || !FormsEscape(v[1]))
    ensures CaretSafe(v) <==> CaretSafe(v[1..])
  {
    if CaretSafe(v) {
      forall i | 0 <= i < |v[1..]| - 1 && v[1..][i] == '^' ensures !FormsEscape(v[1..][i + 1]) {
        assert v[i + 1] == '^';
      }
    }
    if CaretSafe(v[1..]) {
      forall i | 0 <= i < |v| - 1 && v[i] == '^' ensures !FormsEscape(v[i + 1]) {
        if i > 0 {
          assert v[1..][i - 1] == '^';
        }
      }
    }
  }

  lemma EscapeBreaks(v: string, quoted: bool)
    requires QuotedAsNeeded(v, quoted) && |v| > 1 && v[0] == '^' && FormsEscape(v[1])
    ensures Decode(EncodeBody(v, quoted)) != Blanked(v)
  {
    hide Decode, EncodeBody, Blanked;
    DecodeUnsafeCaret(v, quoted);
    DecodedNotLonger(v[2..], quoted);
    BlankedFirst(v);
    BlankedFirst(v[1..]);
    assert Blanked(v)[1] == Blanked(v)[1..][0];
  }

  // ------------------------------------------------------------------------------------
  // Shape of the encoded text

  lemma {:induction false} BodyIsSafe(v: string, quoted: bool)
    ensures forall c :: c in EncodeBody(v, quoted) ==> IsSafe(c, quoted)
  {
    if v != [] {
      BodyIsSafe(v[1..], quoted);
    }
  }

  lemma {:induction false} DecodedIsEncodable(s: string)
    requires forall c :: c in s ==> IsEncodable(c)
    ensures forall c :: c in Decode(s) ==> IsEncodable(c)
    decreases |s|
  {
    if s == [] {
    } else if s[0] == '^' && |s| > 1 && IsEscapeTail(s[1]) {
      DecodedIsEncodable(s[2..]);
    } else {
      DecodedIsEncodable(s[1..]);
    }
  }

  /** A value survives the round trip unchanged exactly when it is encodable and caret-safe */
  lemma ValueSurvives(v: string)
    ensures Decode(EncodeBody(v, NeedsQuotes(v))) == v
            <==> CaretSafe(v) && forall i :: 0 <= i < |v| ==> IsEncodable(v[i])
  {
    hide EncodeBody, Decode, CaretSafe;
    var quoted := NeedsQuotes(v);
    RoundTrip(v, quoted);
    BodyIsSafe(v, quoted);
    var e := EncodeBody(v, quoted);
    assert forall c :: c in e ==> IsEncodable(c);
    DecodedIsEncodable(e);
    if Decode(e) == v {
      assert forall i :: 0 <= i < |v| ==> v[i] in Decode(e);
    }
  }

  /** The encodable characters, by their codes */
  lemma EncodableCodes(c: char)
    ensures IsEncodable(c) <==>
            var b := c as int; b == 9 || b == 10 || 0x20 <= b <= 0x7E || 0x80 <= b <= 0xF8
  {
  }

  /** The text of a value of one character */
  lemma EncodeOne(c: char)
    ensures c == ';' || c == ':' || c == ',' ==> Encode([c]) == [DQUOTE, c, DQUOTE]
    ensures c == '\n' ==> Encode([c]) == "^n"
    ensures c == '"' ==> Encode([c]) == "^'"
    ensures IsEncodable(c) && c !in ";:,\n\"" ==> Encode([c]) == [c]
    ensures !IsEncodable(c) ==> Encode([c]) == " "
    ensures Encode([]) == [DQUOTE, DQUOTE]
  {
    assert [c][1..] == [];
    assert EncodeBody([], true) == [] && EncodeBody([], false) == [];
    assert EncodeBody([c], true) == EncodeChar(c, true) && EncodeBody([c], false) == EncodeChar(c, false);
  }

  /** The value `^n` does not survive: it comes back as a line feed */
  lemma CaretExample()
    ensures Encode("^n") == "^n" && Decode("^n") == "\n"
  {
    assert EncodeBody("n", false) == "n";
  }
}
