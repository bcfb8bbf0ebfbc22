/**
  Parameter values that end in a backslash or in white space: the condition under which
  printed parameters come back is also necessary.
 */
module EndOfValues {
  import opened CText
  import opened ParameterEncoding
  import opened ContentLine
  import opened TokenRoundTrip

  // ------------------------------------------------------------------------------------
  // Decoding more or less than was encoded

  lemma {:induction false} DecodeSplit(a: string, m: string)
    requires m != [] ==> !IsEscapeTail(m[0])
    ensures Decode(a + m) == Decode(a) + Decode(m)
    decreases |a|
  {
    hide Decode, IsEscapeTail;
    if a == [] {
      assert a + m == m;
      DecodeEmpty(a);
    } else if a[0] == '^' && |a| > 1 && IsEscapeTail(a[1]) {
      var r := a[2..];
      DecodeSplit(r, m);
      DecodeEscape(a[1], r);
      DecodeEscape(a[1], r + m);
      assert a == ['^'] + ([a[1]] + r) && a + m == ['^'] + ([a[1]] + (r + m));
      ConcatAssoc([Unescape(a[1])], Decode(r), Decode(m));
    } else {
      var r := a[1..];
      DecodeSplit(r, m);
      assert a == [a[0]] + r && a + m == [a[0]] + (r + m);
      assert r + m != [] ==> (r + m)[0] == if r == [] then m[0] else r[0];
      DecodePlain(a[0], r);
      DecodePlain(a[0], r + m);
      ConcatAssoc([a[0]], Decode(r), Decode(m));
    }
  }

  lemma DecodeStart(m: string)
    requires m != [] && !IsEscapeTail(m[0])
    ensures Decode(m) != [] && Decode(m)[0] == m[0] != '^'
  {
  }

  function Carets(k: nat): (s: string)
    ensures |s| == k && forall i :: 0 <= i < k ==> s[i] == '^'
  {
    if k == 0 then [] else ['^'] + Carets(k - 1)
  }

  lemma CaretsFirst(k: nat, rest: string)
    ensures Carets(k) + (['^'] + rest) == ['^'] + (Carets(k) + rest)
    ensures Carets(k) + (['^'] + rest) == Carets(k + 1) + rest
  {
    var s := Carets(k) + (['^'] + rest);
    assert s == Carets(k + 1) + rest;
    assert s == ['^'] + (Carets(k) + rest);
  }

  /** However carets are mistaken for escapes, what follows the encoded value does not make it whole */
  lemma {:induction false} CaretsNeverFill(w: string, quoted: bool, k: nat, e: string)
    requires QuotedAsNeeded(w, quoted) && e != [] && e[0] != '^'
    ensures Decode(EncodeBody(w, quoted)) + e != Carets(k) + w
    decreases |w|
  {
    hide Decode, EncodeBody, Blanked, Carets;
    var d := Decode(EncodeBody(w, quoted));
    if w == [] {
      EncodeNothing(quoted);
      DecodeEmpty([]);
      assert (d + e)[0] == e[0];
    } else if w[0] != '^' {
      var r := Decode(EncodeBody(w[1..], quoted));
      DecodeCons(w, quoted);
      EncodeFirst(w, quoted);
      CaretsNeverFill(w[1..], quoted, 0, e);
      assert d + e == [Blanked(w)[0]] + (r + e);
      CaretsStart(k, w, Blanked(w)[0], r + e);
    } else {
      assert w == ['^'] + w[1..];
      CaretsFirst(k, w[1..]);
      if |w| == 1 || !FormsEscape(w[1]) {
        var r := Decode(EncodeBody(w[1..], quoted));
        DecodeSafeCaret(w, quoted);
        CaretsNeverFill(w[1..], quoted, k, e);
        assert d + e == ['^'] + (r + e);
        SameFirst('^', r + e, Carets(k) + w[1..]);
      } else {
        if w[1] == '^' {
          var r := Decode(EncodeBody(w[2..], quoted));
          DecodeUnsafeCaret(w, quoted);
          assert w[1..] == ['^'] + w[2..];
          CaretsFirst(k, w[2..]);
          CaretsNeverFill(w[2..], quoted, k + 1, e);
          assert d + e == ['^'] + (r + e);
          SameFirst('^', r + e, Carets(k + 1) + w[2..]);
        } else {
          BrokenEscape(w, quoted, k, e);
        }
      }
    }
  }

  /** A caret before one of the other characters shows at once */
  lemma BrokenEscape(w: string, quoted: bool, k: nat, e: string)
    requires QuotedAsNeeded(w, quoted) && |w| > 1 && w[0] == '^' && w[1] != '^' && FormsEscape(w[1])
    ensures Decode(EncodeBody(w, quoted)) + e != Carets(k) + w
  {
    hide Decode, EncodeBody, Carets;
    var d, target := Decode(EncodeBody(w, quoted)), Carets(k) + w;
    DecodeUnsafeCaret(w, quoted);
    CaretsSecond(k, w);
    if IsEscapeTail(w[1]) {
      assert target[0] == '^' && (d + e)[0] == d[0] != '^';
    } else {
      assert (d + e)[1] == d[1] && d[1] != target[1];
    }
  }

  lemma CaretsStart(k: nat, w: string, c: char, rest: string)
    requires w != [] && w[0] != '^' && c != '^' && (k == 0 ==> rest != w[1..])
    ensures [c] + rest != Carets(k) + w
  {
    if k == 0 {
      assert Carets(0) + w == w;
      assert ([c] + rest)[1..] == rest;
    } else {
      assert (Carets(k) + w)[0] == '^';
    }
  }

  lemma CaretsSecond(k: nat, w: string)
    requires |w| > 1 && w[0] == '^'
    ensures (Carets(k) + w)[1] == if k == 0 then w[1] else '^'
  {
  }

  lemma SameFirst(c: char, a: string, b: string)
    requires a != b
    ensures [c] + a != [c] + b
  {
    assert ([c] + a)[1..] == a && ([c] + b)[1..] == b;
  }

  /** A value is never given back with more text behind its encoding */
  lemma DecodeMore(v: string, m: string)
    requires m != [] && !IsEscapeTail(m[0])
    ensures Decode(EncodedBody(v) + m) != v
  {
    hide Decode, EncodeBody;
    DecodeSplit(EncodedBody(v), m);
    DecodeStart(m);
    CaretsNeverFill(v, NeedsQuotes(v), 0, Decode(m));
    assert Carets(0) + v == v;
  }

  lemma {:induction false} EncodeLast(v: string, quoted: bool)
    requires v != []
    ensures var n := |v| - 1; EncodeBody(v, quoted) == EncodeBody(v[..n], quoted) + EncodeChar(v[n], quoted)
    decreases |v|
  {
    hide EncodeChar;
    var n := |v| - 1;
    if n == 0 {
      assert v[1..] == [] && v[..0] == [];
      assert EncodeBody([], quoted) == [];
    } else {
      EncodeLast(v[1..], quoted);
      assert v[1..][..n - 1] == v[..n][1..] && v[1..][n - 1] == v[n];
      ConcatAssoc(EncodeChar(v[0], quoted), EncodeBody(v[..n][1..], quoted), EncodeChar(v[n], quoted));
    }
  }

  lemma EncodedSpace(c: char, quoted: bool)
    ensures var e := EncodeChar(c, quoted); e != [] && (IsSpace(e[|e| - 1]) ==> |e| == 1)
  {
  }

  /** Trimming the encoded value loses a character at least */
  lemma {:induction false} TrimBound(v: string, quoted: bool)
    requires QuotedAsNeeded(v, quoted)
    ensures var b := EncodeBody(v, quoted);
            && |Decode(TrimRight(b))| <= |v|
            && (b != [] && IsSpace(b[|b| - 1]) ==> |Decode(TrimRight(b))| < |v|)
    decreases |v|
  {
    hide Decode, EncodeBody, EncodeChar;
    var b := EncodeBody(v, quoted);
    if b != [] && IsSpace(b[|b| - 1]) {
      if v == [] {
        EncodeNothing(quoted);
      } else {
        var n := |v| - 1;
        EncodeLast(v, quoted);
        EncodedSpace(v[n], quoted);
        assert b[..|b| - 1] == EncodeBody(v[..n], quoted);
        TrimBound(v[..n], quoted);
      }
    } else {
      TrimKeeps(b);
      DecodedNotLonger(v, quoted);
    }
  }

  lemma DecodeTrimmed(v: string)
    requires var b := EncodedBody(v); b != [] && IsSpace(b[|b| - 1])
    ensures Decode(TrimRight(EncodedBody(v))) != v
  {
    hide Decode, EncodeBody;
    TrimBound(v, NeedsQuotes(v));
  }

  // ------------------------------------------------------------------------------------
  // What the scan does after a bad end

  predicate IsSeparator(c: char) {
    c == ';' || c == ':'
  }

  /** The first parameter of the text reads past `x` */
  predicate ReadsPast(x: string, rest: string) {
    var r := NextParameter(x + rest);
    r.Some? ==>
      var (segment, end) := r.value;
      x < segment && IsSeparator(segment[|x|]) && !IsSpace(segment[|segment| - 1]) && end > |x| + 1
  }

  lemma PastSegment(x: string, rest: string)
    requires x != [] && rest != [] && IsSeparator(rest[0])
    requires forall j :: 0 <= j <= |x| ==> !Hit(';', x + rest, j, true) && !Hit(':', x + rest, j, true)
    ensures ReadsPast(x, rest)
  {
    hide Hit, FirstHit;
    var t := x + rest;
    var r := NextParameter(t);
    if r.Some? {
      var next := r.value.1 - 1;
      assert Hit(';', t, next, true) || Hit(':', t, next, true);
      assert next > |x|;
      var segment := TrimRight(t[..next]);
      assert t[..next][|x|] == rest[0];
      assert |segment| > |x|;
      assert segment[..|x|] == t[..|x|] == x;
    }
  }

  lemma PlainReadsPast(name: string, b: string, rest: string)
    requires IsName(name) && rest != [] && IsSeparator(rest[0]) && b != [] && b[|b| - 1] == '\\'
    requires forall i :: 0 <= i < |b| ==> IsSafe(b[i], false)
    ensures ReadsPast(name + "=" + b, rest)
  {
    hide ReadsPast, Quoted;
    var x := name + "=" + b;
    var t := x + rest;
    forall j | 0 <= j <= |x| ensures !Hit(';', t, j, true) && !Hit(':', t, j, true) {
      if j < |name| {
        assert t[j] == name[j];
      } else if |name| < j < |x| {
        assert t[j] == b[j - |name| - 1];
      } else if j == |x| {
        assert t[j - 1] == b[|b| - 1];
      }
    }
    PastSegment(x, rest);
  }

  lemma QuotedReadsPast(name: string, b: string, rest: string)
    requires IsName(name) && rest != [] && IsSeparator(rest[0]) && b != [] && b[|b| - 1] == '\\'
    requires forall i :: 0 <= i < |b| ==> IsSafe(b[i], true)
    ensures ReadsPast(name + "=" + [DQUOTE] + b + [DQUOTE], rest)
  {
    hide ReadsPast;
    var x := name + "=" + [DQUOTE] + b + [DQUOTE];
    var t := x + rest;
    var o, n := |name| + 1, |x|;
    forall k | 0 <= k < o ensures t[k] != DQUOTE && !IsSeparator(t[k]) {
      if k < |name| {
        assert t[k] == name[k];
      }
    }
    NoToggle(t, 0, o);
    assert t[o] == DQUOTE && t[o - 1] == '=';
    assert Quoted(t, o + 1);
    assert forall k :: 0 <= k < |b| ==> t[o + 1 + k] == b[k];
    forall j | o + 1 <= j <= n - 1 ensures Quoted(t, j) {
      forall k | o + 1 <= k < j ensures t[k] != DQUOTE {
        assert t[k] == b[k - o - 1];
      }
      NoToggle(t, o + 1, j);
    }
    assert t[n - 2] == b[|b| - 1] && !Toggles(t, n - 1);
    assert Quoted(t, n);
    PastSegment(x, rest);
  }

  // ------------------------------------------------------------------------------------
  // What becomes of the parameter

  /** The round does not give the parameter back */
  ghost predicate Misread(before: string, p: Param, rest: string) {
    var t := TakeParam(before, ParamText(p) + rest);
    || t.None?
    || (t.value.error.Some? && t.value.error.value.BadName?)
    || (t.value.param.Some? && t.value.param.value != p)
  }

  /** The round does not give the parameter back, or reads past the separator behind it */
  ghost predicate Lost(before: string, p: Param, rest: string) {
    var t := TakeParam(before, ParamText(p) + rest);
    Misread(before, p, rest) || t.value.used > |ParamText(p)| + 1
  }

  /** The TZID workaround has no say: the parameter is no TZID, or a semicolon ends it */
  predicate IsPlain(p: Param, rest: string) {
    !IsTzid(p.name) || (rest != [] && rest[0] == ';')
  }

  lemma MisreadWhen(before: string, p: Param, rest: string, segment: string, end: nat)
    requires rest != [] && NextParameter(ParamText(p) + rest) == Some((segment, end))
    requires SplitParam(Trim(segment)).Some? ==>
               SplitParam(Trim(segment)).value.name == p.name && SplitParam(Trim(segment)).value.value != p.value
    ensures !IsTzid(p.name) ==> Misread(before, p, rest)
    ensures end >= |ParamText(p)| + 1 ==> Lost(before, p, rest)
    ensures end == |ParamText(p)| + 1 && IsPlain(p, rest) ==> Misread(before, p, rest)
  {
    hide NextParameter, SplitParam, Trim, ParamText, IsTzid, Workaround, SplitAgain, TzidSegment;
    var text := ParamText(p) + rest;
    if end == |ParamText(p)| + 1 {
      assert text[end - 1] == rest[0];
    }
  }

  /** The two routines that split a parameter differ only in the trimming of its value */
  lemma SplitRaw(str: string, name: string, raw: string)
    requires RawParam(str) == Some(Param(name, raw)) && IsName(name)
    ensures || SplitParam(str) == Some(Param(name, Decode(raw)))
            || SplitParam(str) == Some(Param(name, Decode(TrimRight(raw))))
  {
    hide RawParam, Decode;
    TrimKeeps(name);
  }

  /** Blanks between a name and its equals sign stay, unless the parameter is too long for the stack */
  lemma BlanksBeforeEquals(name: string, w: string, b: string)
    requires IsName(name) && (forall i :: 0 <= i < |w| ==> w[i] == ' ' || w[i] == '\t')
    requires b == [] || b[0] != DQUOTE
    ensures var fits := |name + w| < 79 && |b| < 79;
            SplitParam(name + w + "=" + b) ==
            Some(if fits then Param(name + w, Decode(b)) else Param(name, Decode(TrimRight(b))))
  {
    hide RawParam, Decode, TrimRight;
    RawBlanks(name, w, b);
    BlanksTrimmed(name, w);
  }

  lemma RawBlanks(name: string, w: string, b: string)
    requires IsName(name) && (forall i :: 0 <= i < |w| ==> w[i] == ' ' || w[i] == '\t')
    requires b == [] || b[0] != DQUOTE
    ensures RawParam(name + w + "=" + b) == Some(Param(name + w, b))
  {
    hide FirstHit;
    var x := name + w;
    var str, n := x + "=" + b, |x|;
    BlanksAreNoSigns(name, w);
    assert forall k :: 0 <= k < n ==> str[k] == x[k];
    NoToggle(str, 0, n);
    FirstHitAt('=', str, n, true);
    assert str[..n] == x && str[n + 1..] == b;
  }

  lemma BlanksAreNoSigns(name: string, w: string)
    requires IsName(name) && (forall i :: 0 <= i < |w| ==> w[i] == ' ' || w[i] == '\t')
    ensures var x := name + w; x != [] && forall k :: 0 <= k < |x| ==> x[k] != '=' && x[k] != DQUOTE && x[k] != '\\'
  {
  }

  lemma {:induction false} BlanksTrimmed(name: string, w: string)
    requires IsName(name) && forall i :: 0 <= i < |w| ==> w[i] == ' ' || w[i] == '\t'
    ensures TrimRight(name + w) == name
    decreases |w|
  {
    if w == [] {
      assert name + w == name;
    } else {
      assert (name + w)[..|name + w| - 1] == name + w[..|w| - 1];
      BlanksTrimmed(name, w[..|w| - 1]);
    }
  }

  lemma NameEnds(name: string, rest: string)
    requires IsName(name) && (rest != [] ==> !IsSpace(rest[|rest| - 1]))
    ensures Trim(name + rest) == name + rest
  {
    TrimKeeps(name + rest);
  }

  /** A plain parameter whose raw value is known */
  lemma SplitPlain(name: string, b: string)
    requires IsName(name) && (b != [] ==> b[0] != DQUOTE && !IsSpace(b[|b| - 1]))
    ensures Trim(name + "=" + b) == name + "=" + b
    ensures SplitParam(name + "=" + b) == Some(Param(name, Decode(b)))
  {
    hide RawParam, Decode, SplitParam, IsName, Trim;
    RawPlain(name, b);
    TrimKeeps(b);
    ConcatAssoc(name, "=", b);
    NameEnds(name, "=" + b);
    SplitRaw(name + "=" + b, name, b);
  }

  lemma PlainBackslash(before: string, p: Param, rest: string)
    requires IsName(p.name) && rest != [] && IsSeparator(rest[0]) && !NeedsQuotes(p.value)
    requires var b := EncodedBody(p.value); b != [] && b[|b| - 1] == '\\'
    ensures Lost(before, p, rest) && (!IsTzid(p.name) ==> Misread(before, p, rest))
  {
    hide NextParameter, SplitParam, Trim, Decode, EncodeBody, NeedsQuotes, IsTzid, IsName, IsSafe;
    var b := EncodedBody(p.value);
    BodyChars(p.value);
    var x := p.name + "=" + b;
    assert ParamText(p) == x;
    PlainReadsPast(p.name, b, rest);
    var r := NextParameter(x + rest);
    if r.Some? {
      var segment := r.value.0;
      var m := segment[|x|..];
      assert segment == p.name + "=" + (b + m);
      SafePlain(b);
      SplitPlain(p.name, b + m);
      DecodeMore(p.value, m);
      MisreadWhen(before, p, rest, segment, r.value.1);
    } else {
      NothingTaken(before, p, rest);
    }
  }

  lemma SafePlain(b: string)
    requires b != [] && forall i :: 0 <= i < |b| ==> IsSafe(b[i], false)
    ensures b[0] != DQUOTE
  {
  }

  lemma NothingTaken(before: string, p: Param, rest: string)
    requires NextParameter(ParamText(p) + rest).None?
    ensures Misread(before, p, rest) && Lost(before, p, rest)
  {
  }

  /** Behind an escaped quotation mark the value goes on */
  lemma SplitEscaped(name: string, v: string, b: string, m: string)
    requires b == EncodedBody(v) && IsName(name) && b != [] && b[|b| - 1] == '\\' && m != [] && !IsSpace(m[|m| - 1])
    requires forall i :: 0 <= i < |b| ==> b[i] != DQUOTE
    ensures var str := name + "=" + ([DQUOTE] + b + [DQUOTE] + m);
            && Trim(str) == str
            && (SplitParam(str).Some? ==>
                  SplitParam(str).value.name == name && SplitParam(str).value.value != v)
  {
    hide Decode, SplitParam, IsName, RawParam, Trim;
    var val := [DQUOTE] + b + [DQUOTE] + m;
    var str := name + "=" + val;
    ConcatAssoc(name, "=", val);
    NameEnds(name, "=" + val);
    RawEscaped(name, b, m);
    SplitNone(str);
    if RawParam(str).Some? {
      var raw := RawParam(str).value.value;
      SplitRaw(str, name, raw);
      DecodeMore(v, raw[|b|..]);
      var u := TrimRight(raw);
      assert |u| > |b| && u == b + u[|b|..] && u[|b|] == DQUOTE;
      DecodeMore(v, u[|b|..]);
    }
  }

  lemma SplitNone(str: string)
    ensures RawParam(str).None? ==> SplitParam(str).None?
  {
    hide RawParam;
  }

  lemma RawEscaped(name: string, b: string, m: string)
    requires IsName(name) && b != [] && b[|b| - 1] == '\\' && forall i :: 0 <= i < |b| ==> b[i] != DQUOTE
    ensures var raw := RawParam(name + "=" + ([DQUOTE] + b + [DQUOTE] + m));
            raw.Some? ==>
              raw.value.name == name && |raw.value.value| > |b| &&
              raw.value.value == b + raw.value.value[|b|..] && raw.value.value[|b|] == DQUOTE
  {
    hide FirstHit, IsName;
    var val := [DQUOTE] + b + [DQUOTE] + m;
    var str := name + "=" + val;
    NameOfParam(name, val);
    assert str[..|name|] == name && str[|name| + 1..] == val;
    var content := b + [DQUOTE] + m;
    assert val[1..] == content && content[0] == b[0];
    EscapedQuote(b, m);
  }

  lemma EscapedQuote(b: string, m: string)
    requires b != [] && b[|b| - 1] == '\\' && forall i :: 0 <= i < |b| ==> b[i] != DQUOTE
    ensures FirstHit(DQUOTE, b + [DQUOTE] + m, false) > |b|
  {
    var content := b + [DQUOTE] + m;
    assert forall i :: 0 <= i < |b| ==> content[i] == b[i];
    assert content[|b| - 1] == '\\';
    assert forall j :: 0 <= j <= |b| ==> !Hit(DQUOTE, content, j, false);
  }

  lemma QuotedBackslash(before: string, p: Param, rest: string)
    requires IsName(p.name) && rest != [] && IsSeparator(rest[0]) && NeedsQuotes(p.value)
    requires var b := EncodedBody(p.value); b != [] && b[|b| - 1] == '\\'
    ensures Lost(before, p, rest) && (!IsTzid(p.name) ==> Misread(before, p, rest))
  {
    hide NextParameter, SplitParam, Trim, Decode, EncodeBody, NeedsQuotes, IsTzid, IsName, IsSafe;
    var b := EncodedBody(p.value);
    BodyChars(p.value);
    var x := p.name + "=" + [DQUOTE] + b + [DQUOTE];
    assert ParamText(p) == x;
    QuotedReadsPast(p.name, b, rest);
    var r := NextParameter(x + rest);
    if r.Some? {
      var segment := r.value.0;
      var m := segment[|x|..];
      assert segment == p.name + "=" + ([DQUOTE] + b + [DQUOTE] + m);
      SafeQuoted(b);
      SplitEscaped(p.name, p.value, b, m);
      MisreadWhen(before, p, rest, segment, r.value.1);
    } else {
      NothingTaken(before, p, rest);
    }
  }

  lemma SafeQuoted(b: string)
    requires forall i :: 0 <= i < |b| ==> IsSafe(b[i], true)
    ensures forall i :: 0 <= i < |b| ==> b[i] != DQUOTE
  {
  }

  // ------------------------------------------------------------------------------------
  // White space at the end

  lemma SeparatorAfter(x: string, rest: string)
    requires rest != [] && IsSeparator(rest[0]) && ScansOver(x, x + rest)
    ensures FirstHit(rest[0], x + rest, true) == |x|
    ensures FirstHit(if rest[0] == ';' then ':' else ';', x + rest, true) > |x|
  {
    hide FirstHit, Quoted;
    var t, n := x + rest, |x|;
    assert t[n] == rest[0] && t[n - 1] == x[n - 1];
    FirstHitAt(rest[0], t, n, true);
    var k := FirstHit(if rest[0] == ';' then ':' else ';', t, true);
    assert k >= n;
  }

  /** After text that the scan passes over, the next parameter is that text or nothing */
  lemma NextAfter(x: string, rest: string)
    requires rest != [] && IsSeparator(rest[0]) && ScansOver(x, x + rest)
    ensures NextParameter(x + rest).Some? ==> NextParameter(x + rest) == Some((TrimRight(x), |x| + 1))
  {
    hide FirstHit, Quoted, TrimRight, ScansOver, Hit;
    SeparatorAfter(x, rest);
    assert (x + rest)[..|x|] == x;
  }

  lemma PlainBlank(before: string, p: Param, rest: string)
    requires IsName(p.name) && rest != [] && IsSeparator(rest[0]) && !NeedsQuotes(p.value)
    requires var b := EncodedBody(p.value); b != [] && b[|b| - 1] != '\\' && IsSpace(b[|b| - 1])
    ensures Lost(before, p, rest) && (IsPlain(p, rest) ==> Misread(before, p, rest))
  {
    hide NextParameter, SplitParam, Trim, Decode, EncodeBody, NeedsQuotes, IsTzid, IsName, IsSafe, ScansOver;
    var b := EncodedBody(p.value);
    BodyChars(p.value);
    var x := p.name + "=" + b;
    assert ParamText(p) == x;
    PlainParamScans(p.name, b, rest);
    NextAfter(x, rest);
    var r := NextParameter(x + rest);
    if r.Some? {
      var c := TrimRight(b);
      SafePlain(b);
      TrimTail(p.name + "=", b);
      assert r.value.0 == p.name + "=" + c;
      SplitPlain(p.name, c);
      DecodeTrimmed(p.value);
      MisreadWhen(before, p, rest, r.value.0, r.value.1);
    } else {
      NothingTaken(before, p, rest);
    }
  }

  lemma {:induction false} TrimTail(a: string, b: string)
    requires a != [] && !IsSpace(a[|a| - 1])
    ensures TrimRight(a + b) == a + TrimRight(b)
    decreases |b|
  {
    if b == [] {
      assert a + b == a;
    } else {
      assert (a + b)[..|a + b| - 1] == a + b[..|b| - 1];
      if IsSpace(b[|b| - 1]) {
        TrimTail(a, b[..|b| - 1]);
      }
    }
  }

  lemma LongBlank(before: string, p: Param, rest: string)
    requires IsName(p.name) && rest != [] && IsSeparator(rest[0]) && NeedsQuotes(p.value)
    requires !FitsStack(p)
    requires var b := EncodedBody(p.value); b != [] && b[|b| - 1] != '\\' && IsSpace(b[|b| - 1])
    ensures Lost(before, p, rest) && (IsPlain(p, rest) ==> Misread(before, p, rest))
  {
    hide NextParameter, RawParam, Trim, Decode, EncodeBody, NeedsQuotes, IsTzid, IsName, IsSafe, ScansOver;
    var b := EncodedBody(p.value);
    BodyChars(p.value);
    var x := p.name + "=" + [DQUOTE] + b + [DQUOTE];
    assert ParamText(p) == x == p.name + "=" + ([DQUOTE] + b + [DQUOTE]);
    QuotedParamScans(p.name, b, rest);
    NextAfter(x, rest);
    var r := NextParameter(x + rest);
    if r.Some? {
      NameStart(p.name);
      TrimKeeps(x);
      TrimKeeps(p.name);
      SafeQuoted(b);
      RawQuoted(p.name, b);
      DecodeTrimmed(p.value);
      MisreadWhen(before, p, rest, r.value.0, r.value.1);
    } else {
      NothingTaken(before, p, rest);
    }
  }

  lemma NameStart(name: string)
    requires IsName(name)
    ensures name != [] && !IsSpace(name[0]) && !IsSpace(name[|name| - 1])
  {
  }

  predicate EndsInBackslash(p: Param) {
    var b := EncodedBody(p.value);
    b != [] && b[|b| - 1] == '\\'
  }

  /**
    A parameter that does not end well is not given back, or the loop reads past the separator
    behind it. The second happens only to a TZID, and then only at the end of the parameters
    or after a backslash.
   */
  lemma BadEnd(before: string, p: Param, rest: string)
    requires IsName(p.name) && rest != [] && IsSeparator(rest[0])
    requires !EndsWell(p)
    ensures Lost(before, p, rest)
    ensures !IsTzid(p.name) || (rest[0] == ';' && !EndsInBackslash(p)) ==> Misread(before, p, rest)
  {
    hide Misread, Lost, IsName, IsTzid, Decode, EncodedBody, NeedsQuotes, FitsStack;
    var b := EncodedBody(p.value);
    if b[|b| - 1] == '\\' {
      if NeedsQuotes(p.value) {
        QuotedBackslash(before, p, rest);
      } else {
        PlainBackslash(before, p, rest);
      }
    } else if NeedsQuotes(p.value) {
      LongBlank(before, p, rest);
    } else {
      PlainBlank(before, p, rest);
    }
  }

  // ------------------------------------------------------------------------------------
  // All parameters

  /** The parameters have names, and no TZID with another parameter behind it ends in a backslash */
  predicate AllNamed(ps: seq<Param>) {
    && (forall i :: 0 <= i < |ps| ==> IsName(ps[i].name))
    && (forall i :: 0 <= i < |ps| - 1 && IsTzid(ps[i].name) ==> !EndsInBackslash(ps[i]))
  }

  /** A parameter that ends well is decoded, unless the scan finds no colon at all */
  lemma GoodEnd(before: string, p: Param, rest: string)
    requires Printable(p) && rest != [] && IsSeparator(rest[0]) && IsPlain(p, rest)
    ensures var t, d := TakeParam(before, ParamText(p) + rest), Param(p.name, Decode(EncodedBody(p.value)));
            t.None? || t == Some(Taken(Some(d), None, |ParamText(p)| + 1))
  {
    hide ParamText, NextParameter, SplitParam, Trim, EncodedBody, Decode, IsTzid, ScansOver, Printable;
    ParamScans(p, rest);
    NextAfter(ParamText(p), rest);
    PrintedNotTrimmed(p);
    SplitPrinted(p);
    assert (ParamText(p) + rest)[|ParamText(p)|] == rest[0];
  }

  /** The values come back from the encoding, and the encoded values end well */
  predicate AllGood(ps: seq<Param>) {
    forall i :: 0 <= i < |ps| ==> IsGood(ps[i])
  }

  predicate IsGood(p: Param) {
    EndsWell(p) && Decode(EncodedBody(p.value)) == p.value
  }

  lemma GoodMeans(ps: seq<Param>)
    requires AllNamed(ps)
    ensures AllGood(ps) <==> AllPrintable(ps) && Survive(ps)
  {
    hide IsName, IsTzid, EndsWell, EndsInBackslash, CaretSafe, IsEncodable, EncodedBody, Decode, Survive;
    forall i | 0 <= i < |ps| ensures IsGood(ps[i]) <==> Printable(ps[i]) && SurvivesAt(ps, i) {
      SurviveOne(ps[i].value);
    }
    SurviveEach(ps);
  }

  lemma SurviveEach(ps: seq<Param>)
    ensures Survive(ps) <==> forall i :: 0 <= i < |ps| ==> SurvivesAt(ps, i)
  {
    hide CaretSafe, IsEncodable;
    if forall i :: 0 <= i < |ps| ==> SurvivesAt(ps, i) {
      forall i | 0 <= i < |ps|
        ensures CaretSafe(ps[i].value) && forall j :: 0 <= j < |ps[i].value| ==> IsEncodable(ps[i].value[j])
      {
        assert SurvivesAt(ps, i);
      }
    }
  }

  predicate SurvivesAt(ps: seq<Param>, i: nat)
    requires i < |ps|
  {
    CaretSafe(ps[i].value) && forall j :: 0 <= j < |ps[i].value| ==> IsEncodable(ps[i].value[j])
  }

  lemma NamedParts(ps: seq<Param>)
    requires ps != [] && AllNamed(ps)
    ensures IsName(ps[0].name) && AllNamed(ps[1..])
    ensures IsTzid(ps[0].name) && ps[1..] != [] ==> !EndsInBackslash(ps[0])
  {
    hide IsName, IsTzid, EndsInBackslash;
  }

  lemma GoodParts(ps: seq<Param>)
    requires ps != []
    ensures AllGood(ps) <==> IsGood(ps[0]) && AllGood(ps[1..])
    ensures ps == [ps[0]] + ps[1..]
  {
    hide IsGood;
    var tail := ps[1..];
    if IsGood(ps[0]) && AllGood(tail) {
      forall i | 0 <= i < |ps| ensures IsGood(ps[i]) {
        assert i > 0 ==> ps[i] == tail[i - 1];
      }
    }
  }

  lemma TextOf(ps: seq<Param>, value: string)
    requires ps != []
    ensures AfterName(ps, value)[1..] == ParamText(ps[0]) + AfterName(ps[1..], value)
    ensures AfterName(ps, value)[0] == ';' && AfterName(ps[1..], value)[0] == if ps[1..] == [] then ':' else ';'
  {
    hide ParamText;
    AfterNameCons(ps, value);
  }

  lemma TakeFails(before: string, p: Param, rest: string, room: nat)
    requires before != [] && before[|before| - 1] == ';' && room > 0 && Misread(before, p, rest)
    ensures var r := Params(before, ParamText(p) + rest, room); r.params == [] || r.params[0] != p
  {
    hide TakeParam, ParamText;
  }

  lemma TakeStops(before: string, rest: string, room: nat)
    requires before != [] && TakeParam(before, rest).None?
    ensures Params(before, rest, room).params == []
  {
    hide TakeParam;
  }

  lemma LastLost(before: string, p: Param, value: string, room: nat)
    requires before != [] && before[|before| - 1] == ';' && room > 0
    requires Lost(before, p, AfterName([], value))
    ensures var r := Params(before, ParamText(p) + AfterName([], value), room);
            r.params == [] || r.params[0] != p || |r.rest| < |value|
  {
    hide TakeParam, ParamText, Params, AfterName, Misread;
    var rest := AfterName([], value);
    ValueAfterColon(value);
    if Misread(before, p, rest) {
      TakeFails(before, p, rest, room);
    } else {
      NotMisread(before, p, rest);
      ParamsTaken(before, ParamText(p) + rest, room);
    }
  }

  lemma NotMisread(before: string, p: Param, rest: string)
    requires !Misread(before, p, rest)
    ensures TakeParam(before, ParamText(p) + rest).Some?
  {
  }

  /** A bad parameter at the end is lost, or takes some of the value with it */
  lemma BadLast(before: string, p: Param, value: string, room: nat)
    requires IsName(p.name) && !IsGood(p) && room > 0
    requires before != [] && before[|before| - 1] == ';'
    ensures var r := Params(before, ParamText(p) + AfterName([], value), room);
            r.params == [] || r.params[0] != p || |r.rest| < |value|
  {
    hide *;
    var rest := AfterName([], value);
    ColonFirst(value);
    if EndsWell(p) {
      IsPrintable(p);
      NonePrintable();
      TakePrinted(before, p, [], value);
      LostByDecoding(before, p, value);
    } else {
      BadEnd(before, p, rest);
    }
    LastLost(before, p, value, room);
  }

  lemma ColonFirst(value: string)
    ensures var rest := AfterName([], value); rest != [] && rest[0] == ':' && IsSeparator(rest[0])
  {
  }

  lemma NonePrintable()
    ensures AllPrintable([])
  {
  }

  lemma LostByDecoding(before: string, p: Param, value: string)
    requires var d, n := Param(p.name, Decode(EncodedBody(p.value))), |ParamText(p)|;
             var t := TakeParam(before, ParamText(p) + AfterName([], value));
             d != p && (t == Some(Taken(Some(d), None, n + 1)) || (t.Some? && t.value.used > n + 1))
    ensures Lost(before, p, AfterName([], value))
  {
    hide TakeParam, ParamText, AfterName, Decode, EncodedBody;
  }

  /**
    If some parameter does not survive or does not end well, the parameters do not come back,
    or some of the value is lost
   */
  lemma {:induction false} BadParams(before: string, ps: seq<Param>, value: string, room: nat)
    requires AllNamed(ps) && !AllGood(ps) && |ps| <= room
    requires before != [] && before[|before| - 1] == ';'
    ensures var r := Params(before, AfterName(ps, value)[1..], room); r.params != ps || |r.rest| < |value|
    decreases |ps|
  {
    hide *;
    SomeParam(ps);
    NamedParts(ps);
    GoodParts(ps);
    TextOf(ps, value);
    var p, tail := ps[0], ps[1..];
    var rest := AfterName(tail, value);
    var text, n, d := ParamText(p) + rest, |ParamText(p)|, Param(p.name, Decode(EncodedBody(p.value)));
    if tail == [] {
      NoneGood();
      BadLast(before, p, value, room);
    } else if !EndsWell(p) {
      SemicolonFirst(p, rest);
      BadEnd(before, p, rest);
      TakeFails(before, p, rest, room);
    } else {
      SemicolonFirst(p, rest);
      IsPrintable(p);
      GoodEnd(before, p, rest);
      if TakeParam(before, text).None? {
        TakeStops(before, text, room);
      } else {
        ParamsCons(before, text, room, d, n + 1);
        if d == p {
          SomeParam(tail);
          TextOf(tail, value);
          var front := before + text[..n + 1];
          TextParts(before, ParamText(p), rest);
          BadParams(front, tail, value, room - 1);
        }
      }
    }
  }

  lemma NoneGood()
    ensures AllGood([])
  {
  }

  lemma SemicolonFirst(p: Param, rest: string)
    requires rest != [] && rest[0] == ';'
    ensures IsSeparator(rest[0]) && IsPlain(p, rest)
  {
  }

  lemma SomeParam(ps: seq<Param>)
    requires !AllGood(ps)
    ensures ps != []
  {
  }

  lemma IsPrintable(p: Param)
    requires IsName(p.name) && EndsWell(p)
    ensures Printable(p)
    ensures IsGood(p) <==> Decode(EncodedBody(p.value)) == p.value
  {
  }

  /** The name is found even when a bad end hides every colon */
  lemma NameFound(name: string, ps: seq<Param>, value: string)
    requires IsName(name) && ps != []
    ensures PropName(PropertyLine(name, ps, value)) == Some((name, |name| + 1))
  {
    hide FirstHit, ParamText;
    var rest := AfterName(ps, value);
    var line := name + rest;
    NameScans(name, rest);
    assert line[|name|] == ';' && line[..|name|] == name;
    assert Hit(';', line, |name|, true);
    FirstHitAt(';', line, |name|, true);
    TrimKeeps(name);
  }

  lemma {:induction false} ParamsFit(before: string, rest: string, room: nat)
    requires before != []
    ensures |Params(before, rest, room).params| <= room
    decreases |rest|
  {
    hide TakeParam;
    if room > 0 && before[|before| - 1] != ':' && TakeParam(before, rest).Some? {
      var Taken(p, error, used) := TakeParam(before, rest).value;
      ParamsFit(before + rest[..used], rest[used..], if p.Some? then room - 1 else room);
    }
  }

  /**
    For every property whose parameters have names, and no TZID before another parameter ends
    in a backslash: printing and tokenising gives it back if and only if it has at most 100
    parameters, every value survives the encoding and ends well, the TZID workaround does not
    set in, and the value of the property has no blanks at its ends.
   */
  lemma TokeniseExactly(name: string, ps: seq<Param>, value: string)
    requires IsName(name) && AllNamed(ps)
    ensures Tokenise(PropertyLine(name, ps, value)) == Some(Tokens(name, ps, Some(value), [])) <==>
            && |ps| <= MAXIMUM_ALLOWED_PARAMETERS && AllPrintable(ps) && Survive(ps)
            && !ReadsOn(ps, value) && Unpadded(value)
  {
    hide Survive, PropertyLine, AfterName, ValueText, IsName, AllPrintable, AllNamed, ReadsOn, Params, PropName;
    hide AllGood, Unpadded;
    GoodMeans(ps);
    if |ps| > MAXIMUM_ALLOWED_PARAMETERS {
      NameFound(name, ps, value);
      ParamsStart(name, ps, value);
      var line := PropertyLine(name, ps, value);
      ParamsFit(line[..|name| + 1], line[|name| + 1..], MAXIMUM_ALLOWED_PARAMETERS);
    } else if AllGood(ps) {
      TokeniseRoundTrip(name, ps, value);
    } else {
      SomeParam(ps);
      TextOf(ps, value);
      NameFound(name, ps, value);
      ParamsStart(name, ps, value);
      BadParams(PropertyLine(name, ps, value)[..|name| + 1], ps, value, MAXIMUM_ALLOWED_PARAMETERS);
    }
  }

  /** A value that ends in a backslash takes the separator with it */
  lemma BackslashExample()
    ensures var ps := [Param("X", "a\\")];
            Survive(ps) && Tokenise(PropertyLine("N", ps, "v")) != Some(Tokens("N", ps, Some("v"), []))
  {
    hide Tokenise, PropertyLine;
    var p := Param("X", "a\\");
    assert p.value[1..] == "\\" && p.value[1..][1..] == [];
    assert EncodeBody(p.value[1..], false) == "\\" + EncodeBody([], false);
    assert EncodedBody(p.value) == "a\\";
    assert !EndsWell(p);
    assert [p][0] == p;
    TokeniseExactly("N", [p], "v");
  }
}
