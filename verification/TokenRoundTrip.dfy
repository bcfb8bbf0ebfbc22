/** Tokenising a printed property gives back its name, its parameters and its value. */
module TokenRoundTrip {
  import opened CText
  import opened ParameterEncoding
  import opened ContentLine

  /** A property or parameter name as far as the tokeniser cares: no separators, quotes, escapes or blanks */
  predicate IsName(n: string) {
    && n != []
    && forall i :: 0 <= i < |n| ==>
         n[i] != ';' && n[i] != ':' && n[i] != '=' && n[i] != DQUOTE && n[i] != '\\' && !IsSpace(n[i])
  }

  function EncodedBody(v: string): string {
    EncodeBody(v, NeedsQuotes(v))
  }

  /** Both the name and the encoded value fit the buffers on the stack */
  predicate FitsStack(p: Param) {
    |p.name| < TMP_BUF_SIZE - 1 && |EncodedBody(p.value)| < TMP_BUF_SIZE - 1
  }

  /** The encoded value does not end in a backslash, nor in white space unless it is quoted and short */
  predicate EndsWell(p: Param) {
    var b := EncodedBody(p.value);
    b != [] ==> b[|b| - 1] != '\\' && (IsSpace(b[|b| - 1]) ==> NeedsQuotes(p.value) && FitsStack(p))
  }

  predicate Printable(p: Param) {
    IsName(p.name) && EndsWell(p)
  }

  /** A simple sufficient condition: the value ends in an encodable character, not a backslash or a blank */
  predicate EndsClean(v: string) {
    v != [] ==> v[|v| - 1] != '\\' && !IsBlank(v[|v| - 1]) && IsEncodable(v[|v| - 1])
  }

  lemma CleanEndsWell(p: Param)
    requires EndsClean(p.value)
    ensures EndsWell(p)
  {
    hide EncodeBody;
    if p.value != [] {
      EncodedEnd(p.value, NeedsQuotes(p.value));
    } else {
      EncodeNothing(NeedsQuotes(p.value));
    }
  }

  predicate AllPrintable(ps: seq<Param>) {
    forall i :: 0 <= i < |ps| ==> Printable(ps[i])
  }

  // ------------------------------------------------------------------------------------
  // Quote mode

  lemma {:induction false} NoToggle(s: string, i: nat, j: nat)
    requires i <= j <= |s|
    requires forall k :: i <= k < j ==> s[k] != DQUOTE
    ensures Quoted(s, j) == Quoted(s, i)
    decreases j
  {
    if i < j {
      NoToggle(s, i, j - 1);
    }
  }

  lemma FirstHitAt(c: char, s: string, k: nat, quoting: bool)
    requires k < |s| && Hit(c, s, k, quoting)
    requires forall j :: 0 <= j < k ==> !Hit(c, s, j, quoting)
    ensures FirstHit(c, s, quoting) == k
  {
  }

  lemma FirstHitShift(pre: string, suf: string, c: char)
    requires suf != [] && suf[0] != DQUOTE && suf[0] != c && !Quoted(pre + suf, |pre|)
    requires forall j :: 0 <= j < |pre| ==> !Hit(c, pre + suf, j, true)
    ensures FirstHit(c, pre + suf, true) == |pre| + FirstHit(c, suf, true)
  {
    hide FirstHit, Quoted;
    var s := pre + suf;
    forall j | 0 < j < |suf| ensures Hit(c, s, |pre| + j, true) == Hit(c, suf, j, true) {
      QuotedShift(pre, suf, j);
    }
    var k := FirstHit(c, suf, true);
    var m := FirstHit(c, s, true);
    if k < |suf| {
      assert Hit(c, s, |pre| + k, true);
    }
    if m < |s| {
      assert Hit(c, suf, m - |pre|, true);
    }
  }

  // ------------------------------------------------------------------------------------
  // What the scan does on a name and on a parameter

  /** `x` starts `t`, holds no separator that the scan would see, and leaves quote mode off */
  predicate ScansOver(x: string, t: string) {
    && 0 < |x| < |t| && t[..|x|] == x
    && x[|x| - 1] != '\\'
    && !Quoted(t, |x|)
    && (forall j :: 0 <= j < |x| ==> !Hit(';', t, j, true))
    && (forall j :: 0 <= j < |x| ==> !Hit(':', t, j, true))
  }

  lemma NameScans(n: string, rest: string)
    requires IsName(n) && rest != []
    ensures ScansOver(n, n + rest)
  {
    var t := n + rest;
    assert forall k :: 0 <= k < |n| ==> t[k] == n[k];
    NoToggle(t, 0, |n|);
  }

  lemma EncodedEnd(v: string, quoted: bool)
    requires v != [] && EndsClean(v) && QuotedAsNeeded(v, quoted)
    ensures var b := EncodeBody(v, quoted); b != [] && b[|b| - 1] != '\\' && !IsSpace(b[|b| - 1])
    decreases |v|
  {
    if |v| == 1 {
      assert v[1..] == [];
      assert EncodeBody(v, quoted) == EncodeChar(v[0], quoted) + EncodeBody([], quoted);
    } else {
      EncodedEnd(v[1..], quoted);
    }
  }

  lemma BodyFacts(p: Param)
    requires EndsWell(p)
    ensures var b := EncodedBody(p.value);
            && (b != [] ==> b[|b| - 1] != '\\')
            && (b != [] && (!NeedsQuotes(p.value) || !FitsStack(p)) ==> !IsSpace(b[|b| - 1]))
  {
    hide EncodeBody, NeedsQuotes;
  }

  lemma BodyChars(v: string)
    ensures var b := EncodedBody(v);
            && (forall i :: 0 <= i < |b| ==> IsSafe(b[i], NeedsQuotes(v)))
            && (!NeedsQuotes(v) ==> b != [])
  {
    hide EncodeBody, IsSafe;
    var b := EncodedBody(v);
    BodyIsSafe(v, NeedsQuotes(v));
    assert forall i :: 0 <= i < |b| ==> b[i] in b;
    if v != [] {
      EncodedSome(v, NeedsQuotes(v));
    }
  }

  lemma EncodedSome(v: string, quoted: bool)
    requires v != []
    ensures EncodeBody(v, quoted) != []
  {
  }

  lemma EncodeNothing(quoted: bool)
    ensures EncodeBody([], quoted) == []
  {
  }

  lemma PlainParamScans(name: string, b: string, rest: string)
    requires IsName(name) && rest != [] && b != [] && b[|b| - 1] != '\\'
    requires forall i :: 0 <= i < |b| ==> IsSafe(b[i], false)
    ensures ScansOver(name + "=" + b, name + "=" + b + rest)
  {
    var x := name + "=" + b;
    var t := x + rest;
    forall k | 0 <= k < |x| ensures x[k] != DQUOTE && x[k] != ';' && x[k] != ':' && t[k] == x[k] {
      if k < |name| {
        assert x[k] == name[k];
      } else if k > |name| {
        assert x[k] == b[k - |name| - 1];
      }
    }
    NoToggle(t, 0, |x|);
  }

  lemma QuotedParamScans(name: string, b: string, rest: string)
    requires IsName(name) && rest != [] && (b != [] ==> b[|b| - 1] != '\\')
    requires forall i :: 0 <= i < |b| ==> IsSafe(b[i], true)
    ensures ScansOver(name + "=" + [DQUOTE] + b + [DQUOTE], name + "=" + [DQUOTE] + b + [DQUOTE] + rest)
  {
    var x := name + "=" + [DQUOTE] + b + [DQUOTE];
    var t := x + rest;
    var o, n := |name| + 1, |x|;
    assert forall k :: 0 <= k < o ==> t[k] != DQUOTE && t[k] != ';' && t[k] != ':' by {
      assert forall k :: 0 <= k < |name| ==> t[k] == name[k];
    }
    NoToggle(t, 0, o);
    assert t[o] == DQUOTE && t[o - 1] == '=';
    assert Quoted(t, o + 1);
    assert forall k :: 0 <= k < |b| ==> t[o + 1 + k] == b[k];
    forall j | o + 1 <= j <= n - 1 ensures Quoted(t, j) {
      forall k | o + 1 <= k < j ensures t[k] != DQUOTE {
        assert t[k] == b[k - o - 1];
      }
      NoToggle(t, o + 1, j);
    }
    assert t[n - 1] == DQUOTE && t[n - 2] == (if b == [] then DQUOTE else b[|b| - 1]);
    assert Toggles(t, n - 1);
    assert !Quoted(t, n);
    assert x == t[..n];
  }

  lemma ParamScans(p: Param, rest: string)
    requires Printable(p) && rest != []
    ensures ScansOver(ParamText(p), ParamText(p) + rest)
  {
    hide EncodeBody, IsSafe, IsName, NeedsQuotes, ScansOver;
    BodyFacts(p);
    BodyChars(p.value);
    var b := EncodedBody(p.value);
    if NeedsQuotes(p.value) {
      assert ParamText(p) == p.name + "=" + [DQUOTE] + b + [DQUOTE];
      QuotedParamScans(p.name, b, rest);
    } else {
      PlainParamScans(p.name, b, rest);
    }
  }

  // ------------------------------------------------------------------------------------
  // Where the separators are

  /** After `x` comes a parameter or the value, and the scan sees the right separator */
  lemma {:induction false} Separators(x: string, ps: seq<Param>, value: string)
    requires AllPrintable(ps)
    requires ScansOver(x, x + AfterName(ps, value))
    ensures var t := x + AfterName(ps, value);
            var semi, colon := FirstHit(';', t, true), FirstHit(':', t, true);
            && colon < |t|
            && (if ps == [] then colon == |x| < semi else semi == |x| < colon)
    decreases |ps|
  {
    hide ParamText, FirstHit, Quoted;
    var t := x + AfterName(ps, value);
    var n := |x|;
    assert t[n] == AfterName(ps, value)[0] && t[n - 1] == x[n - 1];
    if ps == [] {
      assert Hit(':', t, n, true);
    } else {
      assert Hit(';', t, n, true);
      var pre := x + ";";
      var p, rest := ps[0], AfterName(ps[1..], value);
      var suf := ParamText(p) + rest;
      ParamScans(p, rest);
      Separators(ParamText(p), ps[1..], value);
      assert t == pre + suf;
      assert !Quoted(t, n + 1) by { QuotedAfterSeparator(t, n); }
      ParamStart(p);
      FirstHitShift(pre, suf, ':');
    }
  }

  lemma QuotedAfterSeparator(t: string, n: nat)
    requires n < |t| && !Quoted(t, n) && t[n] != DQUOTE
    ensures !Quoted(t, n + 1)
  {
  }

  lemma ParamStart(p: Param)
    requires Printable(p)
    ensures ParamText(p) != [] && ParamText(p)[0] == p.name[0]
    ensures p.name[0] != DQUOTE && p.name[0] != ':' && p.name[0] != ';'
  {
  }

  // ------------------------------------------------------------------------------------
  // One parameter

  lemma TrimKeeps(s: string)
    requires s != [] ==> !IsSpace(s[|s| - 1])
    ensures TrimRight(s) == s
    ensures s != [] && !IsSpace(s[0]) ==> Trim(s) == s
  {
  }

  lemma NameOfParam(name: string, val: string)
    requires IsName(name)
    ensures FirstHit('=', name + "=" + val, true) == |name|
  {
    var t := name + "=" + val;
    assert forall k :: 0 <= k < |name| ==> t[k] == name[k];
    NoToggle(t, 0, |name|);
    FirstHitAt('=', t, |name|, true);
  }

  lemma EndQuote(b: string)
    requires forall i :: 0 <= i < |b| ==> b[i] != DQUOTE
    requires b != [] ==> b[|b| - 1] != '\\'
    ensures var content := b + [DQUOTE];
            |b| == if content[0] == DQUOTE then 0 else FirstHit(DQUOTE, content, false)
  {
    var content := b + [DQUOTE];
    assert forall i :: 0 <= i < |b| ==> content[i] == b[i];
    if b != [] {
      FirstHitAt(DQUOTE, content, |b|, false);
    }
  }

  lemma RawQuoted(name: string, b: string)
    requires IsName(name) && (b != [] ==> b[|b| - 1] != '\\')
    requires forall i :: 0 <= i < |b| ==> b[i] != DQUOTE
    ensures RawParam(name + "=" + ([DQUOTE] + b + [DQUOTE])) == Some(Param(name, b))
  {
    hide FirstHit;
    var val := [DQUOTE] + b + [DQUOTE];
    var str := name + "=" + val;
    NameOfParam(name, val);
    assert str[..|name|] == name && str[|name| + 1..] == val;
    var content := b + [DQUOTE];
    assert val[1..] == content;
    EndQuote(b);
    assert content[..|b|] == b;
  }

  lemma RawPlain(name: string, b: string)
    requires IsName(name) && (b != [] ==> b[0] != DQUOTE)
    ensures RawParam(name + "=" + b) == Some(Param(name, b))
  {
    hide FirstHit;
    var str := name + "=" + b;
    NameOfParam(name, b);
    assert str[..|name|] == name && str[|name| + 1..] == b;
  }

  lemma RawOfPrinted(p: Param)
    requires Printable(p)
    ensures RawParam(ParamText(p)) == Some(Param(p.name, EncodedBody(p.value)))
  {
    hide RawParam, IsName, NeedsQuotes, EncodeBody;
    BodyFacts(p);
    BodyChars(p.value);
    var b := EncodedBody(p.value);
    if NeedsQuotes(p.value) {
      RawQuoted(p.name, b);
    } else {
      RawPlain(p.name, b);
    }
  }

  /** Whichever of the two routines takes the parameter, the outcome is the same */
  lemma SplitPrinted(p: Param)
    requires Printable(p)
    ensures SplitParam(ParamText(p)) == Some(Param(p.name, Decode(EncodedBody(p.value))))
  {
    hide RawParam, ParamText, EncodedBody, Decode, NeedsQuotes;
    RawOfPrinted(p);
    TrimKeeps(p.name);
    BodyFacts(p);
    if !FitsStack(p) {
      TrimKeeps(EncodedBody(p.value));
    }
  }

  lemma PrintedNotTrimmed(p: Param)
    requires Printable(p)
    ensures TrimRight(ParamText(p)) == ParamText(p) && Trim(ParamText(p)) == ParamText(p)
  {
    hide EncodeBody, NeedsQuotes;
    BodyFacts(p);
    BodyChars(p.value);
    TrimKeeps(ParamText(p));
  }

  // ------------------------------------------------------------------------------------
  // All parameters and the whole line

  function Decoded(ps: seq<Param>): seq<Param> {
    if ps == [] then [] else [Param(ps[0].name, Decode(EncodedBody(ps[0].value)))] + Decoded(ps[1..])
  }

  lemma NextPrinted(p: Param, ps: seq<Param>, value: string)
    requires Printable(p) && AllPrintable(ps)
    ensures NextParameter(ParamText(p) + AfterName(ps, value)) == Some((ParamText(p), |ParamText(p)| + 1))
  {
    hide ParamText, FirstHit, AfterName, ScansOver;
    var rest := AfterName(ps, value);
    var t := ParamText(p) + rest;
    ParamScans(p, rest);
    Separators(ParamText(p), ps, value);
    assert t[..|ParamText(p)|] == ParamText(p);
    PrintedNotTrimmed(p);
  }

  /** The scan sees the character somewhere: outside quotes, not first, not after a backslash */
  predicate Sees(c: char, s: string) {
    exists k :: 0 <= k < |s| && Hit(c, s, k, true)
  }

  /** A visible colon that is not the end of the value, or a visible colon and a visible semicolon */
  predicate HoldsColon(value: string) {
    Sees(':', value) && (Hit(':', value, |value| - 1, true) ==> Sees(';', value))
  }

  /** The TZID workaround sets in: the last parameter is a TZID and such a colon is in the value */
  predicate ReadsOn(ps: seq<Param>, value: string) {
    ps != [] && IsTzid(ps[|ps| - 1].name) && HoldsColon(value)
  }

  /** When the workaround sets in, in terms of what the scan sees */
  lemma WorkaroundSetsIn(value: string)
    ensures Workaround(value).Some? <==> HoldsColon(value)
  {
    hide FirstHit, LastColon, Hit;
    LastColonIsLast(value, 0);
    FirstIsNoHit(value);
    var colon, semi := LastColon(value, 0), FirstHit(';', value, true);
    if colon == 0 {
      assert !Sees(':', value);
    } else {
      assert Sees(':', value);
      if Sees(';', value) {
        assert semi < |value|;
        var d :| 0 <= d < |value| && Hit(';', value, d, true);
        OneAt(value, d);
        OneAt(value, semi);
      } else {
        assert semi == |value|;
      }
      if Hit(':', value, |value| - 1, true) {
        assert colon == |value| - 1;
      }
    }
  }

  lemma OneAt(s: string, k: nat)
    requires k < |s|
    ensures !(Hit(':', s, k, true) && Hit(';', s, k, true))
  {
  }

  lemma FirstIsNoHit(s: string)
    ensures s != [] ==> !Hit(':', s, 0, true) && !Hit(';', s, 0, true)
  {
  }

  lemma TakePrinted(before: string, p: Param, ps: seq<Param>, value: string)
    requires Printable(p) && AllPrintable(ps)
    ensures var n, d := |ParamText(p)|, Param(p.name, Decode(EncodedBody(p.value)));
            var rest := ParamText(p) + AfterName(ps, value);
            && (ps != [] || !ReadsOn([p], value) ==> TakeParam(before, rest) == Some(Taken(Some(d), None, n + 1)))
            && (ReadsOn([p], value) && ps == [] ==>
                  TakeParam(before, rest).Some? && TakeParam(before, rest).value.used > n + 1)
  {
    hide ParamText, NextParameter, SplitParam, SplitAgain, Trim, EncodedBody, Decode, Workaround, HoldsColon, IsTzid;
    hide AfterName, Printable;
    WorkaroundSetsIn(value);
    var rest := AfterName(ps, value);
    var text, n := ParamText(p) + rest, |ParamText(p)|;
    NextPrinted(p, ps, value);
    PrintedNotTrimmed(p);
    SplitPrinted(p);
    assert text[n] == rest[0] && text[n + 1..] == rest[1..];
    if ps == [] {
      assert [p] + ps == [p];
      ValueAfterColon(value);
    }
  }

  lemma ValueAfterColon(value: string)
    ensures AfterName([], value)[1..] == value
  {
  }

  lemma ReadsOnTail(ps: seq<Param>, value: string)
    requires |ps| > 1
    ensures ReadsOn(ps[1..], value) == ReadsOn(ps, value)
  {
  }

  /** One round of the parameter loop on printed text */
  lemma ParamsCons(before: string, rest: string, room: nat, p: Param, used: nat)
    requires before != [] && before[|before| - 1] == ';' && room > 0
    requires TakeParam(before, rest) == Some(Taken(Some(p), None, used))
    ensures used <= |rest|
    ensures var more := Params(before + rest[..used], rest[used..], room - 1);
            Params(before, rest, room) == Parsed([p] + more.params, more.rest, more.errors)
  {
    hide TakeParam;
  }

  /** The parameters come back in order, as many as the loop accepts; the others count as value */
  lemma {:induction false} ParamsOfPrinted(before: string, ps: seq<Param>, others: seq<Param>, value: string, room: nat)
    requires AllPrintable(ps + others) && (others == [] ==> !ReadsOn(ps, value))
    requires |ps| == room || (|ps| < room && others == [])
    requires before != [] && before[|before| - 1] == AfterName(ps + others, value)[0]
    ensures Params(before, AfterName(ps + others, value)[1..], room) ==
            Parsed(Decoded(ps), AfterName(others, value)[1..], [])
    decreases |ps|
  {
    hide *;
    var all := ps + others;
    if ps == [] {
      assert all == others;
      DecodedNothing();
      FirstOfRest(others, value);
      ParamsStop(before, AfterName(all, value)[1..], room);
    } else {
      var p, tail := ps[0], ps[1..];
      assert all[0] == p && all[1..] == tail + others;
      PrintableParts(all, value);
      AfterNameCons(all, value);
      var rest := AfterName(tail + others, value);
      var text, n := ParamText(p) + rest, |ParamText(p)|;
      ReadsOnParts(ps, others, value);
      TakePrinted(before, p, tail + others, value);
      var front := before + text[..n + 1];
      TextParts(before, ParamText(p), rest);
      ParamsCons(before, text, room, Param(p.name, Decode(EncodedBody(p.value))), n + 1);
      ParamsOfPrinted(front, tail, others, value, room - 1);
      DecodedCons(ps);
    }
  }

  lemma FirstOfRest(others: seq<Param>, value: string)
    ensures others == [] ==> AfterName(others, value)[0] == ':'
  {
  }

  lemma TextParts(before: string, x: string, rest: string)
    requires rest != []
    ensures var text, n := x + rest, |x|;
            text[n + 1..] == rest[1..] && (before + text[..n + 1])[|before| + n] == rest[0]
  {
  }

  lemma DecodedCons(ps: seq<Param>)
    requires ps != []
    ensures Decoded(ps) == [Param(ps[0].name, Decode(EncodedBody(ps[0].value)))] + Decoded(ps[1..])
  {
  }

  lemma ReadsOnParts(ps: seq<Param>, others: seq<Param>, value: string)
    requires ps != [] && (others == [] ==> !ReadsOn(ps, value))
    ensures others == [] ==> !ReadsOn(ps[1..], value)
    ensures ps[1..] + others == [] ==> !ReadsOn([ps[0]], value)
  {
    hide IsTzid, HoldsColon;
    if ps[1..] + others == [] {
      assert others == [] && ps == [ps[0]];
    }
  }

  lemma PrintableParts(ps: seq<Param>, value: string)
    requires ps != [] && AllPrintable(ps)
    ensures Printable(ps[0]) && AllPrintable(ps[1..])
    ensures ps == [ps[0]] + ps[1..] && (ps[1..] == [] ==> [ps[0]] == ps)
  {
    hide Printable;
  }

  /** When the workaround sets in, it eats into the value */
  lemma {:induction false} ParamsReadOn(before: string, ps: seq<Param>, value: string, room: nat)
    requires AllPrintable(ps) && |ps| <= room && ReadsOn(ps, value)
    requires before != [] && before[|before| - 1] == AfterName(ps, value)[0]
    ensures |Params(before, AfterName(ps, value)[1..], room).rest| < |value|
    decreases |ps|
  {
    hide *;
    NotEmptyWhenReadsOn(ps, value);
    var p, tail := ps[0], ps[1..];
    PrintableParts(ps, value);
    var rest := AfterName(tail, value);
    var text := ParamText(p) + rest;
    AfterNameCons(ps, value);
    TakePrinted(before, p, tail, value);
    var n := |ParamText(p)|;
    assert text[n] == rest[0] && text[n + 1..] == rest[1..];
    if tail == [] {
      ValueAfterColon(value);
      assert |text| == n + 1 + |value|;
      ParamsTaken(before, text, room);
    } else {
      var front := before + text[..n + 1];
      assert front[|front| - 1] == rest[0];
      ParamsCons(before, text, room, Param(p.name, Decode(EncodedBody(p.value))), n + 1);
      ReadsOnTail(ps, value);
      ParamsReadOn(front, tail, value, room - 1);
    }
  }

  lemma ParamsTaken(before: string, rest: string, room: nat)
    requires before != [] && before[|before| - 1] == ';' && room > 0 && TakeParam(before, rest).Some?
    ensures |Params(before, rest, room).rest| <= |rest| - TakeParam(before, rest).value.used
  {
    hide TakeParam;
  }

  lemma NotEmptyWhenReadsOn(ps: seq<Param>, value: string)
    ensures ReadsOn(ps, value) ==> ps != []
  {
  }

  lemma AfterNameCons(ps: seq<Param>, value: string)
    requires ps != []
    ensures AfterName(ps, value)[0] == ';'
    ensures AfterName(ps, value)[1..] == ParamText(ps[0]) + AfterName(ps[1..], value)
  {
    hide ParamText;
  }

  lemma DecodedNothing()
    ensures Decoded([]) == []
  {
  }

  lemma PropNameOfPrinted(name: string, ps: seq<Param>, value: string)
    requires IsName(name) && AllPrintable(ps)
    ensures PropName(PropertyLine(name, ps, value)) == Some((name, |name| + 1))
  {
    hide FirstHit, AfterName, ScansOver;
    var line := PropertyLine(name, ps, value);
    NameScans(name, AfterName(ps, value));
    Separators(name, ps, value);
    assert line[..|name|] == name;
    TrimKeeps(name);
  }

  /** Where the parameters start, in the terms of the parameter loop */
  lemma ParamsStart(name: string, ps: seq<Param>, value: string)
    ensures var line, s := PropertyLine(name, ps, value), AfterName(ps, value);
            && |name| + 1 <= |line|
            && line[..|name| + 1] != [] && line[..|name| + 1][|name|] == s[0] && line[|name| + 1..] == s[1..]
  {
    hide AfterName;
  }

  /** The tokens of a printed property, for any number of parameters and any value */
  lemma TokeniseAny(name: string, ps: seq<Param>, value: string)
    requires IsName(name) && AllPrintable(ps)
    requires |ps| <= MAXIMUM_ALLOWED_PARAMETERS ==> !ReadsOn(ps, value)
    ensures var k := if |ps| <= MAXIMUM_ALLOWED_PARAMETERS then |ps| else MAXIMUM_ALLOWED_PARAMETERS;
            Tokenise(PropertyLine(name, ps, value)) ==
            Some(Tokens(name, Decoded(ps[..k]), ValueText(AfterName(ps[k..], value)[1..]), []))
  {
    hide Params, PropName, AfterName, ValueText, Decoded, ReadsOn, PropertyLine;
    var k := if |ps| <= MAXIMUM_ALLOWED_PARAMETERS then |ps| else MAXIMUM_ALLOWED_PARAMETERS;
    PropNameOfPrinted(name, ps, value);
    ParamsStart(name, ps, value);
    assert ps == ps[..k] + ps[k..] && (k == |ps| ==> ps[..k] == ps);
    ParamsOfPrinted(PropertyLine(name, ps, value)[..|name| + 1], ps[..k], ps[k..], value, MAXIMUM_ALLOWED_PARAMETERS);
  }

  /** When the workaround sets in, the value that comes back is shorter */
  lemma TokeniseReadOn(name: string, ps: seq<Param>, value: string)
    requires IsName(name) && AllPrintable(ps)
    requires |ps| <= MAXIMUM_ALLOWED_PARAMETERS && ReadsOn(ps, value)
    ensures var t := Tokenise(PropertyLine(name, ps, value)); t.Some? && t.value.value != Some(value)
  {
    hide Params, PropName, AfterName, ValueText, ReadsOn, PropertyLine;
    PropNameOfPrinted(name, ps, value);
    ParamsStart(name, ps, value);
    ParamsReadOn(PropertyLine(name, ps, value)[..|name| + 1], ps, value, MAXIMUM_ALLOWED_PARAMETERS);
  }

  /** Parameters that the encoding does not change */
  predicate Survive(ps: seq<Param>) {
    forall i :: 0 <= i < |ps| ==>
      CaretSafe(ps[i].value) && forall j :: 0 <= j < |ps[i].value| ==> IsEncodable(ps[i].value[j])
  }

  lemma {:induction false} DecodedSurvive(ps: seq<Param>)
    ensures Decoded(ps) == ps <==> Survive(ps)
  {
    hide EncodedBody, Decode, CaretSafe, IsEncodable;
    if ps != [] {
      DecodedSurvive(ps[1..]);
      SurviveOne(ps[0].value);
      assert Survive(ps) <==> Survive([ps[0]]) && Survive(ps[1..]) by { SurviveSplit(ps); }
      assert ps == [ps[0]] + ps[1..];
      assert Decoded(ps) == ps <==> Decoded(ps)[0] == ps[0] && Decoded(ps[1..]) == ps[1..] by {
        assert Decoded(ps)[1..] == Decoded(ps[1..]);
      }
    }
  }

  lemma SurviveOne(v: string)
    ensures Decode(EncodedBody(v)) == v <==> CaretSafe(v) && forall i :: 0 <= i < |v| ==> IsEncodable(v[i])
  {
    hide CaretSafe, EncodeBody, Decode;
    ValueSurvives(v);
  }

  lemma SurviveSplit(ps: seq<Param>)
    requires ps != []
    ensures Survive(ps) <==> Survive([ps[0]]) && Survive(ps[1..])
  {
    hide CaretSafe, IsEncodable;
    assert ps == [ps[0]] + ps[1..];
    if Survive([ps[0]]) {
      assert [ps[0]][0] == ps[0];
    }
  }

  /** The value of a property is there and has no white space at its ends */
  predicate Unpadded(value: string) {
    value != [] && !IsSpace(value[0]) && !IsSpace(value[|value| - 1])
  }

  /**
    Printing and tokenising, for parameters that end well: the property comes back if and only
    if it has at most 100 parameters, every parameter value survives the encoding, the TZID
    workaround does not set in, and its value has no blanks at its ends.
   */
  lemma TokeniseRoundTrip(name: string, ps: seq<Param>, value: string)
    requires IsName(name) && AllPrintable(ps)
    ensures Tokenise(PropertyLine(name, ps, value)) == Some(Tokens(name, ps, Some(value), [])) <==>
            |ps| <= MAXIMUM_ALLOWED_PARAMETERS && Survive(ps) && !ReadsOn(ps, value) && Unpadded(value)
  {
    hide Tokenise, Survive, Decoded, PropertyLine, AfterName, ValueText, IsName, AllPrintable, ReadsOn, Unpadded;
    if |ps| > MAXIMUM_ALLOWED_PARAMETERS {
      TokeniseAny(name, ps, value);
      DecodedLength(ps[..MAXIMUM_ALLOWED_PARAMETERS]);
    } else if ReadsOn(ps, value) {
      TokeniseReadOn(name, ps, value);
    } else {
      TokeniseAny(name, ps, value);
      assert ps[..|ps|] == ps && ps[|ps|..] == [];
      ValueKept(value);
      DecodedSurvive(ps);
    }
  }

  lemma {:induction false} DecodedLength(ps: seq<Param>)
    ensures |Decoded(ps)| == |ps|
  {
    hide EncodedBody, Decode;
    if ps != [] {
      DecodedLength(ps[1..]);
    }
  }

  lemma ValueKept(value: string)
    ensures ValueText(AfterName([], value)[1..]) == Some(value) <==> Unpadded(value)
  {
    assert AfterName([], value)[1..] == value;
    if Unpadded(value) {
      TrimKeeps(value);
    } else if value != [] {
      TrimmedEnds(value);
    }
  }

  lemma TrimmedEnds(s: string)
    ensures Trim(TrimRight(s)) != [] ==> Unpadded(Trim(TrimRight(s)))
  {
    TrimOnce(TrimRight(s));
  }

  lemma TrimOnce(s: string)
    ensures TrimRight(s) != [] ==> !IsSpace(TrimRight(s)[|TrimRight(s)| - 1])
    ensures Trim(s) != [] ==> Unpadded(Trim(s))
  {
  }

  /** A value that the workaround does not leave alone */
  lemma WorkaroundExample()
    ensures var ps := [Param("TZID", "UTC")];
            Survive(ps) && AllPrintable(ps) &&
            Tokenise(PropertyLine("X", ps, "a:b")) != Some(Tokens("X", ps, Some("a:b"), []))
  {
    hide Tokenise, PropertyLine, EndsWell;
    var ps := [Param("TZID", "UTC")];
    CleanEndsWell(ps[0]);
    ColonExamples();
    TokeniseRoundTrip("X", ps, "a:b");
  }

  /** A colon at the end of a value is left alone, unless a semicolon comes with it */
  lemma ColonExamples()
    ensures HoldsColon("a:b") && !HoldsColon("a:") && HoldsColon("a;b:")
  {
    var v, w, x := "a:b", "a:", "a;b:";
    assert !Quoted(v, 1) && Hit(':', v, 1, true) && !Hit(':', v, 2, true);
    assert !Quoted(w, 1) && Hit(':', w, 1, true);
    assert !Quoted(x, 1) && !Quoted(x, 2) && !Quoted(x, 3) && Hit(':', x, 3, true) && Hit(';', x, 1, true);
  }
}
