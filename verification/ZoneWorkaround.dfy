/**
  What the tokeniser makes of a time zone identifier that holds a colon. The source reads such a
  TZID parameter up to the last colon of the line, or up to a semicolon before that, and splits
  the text again, from a fixed place of the line.
 */
module ZoneWorkaround {
  import opened CText
  import opened ParameterEncoding
  import opened ContentLine
  import opened TokenRoundTrip
  import opened EndOfValues

  /** No semicolons, quotes, backslashes, carets or white space */
  predicate IsZoneText(s: string) {
    forall i :: 0 <= i < |s| ==> s[i] != ';' && s[i] != '"' && s[i] != '\\' && s[i] != '^' && !IsSpace(s[i])
  }

  /** The letters of TZID, upper or lower case */
  predicate SpellsTzid(tz: string) {
    && |tz| == 4 && (tz[0] == 'T' || tz[0] == 't') && (tz[1] == 'Z' || tz[1] == 'z')
    && (tz[2] == 'I' || tz[2] == 'i') && (tz[3] == 'D' || tz[3] == 'd')
  }

  lemma TzidIsName(tz: string)
    requires SpellsTzid(tz)
    ensures IsName(tz) && IsTzid(tz)
  {
  }

  lemma {:induction false} DecodeNoCaret(s: string)
    requires '^' !in s
    ensures Decode(s) == s
  {
    if s != [] {
      DecodeNoCaret(s[1..]);
    }
  }

  // ------------------------------------------------------------------------------------
  // Up to the first colon

  lemma ZoneScans(tz: string, a: string, rest: string)
    requires SpellsTzid(tz) && IsZoneText(a) && ':' !in a && rest != []
    ensures ScansOver(tz + "=" + a, tz + "=" + a + rest)
  {
    var x := tz + "=" + a;
    var t := x + rest;
    forall k | 0 <= k < |x| ensures x[k] != DQUOTE && x[k] != ';' && x[k] != ':' && x[k] != '\\' && t[k] == x[k] {
      if k > 4 {
        assert x[k] == a[k - 5];
      }
    }
    NoToggle(t, 0, |x|);
  }

  lemma ZoneNext(tz: string, a: string, w: string)
    requires SpellsTzid(tz) && IsZoneText(a) && ':' !in a
    ensures var x := tz + "=" + a;
            && NextParameter(x + (":" + w)) == Some((x, |x| + 1))
            && Sees(':', x + (":" + w))
            && SplitParam(Trim(x)) == Some(Param(tz, a))
            && Trim(x) == x
  {
    hide FirstHit, ScansOver, Decode, RawParam, SplitParam, Trim;
    var x, rest := tz + "=" + a, ":" + w;
    ZoneScans(tz, a, rest);
    SeparatorAfter(x, rest);
    assert (x + rest)[..|x|] == x;
    assert Hit(':', x + rest, |x|, true);
    TzidIsName(tz);
    assert a != [] ==> a[|a| - 1] in a && a[0] in a;
    TrimKeeps(x);
    SplitPlain(tz, a);
    DecodeNoCaret(a);
  }

  // ------------------------------------------------------------------------------------
  // Reading on

  /** The scan of a text after a colon sees neither a colon nor a semicolon */
  predicate Silent(v: string) {
    !Sees(':', ":" + v) && !Sees(';', ":" + v)
  }

  lemma BeforeRest(b: string, rest: string)
    requires b != [] && IsZoneText(b) && rest != [] && IsSeparator(rest[0])
    ensures !Quoted(b + rest, |b|) && Hit(rest[0], b + rest, |b|, true)
    ensures forall j :: 0 <= j < |b| ==> !Hit(';', b + rest, j, true)
  {
    var t := b + rest;
    assert forall k :: 0 <= k < |b| ==> t[k] == b[k];
    NoToggle(t, 0, |b|);
  }

  lemma HitAfter(pre: string, suf: string, c: char, j: nat)
    requires suf != [] && suf[0] != DQUOTE && !Quoted(pre + suf, |pre|) && 0 < j < |suf|
    ensures Hit(c, pre + suf, |pre| + j, true) == Hit(c, suf, j, true)
  {
    hide Quoted;
    QuotedShift(pre, suf, j);
  }

  lemma StopsAtColon(b: string, v: string)
    requires b != [] && IsZoneText(b) && v != [] && Silent(v)
    ensures Workaround(b + (":" + v)) == Some(|b| + 1)
  {
    hide FirstHit, LastColon, Quoted, IsZoneText;
    var rest := ":" + v;
    var t := b + rest;
    BeforeRest(b, rest);
    forall j | |b| < j < |t| ensures !Hit(':', t, j, true) && !Hit(';', t, j, true) {
      HitAfter(b, rest, ':', j - |b|);
      HitAfter(b, rest, ';', j - |b|);
    }
    LastColonIsLast(t, 0);
    OneAt(t, |b|);
  }

  lemma StopsAtSemicolon(b: string, p: Param, ps: seq<Param>, v: string)
    requires b != [] && IsZoneText(b) && Printable(p) && AllPrintable(ps)
    ensures Workaround(b + (";" + (ParamText(p) + AfterName(ps, v)))) == Some(|b| + 1)
  {
    hide FirstHit, LastColon, Quoted, IsZoneText, ParamText, AfterName, ScansOver, Printable;
    var suf := ParamText(p) + AfterName(ps, v);
    var rest := ";" + suf;
    var t := b + rest;
    BeforeRest(b, rest);
    FirstHitAt(';', t, |b|, true);
    ParamScans(p, AfterName(ps, v));
    Separators(ParamText(p), ps, v);
    ParamStart(p);
    QuotedAfterSeparator(t, |b|);
    assert t == b + ";" + suf;
    var k := FirstHit(':', suf, true);
    FirstIsNoHit(suf);
    HitAfter(b + ";", suf, ':', k);
    LastColonIsLast(t, 0);
  }

  lemma ReadsTo(b: string, ps: seq<Param>, v: string)
    requires b != [] && IsZoneText(b) && AllPrintable(ps) && v != [] && (ps == [] ==> Silent(v))
    ensures Workaround(b + AfterName(ps, v)) == Some(|b| + 1)
  {
    hide Workaround, Silent, IsZoneText, Printable, ParamText;
    if ps == [] {
      StopsAtColon(b, v);
    } else {
      PrintableParts(ps, v);
      StopsAtSemicolon(b, ps[0], ps[1..], v);
    }
  }

  // ------------------------------------------------------------------------------------
  // The second split

  /** No quotes, backslashes or carets */
  predicate IsPlainText(s: string) {
    DQUOTE !in s && '\\' !in s && '^' !in s
  }

  lemma PlainFirst(s: string, k: nat)
    requires DQUOTE !in s && '\\' !in s
    requires 0 < k <= |s| && '=' !in s[1..k] && (k < |s| ==> s[k] == '=')
    ensures FirstHit('=', s, true) == k
  {
    hide FirstHit;
    forall j | 0 <= j < |s| ensures !Quoted(s, j) {
      NoToggle(s, 0, j);
    }
    var f := FirstHit('=', s, true);
    assert forall j :: 1 <= j < k ==> s[j] == s[1..k][j - 1];
    if k < |s| {
      assert Hit('=', s, k, true);
    }
  }

  /** The text from place 6 on is split at its first equals sign, where it may be */
  lemma SplitFrom(s: string, k: nat)
    requires IsPlainText(s) && 0 < k < |s| && s[k] == '=' && '=' !in s[1..k]
    ensures RawParam(s) == Some(Param(s[..k], s[k + 1..]))
    ensures Decode(s[k + 1..]) == s[k + 1..]
  {
    hide FirstHit, Decode;
    PlainFirst(s, k);
    DecodeNoCaret(s[k + 1..]);
  }

  lemma OnStack(tz: string, a: string)
    requires SpellsTzid(tz) && IsZoneText(a)
    ensures ParamOnStack(tz + "=" + a) == if |a| >= TMP_BUF_SIZE - 1 then None else Some(Param(tz, a))
  {
    hide RawParam, Decode;
    TzidIsName(tz);
    RawPlain(tz, a);
    DecodeNoCaret(a);
  }

  /** What the second split gives */
  lemma SplitAgainFrom(tz: string, a: string, s: string, k: nat)
    requires SpellsTzid(tz) && IsZoneText(a)
    requires IsPlainText(s) && 0 < k < |s| && s[k] == '=' && '=' !in s[1..k] && !IsSpace(s[|s| - 1])
    ensures SplitAgain(tz + "=" + a, Param(tz, a), s) ==
            Some(if k < TMP_BUF_SIZE - 1 && |s| - k - 1 < TMP_BUF_SIZE - 1 && |a| >= TMP_BUF_SIZE - 1 then a
                 else s[k + 1..])
  {
    hide RawParam, Decode;
    OnStack(tz, a);
    SplitFrom(s, k);
    TrimKeeps(s[k + 1..]);
  }

  lemma NothingToSplit(tz: string, a: string, s: string)
    requires IsPlainText(s) && s != [] && '=' !in s[1..]
    ensures SplitAgain(tz + "=" + a, Param(tz, a), s) == None
  {
    hide FirstHit;
    PlainFirst(s, |s|);
  }

  lemma SplitNoHead(tz: string, a: string, z: string)
    requires SpellsTzid(tz) && IsZoneText(a) && IsPlainText("=" + z) && z != [] && !IsSpace(z[|z| - 1]) && |a| < |z|
    ensures SplitAgain(tz + "=" + a, Param(tz, a), "=" + z) != Some(z)
    ensures '=' !in z ==> SplitAgain(tz + "=" + a, Param(tz, a), "=" + z) == None
  {
    hide SplitAgain, IsPlainText, IsZoneText;
    var s := "=" + z;
    assert s[1..] == z;
    if '=' in z {
      var k := StrChr(z, '=') + 1;
      assert s[1..k] == z[..k - 1] && s[k] == z[k - 1];
      SplitAgainFrom(tz, a, s, k);
    } else {
      NothingToSplit(tz, a, s);
    }
  }

  lemma SplitEarly(tz: string, a: string, z: string, h: string)
    requires SpellsTzid(tz) && IsZoneText(a) && IsPlainText(h + "=" + z) && z != [] && !IsSpace(z[|z| - 1])
    requires |a| < |z| && h != []
    ensures SplitAgain(tz + "=" + a, Param(tz, a), h + "=" + z) == Some(z) <==> '=' !in h[1..]
  {
    hide SplitAgain, IsPlainText, IsZoneText;
    var s := h + "=" + z;
    if '=' in h[1..] {
      var k := StrChr(h[1..], '=') + 1;
      assert s[1..k] == h[1..][..k - 1] && s[k] == h[1..][k - 1];
      SplitAgainFrom(tz, a, s, k);
      assert |s[k + 1..]| > |z|;
    } else {
      var k := |h|;
      assert s[1..k] == h[1..] && s[k + 1..] == z;
      SplitAgainFrom(tz, a, s, k);
    }
  }

  /** The identifier is right exactly when TZID's equals sign is the first one behind place 6 */
  lemma SplitZone(tz: string, a: string, b: string, head: string)
    requires SpellsTzid(tz) && IsZoneText(a) && IsZoneText(b) && b != [] && IsPlainText(head) && |head| >= 6
    ensures var z := a + ":" + b;
            var again := TzidSegment(head + "=" + z, |head| + 1 + |z|);
            && (SplitAgain(tz + "=" + a, Param(tz, a), again) == Some(z) <==> |head| > 6 && '=' !in head[7..])
            && (|head| == 6 && '=' !in z ==>
                  again == "=" + z && SplitAgain(tz + "=" + a, Param(tz, a), again) == None)
  {
    hide SplitAgain, IsPlainText, TrimRight;
    var z := a + ":" + b;
    var line, h := head + "=" + z, head[6..];
    assert line[6..|line|] == h + "=" + z;
    assert z[|z| - 1] == b[|b| - 1];
    TrimKeeps(h + "=" + z);
    PlainParts(head, a, b);
    if |head| == 6 {
      assert h + "=" + z == "=" + z;
      SplitNoHead(tz, a, z);
    } else {
      assert h[1..] == head[7..];
      SplitEarly(tz, a, z, h);
    }
  }

  lemma PlainParts(head: string, a: string, b: string)
    requires IsZoneText(a) && IsZoneText(b) && IsPlainText(head) && |head| >= 6
    ensures IsPlainText(head[6..] + "=" + (a + ":" + b))
  {
  }

  // ------------------------------------------------------------------------------------
  // The whole line

  /** One round of the loop on such a parameter */
  lemma TakeZone(before: string, tz: string, a: string, b: string, ps: seq<Param>, v: string)
    requires SpellsTzid(tz) && IsZoneText(a) && ':' !in a && IsZoneText(b) && b != []
    requires AllPrintable(ps) && v != [] && (ps == [] ==> Silent(v))
    requires IsPlainText(before + tz) && |before| >= 2
    ensures var z := a + ":" + b;
            var t := TakeParam(before, tz + "=" + z + AfterName(ps, v));
            && t.Some? && t.value.used == |tz + "=" + z| + 1
            && (t.value.param == Some(Param(tz, z)) <==> |before + tz| > 6 && '=' !in (before + tz)[7..])
            && (t.value.param.Some? ==> t.value.param.value.name == tz)
            && (t.value.error.Some? ==> t.value.error.value.BadValue?)
            && (|before| == 2 && '=' !in z ==> t.value.error == Some(BadValue("=" + z)))
  {
    hide NextParameter, SplitParam, SplitAgain, Trim, TzidSegment, Workaround, AfterName, IsZoneText, IsPlainText;
    hide Printable, Silent;
    var x, z, rest := tz + "=" + a, a + ":" + b, AfterName(ps, v);
    var text, w := tz + "=" + z + rest, b + rest;
    assert text == x + (":" + w);
    ZoneNext(tz, a, w);
    TzidIsName(tz);
    ReadsTo(b, ps, v);
    assert text[|x|] == ':' && text[|x| + 1..] == w;
    var head := before + tz;
    SplitZone(tz, a, b, head);
    assert before + text == head + "=" + z + rest;
    var m := |before| + (|x| + 1) + (|b| + 1) - 1;
    assert m == |head| + 1 + |z|;
    SegmentOf(head + "=" + z, rest);
  }

  lemma SegmentOf(front: string, rest: string)
    ensures TzidSegment(front + rest, |front|) == TzidSegment(front, |front|)
  {
    if |front| >= 6 {
      assert (front + rest)[6..|front|] == front[6..|front|];
    }
  }

  /** Parameters in the text, each with its separator behind it */
  function Lead(qs: seq<Param>): string {
    if qs == [] then [] else ParamText(qs[0]) + ";" + Lead(qs[1..])
  }

  lemma SeesThrough(p: Param, suf: string)
    requires Printable(p) && suf != [] && suf[0] != DQUOTE && Sees(':', suf)
    ensures Sees(':', ParamText(p) + (";" + suf))
  {
    hide ParamText, Quoted, Hit, ScansOver, Printable;
    var x := ParamText(p);
    ParamScans(p, ";" + suf);
    var t := x + (";" + suf);
    ScanEnds(x, t);
    QuotedAfterSeparator(t, |x|);
    assert t == x + ";" + suf;
    var k :| 0 <= k < |suf| && Hit(':', suf, k, true);
    FirstIsNoHit(suf);
    HitAfter(x + ";", suf, ':', k);
    assert Hit(':', t, |x| + 1 + k, true);
  }

  lemma ScanEnds(x: string, t: string)
    requires ScansOver(x, t)
    ensures |x| < |t| && !Quoted(t, |x|)
  {
    hide Quoted, Hit;
  }

  /** A parameter with others behind it is taken when a colon is still to be seen */
  lemma TakeBefore(before: string, p: Param, suf: string)
    requires Printable(p) && suf != [] && suf[0] != DQUOTE && Sees(':', suf)
    ensures TakeParam(before, ParamText(p) + (";" + suf)) ==
            Some(Taken(Some(Param(p.name, Decode(EncodedBody(p.value)))), None, |ParamText(p)| + 1))
  {
    hide ParamText, TakeParam, NextParameter, Decode, EncodedBody, Sees;
    SeesThrough(p, suf);
    SemicolonFirst(p, ";" + suf);
    GoodEnd(before, p, ";" + suf);
    SeenIsTaken(before, ParamText(p) + (";" + suf));
  }

  /** The loop takes a parameter, or reports an error, exactly when a colon is still to be seen */
  lemma SeenIsTaken(before: string, text: string)
    ensures TakeParam(before, text).Some? <==> Sees(':', text)
  {
    hide FirstHit, SplitParam, Trim, Workaround, SplitAgain, Hit;
    var k := FirstHit(':', text, true);
    if k < |text| {
      assert Hit(':', text, k, true);
    }
  }

  lemma {:induction false} ParamsThrough(before: string, qs: seq<Param>, tail: string, room: nat)
    requires AllPrintable(qs) && tail != [] && tail[0] != DQUOTE && Sees(':', tail)
    requires before != [] && before[|before| - 1] == ';' && |qs| <= room
    ensures var more := Params(before + Lead(qs), tail, room - |qs|);
            Params(before, Lead(qs) + tail, room) == Parsed(Decoded(qs) + more.params, more.rest, more.errors)
    ensures Lead(qs) + tail != [] && (Lead(qs) + tail)[0] != DQUOTE && Sees(':', Lead(qs) + tail)
    ensures (before + Lead(qs))[|before + Lead(qs)| - 1] == ';'
    decreases |qs|
  {
    hide *;
    if qs == [] {
      NoLead();
      DecodedNothing();
      assert [] + tail == tail && before + [] == before;
      assert forall ps: seq<Param> :: [] + ps == ps;
    } else {
      var p, rest := qs[0], qs[1..];
      PrintableParts(qs, "");
      LeadCons(qs);
      var suf := Lead(rest) + tail;
      var text, n := ParamText(p) + (";" + suf), |ParamText(p)|;
      assert Lead(qs) + tail == text;
      var front := before + (ParamText(p) + ";");
      ParamsThrough(front, rest, tail, room - 1);
      assert front + Lead(rest) == before + Lead(qs);
      SeesThrough(p, suf);
      TakeBefore(before, p, suf);
      ParamsCons(before, text, room, Param(p.name, Decode(EncodedBody(p.value))), n + 1);
      assert text[..n + 1] == ParamText(p) + ";" && text[n + 1..] == suf;
      DecodedCons(qs);
      ParamStart(p);
      var more := Params(before + Lead(qs), tail, room - |qs|);
      ConcatAssoc([Param(p.name, Decode(EncodedBody(p.value)))], Decoded(rest), more.params);
    }
  }

  lemma NoLead()
    ensures Lead([]) == []
  {
  }

  lemma LeadCons(qs: seq<Param>)
    requires qs != []
    ensures Lead(qs) == ParamText(qs[0]) + ";" + Lead(qs[1..])
  {
  }

  lemma NameBefore(name: string, rest: string)
    requires IsName(name)
    ensures PropName(name + (";" + rest)) == Some((name, |name| + 1))
  {
    hide FirstHit, ScansOver;
    var line := name + (";" + rest);
    NameScans(name, ";" + rest);
    SeparatorAfter(name, ";" + rest);
    assert line[..|name|] == name;
    TrimKeeps(name);
  }

  /** The loop from the TZID on */
  lemma ZoneAndRest(before: string, tz: string, a: string, b: string, ps: seq<Param>, v: string, room: nat)
    requires SpellsTzid(tz) && IsZoneText(a) && ':' !in a && IsZoneText(b) && b != []
    requires AllPrintable(ps) && Survive(ps) && !ReadsOn(ps, v) && v != [] && (ps == [] ==> Silent(v))
    requires IsPlainText(before + tz) && |before| >= 2 && before[|before| - 1] == ';' && |ps| < room
    ensures var z := a + ":" + b;
            var r := Params(before, tz + "=" + z + AfterName(ps, v), room);
            if |before + tz| > 6 && '=' !in (before + tz)[7..] then r == Parsed([Param(tz, z)] + ps, v, [])
            else r.errors != [] || (r.params != [] && r.params[0] != Param(tz, z))
    ensures var z := a + ":" + b;
            |before| == 2 && '=' !in z && ps == [] ==>
              Params(before, tz + "=" + z + AfterName(ps, v), room) == Parsed([], v, [BadValue("=" + z)])
  {
    hide *;
    TzidLength(tz);
    var z, rest := a + ":" + b, AfterName(ps, v);
    var x := tz + "=" + z;
    var text := x + rest;
    TakeZone(before, tz, a, b, ps, v);
    var t := TakeParam(before, text).value;
    if t.param.Some? {
      ParamsCons(before, text, room, t.param.value, t.used);
    } else {
      ParamsBad(before, text, room, t);
      if ps == [] {
        ValueAfterColon(v);
        ColonFirst(v);
        assert text[..|x| + 1] == x + [rest[0]] && text[|x| + 1..] == rest[1..];
        ParamsStop(before + text[..t.used], v, room);
      }
    }
    var right := |before + tz| > 6 && '=' !in (before + tz)[7..];
    if right {
      assert text[..|x| + 1] == x + [rest[0]] && text[|x| + 1..] == rest[1..];
      assert ps + [] == ps && |ps[..|ps|]| == |ps|;
      var front := before + (x + [rest[0]]);
      RoomFor(ps, v);
      DecodedSurvive(ps);
      ParamsOfPrintedAll(front, ps, v, room - 1);
    }
  }

  lemma RoomFor(ps: seq<Param>, v: string)
    ensures AfterName(ps, v) != []
  {
  }

  lemma ParamsOfPrintedAll(before: string, ps: seq<Param>, v: string, room: nat)
    requires AllPrintable(ps) && !ReadsOn(ps, v) && |ps| <= room
    requires before != [] && before[|before| - 1] == AfterName(ps, v)[0]
    ensures Params(before, AfterName(ps, v)[1..], room) == Parsed(Decoded(ps), v, [])
  {
    hide Params, AfterName, Decoded, ReadsOn, Printable;
    assert ps + [] == ps;
    ParamsOfPrinted(before, ps, [], v, room);
    ValueAfterColon(v);
  }

  lemma ParamsBad(before: string, rest: string, room: nat, t: Taken)
    requires before != [] && before[|before| - 1] == ';' && room > 0
    requires TakeParam(before, rest) == Some(t) && t.param.None? && t.error.value.BadValue?
    ensures var more := Params(before + rest[..t.used], rest[t.used..], room);
            Params(before, rest, room) == Parsed(more.params, more.rest, [t.error.value] + more.errors)
  {
    hide TakeParam;
  }

  lemma TzidLength(tz: string)
    requires SpellsTzid(tz)
    ensures |tz| == 4
  {
  }

  /**
    The tokens of a property whose TZID holds a colon. `head` is the line up to the equals sign
    of the TZID. The identifier, the other parameters and the value come back if and only if
    `head` has more than six characters and no equals sign after the first seven: the second
    split starts at place 6 and takes what follows the first equals sign behind that.
   */
  lemma ZoneReadOn(name: string, qs: seq<Param>, tz: string, a: string, b: string, ps: seq<Param>, v: string)
    requires IsName(name) && AllPrintable(qs) && Survive(qs)
    requires SpellsTzid(tz) && IsZoneText(a) && ':' !in a && IsZoneText(b) && b != []
    requires AllPrintable(ps) && Survive(ps) && !ReadsOn(ps, v) && Unpadded(v) && (ps == [] ==> Silent(v))
    requires |qs| + 1 + |ps| <= MAXIMUM_ALLOWED_PARAMETERS
    requires IsPlainText(name + ";" + Lead(qs) + tz)
    ensures var head := name + ";" + Lead(qs) + tz;
            Tokenise(head + "=" + (a + ":" + b) + AfterName(ps, v)) ==
            Some(Tokens(name, qs + [Param(tz, a + ":" + b)] + ps, Some(v), [])) <==>
            |head| > 6 && '=' !in head[7..]
  {
    hide *;
    var z := a + ":" + b;
    var tail := tz + "=" + z + AfterName(ps, v);
    var front := name + ";";
    var line := front + Lead(qs) + tz + "=" + z + AfterName(ps, v);
    assert line == name + (";" + (Lead(qs) + tail)) && line == front + (Lead(qs) + tail);
    NameBefore(name, Lead(qs) + tail);
    TailStart(tz, a, b, AfterName(ps, v));
    UnpaddedSome(v);
    ParamsThrough(front, qs, tail, MAXIMUM_ALLOWED_PARAMETERS);
    LongEnough(name, qs);
    ZoneAndRest(front + Lead(qs), tz, a, b, ps, v, MAXIMUM_ALLOWED_PARAMETERS - |qs|);
    DecodedSurvive(qs);
    assert line[..|name| + 1] == front && line[|name| + 1..] == Lead(qs) + tail;
    var r := Params(front + Lead(qs), tail, MAXIMUM_ALLOWED_PARAMETERS - |qs|);
    TokensOf(line, name, Parsed(qs + r.params, r.rest, r.errors));
    if |front + Lead(qs) + tz| > 6 && '=' !in (front + Lead(qs) + tz)[7..] {
      ConcatAssoc(qs, [Param(tz, z)], ps);
      ValueKept(v);
      ValueAfterColon(v);
    } else if r.errors == [] {
      DifferentAt(qs, r.params, [Param(tz, z)] + ps);
      ConcatAssoc(qs, [Param(tz, z)], ps);
    }
  }

  lemma DifferentAt(qs: seq<Param>, a: seq<Param>, b: seq<Param>)
    requires a != [] && b != [] && a[0] != b[0]
    ensures qs + a != qs + b
  {
    assert (qs + a)[|qs|] == a[0] && (qs + b)[|qs|] == b[0];
  }

  lemma TailStart(tz: string, a: string, b: string, rest: string)
    requires SpellsTzid(tz) && IsZoneText(a) && ':' !in a
    ensures var tail := tz + "=" + (a + ":" + b) + rest; tail[0] != DQUOTE && Sees(':', tail)
  {
    hide *;
    ZoneNext(tz, a, b + rest);
    assert tz + "=" + (a + ":" + b) + rest == tz + "=" + a + (":" + (b + rest));
    TzidStart(tz);
  }

  lemma TzidStart(tz: string)
    requires SpellsTzid(tz)
    ensures tz != [] && tz[0] != DQUOTE
  {
  }

  lemma UnpaddedSome(v: string)
    ensures Unpadded(v) ==> v != []
  {
  }

  lemma LongEnough(name: string, qs: seq<Param>)
    requires IsName(name)
    ensures |name + ";" + Lead(qs)| >= 2 && name != []
  {
  }

  lemma TokensOf(line: string, name: string, parsed: Parsed)
    requires PropName(line) == Some((name, |name| + 1)) && name != [] && |name| + 1 <= |line|
    requires Params(line[..|name| + 1], line[|name| + 1..], MAXIMUM_ALLOWED_PARAMETERS) == parsed
    ensures Tokenise(line) == Some(Tokens(name, parsed.params, ValueText(parsed.rest), parsed.errors))
  {
  }

  /** With the TZID in front of all other parameters: it takes a property name of two characters */
  lemma ZoneFirst(name: string, tz: string, a: string, b: string, ps: seq<Param>, v: string)
    requires IsName(name) && '^' !in name
    requires SpellsTzid(tz) && IsZoneText(a) && ':' !in a && IsZoneText(b) && b != []
    requires AllPrintable(ps) && Survive(ps) && !ReadsOn(ps, v) && Unpadded(v) && (ps == [] ==> Silent(v))
    requires 1 + |ps| <= MAXIMUM_ALLOWED_PARAMETERS
    ensures Tokenise(name + ";" + tz + "=" + (a + ":" + b) + AfterName(ps, v)) ==
            Some(Tokens(name, [Param(tz, a + ":" + b)] + ps, Some(v), [])) <==>
            |name| >= 2
  {
    hide Tokenise, Survive, ReadsOn, Unpadded, Silent, IsZoneText, AfterName, Printable;
    assert name + ";" + Lead([]) == name + ";";
    assert [] + [Param(tz, a + ":" + b)] + ps == [Param(tz, a + ":" + b)] + ps;
    var head := name + ";" + tz;
    HeadFacts(name, tz);
    NoneSurvive();
    ZoneReadOn(name, [], tz, a, b, ps, v);
  }

  lemma NoneSurvive()
    ensures Survive([])
  {
  }

  lemma HeadFacts(name: string, tz: string)
    requires IsName(name) && '^' !in name && SpellsTzid(tz)
    ensures IsPlainText(name + ";" + tz) && '=' !in name + ";" + tz && |name + ";" + tz| == |name| + 5
    ensures |name| >= 2 ==> '=' !in (name + ";" + tz)[7..]
  {
  }

  lemma PlainIsSilent(v: string)
    requires v != [] && ':' !in v && ';' !in v
    ensures Silent(v)
  {
    assert forall k :: 0 < k < |":" + v| ==> (":" + v)[k] == v[k - 1];
  }

  /** The line for which the workaround was made */
  lemma GoogleExample()
    ensures Tokenise("DTSTART;TZID=GMT+05:30:20120904T020000") ==
            Some(Tokens("DTSTART", [Param("TZID", "GMT+05:30")], Some("20120904T020000"), []))
  {
    hide *;
    var v := "20120904T020000";
    GoogleParts(v);
    NoneSurvive();
    GoogleLine(v);
    assert [Param("TZID", "GMT+05:30")] + [] == [Param("TZID", "GMT+05:30")];
    ZoneFirst("DTSTART", "TZID", "GMT+05", "30", [], v);
  }

  lemma GoogleLine(v: string)
    requires v == "20120904T020000"
    ensures "GMT+05" + ":" + "30" == "GMT+05:30"
    ensures "DTSTART" + ";" + "TZID" + "=" + "GMT+05:30" + (":" + v) == "DTSTART;TZID=GMT+05:30:20120904T020000"
  {
    hide *;
  }

  lemma GoogleParts(v: string)
    requires v == "20120904T020000"
    ensures IsName("DTSTART") && AllPrintable([]) && !ReadsOn([], v) && AfterName([], v) == ":" + v
    ensures SpellsTzid("TZID") && IsZoneText("GMT+05") && IsZoneText("30") && Unpadded(v) && Silent(v)
    ensures MAXIMUM_ALLOWED_PARAMETERS == 100
  {
    hide Silent;
    PlainIsSilent(v);
  }

  /** An earlier parameter spoils it */
  lemma EarlierExample()
    ensures Tokenise("DTSTART;X=b;TZID=A:B:v") !=
            Some(Tokens("DTSTART", [Param("X", "b"), Param("TZID", "A:B")], Some("v"), []))
  {
    hide *;
    var q, z := Param("X", "b"), Param("TZID", "A:B");
    EarlierParts(q);
    EarlierText(q);
    assert [q] + [z] + [] == [q, z];
    assert "A" + ":" + "B" == "A:B";
    assert "DTSTART;X=b;TZID" + "=" + "A:B" + ":v" == "DTSTART;X=b;TZID=A:B:v";
    assert "DTSTART;X=b;TZID"[7..][2] == '=';
    NoneSurvive();
    ZoneReadOn("DTSTART", [q], "TZID", "A", "B", [], "v");
  }

  lemma EarlierParts(q: Param)
    requires q == Param("X", "b")
    ensures IsName("DTSTART") && AllPrintable([q]) && AllPrintable([]) && !ReadsOn([], "v")
    ensures SpellsTzid("TZID") && IsZoneText("A") && IsZoneText("B")
    ensures Unpadded("v") && Silent("v") && AfterName([], "v") == ":v"
    ensures IsPlainText("DTSTART;X=b;TZID") && MAXIMUM_ALLOWED_PARAMETERS == 100
  {
    hide EndsWell, Silent;
    CleanEndsWell(q);
    PlainIsSilent("v");
  }

  lemma EarlierText(q: Param)
    requires q == Param("X", "b")
    ensures "DTSTART" + ";" + Lead([q]) + "TZID" == "DTSTART;X=b;TZID"
    ensures Survive([q])
  {
    assert EncodeBody("b", false) == "b" by {
      assert "b"[1..] == [];
      assert EncodeBody([], false) == [];
    }
    assert Encode("b") == "b";
    assert [q][1..] == [];
    assert Lead([]) == [];
    assert Lead([q]) == "X=b;";
  }
}
