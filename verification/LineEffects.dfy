/**
  What single lines do to the parser, said of their text: BEGIN and END in any case, and lines
  that leave an error behind.
 */
module LineEffects {
  import opened CText
  import opened ComponentKinds
  import opened Components
  import opened ParameterEncoding
  import opened ContentLine
  import opened TokenRoundTrip
  import opened EndOfValues
  import opened ParserStack
  import opened ZoneWorkaround

  /** Five letters that read BEGIN when case is ignored */
  predicate SpellsBegin(n: string) {
    && |n| == 5 && (n[0] == 'B' || n[0] == 'b') && (n[1] == 'E' || n[1] == 'e') && (n[2] == 'G' || n[2] == 'g')
    && (n[3] == 'I' || n[3] == 'i') && (n[4] == 'N' || n[4] == 'n')
  }

  /** Three letters that read END when case is ignored */
  predicate SpellsEnd(n: string) {
    |n| == 3 && (n[0] == 'E' || n[0] == 'e') && (n[1] == 'N' || n[1] == 'n') && (n[2] == 'D' || n[2] == 'd')
  }

  lemma NamesSpelled(n: string)
    ensures SameName(n, "BEGIN") <==> SpellsBegin(n)
    ensures SameName(n, "END") <==> SpellsEnd(n)
    ensures SpellsBegin(n) || SpellsEnd(n) ==> IsName(n)
  {
  }

  predicate AllBlank(w: string) {
    forall i :: 0 <= i < |w| ==> w[i] == ' ' || w[i] == '\t'
  }

  /** The name of a line ends at the separator, blanks before it not counted */
  lemma NameOfLine(n: string, w: string, sep: char, v: string)
    requires IsName(n) && AllBlank(w) && (sep == ';' || sep == ':')
    ensures var line := n + w + [sep] + v;
            && !IsBlankLine(line) && PropName(line) == Some((n, |n + w| + 1))
            && |n + w| < |line| && line[|n + w| + 1..] == v && line[..|n + w| + 1] == n + w + [sep]
  {
    hide FirstHit, ScansOver, TrimRight;
    var x, rest := n + w, [sep] + v;
    var line := n + w + [sep] + v;
    assert line == x + rest && line[0] == n[0] && line[..|x|] == x;
    BlanksScan(n, w, rest);
    SeparatorAfter(x, rest);
    BlanksTrimmed(n, w);
  }

  lemma BlanksScan(n: string, w: string, rest: string)
    requires IsName(n) && AllBlank(w) && rest != []
    ensures ScansOver(n + w, n + w + rest)
  {
    var x := n + w;
    var t := x + rest;
    forall k | 0 <= k < |x| ensures x[k] != '"' && x[k] != ';' && x[k] != ':' && x[k] != '\\' && t[k] == x[k] {
      assert x[k] == if k < |n| then n[k] else w[k - |n|];
    }
    NoToggle(t, 0, |x|);
  }

  /** A quotation mark at the very start of a line does not hide the separators behind it */
  lemma QuoteAtStart(n: string, sep: char, v: string)
    requires IsName(n) && (sep == ';' || sep == ':')
    ensures PropName("\"" + n + [sep] + v) == Some(("\"" + n, |n| + 2))
  {
    hide FirstHit, ScansOver, TrimRight;
    var x, rest := "\"" + n, [sep] + v;
    var line := "\"" + n + [sep] + v;
    assert line == x + rest && line[..|x|] == x;
    QuoteScans(n, rest);
    SeparatorAfter(x, rest);
    TrimKeeps(x);
  }

  lemma QuoteScans(n: string, rest: string)
    requires IsName(n) && rest != []
    ensures ScansOver("\"" + n, "\"" + n + rest)
  {
    var x := "\"" + n;
    var t := x + rest;
    assert forall k :: 0 < k < |x| ==> t[k] == n[k - 1];
    assert !Quoted(t, 1);
    NoToggle(t, 1, |x|);
  }

  // ------------------------------------------------------------------------------------
  // BEGIN and END

  /** BEGIN pushes exactly one empty component, of the kind that the text behind it names */
  lemma BeginOpens(reg: Registry, m: Machine, n: string, w: string, sep: char, v: string)
    requires SpellsBegin(n) && AllBlank(w) && (sep == ';' || sep == ':')
    ensures Step(reg, m, n + w + [sep] + v) ==
            (Machine(m.stack + [Node(KindNamed(ComponentName(v)), [], [])], m.errors, BeginComponent), None)
  {
    hide PropName, SameName, IsBlankLine, IsName, KindNamed, ComponentName;
    NamesSpelled(n);
    NameOfLine(n, w, sep, v);
  }

  /** END closes the innermost component: it is returned, or its parent takes it up */
  lemma EndCloses(reg: Registry, m: Machine, n: string, w: string, sep: char, v: string)
    requires SpellsEnd(n) && AllBlank(w) && (sep == ';' || sep == ':')
    ensures var r := Step(reg, m, n + w + [sep] + v);
            var k := |m.stack|;
            && (k == 0 ==> r == (Machine([], m.errors, Failed), None))
            && (k == 1 ==> r == (Machine([], m.errors, Success), Some(m.stack[0])))
            && (k > 1 ==>
                  && r.1 == None && r.0.errors == m.errors && r.0.state == EndComponent
                  && |r.0.stack| == k - 1 && r.0.stack[..k - 2] == m.stack[..k - 2]
                  && var parent, child, after := m.stack[k - 2], m.stack[k - 1], r.0.stack[k - 2];
                  && after.kind == parent.kind && after.entries == parent.entries
                  && after.children ==
                     if child.kind == VTimezone then [child] + parent.children else parent.children + [child])
  {
    hide PropName, SameName, IsBlankLine, IsName;
    NamesSpelled(n);
    NotBegin(n);
    NameOfLine(n, w, sep, v);
  }

  lemma NotBegin(n: string)
    ensures !(SpellsBegin(n) && SpellsEnd(n))
  {
  }

  /** Every other line leaves the components as they are, except for properties of the innermost */
  lemma OthersKeep(reg: Registry, m: Machine, n: string, w: string, sep: char, v: string)
    requires IsName(n) && AllBlank(w) && (sep == ';' || sep == ':') && !SpellsBegin(n) && !SpellsEnd(n)
    ensures var r := Step(reg, m, n + w + [sep] + v);
            && r.1 == None && |r.0.stack| == |m.stack|
            && (m.stack == [] ==> r.0 == Machine([], m.errors, Failed))
            && (m.stack != [] ==> SameButTop(m.stack, r.0.stack))
  {
    hide PropName, SameName, IsBlankLine, IsName, PropertyStep;
    NamesSpelled(n);
    NameOfLine(n, w, sep, v);
    if m.stack != [] {
      PropertyKeeps(reg, m, n + w + [sep] + v, n, |n + w| + 1);
    }
  }

  /** Only the properties of the innermost component differ */
  predicate SameButTop(a: seq<Node>, b: seq<Node>)
    requires a != [] && |a| == |b|
  {
    var k := |a| - 1;
    a[..k] == b[..k] && a[k].kind == b[k].kind && a[k].children == b[k].children
  }

  lemma PropertyKeeps(reg: Registry, m: Machine, line: string, name: string, end: nat)
    requires m.stack != [] && 0 < end <= |line|
    ensures SameButTop(m.stack, PropertyStep(reg, m, line, name, end).stack)
  {
    hide InsertAll, ErrorText, ParamTroubles, ParamsAt, ValueText, Clip;
    if reg.knows(name) {
      var parsed := ParamsAt(line, end, MAXIMUM_ALLOWED_PARAMETERS);
      var es := ParamTroubles(parsed.errors);
      match ValueText(parsed.rest)
      case None => InsertKeeps(m, es + [NoValueTrouble(reg, name)]);
      case Some(v) =>
        if reg.accepts(name, v) {
          InsertKeeps(m.(stack := WithEntry(m.stack, Data(name, parsed.params, v))), es);
        } else {
          InsertKeeps(m, es + [BadValueTrouble(reg, name, v)]);
        }
    }
  }

  lemma InsertKeeps(m: Machine, es: seq<Entry>)
    requires m.stack != []
    ensures SameButTop(m.stack, InsertAll(m, es).stack)
  {
    hide InsertAll, Recorded;
    InsertAllIs(m, es);
  }

  // ------------------------------------------------------------------------------------
  // Lines that leave an error behind

  /** What C prints into a buffer that has room for so many characters */
  function First(s: string, room: nat): string {
    if |s| > room then s[..room] else s
  }

  /** The innermost component with more properties */
  function With(stack: seq<Node>, es: seq<Entry>): seq<Node>
    requires stack != []
  {
    var n := |stack| - 1;
    stack[..n] + [Node(stack[n].kind, stack[n].entries + es, stack[n].children)]
  }

  lemma InsertOne(m: Machine, e: Entry)
    requires m.stack != [] && m.errors <= 100
    ensures Insert(m, e) == Machine(With(m.stack, [e]), m.errors + 1, m.state)
    ensures InsertAll(m, [e]) == Insert(m, e)
  {
    assert [e][1..] == [];
    assert InsertAll(Insert(m, e), []) == Insert(m, e);
  }

  /** Without a separator that the scan sees, there is no name */
  lemma NoNameLeft(reg: Registry, m: Machine, line: string)
    requires ':' !in line && ';' !in line && (exists i :: 0 <= i < |line| && line[i] !in " \t\n")
    requires m.stack != [] && m.errors <= 100
    ensures var text := "Got a data line, but could not find a property name or component begin tag: " + line;
            Step(reg, m, line) ==
            (Machine(With(m.stack, [Trouble(ComponentParseError, First(text, 1023))]), m.errors + 1, Failed), None)
  {
    hide FirstHit, With, Insert;
    assert FirstHit(';', line, true) == |line| && FirstHit(':', line, true) == |line|;
    assert PropName(line) == None;
    var text := "Got a data line, but could not find a property name or component begin tag: " + line;
    assert NO_NAME + ": " + line == text;
    assert ErrorText(NO_NAME, Some(line)) == First(text, 1023);
    InsertOne(m, Trouble(ComponentParseError, First(text, 1023)));
  }

  /** Outside of components there is nothing to leave an error in */
  lemma NoNameOutside(reg: Registry, m: Machine, line: string)
    requires ':' !in line && ';' !in line && (exists i :: 0 <= i < |line| && line[i] !in " \t\n")
    requires m.stack == []
    ensures Step(reg, m, line) == (Machine([], m.errors, Failed), None)
  {
    hide FirstHit;
    assert FirstHit(';', line, true) == |line| && FirstHit(':', line, true) == |line|;
    assert PropName(line) == None;
  }

  /** The name of a property line, and what the parameter loop finds when a colon comes first */
  lemma PropertyLineOf(reg: Registry, m: Machine, n: string, w: string, sep: char, v: string)
    requires IsName(n) && AllBlank(w) && !SpellsBegin(n) && !SpellsEnd(n) && (sep == ';' || sep == ':')
    requires m.stack != []
    ensures var line := n + w + [sep] + v;
            && |n + w| + 1 <= |line|
            && Step(reg, m, line) == (PropertyStep(reg, m, line, n, |n + w| + 1), None)
            && ParamsAt(line, |n + w| + 1, 100) == Params(n + w + [sep], v, 100)
            && (sep == ':' ==> ParamsAt(line, |n + w| + 1, 100) == Parsed([], v, []))
  {
    hide PropName, SameName, IsBlankLine, IsName, PropertyStep, Params;
    NameStart(n);
    NamesSpelled(n);
    NameOfLine(n, w, sep, v);
    if sep == ':' {
      ParamsStop(n + w + [sep], v, 100);
    }
  }

  /** A name that the tables do not have */
  lemma UnknownName(reg: Registry, m: Machine, n: string, w: string, sep: char, v: string)
    requires IsName(n) && AllBlank(w) && !SpellsBegin(n) && !SpellsEnd(n) && (sep == ';' || sep == ':')
    requires m.stack != [] && m.errors <= 100 && !reg.knows(n)
    ensures var e := Trouble(PropertyParseError, First("Parse error in property name: " + n, 1023));
            Step(reg, m, n + w + [sep] + v) == (Machine(With(m.stack, [e]), m.errors + 1, Failed), None)
  {
    hide *;
    PropertyLineOf(reg, m, n, w, sep, v);
    UnknownStep(reg, m, n + w + [sep] + v, n, |n + w| + 1);
    InsertOne(m, Trouble(PropertyParseError, First("Parse error in property name: " + n, 1023)));
  }

  lemma UnknownStep(reg: Registry, m: Machine, line: string, n: string, end: nat)
    requires m.stack != [] && !reg.knows(n) && 0 < end <= |line|
    ensures var e := Trouble(PropertyParseError, First("Parse error in property name: " + n, 1023));
            PropertyStep(reg, m, line, n, end) == Insert(m, e).(state := Failed)
  {
    hide Insert, ParamsAt;
    assert "Parse error in property name" + ": " + n == "Parse error in property name: " + n;
  }

  lemma OneTrouble(e: ParamError)
    ensures ParamTroubles([]) == [] && ParamTroubles([e]) == [ParamTrouble(e)]
  {
    assert [e][1..] == [];
  }

  /** Nothing behind the colon */
  lemma NoValue(reg: Registry, m: Machine, n: string, w: string)
    requires IsName(n) && AllBlank(w) && !SpellsBegin(n) && !SpellsEnd(n)
    requires m.stack != [] && m.errors <= 100 && reg.knows(n)
    ensures var message := First("No value for " + reg.title(n) + " property. Removing entire property", 199);
            Step(reg, m, n + w + ":") ==
            (Machine(With(m.stack, [Trouble(ValueParseError, message + ":")]), m.errors + 1, Failed), None)
  {
    hide Insert, InsertAll, With, Step, Params, ParamsAt;
    PropertyLineOf(reg, m, n, w, ':', "");
    assert n + w + [':'] + "" == n + w + ":";
    OneTrouble(BadName(""));
    var message := First("No value for " + reg.title(n) + " property. Removing entire property", 199);
    var e := NoValueTrouble(reg, n);
    assert e == Trouble(ValueParseError, message + ":");
    assert [] + [e] == [e];
    InsertOne(m, e);
  }

  /** A value that cannot be parsed */
  lemma BadValueLeft(reg: Registry, m: Machine, n: string, w: string, v: string)
    requires IsName(n) && AllBlank(w) && !SpellsBegin(n) && !SpellsEnd(n) && Unpadded(v)
    requires m.stack != [] && m.errors <= 100 && reg.knows(n) && !reg.accepts(n, v)
    ensures var message := First("Can't parse as " + reg.valueTitle(n) + " value in " + reg.title(n) +
                                 " property. Removing entire property", 199);
            var e := Trouble(ValueParseError, First(message + ": " + v, 1023));
            Step(reg, m, n + w + ":" + v) == (Machine(With(m.stack, [e]), m.errors + 1, Failed), None)
  {
    hide Insert, InsertAll, With, Step, Params, ParamsAt, Trim, TrimRight, Unpadded;
    PropertyLineOf(reg, m, n, w, ':', v);
    ValueKept(v);
    ValueAfterColon(v);
    UnpaddedSome(v);
    OneTrouble(BadName(""));
    var e := BadValueTrouble(reg, n, v);
    assert [] + [e] == [e];
    InsertOne(m, e);
  }

  /** A value that can be parsed */
  lemma GoodValue(reg: Registry, m: Machine, n: string, w: string, v: string)
    requires IsName(n) && AllBlank(w) && !SpellsBegin(n) && !SpellsEnd(n) && Unpadded(v)
    requires m.stack != [] && reg.knows(n) && reg.accepts(n, v)
    ensures Step(reg, m, n + w + ":" + v) == (Machine(With(m.stack, [Data(n, [], v)]), m.errors, InProgress), None)
  {
    hide Insert, Step, Params, ParamsAt, Trim, TrimRight, Unpadded;
    PropertyLineOf(reg, m, n, w, ':', v);
    ValueKept(v);
    ValueAfterColon(v);
    UnpaddedSome(v);
    OneTrouble(BadName(""));
  }

  /**
    A parameter without an equals sign ends the parameters, and everything behind its separator
    counts as the value, other parameters included
   */
  lemma BadParameter(reg: Registry, m: Machine, n: string, w: string, x: string, sep: char, v: string)
    requires IsName(n) && AllBlank(w) && !SpellsBegin(n) && !SpellsEnd(n) && IsName(x) && Unpadded(v)
    requires sep == ':' || (sep == ';' && v[0] != '"' && Sees(':', v))
    requires m.stack != [] && m.errors <= 100 && reg.knows(n) && reg.accepts(n, v)
    ensures var e := Trouble(ParameterNameParseError, First("Cant parse parameter name: " + x, 1023));
            Step(reg, m, n + w + ";" + (x + [sep] + v)) ==
            (Machine(With(m.stack, [Data(n, [], v), e]), m.errors + 1, InProgress), None)
  {
    hide *;
    PropertyLineOf(reg, m, n, w, ';', x + [sep] + v);
    UnpaddedSome(v);
    NotAParameter(n + w + [';'], x, sep, v);
    OneTrouble(BadName(x));
    assert "Cant parse parameter name" + ": " + x == "Cant parse parameter name: " + x;
    AcceptedWith(reg, m, n + w + [';'] + (x + [sep] + v), n, |n + w| + 1, v, BadName(x));
    TroubleIs(BadName(x));
  }

  lemma NotAParameter(before: string, x: string, sep: char, v: string)
    requires before != [] && before[|before| - 1] == ';' && IsName(x) && v != []
    requires sep == ':' || (sep == ';' && v[0] != '"' && Sees(':', v))
    ensures Params(before, x + [sep] + v, 100) == Parsed([], v, [BadName(x)])
  {
    hide NextParameter, RawParam, Trim, Decode, Sees;
    var text := x + [sep] + v;
    assert text[|x| + 1..] == v;
    NextName(x, sep, v);
    NoEquals(x);
    assert TakeParam(before, text) == Some(Taken(None, Some(BadName(x)), |x| + 1));
  }

  lemma NextName(x: string, sep: char, v: string)
    requires IsName(x) && v != []
    requires sep == ':' || (sep == ';' && v[0] != '"' && Sees(':', v))
    ensures NextParameter(x + [sep] + v) == Some((x, |x| + 1)) && Trim(x) == x
  {
    hide FirstHit, ScansOver, Trim, TrimRight, Hit, Sees;
    var rest := [sep] + v;
    var text := x + [sep] + v;
    assert text == x + rest && text[..|x|] == x;
    NameScans(x, rest);
    SeparatorAfter(x, rest);
    NameStart(x);
    TrimKeeps(x);
    if sep == ';' {
      ColonBehind(x, v);
      SeenIsFound(text);
    }
  }

  lemma NoEquals(x: string)
    requires IsName(x)
    ensures RawParam(x) == None
  {
    hide FirstHit;
    assert FirstHit('=', x, true) == |x|;
  }

  lemma SeenIsFound(text: string)
    requires Sees(':', text)
    ensures FirstHit(':', text, true) < |text|
  {
    hide FirstHit, Hit;
  }

  lemma ColonBehind(x: string, v: string)
    requires IsName(x) && v != [] && v[0] != '"' && Sees(':', v)
    ensures Sees(':', x + [';'] + v)
  {
    hide Quoted, Hit, ScansOver;
    var t := x + [';'] + v;
    assert t == x + ([';'] + v);
    NameScans(x, [';'] + v);
    ScanEnds(x, t);
    QuotedAfterSeparator(t, |x|);
    var k :| 0 <= k < |v| && Hit(':', v, k, true);
    FirstIsNoHit(v);
    HitAfter(x + [';'], v, ':', k);
    assert Hit(':', t, |x| + 1 + k, true);
  }

  lemma TroubleIs(e: ParamError)
    ensures e.BadName? ==> ParamTrouble(e) ==
                           Trouble(ParameterNameParseError, First("Cant parse parameter name" + ": " + e.text, 1023))
    ensures e.BadValue? ==> ParamTrouble(e) ==
                            Trouble(ParameterValueParseError, First("Cant parse parameter value" + ": " + e.text, 1023))
  {
  }

  /** An accepted property line with one parameter that could not be read */
  lemma AcceptedWith(reg: Registry, m: Machine, line: string, n: string, end: nat, v: string, e: ParamError)
    requires m.stack != [] && m.errors <= 100 && reg.knows(n) && reg.accepts(n, v) && Unpadded(v)
    requires 0 < end <= |line| && ParamsAt(line, end, 100) == Parsed([], v, [e])
    ensures PropertyStep(reg, m, line, n, end) ==
            Machine(With(m.stack, [Data(n, [], v), ParamTrouble(e)]), m.errors + 1, InProgress)
  {
    hide Params, ParamsAt, Trim, TrimRight, Unpadded, ParamTrouble, Insert, InsertAll, ParamTroubles;
    ValueKept(v);
    ValueAfterColon(v);
    UnpaddedSome(v);
    OneTrouble(e);
    InsertOne(m.(stack := WithEntry(m.stack, Data(n, [], v))), ParamTrouble(e));
    WithTwo(m.stack, Data(n, [], v), ParamTrouble(e));
  }

  lemma WithTwo(stack: seq<Node>, d: Entry, e: Entry)
    requires stack != []
    ensures With(WithEntry(stack, d), [e]) == With(stack, [d, e])
  {
    var es := Entries(stack);
    assert es + [d] + [e] == es + [d, e];
  }

  /** The workaround on a property name of one letter finds no equals sign; the value is still taken */
  lemma BadZone(reg: Registry, m: Machine, n: string, tz: string, a: string, b: string, v: string)
    requires IsName(n) && |n| == 1 && '^' !in n && SpellsTzid(tz) && IsZoneText(a) && ':' !in a && IsZoneText(b)
    requires b != [] && '=' !in a + ":" + b && Unpadded(v) && Silent(v)
    requires m.stack != [] && m.errors <= 100 && reg.knows(n) && reg.accepts(n, v)
    ensures var e := Trouble(ParameterValueParseError, First("Cant parse parameter value: =" + (a + ":" + b), 1023));
            Step(reg, m, n + ";" + (tz + "=" + (a + ":" + b) + (":" + v))) ==
            (Machine(With(m.stack, [Data(n, [], v), e]), m.errors + 1, InProgress), None)
  {
    hide *;
    var z := a + ":" + b;
    var rest := tz + "=" + z + (":" + v);
    OneLetter(n, tz);
    assert n + "" == n;
    PropertyLineOf(reg, m, n, "", ';', rest);
    UnpaddedSome(v);
    NothingElse(v);
    ZoneAndRest(n + [';'], tz, a, b, [], v, 100);
    assert "Cant parse parameter value" + ": " + ("=" + z) == "Cant parse parameter value: =" + z;
    AcceptedWith(reg, m, n + [';'] + rest, n, 2, v, BadValue("=" + z));
    TroubleIs(BadValue("=" + z));
  }

  lemma OneLetter(n: string, tz: string)
    requires IsName(n) && |n| == 1 && '^' !in n && SpellsTzid(tz)
    ensures IsPlainText(n + [';'] + tz) && !SpellsBegin(n) && !SpellsEnd(n) && AllBlank("")
  {
  }

  lemma NothingElse(v: string)
    ensures AllPrintable([]) && Survive([]) && !ReadsOn([], v) && AfterName([], v) == ":" + v
  {
  }

  // ------------------------------------------------------------------------------------
  // Lines without content

  /** A line of blanks, tabs and line feeds does nothing */
  lemma BlankDoesNothing(reg: Registry, m: Machine, line: string)
    requires forall i :: 0 <= i < |line| ==> line[i] == ' ' || line[i] == '\t' || line[i] == '\n'
    ensures Step(reg, m, line) == (m, None)
  {
  }

  /** A separator with nothing but blanks before it does not make a name */
  lemma BlankName(reg: Registry, m: Machine, w: string, sep: char, v: string)
    requires w != [] && AllBlank(w) && (sep == ';' || sep == ':') && m.stack != [] && m.errors <= 100
    ensures var line := w + [sep] + v;
            var text := "Got a data line, but could not find a property name or component begin tag: " + line;
            Step(reg, m, line) ==
            (Machine(With(m.stack, [Trouble(ComponentParseError, First(text, 1023))]), m.errors + 1, Failed), None)
  {
    hide FirstHit, With, Insert, ScansOver, TrimRight;
    var line, rest := w + [sep] + v, [sep] + v;
    assert line == w + rest && line[..|w|] == w && line[|w|] == sep;
    OnlyBlanks(w, rest);
    SeparatorAfter(w, rest);
    assert !IsBlankLine(line);
    var text := "Got a data line, but could not find a property name or component begin tag: " + line;
    assert NO_NAME + ": " + line == text;
    assert ErrorText(NO_NAME, Some(line)) == First(text, 1023);
    InsertOne(m, Trouble(ComponentParseError, First(text, 1023)));
  }

  lemma {:induction false} OnlyBlanks(w: string, rest: string)
    requires w != [] && AllBlank(w) && rest != []
    ensures ScansOver(w, w + rest) && TrimRight(w) == []
    decreases |w|
  {
    var t := w + rest;
    assert forall k :: 0 <= k < |w| ==> t[k] == w[k];
    NoToggle(t, 0, |w|);
    if |w| > 1 {
      OnlyBlanks(w[..|w| - 1], [w[|w| - 1]] + rest);
    }
  }

  // ------------------------------------------------------------------------------------
  // The name behind BEGIN

  /** Without a comma it is the whole text, without white space at its end */
  lemma NameWithoutComma(v: string)
    requires v != [] && ',' !in v
    ensures ComponentName(v) == Some(TrimRight(v))
  {
    hide FirstHit, TrimRight;
    assert v[0..] == v && v[..|v|] == v;
    assert FirstHit(',', v, true) == |v|;
  }

  /** It ends at the first comma */
  lemma NameEndsAtComma(x: string, y: string)
    requires x != [] && ',' !in x && '"' !in x && '\\' !in x
    ensures ComponentName(x + "," + y) == Some(TrimRight(x))
  {
    hide FirstHit, TrimRight;
    var v := x + "," + y;
    assert v[0..] == v && v[..|x|] == x && forall k :: 0 <= k < |x| ==> v[k] == x[k];
    NoToggle(v, 0, |x|);
    assert Hit(',', v, |x|, true);
    FirstHitAt(',', v, |x|, true);
    assert v[0] == x[0];
  }

  /** In quotes it is the whole text, commas included */
  lemma QuotedName(u: string)
    ensures ComponentName("\"" + u + "\"") == Some("\"" + u + "\"")
  {
    TrimKeeps("\"" + u + "\"");
  }

  /** A comma is passed over when a backslash stands three characters before it */
  lemma PassedComma()
    ensures ComponentName("a\\bc,d") == Some("a\\bc,d")
  {
    var v := "a\\bc,d";
    assert v[0..] == v;
    assert !Quoted(v, 4) && Hit(',', v, 4, true);
    FirstHitAt(',', v, 4, true);
    assert v[5..] == "d";
    assert FirstHit(',', "d", true) == 1;
    assert CommaFrom(v, 5) == 6 && CommaFrom(v, 0) == 6;
    TrimKeeps(v);
  }

  /** Nothing behind BEGIN opens a component of no kind */
  lemma BeginNothing(reg: Registry, m: Machine, n: string)
    requires SpellsBegin(n)
    ensures Step(reg, m, n + ":") == (Machine(m.stack + [Node(NoComponent, [], [])], m.errors, BeginComponent), None)
  {
    hide Step, SpellsBegin;
    assert n + "" + [':'] + "" == n + ":";
    BeginOpens(reg, m, n, "", ':', "");
  }
}
