/** What holds over every run of the parser, from the first line to the component it returns. */
module ParserRuns {
  import opened CText
  import opened Lists
  import opened ComponentKinds
  import opened ContentLine
  import opened Components
  import opened ParserStack
  import opened Gathering
  import opened LineReader
  import opened TokenRoundTrip

  /** The machine after some lines, and the components that were finished on the way */
  function Run(reg: Registry, m: Machine, lines: seq<string>): (Machine, seq<Node>)
    decreases |lines|
  {
    if lines == [] then (m, [])
    else
      var (m', c) := Step(reg, m, lines[0]);
      var (end, more) := Run(reg, m', lines[1..]);
      (end, (if c.Some? then [c.value] else []) + more)
  }

  lemma {:induction false} RunConcat(reg: Registry, m: Machine, a: seq<string>, b: seq<string>)
    ensures var (m1, c1) := Run(reg, m, a);
            var (m2, c2) := Run(reg, m1, b);
            Run(reg, m, a + b) == (m2, c1 + c2)
    decreases |a|
  {
    hide Step;
    if a == [] {
      assert a + b == b;
      assert [] + Run(reg, m, b).1 == Run(reg, m, b).1;
    } else {
      var (m', c) := Step(reg, m, a[0]);
      RunConcat(reg, m', a[1..], b);
      assert (a + b)[1..] == a[1..] + b && (a + b)[0] == a[0];
      var (m1, c1) := Run(reg, m', a[1..]);
      ConcatAssoc(if c.Some? then [c.value] else [], c1, Run(reg, m1, b).1);
    }
  }

  // ------------------------------------------------------------------------------------
  // Nesting

  predicate Opens(line: string) {
    !IsBlankLine(line) && PropName(line).Some? && SameName(PropName(line).value.0, "BEGIN")
  }

  predicate Closes(line: string) {
    !IsBlankLine(line) && PropName(line).Some? && SameName(PropName(line).value.0, "END")
  }

  function DepthAfter(depth: nat, line: string): nat {
    if Opens(line) then depth + 1 else if Closes(line) && depth > 0 then depth - 1 else depth
  }

  /** The nesting depth after some lines: an END without a BEGIN is ignored */
  function Depth(depth: nat, lines: seq<string>): nat
    decreases |lines|
  {
    if lines == [] then depth else Depth(DepthAfter(depth, lines[0]), lines[1..])
  }

  /** How often the outermost component is closed */
  function Completions(depth: nat, lines: seq<string>): nat
    decreases |lines|
  {
    if lines == [] then 0
    else (if depth == 1 && Closes(lines[0]) then 1 else 0) + Completions(DepthAfter(depth, lines[0]), lines[1..])
  }

  lemma NotBoth(line: string)
    ensures !(Opens(line) && Closes(line))
  {
    hide IsBlankLine, PropName;
  }

  lemma StepDepth(reg: Registry, m: Machine, line: string)
    ensures |Step(reg, m, line).0.stack| == DepthAfter(|m.stack|, line)
    ensures Step(reg, m, line).1.Some? <==> |m.stack| == 1 && Closes(line)
  {
    hide IsBlankLine, PropName, PropertyStep, NoName, KindNamed, ComponentName, AddChild;
    NotBoth(line);
    NamesNotEmpty();
  }

  lemma NamesNotEmpty()
    ensures !SameName([], "BEGIN") && !SameName([], "END")
  {
  }

  /** A component is returned exactly when an END closes the outermost one, and never otherwise */
  lemma {:induction false} RunDepth(reg: Registry, m: Machine, lines: seq<string>)
    ensures |Run(reg, m, lines).0.stack| == Depth(|m.stack|, lines)
    ensures |Run(reg, m, lines).1| == Completions(|m.stack|, lines)
    decreases |lines|
  {
    hide Step, Opens, Closes;
    if lines != [] {
      StepDepth(reg, m, lines[0]);
      RunDepth(reg, Step(reg, m, lines[0]).0, lines[1..]);
    }
  }

  // ------------------------------------------------------------------------------------
  // Nothing is lost or doubled

  lemma EverythingTop(stack: seq<Node>)
    requires stack != []
    ensures var n := |stack| - 1;
            Everything(stack) == Everything(stack[..n]) + multiset(stack[n].entries) + Everything(stack[n].children)
  {
    var n := |stack| - 1;
    assert stack == stack[..n] + [stack[n]];
    EverythingConcat(stack[..n], [stack[n]]);
    EverythingOne(stack[n]);
  }

  lemma EverythingMore(stack: seq<Node>, es: seq<Entry>)
    requires stack != []
    ensures Everything(WithEntries(stack, Entries(stack) + es)) == Everything(stack) + multiset(es)
  {
    hide Everything;
    var n := |stack| - 1;
    var more := WithEntries(stack, Entries(stack) + es);
    EverythingTop(stack);
    EverythingTop(more);
    assert more[..n] == stack[..n];
  }

  lemma EverythingAttached(stack: seq<Node>)
    requires |stack| > 1
    ensures var n := |stack|;
            Everything(stack[..n - 2] + [AddChild(stack[n - 2], stack[n - 1])]) == Everything(stack)
  {
    hide *;
    var n := |stack|;
    var parent, child := stack[n - 2], stack[n - 1];
    assert stack == stack[..n - 2] + ([parent] + [child]);
    EverythingConcat(stack[..n - 2], [parent] + [child]);
    EverythingConcat([parent], [child]);
    EverythingConcat(stack[..n - 2], [AddChild(parent, child)]);
    EverythingChild(parent, child);
  }

  /** The property that a property line adds, if its name is known and its value accepted */
  function PropertyData(reg: Registry, line: string, name: string, end: nat): seq<Entry>
    requires 0 < end <= |line|
  {
    var parsed := ParamsAt(line, end, MAXIMUM_ALLOWED_PARAMETERS);
    match ValueText(parsed.rest)
    case None => []
    case Some(v) => if reg.knows(name) && reg.accepts(name, v) then [Data(name, parsed.params, v)] else []
  }

  /** The errors that a property line reports, whether or not there is room for them */
  function PropertyReports(reg: Registry, line: string, name: string, end: nat): seq<Entry>
    requires 0 < end <= |line|
  {
    if !reg.knows(name) then
      [Trouble(PropertyParseError, ErrorText("Parse error in property name", Some(name)))]
    else
      var parsed := ParamsAt(line, end, MAXIMUM_ALLOWED_PARAMETERS);
      var es := ParamTroubles(parsed.errors);
      match ValueText(parsed.rest)
      case None => es + [NoValueTrouble(reg, name)]
      case Some(v) => if reg.accepts(name, v) then es else es + [BadValueTrouble(reg, name, v)]
  }

  /** A line inside some component that is neither blank, nor nameless, nor a BEGIN or END */
  predicate HoldsProperty(depth: nat, line: string) {
    depth > 0 && !IsBlankLine(line) && !Nameless(line) && !Opens(line) && !Closes(line)
  }

  predicate Nameless(line: string) {
    PropName(line).None? || PropName(line).value.0 == []
  }

  /** The property that a line at some depth adds */
  function DataIn(reg: Registry, depth: nat, line: string): seq<Entry> {
    if HoldsProperty(depth, line) then
      PropNameEnd(line);
      PropertyData(reg, line, PropName(line).value.0, PropName(line).value.1)
    else []
  }

  /** The errors that a line at some depth reports */
  function Reports(reg: Registry, depth: nat, line: string): seq<Entry> {
    if HoldsProperty(depth, line) then
      PropNameEnd(line);
      PropertyReports(reg, line, PropName(line).value.0, PropName(line).value.1)
    else if depth > 0 && !IsBlankLine(line) && Nameless(line) then
      [Trouble(ComponentParseError, ErrorText(NO_NAME, Some(line)))]
    else []
  }

  /** The step adds these properties, and of these errors as many as there is room for */
  ghost predicate Keeps(m: Machine, m': Machine, c: Option<Node>, data: seq<Entry>, reports: seq<Entry>) {
    var r := Recorded(m.errors, reports);
    && Everything(m'.stack) + Everything(if c.Some? then [c.value] else []) ==
       Everything(m.stack) + (multiset(data) + multiset(r))
    && m'.errors == m.errors + |r|
  }

  lemma KeepsNothing(m: Machine, m': Machine, c: Option<Node>)
    requires Everything(m'.stack) + Everything(if c.Some? then [c.value] else []) == Everything(m.stack)
    requires m'.errors == m.errors
    ensures Keeps(m, m', c, [], [])
  {
    hide Everything;
  }

  lemma InsertKeeps(m: Machine, data: seq<Entry>, es: seq<Entry>)
    requires m.stack != []
    ensures var with := m.(stack := WithEntries(m.stack, Entries(m.stack) + data));
            with.stack != [] && Keeps(m, InsertAll(with, es), None, data, es)
  {
    hide Everything, WithEntries, Entries, InsertAll, Recorded;
    var with := m.(stack := WithEntries(m.stack, Entries(m.stack) + data));
    InsertAllIs(with, es);
    EverythingMore(m.stack, data);
    EverythingMore(with.stack, Recorded(m.errors, es));
    EverythingEmpty();
  }

  lemma InsertOnly(m: Machine, es: seq<Entry>)
    requires m.stack != []
    ensures Keeps(m, InsertAll(m, es), None, [], es)
  {
    hide Keeps, WithEntries, Entries, InsertAll;
    EntriesSet(m.stack, [], []);
    assert Entries(m.stack) + [] == Entries(m.stack);
    InsertKeeps(m, [], es);
  }

  lemma InsertOne(m: Machine, e: Entry)
    requires m.stack != []
    ensures Insert(m, e) == InsertAll(m, [e])
  {
    hide Insert;
    assert [e][1..] == [];
  }

  lemma KeepsState(m: Machine, m': Machine, state: State, c: Option<Node>, data: seq<Entry>, reports: seq<Entry>)
    requires Keeps(m, m', c, data, reports)
    ensures Keeps(m, m'.(state := state), c, data, reports)
  {
    hide Everything;
  }

  lemma PropertyKeeps(reg: Registry, m: Machine, line: string, name: string, end: nat)
    requires m.stack != [] && 0 < end <= |line|
    ensures Keeps(m, PropertyStep(reg, m, line, name, end), None,
                  PropertyData(reg, line, name, end), PropertyReports(reg, line, name, end))
  {
    hide Keeps, Insert, InsertAll, ErrorText, Clip, ParamTroubles, ParamsAt, ValueText, WithEntries, Entries;
    var parsed := ParamsAt(line, end, MAXIMUM_ALLOWED_PARAMETERS);
    var es := ParamTroubles(parsed.errors);
    if !reg.knows(name) {
      var e := Trouble(PropertyParseError, ErrorText("Parse error in property name", Some(name)));
      InsertOne(m, e);
      InsertOnly(m, [e]);
      KeepsState(m, InsertAll(m, [e]), Failed, None, [], [e]);
    } else {
      match ValueText(parsed.rest)
      case None =>
        var all := es + [NoValueTrouble(reg, name)];
        InsertOnly(m, all);
        KeepsState(m, InsertAll(m, all), Failed, None, [], all);
      case Some(v) =>
        if reg.accepts(name, v) {
          var d := Data(name, parsed.params, v);
          InsertKeeps(m, [d], es);
          KeepsState(m, InsertAll(m.(stack := WithEntry(m.stack, d)), es), InProgress, None, [d], es);
        } else {
          var all := es + [BadValueTrouble(reg, name, v)];
          InsertOnly(m, all);
          KeepsState(m, InsertAll(m, all), Failed, None, [], all);
        }
    }
  }

  lemma NamelessKeeps(m: Machine, line: string)
    requires m.stack != []
    ensures Keeps(m, NoName(m, line), None, [], [Trouble(ComponentParseError, ErrorText(NO_NAME, Some(line)))])
  {
    hide Keeps, Insert, InsertAll, ErrorText;
    var e := Trouble(ComponentParseError, ErrorText(NO_NAME, Some(line)));
    InsertOne(m, e);
    InsertOnly(m, [e]);
    KeepsState(m, InsertAll(m, [e]), Failed, None, [], [e]);
  }

  lemma OpenKeeps(m: Machine, kind: Kind)
    ensures Keeps(m, m.(stack := m.stack + [Node(kind, [], [])], state := BeginComponent), None, [], [])
  {
    hide Everything;
    EverythingEmpty();
    EverythingConcat(m.stack, [Node(kind, [], [])]);
    EverythingOne(Node(kind, [], []));
  }

  lemma CloseKeeps(m: Machine)
    ensures Keeps(m, Close(m).0, Close(m).1, [], [])
  {
    hide Everything, AddChild;
    EverythingEmpty();
    if |m.stack| == 1 {
      assert m.stack == [m.stack[0]];
    } else if |m.stack| > 1 {
      EverythingAttached(m.stack);
    }
    KeepsNothing(m, Close(m).0, Close(m).1);
  }

  /** What leaves the stack is finished; everything else stays, and the line adds its entries once */
  lemma StepKeeps(reg: Registry, m: Machine, line: string)
    ensures Keeps(m, Step(reg, m, line).0, Step(reg, m, line).1,
                  DataIn(reg, |m.stack|, line), Reports(reg, |m.stack|, line))
  {
    hide Keeps, PropertyStep, PropertyData, PropertyReports, PropName, IsBlankLine, KindNamed, ComponentName, Close,
        NoName, ErrorText;
    EverythingEmpty();
    NamesNotEmpty();
    NotBoth(line);
    KeepsNothing(m, m, None);
    KeepsState(m, m, Failed, None, [], []);
    CloseKeeps(m);
    if !IsBlankLine(line) {
      if Nameless(line) {
        if m.stack != [] {
          NamelessKeeps(m, line);
        } else {
          NamelessOutside(m, line);
        }
      } else {
        PropNameEnd(line);
        var (name, end) := PropName(line).value;
        OpenKeeps(m, KindNamed(ComponentName(line[end..])));
        if m.stack != [] {
          PropertyKeeps(reg, m, line, name, end);
        }
      }
    }
  }

  lemma NamelessOutside(m: Machine, line: string)
    requires m.stack == []
    ensures NoName(m, line) == m.(state := Failed)
  {
  }

  /** The properties that some lines add, read off the lines alone */
  function AllDataIn(reg: Registry, depth: nat, lines: seq<string>): seq<Entry>
    decreases |lines|
  {
    if lines == [] then []
    else DataIn(reg, depth, lines[0]) + AllDataIn(reg, DepthAfter(depth, lines[0]), lines[1..])
  }

  /** The errors that some lines report, whatever the limit, read off the lines alone */
  function AllReports(reg: Registry, depth: nat, lines: seq<string>): seq<Entry>
    decreases |lines|
  {
    if lines == [] then []
    else Reports(reg, depth, lines[0]) + AllReports(reg, DepthAfter(depth, lines[0]), lines[1..])
  }

  lemma RecordedConcat(errors: nat, a: seq<Entry>, b: seq<Entry>)
    ensures var r := Recorded(errors, a); Recorded(errors, a + b) == r + Recorded(errors + |r|, b)
  {
  }

  ghost predicate RunKeepsAll(m: Machine, end: Machine, done: seq<Node>, data: seq<Entry>, reports: seq<Entry>) {
    var r := Recorded(m.errors, reports);
    && Everything(end.stack) + Everything(done) == Everything(m.stack) + (multiset(data) + multiset(r))
    && end.errors == m.errors + |r|
  }

  lemma KeepsChain(m: Machine, m': Machine, c: Option<Node>, end: Machine, done: seq<Node>,
                   d1: seq<Entry>, r1: seq<Entry>, d2: seq<Entry>, r2: seq<Entry>)
    requires Keeps(m, m', c, d1, r1) && RunKeepsAll(m', end, done, d2, r2)
    ensures RunKeepsAll(m, end, (if c.Some? then [c.value] else []) + done, d1 + d2, r1 + r2)
  {
    hide Everything, Recorded;
    var first := if c.Some? then [c.value] else [];
    var a, b := Recorded(m.errors, r1), Recorded(m'.errors, r2);
    RecordedConcat(m.errors, r1, r2);
    EverythingConcat(first, done);
    Chained(Everything(m.stack), Everything(m'.stack), Everything(end.stack), Everything(first), Everything(done),
            multiset(d1) + multiset(a), multiset(d2) + multiset(b));
    assert multiset(d1 + d2) == multiset(d1) + multiset(d2) && multiset(a + b) == multiset(a) + multiset(b);
  }

  lemma {:induction false} RunKeeps(reg: Registry, m: Machine, lines: seq<string>)
    ensures RunKeepsAll(m, Run(reg, m, lines).0, Run(reg, m, lines).1,
                        AllDataIn(reg, |m.stack|, lines), AllReports(reg, |m.stack|, lines))
    decreases |lines|
  {
    hide Step, DataIn, Reports, Everything, Keeps, DepthAfter;
    if lines == [] {
      EverythingEmpty();
    } else {
      hide RunKeepsAll;
      var (m', c) := Step(reg, m, lines[0]);
      StepKeeps(reg, m, lines[0]);
      StepDepth(reg, m, lines[0]);
      RunKeeps(reg, m', lines[1..]);
      var (end, done) := Run(reg, m', lines[1..]);
      var depth := DepthAfter(|m.stack|, lines[0]);
      KeepsChain(m, m', c, end, done, DataIn(reg, |m.stack|, lines[0]), Reports(reg, |m.stack|, lines[0]),
                 AllDataIn(reg, depth, lines[1..]), AllReports(reg, depth, lines[1..]));
    }
  }

  lemma Chained(e0: multiset<Entry>, e1: multiset<Entry>, e2: multiset<Entry>, d1: multiset<Entry>, d2: multiset<Entry>,
                a: multiset<Entry>, b: multiset<Entry>)
    requires e1 + d1 == e0 + a && e2 + d2 == e1 + b
    ensures e2 + (d1 + d2) == e0 + (a + b)
  {
    assert e2 + (d1 + d2) == (e2 + d2) + d1;
    assert (e1 + b) + d1 == (e1 + d1) + b;
  }

  /**
    After any run from the start, the finished and the open components together hold exactly
    the properties of the lines and the first 101 errors that the lines report. So the limit
    of 100 errors is kept exactly when no more than 100 are reported.
   */
  lemma RunConserves(reg: Registry, lines: seq<string>)
    ensures var (end, done) := Run(reg, START, lines);
            var reports := AllReports(reg, 0, lines);
            && Everything(end.stack) + Everything(done) ==
               multiset(AllDataIn(reg, 0, lines)) + multiset(Recorded(0, reports))
            && end.errors == (if |reports| <= MAXIMUM_ALLOWED_ERRORS then |reports| else MAXIMUM_ALLOWED_ERRORS + 1)
            && (end.errors <= MAXIMUM_ALLOWED_ERRORS <==> |reports| <= MAXIMUM_ALLOWED_ERRORS)
  {
    hide Run, AllDataIn, AllReports, Everything;
    RunKeeps(reg, START, lines);
    EverythingEmpty();
  }

  // ------------------------------------------------------------------------------------
  // The limit of errors is overrun by one

  function Times(line: string, n: nat): (lines: seq<string>)
    ensures |lines| == n
  {
    if n == 0 then [] else [line] + Times(line, n - 1)
  }

  lemma {:induction false} NamelessReports(reg: Registry, depth: nat, n: nat)
    requires depth > 0
    ensures |AllReports(reg, depth, Times("x", n))| == n
  {
    hide Reports, DepthAfter;
    if n > 0 {
      NamelessLine(reg, depth);
      NamelessReports(reg, depth, n - 1);
      assert Times("x", n)[0] == "x" && Times("x", n)[1..] == Times("x", n - 1);
    }
  }

  lemma NamelessLine(reg: Registry, depth: nat)
    requires depth > 0
    ensures |Reports(reg, depth, "x")| == 1 && DepthAfter(depth, "x") == depth
  {
    hide ErrorText;
    assert FirstHit(';', "x", true) == 1 && FirstHit(':', "x", true) == 1;
    assert "x"[0] == 'x';
  }

  lemma BeginLineOpens()
    ensures Opens("BEGIN:VEVENT") && !IsBlankLine("BEGIN:VEVENT") && !Nameless("BEGIN:VEVENT")
  {
    hide PropName;
    var name, line := "BEGIN", "BEGIN:VEVENT";
    assert line == PropertyLine(name, [], "VEVENT");
    assert line[0] == 'B';
    PropNameOfPrinted(name, [], "VEVENT");
    assert SameName(name, "BEGIN");
  }

  /** A BEGIN and 101 lines without a name: 101 errors are counted */
  lemma ErrorLimitExample(reg: Registry)
    ensures Run(reg, START, ["BEGIN:VEVENT"] + Times("x", 101)).0.errors == 101 > MAXIMUM_ALLOWED_ERRORS
  {
    hide Run, Reports, Opens, IsBlankLine, Nameless;
    var begin, rest := "BEGIN:VEVENT", Times("x", 101);
    var lines := [begin] + rest;
    BeginLineOpens();
    NotBoth(begin);
    BeginReports(reg, begin);
    assert lines[0] == begin && lines[1..] == rest;
    NamelessReports(reg, 1, 101);
    assert AllReports(reg, 0, lines) == [] + AllReports(reg, 1, rest);
    RunConserves(reg, lines);
  }

  lemma BeginReports(reg: Registry, line: string)
    ensures Reports(reg, 0, line) == []
  {
  }

  // ------------------------------------------------------------------------------------
  // The root

  predicate NoRoots(nodes: seq<Node>) {
    forall i :: 0 <= i < |nodes| ==> nodes[i].kind != XRoot
  }

  lemma InsertNoRoots(m: Machine, es: seq<Entry>)
    requires m.stack != [] && NoRoots(m.stack)
    ensures NoRoots(InsertAll(m, es).stack)
  {
    hide InsertAll, Recorded;
    InsertAllIs(m, es);
  }

  lemma PropertyNoRoots(reg: Registry, m: Machine, line: string, name: string, end: nat)
    requires m.stack != [] && NoRoots(m.stack) && 0 < end <= |line|
    ensures NoRoots(PropertyStep(reg, m, line, name, end).stack)
  {
    hide InsertAll, ErrorText, ParamTroubles, ParamsAt, ValueText, Clip;
    if reg.knows(name) {
      var parsed := ParamsAt(line, end, MAXIMUM_ALLOWED_PARAMETERS);
      var es := ParamTroubles(parsed.errors);
      match ValueText(parsed.rest)
      case None => InsertNoRoots(m, es + [NoValueTrouble(reg, name)]);
      case Some(v) =>
        if reg.accepts(name, v) {
          InsertNoRoots(m.(stack := WithEntry(m.stack, Data(name, parsed.params, v))), es);
        } else {
          InsertNoRoots(m, es + [BadValueTrouble(reg, name, v)]);
        }
    }
  }

  lemma NoRootNamed(name: Option<string>)
    ensures KindNamed(name) != XRoot
  {
    hide KindOf, Name;
    if name.Some? {
      KindOfName(name.value, XRoot);
    }
  }

  lemma CloseNoRoots(m: Machine)
    requires NoRoots(m.stack)
    ensures NoRoots(Close(m).0.stack) && (Close(m).1.Some? ==> Close(m).1.value.kind != XRoot)
  {
  }

  /** No text names the kind of the container, so a parsed component is never taken for one */
  lemma StepNoRoots(reg: Registry, m: Machine, line: string)
    requires NoRoots(m.stack)
    ensures NoRoots(Step(reg, m, line).0.stack)
    ensures Step(reg, m, line).1.Some? ==> Step(reg, m, line).1.value.kind != XRoot
  {
    hide PropName, IsBlankLine, SameName, ComponentName, KindNamed, ErrorText, PropertyStep, Close;
    PropNameEnd(line);
    CloseNoRoots(m);
    if PropName(line).Some? {
      var (name, end) := PropName(line).value;
      NoRootNamed(ComponentName(line[end..]));
      if m.stack != [] {
        PropertyNoRoots(reg, m, line, name, end);
      }
    }
  }

  /** The lines that the reader delivers for a text */
  function InputLines(input: string): seq<string> {
    var text := Delivered(SkipBom(input));
    if text == "" then [] else [""] + ContentLines(text)
  }

  /** One more finished component in `icalparser_parse` */
  method AddRoot(root: Option<Node>, c: Node, ghost cs: seq<Node>) returns (r: Option<Node>)
    requires root == Rooted(cs) && NoRoots(cs + [c])
    ensures r == Rooted(cs + [c])
  {
    assert (cs + [c])[..|cs|] == cs && (cs + [c])[|cs|] == c;
    RootedKind(cs, c);
    if root.None? {
      r := Some(c);
    } else if root.value.kind != XRoot {
      GatherTwo(cs[0], c);
      assert cs + [c] == [cs[0], c];
      r := Some(AddChild(AddChild(Node(XRoot, [], []), root.value), c));
    } else {
      r := Some(AddChild(root.value, c));
    }
  }

  lemma RootedKind(cs: seq<Node>, c: Node)
    requires NoRoots(cs + [c])
    ensures Rooted(cs).Some? ==> (Rooted(cs).value.kind == XRoot <==> |cs| > 1)
  {
    GatherKind(Node(XRoot, [], []), cs);
    if |cs| == 1 {
      assert (cs + [c])[0] == cs[0];
    }
  }

  method OpenReader(input: string) returns (reader: Reader)
    requires IsCString(input)
    ensures fresh(reader) && fresh(reader.temp) && reader.Valid() && Remaining(reader) == InputLines(input)
  {
    reader := new Reader(input);
  }

  /** `icalparser_parse_string`: reads all lines, feeds them to the parser, gathers what is finished */
  method ParseString(registry: Registry, input: string) returns (root: Option<Node>)
    requires IsCString(input)
    ensures root == Rooted(Run(registry, START, InputLines(input)).1)
    ensures var cs := Run(registry, START, InputLines(input)).1;
            && (root.None? <==> cs == [])
            && (|cs| == 1 ==> root == Some(cs[0]))
            && (|cs| >= 2 ==> root == Some(Node(XRoot, [], Reverse(Zones(cs)) + Others(cs))))
            && (root.Some? ==> Everything([root.value]) == Everything(cs))
  {
    hide *;
    var parser := new Parser(registry);
    var reader := OpenReader(input);
    ghost var all := InputLines(input);
    ghost var fed: seq<string>, done: seq<Node> := [], [];
    RunNothing(registry, START);
    Initially(parser);
    root := None;
    var line := NextRemaining(reader);
    ReaderAllocated(reader);
    while line.Some?
      invariant reader.Valid() && reader.Allocated() && fresh(reader) && fresh(reader.temp)
      invariant parser.Valid() && fresh(parser) && parser.registry == registry
      invariant all == fed + (if line.Some? then [line.value] + Remaining(reader) else [])
      invariant (parser.Abstract(), done) == Run(registry, START, fed)
      invariant root == Rooted(done) && NoRoots(done) && NoRoots(parser.components)
      decreases line.Some?, |reader.Pending()|, reader.Held() == []
    {
      ghost var m := parser.Abstract();
      StackOf(parser);
      StepNoRoots(registry, m, line.value);
      RunNext(registry, START, fed, line.value);
      ConcatAssoc(fed, [line.value], Remaining(reader));
      var c := parser.AddLine(line);
      StackOf(parser);
      NoRootsMore(done, c);
      assert done + [] == done;
      if c.Some? {
        root := AddRoot(root, c.value, done);
        done := done + [c.value];
      }
      fed := fed + [line.value];
      line := NextRemaining(reader);
      ReaderAllocated(reader);
    }
    assert fed + [] == fed;
    var last := parser.AddLine(line);
    RootedWhole(done);
  }

  lemma ReaderAllocated(reader: Reader)
    requires reader.Valid()
    ensures reader.Allocated()
  {
  }

  lemma Initially(parser: Parser)
    requires parser.Abstract() == START
    ensures NoRoots(parser.components) && NoRoots([])
  {
  }

  lemma NoRootsMore(cs: seq<Node>, c: Option<Node>)
    requires NoRoots(cs) && (c.Some? ==> c.value.kind != XRoot)
    ensures c.Some? ==> NoRoots(cs + [c.value])
  {
  }

  lemma StackOf(parser: Parser)
    ensures parser.Abstract().stack == parser.components
  {
  }

  lemma RunNothing(reg: Registry, m: Machine)
    ensures Run(reg, m, []) == (m, [])
    ensures Rooted([]) == None
  {
  }

  lemma RunOne(reg: Registry, m: Machine, line: string)
    ensures var (m', c) := Step(reg, m, line);
            Run(reg, m, [line]) == (m', if c.Some? then [c.value] else [])
  {
    hide Step;
    var m' := Step(reg, m, line).0;
    assert [line][1..] == [] && [line][0] == line;
    assert Run(reg, m', []) == (m', []);
    var first := if Step(reg, m, line).1.Some? then [Step(reg, m, line).1.value] else [];
    assert first + [] == first;
  }

  lemma RunNext(reg: Registry, m: Machine, lines: seq<string>, line: string)
    ensures var (m1, c1) := Run(reg, m, lines);
            var (m2, c) := Step(reg, m1, line);
            Run(reg, m, lines + [line]) == (m2, c1 + (if c.Some? then [c.value] else []))
  {
    hide Step, Run;
    RunConcat(reg, m, lines, [line]);
    RunOne(reg, Run(reg, m, lines).0, line);
  }
}
