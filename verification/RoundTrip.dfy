/**
  Printing a tree of components and parsing the text: through the property printer, the
  folding, the chunked reader, the tokeniser and the stack machine.
 */
module RoundTrip {
  import opened CText
  import opened ComponentKinds
  import opened ParameterEncoding
  import opened ContentLine
  import opened TokenRoundTrip
  import opened LineReader
  import opened LineFolding
  import opened ParserStack
  import opened Gathering
  import opened ParserRuns

  // ------------------------------------------------------------------------------------
  // Printing

  /** The line of a property, before it is folded */
  function EntryLine(e: Entry): string
    requires e.Data?
  {
    PropertyLine(e.name, e.params, e.value)
  }

  /** Properties with a name, parameters and a value, as C strings */
  predicate AllData(es: seq<Entry>) {
    forall i :: 0 <= i < |es| ==> es[i].Data? && IsCString(EntryLine(es[i]))
  }

  function EntryText(e: Entry): string
    requires e.Data?
  {
    Fold(EntryLine(e) + "\r\n")
  }

  function EntriesText(es: seq<Entry>): string
    requires AllData(es)
  {
    if es == [] then [] else EntryText(es[0]) + EntriesText(es[1..])
  }

  function EntryLines(es: seq<Entry>): seq<string>
    requires AllData(es)
  {
    if es == [] then [] else [EntryLine(es[0])] + EntryLines(es[1..])
  }

  function BeginLine(kind: Kind): string {
    "BEGIN:" + Name(kind)
  }

  function EndLine(kind: Kind): string {
    "END:" + Name(kind)
  }

  /** The table has a name to print; X-components print a name of their own */
  predicate HasName(kind: Kind) {
    Named(kind) && kind != XComponent
  }

  /** All kinds and properties in the trees can be printed */
  predicate Plain(ts: seq<Node>)
    decreases ts
  {
    ts == [] || (HasName(ts[0].kind) && AllData(ts[0].entries) && Plain(ts[0].children) && Plain(ts[1..]))
  }

  /** The text of components, as `icalcomponent_as_ical_string_r` prints them one after the other */
  function Texts(ts: seq<Node>): string
    requires Plain(ts)
    decreases ts
  {
    if ts == [] then []
    else NodeText(ts[0].kind, EntriesText(ts[0].entries), Texts(ts[0].children)) + Texts(ts[1..])
  }

  function NodeText(kind: Kind, entries: string, children: string): string {
    BeginLine(kind) + "\r\n" + entries + children + EndLine(kind) + "\r\n"
  }

  /** The unfolded lines of the same text */
  function Lines(ts: seq<Node>): seq<string>
    requires Plain(ts)
    decreases ts
  {
    if ts == [] then []
    else NodeLines(ts[0].kind, EntryLines(ts[0].entries), Lines(ts[0].children)) + Lines(ts[1..])
  }

  function NodeLines(kind: Kind, entries: seq<string>, children: seq<string>): seq<string> {
    [BeginLine(kind)] + entries + children + [EndLine(kind)]
  }

  /** `icalproperty_as_ical_string_r`: assembles the line and folds it */
  method PrintProperty(e: Entry) returns (buf: string)
    requires e.Data? && IsCString(EntryLine(e))
    ensures buf == EntryText(e)
  {
    hide PropertyLine, Fold;
    var line := AssembleProperty(e.name, e.params, e.value);
    var text := new char[|line| + 1](i => if 0 <= i < |line| then line[i] else NUL);
    assert text[..][..|line|] == line && text[..][|line|] == NUL;
    CStrUntil(text[..], |line|);
    buf := FoldPropertyLine(text);
  }

  method PrintProperties(es: seq<Entry>) returns (buf: string)
    requires AllData(es)
    ensures buf == EntriesText(es)
  {
    hide EntryText, EntryLine;
    buf := "";
    assert es[0..] == es && [] + EntriesText(es) == EntriesText(es);
    for i := 0 to |es|
      invariant EntriesText(es) == buf + EntriesText(es[i..])
    {
      assert es[i..][1..] == es[i + 1..];
      var property := PrintProperty(es[i]);
      ConcatAssoc(buf, property, EntriesText(es[i + 1..]));
      buf := buf + property;
    }
    assert es[|es|..] == [] && buf + [] == buf;
  }

  lemma PlainAfter(ts: seq<Node>, i: nat)
    requires Plain(ts) && i < |ts|
    ensures Plain(ts[i..]) && Plain(ts[i + 1..]) && ts[i..][1..] == ts[i + 1..]
    ensures Plain([ts[i]])
    ensures Texts(ts[i..]) == Texts([ts[i]]) + Texts(ts[i + 1..])
    decreases i
  {
    hide NodeText, EntriesText, AllData;
    assert ts[i..][1..] == ts[i + 1..];
    if i > 0 {
      PlainAfter(ts[1..], i - 1);
      assert ts[1..][i - 1..] == ts[i..] && ts[1..][i - 1 + 1..] == ts[i + 1..];
    } else {
      assert ts[0..] == ts;
      assert [ts[0]][1..] == [];
      assert Texts([]) == [];
      var first := NodeText(ts[0].kind, EntriesText(ts[0].entries), Texts(ts[0].children));
      assert first + [] == first;
    }
  }

  /** `icalcomponent_as_ical_string_r` */
  method AsIcalString(t: Node) returns (buf: string)
    requires Plain([t])
    ensures buf == Texts([t])
    decreases t, 1
  {
    hide *;
    PlainOne(t);
    buf := "";
    buf := buf + "BEGIN:";
    buf := buf + Name(t.kind);
    buf := buf + "\r\n";
    var properties := PrintProperties(t.entries);
    buf := buf + properties;
    var components := PrintComponents(t.children);
    buf := buf + components;
    buf := buf + "END:";
    buf := buf + Name(t.kind);
    buf := buf + "\r\n";
    NodeTextIs(t.kind, properties, components);
  }

  lemma PlainOne(t: Node)
    requires Plain([t])
    ensures AllData(t.entries) && Plain(t.children)
    ensures Texts([t]) == NodeText(t.kind, EntriesText(t.entries), Texts(t.children))
  {
    hide NodeText, EntriesText;
    assert [t][1..] == [] && Texts([]) == [];
    var text := NodeText(t.kind, EntriesText(t.entries), Texts(t.children));
    assert text + [] == text;
  }

  lemma NodeTextIs(kind: Kind, entries: string, children: string)
    ensures NodeText(kind, entries, children) ==
            "" + "BEGIN:" + Name(kind) + "\r\n" + entries + children + "END:" + Name(kind) + "\r\n"
  {
    hide Name;
    var front := "" + "BEGIN:" + Name(kind) + "\r\n" + entries + children;
    assert front == BeginLine(kind) + "\r\n" + entries + children;
    ConcatAssoc(front, "END:", Name(kind));
  }

  /** The loop over the subcomponents */
  method PrintComponents(ts: seq<Node>) returns (buf: string)
    requires Plain(ts)
    ensures buf == Texts(ts)
    decreases ts, 0
  {
    hide Texts, Plain;
    buf := "";
    assert ts[0..] == ts && [] + Texts(ts) == Texts(ts);
    for i := 0 to |ts|
      invariant Plain(ts[i..])
      invariant Texts(ts) == buf + Texts(ts[i..])
    {
      PlainAfter(ts, i);
      var text := AsIcalString(ts[i]);
      ConcatAssoc(buf, text, Texts(ts[i + 1..]));
      buf := buf + text;
    }
    NoTexts(ts[|ts|..]);
    assert buf + [] == buf;
  }

  // ------------------------------------------------------------------------------------
  // What can be printed and read back

  /** The printed name of the kind is read as the kind */
  predicate Speakable(kind: Kind) {
    Named(kind) && !NamedX(kind)
  }

  predicate Readable(reg: Registry, e: Entry) {
    && e.Data? && IsCString(EntryLine(e)) && IsName(e.name)
    && AllPrintable(e.params) && |e.params| <= MAXIMUM_ALLOWED_PARAMETERS
    && Survive(e.params) && !ReadsOn(e.params, e.value)
    && e.value != [] && !IsSpace(e.value[0]) && !IsSpace(e.value[|e.value| - 1]) && IsBody(e.value)
    && !SameName(e.name, "BEGIN") && !SameName(e.name, "END")
    && reg.knows(e.name) && reg.accepts(e.name, e.value)
  }

  predicate AllReadable(reg: Registry, es: seq<Entry>) {
    forall i :: 0 <= i < |es| ==> Readable(reg, es[i])
  }

  /** Components whose kinds and properties can all be read back */
  predicate Faithful(reg: Registry, ts: seq<Node>)
    ensures Faithful(reg, ts) ==> Plain(ts)
    decreases ts
  {
    ts == [] ||
    (Speakable(ts[0].kind) && AllReadable(reg, ts[0].entries) &&
     Faithful(reg, ts[0].children) && Faithful(reg, ts[1..]))
  }

  // ------------------------------------------------------------------------------------
  // From the text to its lines

  lemma ShortFold(t: string)
    requires t != [] && |t| < MAX_LINE_LEN
    ensures Fold(t) == t
  {
    assert NextStart(t) == |t| && t[..|t|] == t && t[|t|..] == [];
    assert Pieces([]) == [] && FoldedRest([]) == [];
    assert Pieces(t) == [t];
    assert [t][1..] == [];
  }

  /** Names of kinds are short and plain */
  lemma NamePlain(kind: Kind)
    requires Speakable(kind)
    ensures 0 < |Name(kind)| <= 13
    ensures forall i :: 0 <= i < |Name(kind)| ==> 'A' <= Name(kind)[i] <= 'Z'
  {
  }

  lemma LineOf(body: string, rest: string)
    requires IsBody(body) && body != [] && !IsSpace(body[|body| - 1]) && |body| + 2 < MAX_LINE_LEN
    requires rest != [] ==> !IsBlank(rest[0])
    ensures ContentLines(body + "\r\n" + rest) == [body] + ContentLines(rest)
  {
    hide ContentLines, Fold;
    ShortFold(body + "\r\n");
    FoldReadBack(body, rest);
  }

  lemma EntryBody(reg: Registry, e: Entry)
    requires Readable(reg, e)
    ensures IsBody(EntryLine(e)) && EntryLine(e) != [] && !IsSpace(EntryLine(e)[0])
    ensures !IsSpace(EntryLine(e)[|EntryLine(e)| - 1])
  {
    NameBody(e.name);
    AfterNameBody(e.params, e.value);
  }

  lemma NameBody(n: string)
    requires IsName(n)
    ensures IsBody(n)
  {
  }

  lemma {:induction false} AfterNameBody(ps: seq<Param>, value: string)
    requires AllPrintable(ps) && IsBody(value) && value != []
    ensures IsBody(AfterName(ps, value))
    ensures AfterName(ps, value)[|AfterName(ps, value)| - 1] == value[|value| - 1]
    decreases |ps|
  {
    hide ParamText;
    if ps != [] {
      AfterNameBody(ps[1..], value);
      ParamBody(ps[0]);
    }
  }

  lemma ParamBody(p: Param)
    requires Printable(p)
    ensures IsBody(ParamText(p))
  {
    hide EncodeBody, IsSafe, NeedsQuotes, IsName;
    NameBody(p.name);
    BodyChars(p.value);
    SafeBody(EncodedBody(p.value), NeedsQuotes(p.value));
  }

  lemma SafeBody(b: string, quoted: bool)
    requires forall i :: 0 <= i < |b| ==> IsSafe(b[i], quoted)
    ensures IsBody(b)
  {
  }

  predicate Starts(rest: string) {
    rest != [] ==> !IsBlank(rest[0])
  }

  lemma FoldStart(t: string)
    requires t != []
    ensures Fold(t) != [] && Fold(t)[0] == t[0]
  {
  }

  lemma EntryContent(reg: Registry, e: Entry, rest: string)
    requires Readable(reg, e) && Starts(rest)
    ensures ContentLines(EntryText(e) + rest) == [EntryLine(e)] + ContentLines(rest)
    ensures Starts(EntryText(e) + rest)
  {
    hide ContentLines, Fold, Readable, EntryLine;
    IsData(reg, e);
    EntryBody(reg, e);
    FoldReadBack(EntryLine(e), rest);
    FoldStart(EntryLine(e) + "\r\n");
  }

  lemma IsData(reg: Registry, e: Entry)
    requires Readable(reg, e)
    ensures e.Data? && IsCString(EntryLine(e))
  {
  }

  lemma {:induction false} EntriesContent(reg: Registry, es: seq<Entry>, rest: string)
    requires AllReadable(reg, es) && AllData(es) && Starts(rest)
    ensures ContentLines(EntriesText(es) + rest) == EntryLines(es) + ContentLines(rest)
    ensures Starts(EntriesText(es) + rest)
    decreases |es|
  {
    hide ContentLines, EntryText, EntryLine, Readable;
    if es == [] {
      assert [] + rest == rest && [] + ContentLines(rest) == ContentLines(rest);
    } else {
      EntriesContent(reg, es[1..], rest);
      EntryContent(reg, es[0], EntriesText(es[1..]) + rest);
      ConcatAssoc(EntryText(es[0]), EntriesText(es[1..]), rest);
      ConcatAssoc([EntryLine(es[0])], EntryLines(es[1..]), ContentLines(rest));
    }
  }

  lemma BoundaryContent(kind: Kind, rest: string)
    requires Speakable(kind) && Starts(rest)
    ensures ContentLines(BeginLine(kind) + "\r\n" + rest) == [BeginLine(kind)] + ContentLines(rest)
    ensures ContentLines(EndLine(kind) + "\r\n" + rest) == [EndLine(kind)] + ContentLines(rest)
    ensures Starts(BeginLine(kind) + "\r\n" + rest) && Starts(EndLine(kind) + "\r\n" + rest)
  {
    hide ContentLines, Name;
    NamePlain(kind);
    LineOf(BeginLine(kind), rest);
    LineOf(EndLine(kind), rest);
  }

  lemma NodeTextSplit(kind: Kind, entries: string, children: string, rest: string)
    ensures NodeText(kind, entries, children) + rest ==
            BeginLine(kind) + "\r\n" + (entries + (children + (EndLine(kind) + "\r\n" + rest)))
  {
    hide BeginLine, EndLine;
  }

  lemma NodeLinesSplit(kind: Kind, entries: seq<string>, children: seq<string>, rest: seq<string>)
    ensures NodeLines(kind, entries, children) + rest ==
            [BeginLine(kind)] + (entries + (children + ([EndLine(kind)] + rest)))
  {
    hide BeginLine, EndLine;
  }

  lemma FaithfulParts(reg: Registry, ts: seq<Node>)
    requires ts != [] && Faithful(reg, ts)
    ensures Speakable(ts[0].kind) && AllReadable(reg, ts[0].entries) && AllData(ts[0].entries)
    ensures Faithful(reg, ts[0].children) && Faithful(reg, ts[1..])
    ensures Plain(ts) && Plain(ts[0].children) && Plain(ts[1..])
  {
    hide Readable, Speakable;
    forall i | 0 <= i < |ts[0].entries| ensures ts[0].entries[i].Data? && IsCString(EntryLine(ts[0].entries[i])) {
      IsData(reg, ts[0].entries[i]);
    }
  }

  lemma UnfoldTexts(ts: seq<Node>)
    requires ts != [] && Plain(ts)
    ensures AllData(ts[0].entries) && Plain(ts[0].children) && Plain(ts[1..])
    ensures Texts(ts) == NodeText(ts[0].kind, EntriesText(ts[0].entries), Texts(ts[0].children)) + Texts(ts[1..])
    ensures Lines(ts) == NodeLines(ts[0].kind, EntryLines(ts[0].entries), Lines(ts[0].children)) + Lines(ts[1..])
  {
    hide NodeText, NodeLines, EntriesText, EntryLines;
  }

  /** The reader gives back the lines of a printed text */
  lemma {:induction false} TextsContent(reg: Registry, ts: seq<Node>, rest: string)
    requires Faithful(reg, ts) && Starts(rest)
    ensures ContentLines(Texts(ts) + rest) == Lines(ts) + ContentLines(rest)
    ensures Starts(Texts(ts) + rest)
    decreases ts
  {
    hide ContentLines, NodeText, NodeLines, EntriesText, EntryLines, Faithful, Plain, Readable, Texts, Lines,
        BeginLine, EndLine, Speakable;
    if ts == [] {
      NoTexts(ts);
      assert [] + rest == rest && [] + ContentLines(rest) == ContentLines(rest);
    } else {
      FaithfulParts(reg, ts);
      UnfoldTexts(ts);
      var kind, es, children := ts[0].kind, ts[0].entries, ts[0].children;
      var more := Texts(ts[1..]) + rest;
      TextsContent(reg, ts[1..], rest);
      BoundaryContent(kind, more);
      var end := EndLine(kind) + "\r\n" + more;
      TextsContent(reg, children, end);
      EntriesContent(reg, es, Texts(children) + end);
      BoundaryContent(kind, EntriesText(es) + (Texts(children) + end));
      NodeTextSplit(kind, EntriesText(es), Texts(children), more);
      NodeLinesSplit(kind, EntryLines(es), Lines(children), Lines(ts[1..]) + ContentLines(rest));
      ConcatAssoc(NodeText(kind, EntriesText(es), Texts(children)), Texts(ts[1..]), rest);
      ConcatAssoc(NodeLines(kind, EntryLines(es), Lines(children)), Lines(ts[1..]), ContentLines(rest));
    }
  }

  lemma NoTexts(ts: seq<Node>)
    requires ts == []
    ensures Plain(ts) && Texts(ts) == [] && Lines(ts) == []
  {
  }

  // ------------------------------------------------------------------------------------
  // From the lines to the tree

  /** The order in which the parser leaves children: every VTIMEZONE goes to the front */
  function ArrangeAll(ts: seq<Node>): (r: seq<Node>)
    ensures |r| == |ts|
    decreases ts
  {
    if ts == [] then []
    else [Gather(Node(ts[0].kind, ts[0].entries, []), ArrangeAll(ts[0].children))] + ArrangeAll(ts[1..])
  }

  function Arrange(t: Node): Node {
    Gather(Node(t.kind, t.entries, []), ArrangeAll(t.children))
  }

  lemma ReadLine(reg: Registry, m: Machine, e: Entry)
    requires Readable(reg, e) && m.stack != []
    ensures Step(reg, m, EntryLine(e)) == (m.(stack := WithEntry(m.stack, e), state := InProgress), None)
  {
    hide IsName, AllPrintable, Survive, ReadsOn, PropName, ParamsAt, ValueText, WithEntry, PropertyLine, SameName;
    TokeniseRoundTrip(e.name, e.params, e.value);
    NotBlank(reg, e);
    assert ParamTroubles([]) == [];
  }

  lemma NotBlank(reg: Registry, e: Entry)
    requires Readable(reg, e)
    ensures !IsBlankLine(EntryLine(e))
  {
    hide PropertyLine;
    EntryBody(reg, e);
  }

  lemma NamesOfBounds()
    ensures IsName("BEGIN") && IsName("END")
    ensures SameName("BEGIN", "BEGIN") && SameName("END", "END") && !SameName("END", "BEGIN")
  {
  }

  lemma PlainName(kind: Kind)
    requires Speakable(kind)
    ensures ComponentName(Name(kind)) == Some(Name(kind)) && KindNamed(Some(Name(kind))) == kind
  {
    hide Name, KindOf;
    var n := Name(kind);
    NamePlain(kind);
    KindRoundTrip(kind);
    assert n[0..] == n && n[..|n|] == n;
    assert FirstHit(',', n, true) == |n|;
    TrimKeeps(n);
  }

  /** A BEGIN or END line, split at its colon */
  lemma BoundLine(name: string, kind: Kind)
    requires Speakable(kind) && IsName(name)
    ensures var line := name + (":" + Name(kind));
            && !IsBlankLine(line) && PropName(line) == Some((name, |name| + 1)) && line[|name| + 1..] == Name(kind)
  {
    hide Name, PropName;
    PropNameOfPrinted(name, [], Name(kind));
    var line := name + (":" + Name(kind));
    assert PropertyLine(name, [], Name(kind)) == line;
    assert line[0] == name[0];
  }

  lemma BoundSteps(reg: Registry, m: Machine, kind: Kind)
    requires Speakable(kind)
    ensures var begun := m.(stack := m.stack + [Node(kind, [], [])], state := BeginComponent);
            Step(reg, m, BeginLine(kind)) == (begun, None)
    ensures Step(reg, m, EndLine(kind)) == Close(m)
  {
    hide Name, PropName, IsBlankLine, SameName, ComponentName, KindNamed, IsName, Close;
    NamesOfBounds();
    PlainName(kind);
    BoundLine("BEGIN", kind);
    BoundLine("END", kind);
    assert BeginLine(kind) == "BEGIN" + (":" + Name(kind));
    assert EndLine(kind) == "END" + (":" + Name(kind));
  }

  const NOTHING: seq<Node> := []

  /** A run that leaves the count of errors alone */
  ghost predicate RunsTo(reg: Registry, m: Machine, lines: seq<string>, stack: seq<Node>, done: seq<Node>) {
    var (m', cs) := Run(reg, m, lines);
    m'.stack == stack && m'.errors == m.errors && cs == done
  }

  lemma RunsThen(reg: Registry, m: Machine, a: seq<string>, s1: seq<Node>, d1: seq<Node>,
                 b: seq<string>, s2: seq<Node>, d2: seq<Node>)
    requires RunsTo(reg, m, a, s1, d1)
    requires RunsTo(reg, Run(reg, m, a).0, b, s2, d2)
    ensures RunsTo(reg, m, a + b, s2, d1 + d2)
  {
    hide Run;
    RunConcat(reg, m, a, b);
  }

  lemma RunsNowhere(reg: Registry, m: Machine)
    ensures RunsTo(reg, m, [], m.stack, [])
  {
  }

  lemma RunsOne(reg: Registry, m: Machine, line: string)
    requires Step(reg, m, line).0.errors == m.errors
    ensures var (m', c) := Step(reg, m, line); RunsTo(reg, m, [line], m'.stack, if c.Some? then [c.value] else [])
  {
    hide Run, Step;
    RunOne(reg, m, line);
  }

  lemma {:induction false} RunEntries(reg: Registry, m: Machine, es: seq<Entry>)
    requires AllReadable(reg, es) && AllData(es) && m.stack != []
    ensures RunsTo(reg, m, EntryLines(es), WithEntries(m.stack, Entries(m.stack) + es), [])
    decreases |es|
  {
    hide Readable, EntryLine, Step, RunsTo, WithEntries, Entries, Run, EntryLines;
    if es == [] {
      EntriesSet(m.stack, [], []);
      assert Entries(m.stack) + es == Entries(m.stack);
      NoEntryLines(es);
      RunsNowhere(reg, m);
    } else {
      var e, rest, before := es[0], es[1..], Entries(m.stack);
      FirstEntryLine(es);
      ReadLine(reg, m, e);
      RunsOne(reg, m, EntryLine(e));
      var m' := Run(reg, m, [EntryLine(e)]).0;
      RunStack(reg, m, [EntryLine(e)], WithEntry(m.stack, e), []);
      RunEntries(reg, m', rest);
      EntriesSet(m.stack, before + [e], before + [e] + rest);
      assert before + [e] + rest == before + es;
      assert NOTHING + NOTHING == NOTHING;
      RunsThen(reg, m, [EntryLine(e)], WithEntry(m.stack, e), [], EntryLines(rest), WithEntries(m.stack, before + es),
          []);
    }
  }

  lemma RunStack(reg: Registry, m: Machine, lines: seq<string>, stack: seq<Node>, done: seq<Node>)
    requires RunsTo(reg, m, lines, stack, done)
    ensures Run(reg, m, lines).0.stack == stack
  {
  }

  lemma NoEntryLines(es: seq<Entry>)
    requires es == []
    ensures EntryLines(es) == []
  {
  }

  lemma FirstEntryLine(es: seq<Entry>)
    requires AllData(es) && es != []
    ensures EntryLines(es) == [EntryLine(es[0])] + EntryLines(es[1..])
  {
  }

  /** Where a component goes when its END has been read */
  function Placed(stack: seq<Node>, c: Node): seq<Node> {
    if stack == [] then [] else stack[..|stack| - 1] + [AddChild(stack[|stack| - 1], c)]
  }

  function Finished(stack: seq<Node>, c: Node): seq<Node> {
    if stack == [] then [c] else []
  }

  lemma CloseTop(m: Machine, stack: seq<Node>, c: Node)
    requires m.stack == stack + [c]
    ensures var (m', r) := Close(m);
            && m'.stack == Placed(stack, c) && m'.errors == m.errors
            && (if r.Some? then [r.value] else []) == Finished(stack, c)
  {
    var n := |m.stack|;
    if n > 1 {
      assert m.stack[..n - 2] == stack[..n - 2] && m.stack[n - 2] == stack[n - 2];
    }
  }

  lemma {:induction false} GatherFirst(root: Node, c: Node, cs: seq<Node>)
    ensures Gather(root, [c] + cs) == Gather(AddChild(root, c), cs)
    decreases |cs|
  {
    hide AddChild;
    var all := [c] + cs;
    if cs == [] {
      assert all[..0] == [] && all[0] == c && all == [c];
      assert Gather(root, []) == root;
    } else {
      var n := |cs| - 1;
      assert all[..|all| - 1] == [c] + cs[..n] && all[|all| - 1] == cs[n];
      GatherFirst(root, c, cs[..n]);
    }
  }

  lemma PushedTop(stack: seq<Node>, n: Node, entries: seq<Entry>, n': Node)
    ensures var s := stack + [n];
            && s != [] && Entries(s) == n.entries
            && WithEntries(s, entries) == stack + [n.(entries := entries)]
            && s[..|s| - 1] + [n'] == stack + [n'] && s[|s| - 1] == n
  {
    var s := stack + [n];
    assert s[..|s| - 1] == stack;
  }

  /** The lines of one component put it where it belongs, whatever is open around it */
  lemma {:induction false} RunNode(reg: Registry, m: Machine, t: Node)
    requires Speakable(t.kind) && AllReadable(reg, t.entries) && AllData(t.entries) && Faithful(reg, t.children)
    ensures RunsTo(reg, m, NodeLines(t.kind, EntryLines(t.entries), Lines(t.children)),
                   Placed(m.stack, Arrange(t)), Finished(m.stack, Arrange(t)))
    decreases t, 1
  {
    hide *;
    var begin, end := [BeginLine(t.kind)], [EndLine(t.kind)];
    var entries, children := EntryLines(t.entries), Lines(t.children);
    var empty := Node(t.kind, [], []);
    var full := Node(t.kind, t.entries, []);
    assert NOTHING + NOTHING == NOTHING by { NothingTwice(); }
    // BEGIN
    BoundSteps(reg, m, t.kind);
    RunsOne(reg, m, BeginLine(t.kind));
    var s1 := m.stack + [empty];
    RunStack(reg, m, begin, s1, []);
    var m1 := Run(reg, m, begin).0;
    // the properties
    PushedTop(m.stack, empty, [] + t.entries, full);
    assert [] + t.entries == t.entries;
    RunEntries(reg, m1, t.entries);
    var s2 := m.stack + [full];
    RunsThen(reg, m, begin, s1, [], entries, s2, []);
    RunStack(reg, m, begin + entries, s2, []);
    var m2 := Run(reg, m, begin + entries).0;
    // the children
    PushedTop(m.stack, full, [], Arrange(t));
    ArrangeIs(t);
    RunTrees(reg, m2, t.children);
    var s3 := m.stack + [Arrange(t)];
    RunsThen(reg, m, begin + entries, s2, [], children, s3, []);
    RunStack(reg, m, begin + entries + children, s3, []);
    var m3 := Run(reg, m, begin + entries + children).0;
    // END
    BoundSteps(reg, m3, t.kind);
    CloseTop(m3, m.stack, Arrange(t));
    RunsOne(reg, m3, EndLine(t.kind));
    RunsThen(reg, m, begin + entries + children, s3, [], end, Placed(m.stack, Arrange(t)),
        Finished(m.stack, Arrange(t)));
    NodeLinesAre(t.kind, entries, children);
    assert [] + Finished(m.stack, Arrange(t)) == Finished(m.stack, Arrange(t));
  }

  lemma NothingTwice()
    ensures NOTHING + NOTHING == NOTHING == []
  {
  }

  lemma ArrangeIs(t: Node)
    ensures Arrange(t) == Gather(Node(t.kind, t.entries, []), ArrangeAll(t.children))
  {
  }

  lemma NodeLinesAre(kind: Kind, entries: seq<string>, children: seq<string>)
    ensures NodeLines(kind, entries, children) == [BeginLine(kind)] + entries + children + [EndLine(kind)]
  {
  }

  /** The lines of several components gather them under the innermost open one */
  lemma {:induction false} RunTrees(reg: Registry, m: Machine, ts: seq<Node>)
    requires Faithful(reg, ts) && m.stack != []
    ensures var n := |m.stack| - 1;
            RunsTo(reg, m, Lines(ts), m.stack[..n] + [Gather(m.stack[n], ArrangeAll(ts))], [])
    decreases ts, 0
  {
    hide *;
    var n := |m.stack| - 1;
    if ts == [] {
      NoTexts(ts);
      NoGather(m.stack[n], ts);
      assert m.stack[..n] + [m.stack[n]] == m.stack;
      RunsNowhere(reg, m);
    } else {
      FaithfulParts(reg, ts);
      UnfoldTexts(ts);
      var t, rest := ts[0], ts[1..];
      var lines := NodeLines(t.kind, EntryLines(t.entries), Lines(t.children));
      RunNode(reg, m, t);
      PlacedIs(m.stack, Arrange(t));
      var top := AddChild(m.stack[n], Arrange(t));
      var s1 := m.stack[..n] + [top];
      RunStack(reg, m, lines, s1, []);
      var m1 := Run(reg, m, lines).0;
      RunTrees(reg, m1, rest);
      assert s1[..n] == m.stack[..n] && s1[n] == top;
      NothingTwice();
      RunsThen(reg, m, lines, s1, [], Lines(rest), s1[..n] + [Gather(top, ArrangeAll(rest))], []);
      ArrangeFirst(ts);
      GatherFirst(m.stack[n], Arrange(t), ArrangeAll(rest));
    }
  }

  lemma NoGather(root: Node, ts: seq<Node>)
    requires ts == []
    ensures Gather(root, ArrangeAll(ts)) == root
  {
  }

  lemma PlacedIs(stack: seq<Node>, c: Node)
    requires stack != []
    ensures Placed(stack, c) == stack[..|stack| - 1] + [AddChild(stack[|stack| - 1], c)] && Finished(stack, c) == []
  {
  }

  lemma ArrangeFirst(ts: seq<Node>)
    requires ts != []
    ensures ArrangeAll(ts) == [Arrange(ts[0])] + ArrangeAll(ts[1..])
  {
  }

  /** The lines of components at the top: each is finished in turn */
  lemma {:induction false} RunTop(reg: Registry, m: Machine, ts: seq<Node>)
    requires Faithful(reg, ts) && m.stack == []
    ensures RunsTo(reg, m, Lines(ts), [], ArrangeAll(ts))
    decreases |ts|
  {
    hide *;
    if ts == [] {
      NoTexts(ts);
      NoneArranged(ts);
      RunsNowhere(reg, m);
    } else {
      FaithfulParts(reg, ts);
      UnfoldTexts(ts);
      var t, rest := ts[0], ts[1..];
      var lines := NodeLines(t.kind, EntryLines(t.entries), Lines(t.children));
      RunNode(reg, m, t);
      PlacedOnTop(m.stack, Arrange(t));
      RunStack(reg, m, lines, [], [Arrange(t)]);
      RunTop(reg, Run(reg, m, lines).0, rest);
      RunsThen(reg, m, lines, [], [Arrange(t)], Lines(rest), [], ArrangeAll(rest));
      ArrangeFirst(ts);
    }
  }

  lemma NoneArranged(ts: seq<Node>)
    requires ts == []
    ensures ArrangeAll(ts) == []
  {
  }

  lemma PlacedOnTop(stack: seq<Node>, c: Node)
    requires stack == []
    ensures Placed(stack, c) == [] && Finished(stack, c) == [c]
  {
  }

  // ------------------------------------------------------------------------------------
  // The whole text

  lemma {:induction false} EntriesNoNul(es: seq<Entry>)
    requires AllData(es)
    ensures IsCString(EntriesText(es))
  {
    hide Fold, EntryLine;
    if es != [] {
      FoldNoNul(EntryLine(es[0]) + "\r\n");
      EntriesNoNul(es[1..]);
    }
  }

  lemma KindNoNul(kind: Kind)
    ensures IsCString(Name(kind))
  {
    hide Name, Speakable;
    if Speakable(kind) {
      NamePlain(kind);
    } else {
      OtherNameNoNul(kind);
    }
  }

  lemma OtherNameNoNul(kind: Kind)
    requires !Speakable(kind)
    ensures IsCString(Name(kind))
  {
  }

  lemma NodeTextNoNul(kind: Kind, entries: string, children: string)
    requires IsCString(entries) && IsCString(children)
    ensures IsCString(NodeText(kind, entries, children))
  {
    hide Name;
    KindNoNul(kind);
  }

  lemma {:induction false} TextsNoNul(ts: seq<Node>)
    requires Plain(ts)
    ensures IsCString(Texts(ts))
    decreases ts
  {
    hide NodeText, EntriesText, Lines;
    if ts != [] {
      TextsNoNul(ts[0].children);
      TextsNoNul(ts[1..]);
      EntriesNoNul(ts[0].entries);
      NodeTextNoNul(ts[0].kind, EntriesText(ts[0].entries), Texts(ts[0].children));
    }
  }

  lemma NodeTextEnds(kind: Kind, entries: string, children: string)
    ensures var s := NodeText(kind, entries, children); s != [] && s[0] == 'B' && s[|s| - 1] == LF
  {
  }

  lemma {:induction false} TextsEnd(ts: seq<Node>)
    requires Plain(ts) && ts != []
    ensures var s := Texts(ts); s != [] && s[0] == 'B' && s[|s| - 1] == LF
    decreases |ts|
  {
    hide NodeText, EntriesText, Texts, Plain;
    UnfoldTexts(ts);
    NodeTextEnds(ts[0].kind, EntriesText(ts[0].entries), Texts(ts[0].children));
    if ts[1..] == [] {
      NoTexts(ts[1..]);
    } else {
      TextsEnd(ts[1..]);
    }
  }

  /** A text that ends in LF is delivered as it is, without its byte order mark */
  lemma PlainInput(s: string)
    requires s != [] && s[0] == 'B' && s[|s| - 1] == LF
    ensures SkipBom(s) == s && Delivered(s) == s
  {
    hide Delivered;
    DeliveredIsInput(s);
    if CR in s {
      assert s[|s| - 1..] == [LF];
    }
  }

  lemma InputLinesOf(reg: Registry, ts: seq<Node>)
    requires Faithful(reg, ts) && ts != []
    ensures InputLines(Texts(ts)) == [""] + Lines(ts)
  {
    hide Texts, Lines, ContentLines, Delivered, SkipBom, Faithful, Plain;
    TextsEnd(ts);
    PlainInput(Texts(ts));
    TextsContent(reg, ts, []);
    assert Texts(ts) + [] == Texts(ts);
    NoContent();
    assert Lines(ts) + [] == Lines(ts);
  }

  /** Printed components are all parsed back, each arranged, and nothing is left open */
  lemma ParsePrinted(reg: Registry, ts: seq<Node>)
    requires Faithful(reg, ts)
    ensures IsCString(Texts(ts))
    ensures Run(reg, START, InputLines(Texts(ts))).1 == ArrangeAll(ts)
    ensures Run(reg, START, InputLines(Texts(ts))).0.stack == []
    ensures Run(reg, START, InputLines(Texts(ts))).0.errors == 0
  {
    hide *;
    FaithfulPlain(reg, ts);
    TextsNoNul(ts);
    if ts == [] {
      NoTexts(ts);
      NoneArranged(ts);
      NoInput();
      RunNothing(reg, START);
      StartIs();
    } else {
      InputLinesOf(reg, ts);
      BlankStep(reg, START);
      RunsOne(reg, START, "");
      StartIs();
      var m := Run(reg, START, [""]).0;
      RunStack(reg, START, [""], [], []);
      RunTop(reg, m, ts);
      RunsThen(reg, START, [""], [], [], Lines(ts), [], ArrangeAll(ts));
      assert [] + ArrangeAll(ts) == ArrangeAll(ts);
      RunEnd(reg, START, [""] + Lines(ts), [], ArrangeAll(ts));
    }
  }

  lemma FaithfulPlain(reg: Registry, ts: seq<Node>)
    requires Faithful(reg, ts)
    ensures Plain(ts)
  {
  }

  lemma NoInput()
    ensures InputLines([]) == []
  {
  }

  lemma StartIs()
    ensures START.stack == [] && START.errors == 0
  {
  }

  lemma BlankStep(reg: Registry, m: Machine)
    ensures Step(reg, m, "") == (m, None)
  {
  }

  lemma RunEnd(reg: Registry, m: Machine, lines: seq<string>, stack: seq<Node>, done: seq<Node>)
    requires RunsTo(reg, m, lines, stack, done)
    ensures var (end, found) := Run(reg, m, lines);
            end.stack == stack && found == done && end.errors == m.errors
  {
  }
}
