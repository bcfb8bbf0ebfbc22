/**
  The stack machine of `icalparser_add_line`: lines open components, close them, or add a
  property or an error to the innermost open component.
 */
module ParserStack {
  import opened CText
  import opened ComponentKinds
  import opened ContentLine
  import opened Components

  const MAXIMUM_ALLOWED_ERRORS: nat := 100

  /** What a parsed component holds: properties and X-LIC-ERROR properties */
  datatype Entry =
    | Data(name: string, params: seq<Param>, value: string)
    | Trouble(errorType: ErrorType, text: string)

  /** A component as a value */
  datatype Node = Node(kind: Kind, entries: seq<Entry>, children: seq<Node>)

  datatype State = Failed | Success | BeginComponent | EndComponent | InProgress

  /**
    The tables that the generated code keeps for properties: which names have a kind, the
    names used in error messages, and whether a value can be parsed.
   */
  datatype Registry = Registry(
    knows: string -> bool,
    title: string -> string,
    valueTitle: string -> string,
    accepts: (string, string) -> bool)

  /** `icalcomponent_add_component`, on values */
  function AddChild(parent: Node, child: Node): Node {
    parent.(children := if child.kind == VTimezone then [child] + parent.children else parent.children + [child])
  }

  // ------------------------------------------------------------------------------------
  // Lines

  predicate IsBlankLine(line: string) {
    forall i :: 0 <= i < |line| ==> line[i] == ' ' || line[i] == '\n' || line[i] == '\t'
  }

  /** `line_is_blank` */
  method LineIsBlank(line: string) returns (blank: bool)
    ensures blank == IsBlankLine(line)
  {
    for i := 0 to |line|
      invariant IsBlankLine(line[..i])
    {
      if line[i] != ' ' && line[i] != '\n' && line[i] != '\t' {
        return false;
      }
    }
    assert line[..|line|] == line;
    return true;
  }

  /** `strcasecmp(a, b) == 0` */
  predicate SameName(a: string, b: string) {
    |a| == |b| && StartsWith(a, b)
  }

  /** Where `parser_get_next_value` ends a value: at a comma, unless a backslash stands three characters before */
  function CommaFrom(v: string, from: nat): (at: nat)
    requires from <= |v|
    ensures from <= at <= |v|
    decreases |v| - from
  {
    var comma := from + FirstHit(',', v[from..], true);
    if comma < |v| && comma >= 3 && v[comma - 3] == '\\' then CommaFrom(v, comma + 1) else comma
  }

  /** `parser_get_next_value` on the text after BEGIN */
  function ComponentName(v: string): Option<string> {
    if v == [] then None
    else if v[0] == '"' && v[|v| - 1] == '"' then Some(TrimRight(v))
    else Some(TrimRight(v[..CommaFrom(v, 0)]))
  }

  /** The loop of `parser_get_next_value` */
  method FindComma(v: string) returns (next: nat)
    requires IsCString(v)
    ensures next == CommaFrom(v, 0)
  {
    hide FirstHit;
    var p := 0;
    while true
      invariant 0 <= p <= |v|
      invariant CommaFrom(v, 0) == CommaFrom(v, p)
      decreases |v| - p
    {
      var comma := GetNextChar(',', v[p..], true);
      next := if comma.None? then |v| else p + comma.value;
      if comma.Some? && next >= 3 && v[next - 3] == '\\' {
        p := next + 1;
      } else {
        return;
      }
    }
  }

  method GetComponentName(v: string) returns (name: Option<string>)
    requires IsCString(v)
    ensures name == ComponentName(v)
  {
    hide CommaFrom, TrimRight;
    if v == [] {
      return None;
    }
    var next := |v|;
    assert v[..|v|] == v;
    if !(v[0] == '"' && v[|v| - 1] == '"') {
      next := FindComma(v);
    }
    var segment := MakeSegment(v[..next]);
    name := Some(segment);
  }

  function KindNamed(name: Option<string>): Kind {
    if name.None? then NoComponent else KindOf(name.value)
  }

  lemma KindNamedInTable(name: Option<string>)
    ensures KindNamed(name) in COMPONENT_MAP
  {
    hide KindOf;
    if name.None? {
      TableHolds(NoComponent);
    } else {
      FoundStarts(name.value);
    }
  }

  // ------------------------------------------------------------------------------------
  // The machine

  datatype Machine = Machine(stack: seq<Node>, errors: nat, state: State)

  function Clip(s: string, n: nat): (r: string)
    ensures |r| <= n && r <= s
  {
    if |s| > n then s[..n] else s
  }

  function ErrorText(message: string, text: Option<string>): string {
    Clip(if text.None? then message + ":" else message + ": " + text.value, 1023)
  }

  /** The stack with other entries in its innermost component */
  function WithEntries(stack: seq<Node>, entries: seq<Entry>): (r: seq<Node>)
    requires stack != []
    ensures |r| == |stack|
  {
    var n := |stack| - 1;
    stack[..n] + [stack[n].(entries := entries)]
  }

  function Entries(stack: seq<Node>): seq<Entry>
    requires stack != []
  {
    stack[|stack| - 1].entries
  }

  lemma EntriesSet(stack: seq<Node>, a: seq<Entry>, b: seq<Entry>)
    requires stack != []
    ensures Entries(WithEntries(stack, a)) == a && WithEntries(WithEntries(stack, a), b) == WithEntries(stack, b)
    ensures WithEntries(stack, Entries(stack)) == stack
  {
  }

  /** The stack with one more entry in its innermost component */
  function WithEntry(stack: seq<Node>, e: Entry): (r: seq<Node>)
    requires stack != []
    ensures |r| == |stack|
  {
    WithEntries(stack, Entries(stack) + [e])
  }

  /** `insert_error`: nothing happens any more after too many errors */
  function Insert(m: Machine, e: Entry): (r: Machine)
    requires m.stack != []
    ensures |r.stack| == |m.stack|
  {
    if m.errors > MAXIMUM_ALLOWED_ERRORS then m
    else m.(stack := WithEntry(m.stack, e), errors := m.errors + 1)
  }

  function InsertAll(m: Machine, es: seq<Entry>): (r: Machine)
    requires m.stack != []
    ensures |r.stack| == |m.stack|
    decreases |es|
  {
    if es == [] then m else InsertAll(Insert(m, es[0]), es[1..])
  }

  function ParamTrouble(e: ParamError): Entry {
    match e
    case BadName(text) => Trouble(ParameterNameParseError, ErrorText("Cant parse parameter name", Some(text)))
    case BadValue(text) => Trouble(ParameterValueParseError, ErrorText("Cant parse parameter value", Some(text)))
  }

  function ParamTroubles(es: seq<ParamError>): seq<Entry> {
    if es == [] then [] else [ParamTrouble(es[0])] + ParamTroubles(es[1..])
  }

  function NoValueTrouble(reg: Registry, name: string): Entry {
    var message := Clip("No value for " + reg.title(name) + " property. Removing entire property", 199);
    Trouble(ValueParseError, ErrorText(message, None))
  }

  function BadValueTrouble(reg: Registry, name: string, value: string): Entry {
    var message := Clip("Can't parse as " + reg.valueTitle(name) + " value in " + reg.title(name) +
                        " property. Removing entire property", 199);
    Trouble(ValueParseError, ErrorText(message, Some(value)))
  }

  const NO_NAME := "Got a data line, but could not find a property name or component begin tag"

  /** A line that holds a property: the property arrives with its value or not at all */
  function PropertyStep(reg: Registry, m: Machine, line: string, name: string, end: nat): (r: Machine)
    requires m.stack != [] && 0 < end <= |line|
    ensures |r.stack| == |m.stack|
  {
    if !reg.knows(name) then
      Insert(m, Trouble(PropertyParseError, ErrorText("Parse error in property name", Some(name)))).(state := Failed)
    else
      var parsed := ParamsAt(line, end, MAXIMUM_ALLOWED_PARAMETERS);
      var errors := ParamTroubles(parsed.errors);
      match ValueText(parsed.rest)
      case None => InsertAll(m, errors + [NoValueTrouble(reg, name)]).(state := Failed)
      case Some(v) =>
        if reg.accepts(name, v) then
          InsertAll(m.(stack := WithEntry(m.stack, Data(name, parsed.params, v))), errors).(state := InProgress)
        else
          InsertAll(m, errors + [BadValueTrouble(reg, name, v)]).(state := Failed)
  }

  /** END: the innermost component goes to its parent; without a parent it is finished */
  function Close(m: Machine): (Machine, Option<Node>) {
    var n := |m.stack|;
    if n == 0 then (m.(state := Failed), None)
    else if n == 1 then (m.(stack := [], state := Success), Some(m.stack[0]))
    else (m.(stack := m.stack[..n - 2] + [AddChild(m.stack[n - 2], m.stack[n - 1])], state := EndComponent), None)
  }

  /** What one line does, and the component that it finishes */
  function Step(reg: Registry, m: Machine, line: string): (Machine, Option<Node>) {
    if IsBlankLine(line) then (m, None)
    else
      match PropName(line)
      case None => (NoName(m, line), None)
      case Some((name, end)) =>
        if name == [] then (NoName(m, line), None)
        else if SameName(name, "BEGIN") then
          (m.(stack := m.stack + [Node(KindNamed(ComponentName(line[end..])), [], [])], state := BeginComponent), None)
        else if SameName(name, "END") then Close(m)
        else if m.stack == [] then (m.(state := Failed), None)
        else (PropertyStep(reg, m, line, name, end), None)
  }

  function NoName(m: Machine, line: string): (r: Machine)
    ensures |r.stack| == |m.stack|
  {
    var e := Trouble(ComponentParseError, ErrorText(NO_NAME, Some(line)));
    (if m.stack == [] then m else Insert(m, e)).(state := Failed)
  }

  // ------------------------------------------------------------------------------------
  // The parser object

  /** The parser keeps a level beside its stack, and the component that it closed last */
  class Parser {
    const registry: Registry
    var level: int
    var components: seq<Node>
    var root: Option<Node>
    var state: State
    var errorCount: nat

    /** `icalparser_new` */
    constructor (registry: Registry)
      ensures this.registry == registry && Valid() && Abstract() == START
    {
      this.registry := registry;
      level, components, root, state, errorCount := 0, [], None, Success, 0;
    }

    /** The level is the height of the stack, and nothing is kept between components */
    ghost predicate Valid()
      reads this
    {
      level == |components| && (level == 0 ==> root == None)
    }

    ghost function Abstract(): Machine
      reads this
    {
      Machine(components, errorCount, state)
    }

    /** `insert_error`, into the innermost component */
    method InsertError(errorType: ErrorType, message: string, text: Option<string>)
      requires Valid() && components != []
      modifies this`components, this`errorCount
      ensures Valid() && Abstract() == Insert(old(Abstract()), Trouble(errorType, ErrorText(message, text)))
    {
      if errorCount > MAXIMUM_ALLOWED_ERRORS {
        return;
      }
      components := WithEntry(components, Trouble(errorType, ErrorText(message, text)));
      errorCount := errorCount + 1;
    }

    /** The errors that the parameter loop reports */
    method InsertParamErrors(errors: seq<ParamError>)
      requires Valid() && components != []
      modifies this`components, this`errorCount
      ensures Valid() && Abstract() == InsertAll(old(Abstract()), ParamTroubles(errors))
    {
      hide Insert, WithEntry, ErrorText;
      for i := 0 to |errors|
        invariant Valid() && components != []
        invariant InsertAll(old(Abstract()), ParamTroubles(errors)) == InsertAll(Abstract(), ParamTroubles(errors[i..]))
      {
        match errors[i] {
          case BadName(text) => InsertError(ParameterNameParseError, "Cant parse parameter name", Some(text));
          case BadValue(text) => InsertError(ParameterValueParseError, "Cant parse parameter value", Some(text));
        }
      }
    }

    /**
      `icalparser_add_line` from the point where the property name is known: the property is
      added first, and removed again when it has no value or a bad one
     */
    method AddPropertyLine(line: string, name: string, end: nat)
      requires Valid() && components != [] && 0 < end <= |line|
      modifies this`components, this`errorCount, this`state
      ensures Valid() && Abstract() == PropertyStep(registry, old(Abstract()), line, name, end)
    {
      hide Insert, InsertAll, ErrorText, ParamsAt, Clip, ParamTroubles, ValueText, WithEntries, Entries;
      if !registry.knows(name) {
        InsertError(PropertyParseError, "Parse error in property name", Some(name));
        state := Failed;
        return;
      }
      ghost var m := Abstract();
      var place := |Entries(components)|;
      components := WithEntry(components, Data(name, [], ""));
      var params, at, errors := GetParams(line, end);
      InsertParamErrors(errors);
      var value := ValueText(line[at..]);
      ghost var es := ParamTroubles(errors);
      if value.None? {
        var message := Clip("No value for " + registry.title(name) + " property. Removing entire property", 199);
        InsertError(ValueParseError, message, None);
        InsertLast(m.(stack := WithEntry(m.stack, Data(name, [], ""))), es, NoValueTrouble(registry, name));
        RemoveAfterInsert(m, Data(name, [], ""), es + [NoValueTrouble(registry, name)]);
        components := RemoveEntry(components, place);
        state := Failed;
      } else if !registry.accepts(name, value.value) {
        var message := Clip("Can't parse as " + registry.valueTitle(name) + " value in " + registry.title(name) +
                            " property. Removing entire property", 199);
        InsertError(ValueParseError, message, value);
        InsertLast(m.(stack := WithEntry(m.stack, Data(name, [], ""))), es,
            BadValueTrouble(registry, name, value.value));
        RemoveAfterInsert(m, Data(name, [], ""), es + [BadValueTrouble(registry, name, value.value)]);
        components := RemoveEntry(components, place);
        state := Failed;
      } else {
        SetAfterInsert(m, Data(name, [], ""), Data(name, params, value.value), es);
        components := SetEntry(components, place, Data(name, params, value.value));
        state := InProgress;
      }
    }

    /**
      `icalparser_add_line`. The level and the stack never disagree, so the branch that cleans
      up components without an END is never taken. Every name is given a kind of the table, so
      neither is the one for an invalid kind.
     */
    method AddLine(line: Option<string>) returns (c: Option<Node>)
      requires Valid()
      modifies this
      ensures Valid()
      ensures line.None? ==> Abstract() == old(Abstract()).(state := Failed) && c == None
      ensures line.Some? ==> (Abstract(), c) == Step(registry, old(Abstract()), line.value)
      ensures c.Some? ==> components == [] && root == None
    {
      hide PropName, SameName, ComponentName, KindNamed, Insert, PropertyStep, ErrorText, IsBlankLine;
      c := None;
      if line.None? {
        state := Failed;
        return;
      }
      var text := line.value;
      var blank := LineIsBlank(text);
      if blank {
        return;
      }
      var found := PropName(text);
      if found.None? || found.value.0 == [] {
        if components != [] {
          InsertError(ComponentParseError, NO_NAME, Some(text));
        }
        state := Failed;
        return;
      }
      var (name, end) := found.value;
      PropNameEnd(text);
      if SameName(name, "BEGIN") {
        level := level + 1;
        var kind := KindNamed(ComponentName(text[end..]));
        var valid := KindIsValid(kind);
        KindNamedInTable(ComponentName(text[end..]));
        if !valid {
          // the source falls back to an X-LIC-UNKNOWN component with an error
          assert false;
        }
        components := components + [Node(kind, [], [])];
        state := BeginComponent;
      } else if SameName(name, "END") {
        c := EndComponentLine();
      } else if components == [] {
        state := Failed;
      } else {
        AddPropertyLine(text, name, end);
      }
    }

    /** The END branch */
    method EndComponentLine() returns (c: Option<Node>)
      requires Valid()
      modifies this
      ensures Valid() && (Abstract(), c) == Close(old(Abstract()))
      ensures c.Some? ==> components == [] && root == None
    {
      ghost var stack := components;
      level := level - 1;
      var n := |components|;
      root := if n == 0 then None else Some(components[n - 1]);
      components := if n == 0 then [] else components[..n - 1];
      if components != [] {
        components := components[..n - 2] + [AddChild(components[n - 2], root.value)];
        assert stack[..n - 1][..n - 2] == stack[..n - 2];
      }
      if level < 0 {
        state := Failed;
        level := 0;
        return None;
      } else if level == 0 {
        if |components| != 0 {
          assert false;
        }
        state := Success;
        c := root;
        root := None;
      } else {
        state := EndComponent;
        c := None;
      }
    }
  }

  const START := Machine([], 0, Success)

  lemma PropNameEnd(line: string)
    ensures PropName(line).Some? ==> 0 < PropName(line).value.1 <= |line|
  {
  }

  // ------------------------------------------------------------------------------------
  // Inserting several errors

  /** How many more errors are recorded */
  function Room(errors: nat): nat {
    if errors > MAXIMUM_ALLOWED_ERRORS then 0 else MAXIMUM_ALLOWED_ERRORS + 1 - errors
  }

  function Recorded(errors: nat, es: seq<Entry>): (r: seq<Entry>)
    ensures |r| <= |es| && |r| <= Room(errors)
  {
    if |es| <= Room(errors) then es else es[..Room(errors)]
  }

  lemma RecordedStep(errors: nat, es: seq<Entry>)
    requires es != []
    ensures Room(errors) == 0 ==> Recorded(errors, es) == []
    ensures Room(errors) > 0 ==>
              Room(errors + 1) == Room(errors) - 1 && Recorded(errors, es) == [es[0]] + Recorded(errors + 1, es[1..])
  {
  }

  /** All errors arrive, in order, as long as there is room */
  lemma {:induction false} InsertAllIs(m: Machine, es: seq<Entry>)
    requires m.stack != []
    ensures var r := Recorded(m.errors, es);
            InsertAll(m, es) == m.(stack := WithEntries(m.stack, Entries(m.stack) + r), errors := m.errors + |r|)
    decreases |es|
  {
    hide WithEntries, Entries, Recorded;
    EntriesSet(m.stack, [], []);
    if es == [] {
      RecordedNothing(m.errors);
      assert Entries(m.stack) + [] == Entries(m.stack);
    } else {
      var m' := Insert(m, es[0]);
      RecordedStep(m.errors, es);
      InsertAllIs(m', es[1..]);
      if Room(m.errors) == 0 {
        RecordedNone(m.errors, es[1..]);
      } else {
        var before, r := Entries(m.stack), Recorded(m.errors + 1, es[1..]);
        EntriesSet(m.stack, before + [es[0]], before + [es[0]] + r);
        ConcatAssoc(before, [es[0]], r);
      }
    }
  }

  lemma RecordedNothing(errors: nat)
    ensures Recorded(errors, []) == []
  {
  }

  lemma RecordedNone(errors: nat, es: seq<Entry>)
    requires Room(errors) == 0
    ensures Recorded(errors, es) == []
  {
  }

  function RemoveEntry(stack: seq<Node>, place: nat): seq<Node>
    requires stack != [] && place < |Entries(stack)|
  {
    WithEntries(stack, Entries(stack)[..place] + Entries(stack)[place + 1..])
  }

  function SetEntry(stack: seq<Node>, place: nat, e: Entry): seq<Node>
    requires stack != [] && place < |Entries(stack)|
  {
    WithEntries(stack, Entries(stack)[place := e])
  }

  lemma RemoveAfterInsert(m: Machine, d: Entry, es: seq<Entry>)
    requires m.stack != []
    ensures var with := InsertAll(m.(stack := WithEntry(m.stack, d)), es);
            var place := |Entries(m.stack)|;
            place < |Entries(with.stack)| && with.(stack := RemoveEntry(with.stack, place)) == InsertAll(m, es)
  {
    hide InsertAll, WithEntries, Entries, Recorded;
    var r, before := Recorded(m.errors, es), Entries(m.stack);
    InsertAllIs(m.(stack := WithEntry(m.stack, d)), es);
    InsertAllIs(m, es);
    EntriesSet(m.stack, before + [d], before + [d] + r);
    EntriesSet(m.stack, before + [d] + r, before + r);
    assert (before + [d] + r)[..|before|] == before && (before + [d] + r)[|before| + 1..] == r;
  }

  lemma SetAfterInsert(m: Machine, d: Entry, d': Entry, es: seq<Entry>)
    requires m.stack != []
    ensures var with := InsertAll(m.(stack := WithEntry(m.stack, d)), es);
            var place := |Entries(m.stack)|;
            && place < |Entries(with.stack)|
            && with.(stack := SetEntry(with.stack, place, d')) == InsertAll(m.(stack := WithEntry(m.stack, d')), es)
  {
    hide InsertAll, WithEntries, Entries, Recorded;
    var r, before := Recorded(m.errors, es), Entries(m.stack);
    InsertAllIs(m.(stack := WithEntry(m.stack, d)), es);
    InsertAllIs(m.(stack := WithEntry(m.stack, d')), es);
    EntriesSet(m.stack, before + [d], before + [d] + r);
    EntriesSet(m.stack, before + [d'], before + [d'] + r);
    EntriesSet(m.stack, before + [d] + r, before + [d'] + r);
    assert (before + [d] + r)[|before| := d'] == before + [d'] + r;
  }

  lemma {:induction false} InsertLast(m: Machine, es: seq<Entry>, e: Entry)
    requires m.stack != []
    ensures InsertAll(m, es + [e]) == Insert(InsertAll(m, es), e)
    decreases |es|
  {
    hide Insert;
    if es == [] {
      assert es + [e] == [e];
      assert InsertAll(Insert(m, e), []) == Insert(m, e);
    } else {
      InsertLast(Insert(m, es[0]), es[1..], e);
      assert (es + [e])[1..] == es[1..] + [e];
    }
  }
}
