/**
  The tokeniser of content lines in `icalparser.c` and the printing of a property's name,
  parameters and value by `icalproperty.c` and `icalparameter.c`.
 */
module ContentLine {
  import opened CText
  import opened ParameterEncoding

  const MAXIMUM_ALLOWED_PARAMETERS: nat := 100

  // ------------------------------------------------------------------------------------
  // Searching outside quotes

  /** A quotation mark at `i` that switches quote mode: not the first character, not after a backslash */
  predicate Toggles(s: string, i: nat)
    requires i < |s|
  {
    i > 0 && s[i] == DQUOTE && s[i - 1] != '\\'
  }

  /** Quote mode when the scan arrives at `j` */
  predicate Quoted(s: string, j: nat)
    requires j <= |s|
  {
    j > 0 && (Quoted(s, j - 1) != Toggles(s, j - 1))
  }

  /** The scan for `c` stops at `j` */
  predicate Hit(c: char, s: string, j: nat, quoting: bool)
    requires j < |s|
  {
    j > 0 && s[j] == c && s[j - 1] != '\\' && (quoting ==> c != DQUOTE && !Quoted(s, j))
  }

  function FirstHitFrom(c: char, s: string, i: nat, quoting: bool): (p: nat)
    requires i <= |s|
    ensures i <= p <= |s|
    ensures p < |s| ==> Hit(c, s, p, quoting)
    ensures forall j :: i <= j < p ==> !Hit(c, s, j, quoting)
    decreases |s| - i
  {
    if i == |s| || Hit(c, s, i, quoting) then i else FirstHitFrom(c, s, i + 1, quoting)
  }

  /** Where the scan for `c` stops; the length of `s` when it finds nothing */
  function FirstHit(c: char, s: string, quoting: bool): (p: nat)
    ensures p <= |s|
    ensures p < |s| ==> Hit(c, s, p, quoting)
    ensures forall j :: 0 <= j < p ==> !Hit(c, s, j, quoting)
  {
    FirstHitFrom(c, s, 0, quoting)
  }

  /** `parser_get_next_char` */
  method GetNextChar(c: char, str: string, qm: bool) returns (p: Option<nat>)
    requires IsCString(str)
    ensures var hit := FirstHit(c, str, qm); p == if hit < |str| then Some(hit) else None
  {
    var quoteMode := false;
    var i := 0;
    var prev := NUL;
    while i < |str|
      invariant 0 <= i <= |str|
      invariant prev == if i == 0 then NUL else str[i - 1]
      invariant quoteMode == (qm && Quoted(str, i))
      invariant forall j :: 0 <= j < i ==> !Hit(c, str, j, qm)
    {
      if prev != NUL && prev != '\\' {
        if qm && str[i] == DQUOTE {
          quoteMode := !quoteMode;
        } else if !quoteMode && str[i] == c {
          assert Hit(c, str, i, qm);
          return Some(i);
        }
      }
      prev := str[i];
      i := i + 1;
    }
    p := None;
  }

  // ------------------------------------------------------------------------------------
  // Trimming

  function TrimRight(s: string): (r: string)
    ensures |r| <= |s| && r == s[..|r|]
    ensures r != [] ==> !IsSpace(r[|r| - 1])
    ensures forall i :: |r| <= i < |s| ==> IsSpace(s[i])
  {
    if s != [] && IsSpace(s[|s| - 1]) then TrimRight(s[..|s| - 1]) else s
  }

  function TrimLeft(s: string): (r: string)
    ensures |r| <= |s| && r == s[|s| - |r|..]
    ensures r != [] ==> !IsSpace(r[0])
    ensures forall i :: 0 <= i < |s| - |r| ==> IsSpace(s[i])
  {
    if s != [] && IsSpace(s[0]) then TrimLeft(s[1..]) else s
  }

  function Trim(s: string): string {
    TrimLeft(TrimRight(s))
  }

  /** `make_segment`: a copy of `s`, cleared from its end while there is white space */
  method MakeSegment(s: string) returns (buf: string)
    requires IsCString(s)
    ensures buf == TrimRight(s)
  {
    var n := |s|;
    while n > 0 && IsSpace(s[n - 1])
      invariant 0 <= n <= |s|
      invariant TrimRight(s) == TrimRight(s[..n])
    {
      assert s[..n][..n - 1] == s[..n - 1];
      n := n - 1;
    }
    buf := s[..n];
  }

  /** `strstriplt` */
  method StripBoth(s: string) returns (buf: string)
    requires IsCString(s)
    ensures buf == Trim(s)
  {
    buf := MakeSegment(s);
    if buf == "" {
      return;
    }
    var a := 0;
    while a < |buf| && IsSpace(buf[a])
      invariant 0 <= a <= |buf|
      invariant TrimLeft(buf) == TrimLeft(buf[a..])
    {
      a := a + 1;
    }
    buf := buf[a..];
  }

  // ------------------------------------------------------------------------------------
  // The pieces of a line

  /** `parser_get_prop_name`: the name and the position after its separator */
  function PropName(line: string): Option<(string, nat)> {
    var p := FirstHit(';', line, true);
    var v := FirstHit(':', line, true);
    if p == |line| && v == |line| then None
    else if v < |line| && v < p then Some((TrimRight(line[..v]), v + 1))
    else Some((TrimRight(line[..p]), p + 1))
  }

  /** `parser_get_next_parameter`: a parameter is only taken when a colon still follows */
  function NextParameter(line: string): (r: Option<(string, nat)>)
    ensures r.Some? ==> 0 < r.value.1 <= |line|
  {
    var v := FirstHit(':', line, true);
    var p := FirstHit(';', line, true);
    var next := if p < v && v < |line| then p else v;
    if next < |line| then Some((TrimRight(line[..next]), next + 1)) else None
  }

  datatype Param = Param(name: string, value: string)

  /** The raw name and value of a parameter, the value without its quotes */
  function RawParam(str: string): Option<Param> {
    var eq := FirstHit('=', str, true);
    if eq == |str| then None
    else
      var val := str[eq + 1..];
      if val != [] && val[0] == DQUOTE then
        var content := val[1..];
        var end := if content != [] && content[0] == DQUOTE then 0 else FirstHit(DQUOTE, content, false);
        if end == |content| then None else Some(Param(str[..eq], content[..end]))
      else
        Some(Param(str[..eq], val))
  }

  /** `parser_get_param_name_stack`: gives up when the name or the value does not fit */
  function ParamOnStack(str: string): Option<Param> {
    match RawParam(str)
    case None => None
    case Some(p) =>
      if |p.name| >= TMP_BUF_SIZE - 1 || |p.value| >= TMP_BUF_SIZE - 1 then None
      else Some(Param(p.name, Decode(p.value)))
  }

  /** `parser_get_param_name_heap`: like the former, but it also trims */
  function ParamOnHeap(str: string): Option<Param> {
    match RawParam(str)
    case None => None
    case Some(p) => Some(Param(TrimRight(p.name), Decode(TrimRight(p.value))))
  }

  function SplitParam(str: string): Option<Param> {
    var p := ParamOnStack(str);
    if p.Some? then p else ParamOnHeap(str)
  }

  // ------------------------------------------------------------------------------------
  // The TZID workaround

  /** `icalparameter_string_to_kind` gives the TZID kind */
  predicate IsTzid(name: string) {
    |name| == 4 && name[0] in "Tt" && name[1] in "Zz" && name[2] in "Ii" && name[3] in "Dd"
  }

  /** The last colon that repeated searching finds; each search starts on the colon before */
  function LastColon(s: string, from: nat): (r: nat)
    requires from <= |s|
    ensures from <= r <= |s|
    decreases |s| - from
  {
    var hit := FirstHit(':', s[from..], true);
    if from + hit < |s| && hit > 0 then LastColon(s, from + hit) else from
  }

  /** The scan of a suffix is the scan of the whole text, once quote mode is off */
  lemma {:induction false} QuotedShift(pre: string, suf: string, j: nat)
    requires suf != [] && suf[0] != DQUOTE && j <= |suf| && !Quoted(pre + suf, |pre|)
    ensures Quoted(pre + suf, |pre| + j) == Quoted(suf, j)
    decreases j
  {
    if j > 0 {
      QuotedShift(pre, suf, j - 1);
      var s := pre + suf;
      assert s[|pre| + j - 1] == suf[j - 1];
      if j > 1 {
        assert s[|pre| + j - 2] == suf[j - 2];
      }
    }
  }

  /** A visible colon of the rest, seen in the whole text, once quote mode is off */
  lemma HitShift(s: string, from: nat, j: nat)
    requires 0 < j < |s| - from && (from == 0 || Hit(':', s, from, true))
    ensures Hit(':', s[from..], j, true) == Hit(':', s, from + j, true)
  {
    if from == 0 {
      assert s[0..] == s;
    } else {
      assert s[..from] + s[from..] == s;
      QuotedShift(s[..from], s[from..], j);
    }
  }

  /** The colon that the repeated search ends on is the last one that the scan of the text sees */
  lemma {:induction false} LastColonIsLast(s: string, from: nat)
    requires from <= |s| && (from == 0 || (from < |s| && Hit(':', s, from, true)))
    ensures var r := LastColon(s, from);
            && (r == 0 || (r < |s| && Hit(':', s, r, true)))
            && forall j :: r < j < |s| ==> !Hit(':', s, j, true)
    decreases |s| - from
  {
    hide FirstHit, Quoted;
    var hit := FirstHit(':', s[from..], true);
    if from + hit < |s| && hit > 0 {
      HitShift(s, from, hit);
      LastColonIsLast(s, from + hit);
    } else {
      forall j | from < j < |s| ensures !Hit(':', s, j, true) {
        HitShift(s, from, j - from);
      }
    }
  }

  /** A TZID before a colon reads on: to the last colon of the line, or to a semicolon before it */
  function Workaround(rest: string): (r: Option<nat>)
    ensures r.Some? ==> 0 < r.value < |rest|
  {
    var colon := LastColon(rest, 0);
    var semi := FirstHit(';', rest, true);
    var last := if colon > 0 && semi < colon then semi else colon;
    if 0 < last && last + 1 < |rest| then Some(last + 1) else None
  }

  /** The loop that looks for the last colon outside quotes */
  method FindLastColon(rest: string) returns (last: Option<nat>)
    requires IsCString(rest)
    ensures var c := LastColon(rest, 0); last == if c > 0 then Some(c) else None
    ensures last.Some? ==> last.value < |rest| && Hit(':', rest, last.value, true)
    ensures forall j :: (if last.Some? then last.value else 0) < j < |rest| ==> !Hit(':', rest, j, true)
  {
    LastColonIsLast(rest, 0);
    last := None;
    var at := 0;
    while true
      invariant 0 <= at <= |rest| && (last == if at > 0 then Some(at) else None)
      invariant LastColon(rest, 0) == LastColon(rest, at)
      decreases |rest| - at
    {
      var next := GetNextChar(':', rest[at..], true);
      if next.None? {
        break;
      }
      assert Hit(':', rest[at..], next.value, true);
      at := at + next.value;
      last := Some(at);
    }
  }

  /** The segment that the workaround parses again: it starts at a fixed place of the line */
  function TzidSegment(line: string, end: nat): string {
    if 6 <= end <= |line| then TrimRight(line[6..end]) else ""
  }

  /**
    The value after the second split. When the first split was on the heap and the second one
    fits the stack, the source keeps the value of the first.
   */
  function SplitAgain(segment: string, p: Param, again: string): Option<string> {
    match ParamOnStack(again)
    case Some(q) => Some(if ParamOnStack(segment).Some? then q.value else p.value)
    case None =>
      match ParamOnHeap(again)
      case Some(q) => Some(q.value)
      case None => None
  }

  // ------------------------------------------------------------------------------------
  // A whole line

  datatype ParamError = BadName(text: string) | BadValue(text: string)

  datatype Parsed = Parsed(params: seq<Param>, rest: string, errors: seq<ParamError>)

  /** What one round of the parameter loop takes: a parameter or an error, and how far it reads */
  datatype Taken = Taken(param: Option<Param>, error: Option<ParamError>, used: nat)

  /** One round on `rest`, which stands after `before` in the line */
  function TakeParam(before: string, rest: string): (r: Option<Taken>)
    ensures r.Some? ==> 0 < r.value.used <= |rest|
    ensures r.Some? ==> (r.value.param.None? <==> r.value.error.Some?)
  {
    match NextParameter(rest)
    case None => None
    case Some((segment, end)) =>
      match SplitParam(Trim(segment))
      case None => Some(Taken(None, Some(BadName(Trim(segment))), end))
      case Some(p) =>
        if IsTzid(p.name) && rest[end - 1] != ';' && Workaround(rest[end..]).Some? then
          var more := Workaround(rest[end..]).value;
          var again := TzidSegment(before + rest, |before| + end + more - 1);
          match SplitAgain(Trim(segment), p, again)
          case None => Some(Taken(None, Some(BadValue(again)), end + more))
          case Some(value) => Some(Taken(Some(Param(p.name, value)), None, end + more))
        else Some(Taken(Some(p), None, end))
  }

  /** The parameters at the start of `rest`: an error in a name ends the loop, one in a value does not */
  function Params(before: string, rest: string, room: nat): (r: Parsed)
    requires before != []
    ensures |r.rest| <= |rest|
    decreases |rest|
  {
    if room == 0 || before[|before| - 1] == ':' then Parsed([], rest, [])
    else
      match TakeParam(before, rest)
      case None => Parsed([], rest, [])
      case Some(Taken(p, error, used)) =>
        if error.Some? && error.value.BadName? then Parsed([], rest[used..], [error.value])
        else
          var more := Params(before + rest[..used], rest[used..], if p.Some? then room - 1 else room);
          Parsed((if p.Some? then [p.value] else []) + more.params, more.rest,
                 (if error.Some? then [error.value] else []) + more.errors)
  }

  /** The same on positions of the line */
  function ParamsAt(line: string, at: nat, room: nat): Parsed
    requires 0 < at <= |line|
  {
    Params(line[..at], line[at..], room)
  }

  lemma ParamsStep(line: string, at: nat, room: nat, taken: Taken)
    requires 0 < at <= |line| && room > 0 && line[at - 1] != ':'
    requires TakeParam(line[..at], line[at..]) == Some(taken)
    ensures taken.error.Some? && taken.error.value.BadName? ==>
              ParamsAt(line, at, room) == Parsed([], line[at + taken.used..], [taken.error.value])
    ensures taken.error.Some? && taken.error.value.BadValue? ==>
              var more := ParamsAt(line, at + taken.used, room);
              ParamsAt(line, at, room) == Parsed(more.params, more.rest, [taken.error.value] + more.errors)
    ensures taken.param.Some? ==>
              var more := ParamsAt(line, at + taken.used, room - 1);
              ParamsAt(line, at, room) == Parsed([taken.param.value] + more.params, more.rest, more.errors)
  {
    hide TakeParam;
    DropDrop(line, at, taken.used);
    assert line[..at] + line[at..][..taken.used] == line[..at + taken.used];
  }

  lemma ParamsStop(before: string, rest: string, room: nat)
    requires before != []
    requires room == 0 || before[|before| - 1] == ':' || TakeParam(before, rest).None?
    ensures Params(before, rest, room) == Parsed([], rest, [])
  {
  }

  /** The loop over the parameters in `icalparser_add_line`, from position `start` of the line */
  method GetParams(line: string, start: nat) returns (ps: seq<Param>, end: nat, errors: seq<ParamError>)
    requires 0 < start <= |line|
    ensures start <= end <= |line|
    ensures Parsed(ps, line[end..], errors) == ParamsAt(line, start, MAXIMUM_ALLOWED_PARAMETERS)
  {
    hide Params, TakeParam, ParamsAt;
    var count := 0;
    ps, end, errors := [], start, [];
    ghost var all := ParamsAt(line, start, MAXIMUM_ALLOWED_PARAMETERS);
    ghost var left := all;
    assert [] + left.params == left.params && [] + left.errors == left.errors;
    while count < MAXIMUM_ALLOWED_PARAMETERS && line[end - 1] != ':'
      invariant start <= end <= |line| && count <= MAXIMUM_ALLOWED_PARAMETERS
      invariant left == ParamsAt(line, end, MAXIMUM_ALLOWED_PARAMETERS - count)
      invariant all == Parsed(ps + left.params, left.rest, errors + left.errors)
      decreases |line| - end
    {
      var next := TakeParam(line[..end], line[end..]);
      if next.None? {
        break;
      }
      var Taken(p, error, used) := next.value;
      ParamsStep(line, end, MAXIMUM_ALLOWED_PARAMETERS - count, next.value);
      end := end + used;
      if error.Some? {
        ghost var before := errors;
        errors := errors + [error.value];
        if error.value.BadName? {
          assert ps + [] == ps;
          return;
        }
        left := ParamsAt(line, end, MAXIMUM_ALLOWED_PARAMETERS - count);
        ConcatAssoc(before, [error.value], left.errors);
      } else {
        count := count + 1;
        left := ParamsAt(line, end, MAXIMUM_ALLOWED_PARAMETERS - count);
        ConcatAssoc(ps, [p.value], left.params);
        ps := ps + [p.value];
      }
    }
    ParamsAtEnd(line, end, MAXIMUM_ALLOWED_PARAMETERS - count);
    assert ps + [] == ps && errors + [] == errors;
  }

  lemma ParamsAtEnd(line: string, end: nat, room: nat)
    requires 0 < end <= |line|
    requires room == 0 || line[end - 1] == ':' || TakeParam(line[..end], line[end..]).None?
    ensures ParamsAt(line, end, room) == Parsed([], line[end..], [])
  {
    hide TakeParam;
    ParamsStop(line[..end], line[end..], room);
  }

  datatype Tokens = Tokens(name: string, params: seq<Param>, value: Option<string>, errors: seq<ParamError>)

  /** `icalparser_get_value` and the stripping of its result */
  function ValueText(rest: string): (r: Option<string>)
    ensures r.Some? ==> |r.value| <= |rest|
  {
    if rest == [] then None else Some(Trim(TrimRight(rest)))
  }

  /** The tokens of a line; nothing when there is no property name */
  function Tokenise(line: string): Option<Tokens> {
    match PropName(line)
    case None => None
    case Some((name, end)) =>
      if name == [] then None
      else
        var parsed := ParamsAt(line, end, MAXIMUM_ALLOWED_PARAMETERS);
        Some(Tokens(name, parsed.params, ValueText(parsed.rest), parsed.errors))
  }

  // ------------------------------------------------------------------------------------
  // Printing

  /** `icalparameter_as_ical_string_r` */
  function ParamText(p: Param): string {
    p.name + "=" + Encode(p.value)
  }

  /** Everything after the name of a property: its parameters and its value */
  function AfterName(ps: seq<Param>, value: string): (s: string)
    ensures s != [] && s[0] == if ps == [] then ':' else ';'
  {
    if ps == [] then ":" + value else ";" + (ParamText(ps[0]) + AfterName(ps[1..], value))
  }

  /** The unfolded text that `icalproperty_as_ical_string_r` assembles, without its line end */
  function PropertyLine(name: string, ps: seq<Param>, value: string): string {
    name + AfterName(ps, value)
  }

  /** The assembly loop of `icalproperty_as_ical_string_r` */
  method AssembleProperty(name: string, ps: seq<Param>, value: string) returns (buf: string)
    ensures buf == PropertyLine(name, ps, value) + "\r\n"
  {
    hide Encode;
    buf := name;
    for i := 0 to |ps|
      invariant PropertyLine(name, ps, value) == buf + AfterName(ps[i..], value)
    {
      assert ps[i..][1..] == ps[i + 1..];
      ghost var rest := AfterName(ps[i + 1..], value);
      ghost var before := buf;
      buf := buf + ";";
      buf := buf + ps[i].name + "=";
      buf := AppendEncodedValue(buf, ps[i].value);
      AssembleStep(before, ps[i], rest);
    }
    ConcatAssoc(buf, ":", value);
    buf := buf + ":" + value + "\r\n";
  }

  lemma AssembleStep(buf: string, p: Param, rest: string)
    ensures buf + ";" + p.name + "=" + Encode(p.value) + rest == buf + (";" + (ParamText(p) + rest))
    ensures buf + ";" + (p.name + "=") + Encode(p.value) + rest == buf + (";" + (ParamText(p) + rest))
  {
    hide Encode;
  }
}
