/**
  The X-LIC-ERROR properties that the parser leaves in components: counting them, stripping
  them, and converting them to REQUEST-STATUS properties, over a whole tree of components.
 */
module ErrorProperties {
  import opened CText
  import opened Lists
  import opened Components
  import opened ComponentTrees

  // ------------------------------------------------------------------------------------
  // On the list of one component

  function CountOwn(ps: seq<Property>): nat {
    if ps == [] then 0 else (if ps[0].content.XLicError? then 1 else 0) + CountOwn(ps[1..])
  }

  /** The properties that are not errors, in order */
  function Survivors(ps: seq<Property>): seq<Property> {
    if ps == [] then []
    else if ps[0].content.XLicError? then Survivors(ps[1..])
    else [ps[0]] + Survivors(ps[1..])
  }

  lemma {:induction false} SurvivorsFacts(ps: seq<Property>)
    ensures CountOwn(Survivors(ps)) == 0 && Survivors(Survivors(ps)) == Survivors(ps)
    ensures |Survivors(ps)| + CountOwn(ps) == |ps|
    ensures FirstTzid(Survivors(ps)) == FirstTzid(ps)
  {
    if ps != [] {
      SurvivorsFacts(ps[1..]);
    }
  }

  /** The first loop of `icalcomponent_strip_errors` */
  method StripOwn(c: Component)
    requires c.ValidProperties()
    modifies c`properties, c`propertyIterator
    ensures c.ValidProperties()
    ensures c.properties == Survivors(old(c.properties))
  {
    ghost var p0 := c.properties;
    ghost var kept: seq<Property>, rest: seq<Property> := [], p0;
    var item: Property? := if c.properties == [] then null else c.properties[0];
    while item != null
      invariant c.ValidProperties()
      invariant c.properties == kept + rest
      invariant item == if rest == [] then null else rest[0]
      invariant Survivors(p0) == kept + Survivors(rest)
      decreases |rest|
    {
      var p: Property := item;
      ghost var tail := rest[1..];
      assert c.properties == kept + [p] + tail;
      AfterMiddle(kept, p, tail);
      WithoutMiddle(kept, p, tail);
      var after := After(c.properties, p);
      item := if after == [] then null else after[0];
      if p.content.XLicError? {
        c.RemoveProperty(p);
      } else {
        ConcatAssoc(kept, [p], Survivors(tail));
        kept := kept + [p];
      }
      rest := tail;
    }
  }

  // ------------------------------------------------------------------------------------
  // Conversion

  /** The status that an error type is converted to; other errors stay */
  function StatusOf(e: ErrorType): Option<Status> {
    match e
    case ParameterNameParseError => Some(InvParam32)
    case ParameterValueParseError => Some(InvParamVal33)
    case PropertyParseError => Some(InvPropName30)
    case ValueParseError => Some(InvPropVal31)
    case ComponentParseError => Some(InvComp34)
    case OtherError => None
  }

  predicate Convertible(c: Content) {
    c.XLicError? && StatusOf(c.errorType).Some?
  }

  function Converted(c: Content): Content
    requires Convertible(c)
  {
    RequestStatus(StatusOf(c.errorType).value, c.text)
  }

  function Contents(ps: seq<Property>): (cs: seq<Content>)
    ensures |cs| == |ps| && forall i :: 0 <= i < |ps| ==> cs[i] == ps[i].content
  {
    if ps == [] then [] else [ps[0].content] + Contents(ps[1..])
  }

  function Kept(cs: seq<Content>): seq<Content> {
    if cs == [] then [] else if Convertible(cs[0]) then Kept(cs[1..]) else [cs[0]] + Kept(cs[1..])
  }

  function Statuses(cs: seq<Content>): seq<Content> {
    if cs == [] then [] else if Convertible(cs[0]) then [Converted(cs[0])] + Statuses(cs[1..]) else Statuses(cs[1..])
  }

  /** After conversion: first everything that stays, then one status for each converted error */
  function AfterConversion(cs: seq<Content>): seq<Content> {
    Kept(cs) + Statuses(cs)
  }

  lemma {:induction false} KeptAppend(cs: seq<Content>, c: Content)
    requires !Convertible(c)
    ensures Kept(cs + [c]) == Kept(cs) + [c] && Statuses(cs + [c]) == Statuses(cs)
  {
    if cs == [] {
      assert cs + [c] == [c];
      assert Kept([c]) == [c] + Kept([]);
      assert Statuses([c]) == [] + Statuses([]);
    } else {
      KeptAppend(cs[1..], c);
      assert (cs + [c])[1..] == cs[1..] + [c];
    }
  }

  /** Replacing the first error by a status at the end does not change the outcome */
  lemma ConvertFirst(c: Content, rest: seq<Content>)
    requires Convertible(c)
    ensures AfterConversion([c] + rest) == AfterConversion(rest + [Converted(c)])
  {
    assert ([c] + rest)[1..] == rest;
    KeptAppend(rest, Converted(c));
  }

  lemma KeepFirst(c: Content, rest: seq<Content>)
    requires !Convertible(c)
    ensures AfterConversion([c] + rest) == [c] + AfterConversion(rest)
  {
    assert ([c] + rest)[1..] == rest;
  }

  function CountConvertible(cs: seq<Content>): nat {
    if cs == [] then 0 else (if Convertible(cs[0]) then 1 else 0) + CountConvertible(cs[1..])
  }

  lemma CountFirst(c: Content, rest: seq<Content>)
    ensures CountConvertible([c] + rest) == (if Convertible(c) then 1 else 0) + CountConvertible(rest)
  {
    assert ([c] + rest)[1..] == rest;
  }

  lemma {:induction false} CountConcat(a: seq<Content>, b: seq<Content>)
    ensures CountConvertible(a + b) == CountConvertible(a) + CountConvertible(b)
  {
    if a == [] {
      assert a + b == b;
    } else {
      CountConcat(a[1..], b);
      assert (a + b)[1..] == a[1..] + b;
    }
  }

  /** One status for each convertible error, the rest stays in order, nothing is left to convert */
  lemma {:induction false} ConversionFacts(cs: seq<Content>)
    ensures |Kept(cs)| + |Statuses(cs)| == |cs| && |Statuses(cs)| == CountConvertible(cs)
    ensures CountConvertible(Kept(cs)) == 0 && CountConvertible(Statuses(cs)) == 0
    ensures CountConvertible(AfterConversion(cs)) == 0
  {
    if cs != [] {
      ConversionFacts(cs[1..]);
      if Convertible(cs[0]) {
        CountFirst(Converted(cs[0]), Statuses(cs[1..]));
      } else {
        CountFirst(cs[0], Kept(cs[1..]));
      }
    }
    CountConcat(Kept(cs), Statuses(cs));
  }

  lemma {:induction false} NothingToConvert(cs: seq<Content>)
    requires CountConvertible(cs) == 0
    ensures Kept(cs) == cs && Statuses(cs) == [] && AfterConversion(cs) == cs
  {
    hide StatusOf;
    if cs != [] {
      NothingToConvert(cs[1..]);
      assert cs == [cs[0]] + cs[1..];
    }
  }

  lemma ConversionIdempotent(cs: seq<Content>)
    ensures AfterConversion(AfterConversion(cs)) == AfterConversion(cs)
  {
    ConversionFacts(cs);
    NothingToConvert(AfterConversion(cs));
  }

  /** An error that the parser reports about a piece of text */
  predicate IsParseError(c: Content) {
    c.XLicError? && c.errorType != OtherError
  }

  /** The parse errors of a list, or everything else, in order */
  function Sift(cs: seq<Content>, errors: bool): seq<Content> {
    if cs == [] then [] else (if IsParseError(cs[0]) == errors then [cs[0]] else []) + Sift(cs[1..], errors)
  }

  /** For every text: as many more of the status as there were errors of the type */
  ghost predicate Gains(before: seq<Content>, after: seq<Content>, e: ErrorType, s: Status) {
    forall t :: multiset(after)[RequestStatus(s, t)] ==
                multiset(before)[RequestStatus(s, t)] + multiset(before)[XLicError(e, t)]
  }

  /**
    What conversion is for: each parse error becomes the status of its type, with its text, at
    the end of the list and in the order of the errors; everything else stays in order
   */
  ghost predicate Turned(before: seq<Content>, after: seq<Content>) {
    && Gains(before, after, PropertyParseError, InvPropName30)
    && Gains(before, after, ValueParseError, InvPropVal31)
    && Gains(before, after, ParameterNameParseError, InvParam32)
    && Gains(before, after, ParameterValueParseError, InvParamVal33)
    && Gains(before, after, ComponentParseError, InvComp34)
    && (forall c :: c in after && c.XLicError? ==> c.errorType == OtherError)
    && Sift(before, false) <= after && |after| == |before|
    && Reports(after[|Sift(before, false)|..], Sift(before, true))
  }

  /** Statuses with the texts of the errors, in order */
  predicate Reports(statuses: seq<Content>, errors: seq<Content>) {
    && |statuses| == |errors|
    && forall i :: 0 <= i < |errors| ==>
         && statuses[i].RequestStatus? && errors[i].XLicError?
         && statuses[i].debug == errors[i].text
  }

  lemma ParseErrorsConvert(c: Content)
    ensures Convertible(c) <==> IsParseError(c)
    ensures Convertible(c) ==> Converted(c).RequestStatus? && Converted(c).debug == c.text
  {
  }

  lemma {:induction false} Sifted(cs: seq<Content>)
    ensures Kept(cs) == Sift(cs, false) && Reports(Statuses(cs), Sift(cs, true))
  {
    hide Convertible, Converted;
    if cs != [] {
      Sifted(cs[1..]);
      ParseErrorsConvert(cs[0]);
    }
  }

  lemma {:induction false} KeptHas(cs: seq<Content>)
    ensures forall c :: c in AfterConversion(cs) ==> !IsParseError(c)
  {
    hide StatusOf, Converted;
    if cs != [] {
      KeptHas(cs[1..]);
      ParseErrorsConvert(cs[0]);
    }
  }

  lemma FirstCounts(c: Content, rest: seq<Content>, x: Content)
    ensures multiset([c] + rest)[x] == (if c == x then 1 else 0) + multiset(rest)[x]
  {
  }

  /** Each type of error has a status of its own */
  predicate Paired(e: ErrorType, s: Status) {
    || (e == PropertyParseError && s == InvPropName30) || (e == ValueParseError && s == InvPropVal31)
    || (e == ParameterNameParseError && s == InvParam32) || (e == ParameterValueParseError && s == InvParamVal33)
    || (e == ComponentParseError && s == InvComp34)
  }

  lemma OneCounts(c: Content, e: ErrorType, s: Status, t: string)
    requires Paired(e, s)
    ensures Convertible(c) ==>
              c != RequestStatus(s, t) && (Converted(c) == RequestStatus(s, t) <==> c == XLicError(e, t))
    ensures !Convertible(c) ==> c != XLicError(e, t)
  {
  }

  /** How often a status occurs after conversion, and where from */
  lemma {:induction false} CountedStatus(cs: seq<Content>, e: ErrorType, s: Status, t: string)
    requires Paired(e, s)
    ensures multiset(Kept(cs))[RequestStatus(s, t)] == multiset(cs)[RequestStatus(s, t)]
    ensures multiset(Statuses(cs))[RequestStatus(s, t)] == multiset(cs)[XLicError(e, t)]
  {
    hide Convertible, Converted, Paired;
    if cs != [] {
      var c, rest := cs[0], cs[1..];
      assert cs == [c] + rest;
      CountedStatus(rest, e, s, t);
      OneCounts(c, e, s, t);
      FirstCounts(c, rest, RequestStatus(s, t));
      FirstCounts(c, rest, XLicError(e, t));
      if Convertible(c) {
        FirstCounts(Converted(c), Statuses(rest), RequestStatus(s, t));
      } else {
        FirstCounts(c, Kept(rest), RequestStatus(s, t));
      }
    }
  }

  lemma GainsOf(cs: seq<Content>, e: ErrorType, s: Status)
    requires Paired(e, s)
    ensures Gains(cs, AfterConversion(cs), e, s)
  {
    hide Kept, Statuses;
    forall t
      ensures multiset(AfterConversion(cs))[RequestStatus(s, t)] ==
              multiset(cs)[RequestStatus(s, t)] + multiset(cs)[XLicError(e, t)]
    {
      CountedStatus(cs, e, s, t);
    }
  }

  lemma ConversionTurns(cs: seq<Content>)
    ensures Turned(cs, AfterConversion(cs))
  {
    hide Kept, Statuses, Sift, Gains, Reports;
    Sifted(cs);
    KeptHas(cs);
    ConversionFacts(cs);
    assert AfterConversion(cs)[|Kept(cs)|..] == Statuses(cs);
    GainsOf(cs, PropertyParseError, InvPropName30);
    GainsOf(cs, ValueParseError, InvPropVal31);
    GainsOf(cs, ParameterNameParseError, InvParam32);
    GainsOf(cs, ParameterValueParseError, InvParamVal33);
    GainsOf(cs, ComponentParseError, InvComp34);
  }

  function TzidIn(cs: seq<Content>): Option<string> {
    if cs == [] then None else if cs[0].Tzid? then Some(cs[0].id) else TzidIn(cs[1..])
  }

  lemma {:induction false} TzidOfContents(ps: seq<Property>)
    ensures FirstTzid(ps) == TzidIn(Contents(ps))
  {
    if ps != [] {
      TzidOfContents(ps[1..]);
    }
  }

  lemma {:induction false} TzidConcat(a: seq<Content>, b: seq<Content>)
    ensures TzidIn(a + b) == if TzidIn(a).Some? then TzidIn(a) else TzidIn(b)
  {
    if a == [] {
      assert a + b == b;
    } else {
      TzidConcat(a[1..], b);
      assert (a + b)[1..] == a[1..] + b;
    }
  }

  lemma {:induction false} TzidKept(cs: seq<Content>)
    ensures TzidIn(Kept(cs)) == TzidIn(cs) && TzidIn(Statuses(cs)) == None
    ensures TzidIn(AfterConversion(cs)) == TzidIn(cs)
  {
    if cs != [] {
      TzidKept(cs[1..]);
    }
    TzidConcat(Kept(cs), Statuses(cs));
  }

  lemma {:induction false} ContentsConcat(a: seq<Property>, b: seq<Property>)
    ensures Contents(a + b) == Contents(a) + Contents(b)
  {
  }

  /** What one round of the loop of `icalcomponent_convert_errors` does to the unvisited part */
  lemma ConversionStep(kept: seq<Content>, c: Content, tail: seq<Content>)
    ensures Convertible(c) && tail != [] ==>
              kept + AfterConversion([c] + tail) == kept + AfterConversion(tail + [Converted(c)])
    ensures Convertible(c) && tail == [] ==> kept + AfterConversion([c] + tail) == kept + [Converted(c)]
    ensures !Convertible(c) ==> kept + AfterConversion([c] + tail) == (kept + [c]) + AfterConversion(tail)
    ensures Convertible(c) ==> CountConvertible(tail + [Converted(c)]) == CountConvertible(tail)
    ensures CountConvertible([c] + tail) == (if Convertible(c) then 1 else 0) + CountConvertible(tail)
  {
    CountFirst(c, tail);
    if Convertible(c) {
      ConvertFirst(c, tail);
      CountConcat(tail, [Converted(c)]);
      CountFirst(Converted(c), []);
      assert [Converted(c)] + [] == [Converted(c)];
      if tail == [] {
        assert tail + [Converted(c)] == [Converted(c)];
        NothingToConvert([Converted(c)]);
      }
    } else {
      KeepFirst(c, tail);
      ConcatAssoc(kept, [c], AfterConversion(tail));
    }
  }

  /** Where the loop stands: `kept` is behind it, `todo` ahead */
  ghost predicate Converting(start: seq<Property>, kept: seq<Property>, todo: seq<Property>) {
    AfterConversion(Contents(start)) == Contents(kept) + AfterConversion(Contents(todo))
  }

  lemma ConvertingBounds(ps: seq<Property>, kept: seq<Property>)
    ensures Converting(ps, [], ps)
    ensures Converting(ps, kept, []) ==> Contents(kept) == AfterConversion(Contents(ps))
  {
  }

  ghost function Convertibles(ps: seq<Property>): nat {
    CountConvertible(Contents(ps))
  }

  lemma KeepRound(start: seq<Property>, kept: seq<Property>, p: Property, tail: seq<Property>)
    requires Converting(start, kept, [p] + tail) && !Convertible(p.content)
    ensures Converting(start, kept + [p], tail) && Convertibles(tail) == Convertibles([p] + tail)
  {
    ContentsConcat([p], tail);
    ContentsConcat(kept, [p]);
    ConversionStep(Contents(kept), p.content, Contents(tail));
  }

  lemma ConvertRound(start: seq<Property>, kept: seq<Property>, p: Property, tail: seq<Property>, status: Property)
    requires Converting(start, kept, [p] + tail) && Convertible(p.content) && status.content == Converted(p.content)
    ensures tail == [] ==> Converting(start, kept + [status], [])
    ensures tail != [] ==> Converting(start, kept, tail + [status])
    ensures Convertibles(tail + [status]) < Convertibles([p] + tail) && Convertibles([]) < Convertibles([p] + tail)
  {
    ContentsConcat([p], tail);
    ContentsConcat(tail, [status]);
    ContentsConcat(kept, [status]);
    assert Contents([p]) == [p.content] && Contents([status]) == [Converted(p.content)];
    ConversionStep(Contents(kept), p.content, Contents(tail));
  }

  /** Adds the status at the end of the list and removes the error */
  method Replace(c: Component, property: Property, ghost kept: seq<Property>, ghost tail: seq<Property>)
    returns (status: Property)
    requires c.ValidProperties() && c.properties == kept + [property] + tail && c.propertyIterator != property
    requires Convertible(property.content)
    modifies c`properties, c`propertyIterator
    ensures c.ValidProperties() && c.properties == kept + (tail + [status])
    ensures c.propertyIterator == old(c.propertyIterator)
    ensures fresh(status) && status.content == Converted(property.content)
  {
    hide IndexOf, After, NoDup;
    status := new Property(Converted(property.content));
    c.AddProperty(status);
    ConcatAssoc(kept + [property], tail, [status]);
    WithoutMiddle(kept, property, tail + [status]);
    c.RemoveProperty(property);
  }

  /** The iterator functions for any kind take the properties in order */
  method FirstOwn(c: Component) returns (r: Property?)
    requires c.ValidProperties()
    modifies c`propertyIterator
    ensures c.ValidProperties() && r == c.propertyIterator == if c.properties == [] then null else c.properties[0]
  {
    r := c.GetFirstProperty(None);
  }

  method NextOwn(c: Component) returns (r: Property?)
    requires c.ValidProperties() && c.propertyIterator != null
    modifies c`propertyIterator
    ensures c.ValidProperties()
    ensures var rest := After(c.properties, old(c.propertyIterator));
            r == c.propertyIterator == if rest == [] then null else rest[0]
  {
    r := c.GetNextProperty(None);
  }

  /** The first loop of `icalcomponent_convert_errors`, which walks with the component's own iterator */
  method ConvertOwn(c: Component)
    requires c.ValidProperties()
    modifies c`properties, c`propertyIterator
    ensures c.ValidProperties()
    ensures Contents(c.properties) == AfterConversion(old(Contents(c.properties)))
    ensures Turned(old(Contents(c.properties)), Contents(c.properties))
    ensures forall p :: p in c.properties ==> p in old(c.properties) || fresh(p)
  {
    hide AfterConversion, Contents, Converting, Convertibles, IndexOf, NoDup, Turned;
    ghost var p0 := c.properties;
    ghost var kept: seq<Property>, todo: seq<Property> := [], p0;
    ConvertingBounds(p0, []);
    var p := FirstOwn(c);
    while p != null
      invariant c.ValidProperties()
      invariant c.properties == kept + todo
      invariant p == c.propertyIterator == if todo == [] then null else todo[0]
      invariant Converting(p0, kept, todo)
      invariant forall q :: q in c.properties ==> q in p0 || fresh(q)
      decreases Convertibles(todo), |todo|
    {
      var property: Property := p;
      ghost var tail := todo[1..];
      assert todo == [property] + tail;
      ConcatAssoc(kept, [property], tail);
      AfterMiddle(kept, property, tail);
      WithoutMiddle(kept, property, tail);
      var next := NextOwn(c);
      if Convertible(property.content) {
        var status := Replace(c, property, kept, tail);
        ConvertRound(p0, kept, property, tail, status);
        if tail == [] {
          assert tail + [status] == [status];
          kept, todo := kept + [status], [];
        } else {
          todo := tail + [status];
        }
      } else {
        KeepRound(p0, kept, property, tail);
        kept, todo := kept + [property], tail;
      }
      p := next;
    }
    ConvertingBounds(p0, kept);
    assert c.properties == kept;
    ConversionTurns(Contents(p0));
  }

  // ------------------------------------------------------------------------------------
  // Over a tree of components

  /** The errors in a component and below it */
  ghost function Errors(c: Component, below: Tree): nat
    requires IsTree(below) && c in below
    reads below.Keys`components, below.Keys`properties
    decreases below[c], 1, 0
  {
    CountOwn(c.properties) + ErrorsOf(c.components, c, below)
  }

  ghost function ErrorsOf(cs: seq<Component>, c: Component, below: Tree): nat
    requires IsTree(below) && c in below && forall d :: d in cs ==> d in c.components
    reads below.Keys`components, below.Keys`properties
    decreases below[c], 0, |cs|
  {
    if cs == [] then 0 else
      assert cs[0] in c.components;
      ChildFacts(c, cs[0], below);
      Errors(cs[0], below) + ErrorsOf(cs[1..], c, below)
  }

  /** The properties in a component and below it, for comparison */
  ghost function Size(c: Component, m: map<Component, seq<Property>>, below: Tree): nat
    requires IsTree(below) && c in below && m.Keys == below.Keys
    reads below.Keys`components
    decreases below[c], 1, 0
  {
    |m[c]| + SizeOf(c.components, c, m, below)
  }

  ghost function SizeOf(cs: seq<Component>, c: Component, m: map<Component, seq<Property>>, below: Tree): nat
    requires IsTree(below) && c in below && m.Keys == below.Keys && forall d :: d in cs ==> d in c.components
    reads below.Keys`components
    decreases below[c], 0, |cs|
  {
    if cs == [] then 0 else
      assert cs[0] in c.components;
      ChildFacts(c, cs[0], below);
      Size(cs[0], m, below) + SizeOf(cs[1..], c, m, below)
  }

  /** Every error in the tree is counted once: with the errors away, there are so many properties fewer */
  lemma {:induction false} CountedOnce(c: Component, below: Tree, m: map<Component, seq<Property>>)
    requires IsTree(below) && c in below && m.Keys == below.Keys
    requires forall e :: e in below[c] ==> e in below && m[e] == Survivors(e.properties)
    ensures Errors(c, below) + Size(c, m, below) == Size(c, PropertiesOf(below), below)
    decreases below[c], 1, 0
  {
    assert ChildrenIn(c, c.components, below);
    SurvivorsFacts(c.properties);
    CountedOnceOf(c.components, c, below, m);
  }

  lemma {:induction false} CountedOnceOf(
    cs: seq<Component>, c: Component, below: Tree, m: map<Component, seq<Property>>)
    requires IsTree(below) && c in below && m.Keys == below.Keys && forall d :: d in cs ==> d in c.components
    requires forall e :: e in below[c] ==> e in below && m[e] == Survivors(e.properties)
    ensures ErrorsOf(cs, c, below) + SizeOf(cs, c, m, below) == SizeOf(cs, c, PropertiesOf(below), below)
    decreases below[c], 0, |cs|
  {
    hide IsTree, ChildrenIn, Union, CountOwn, Survivors;
    if cs != [] {
      assert cs[0] in c.components;
      ChildFacts(c, cs[0], below);
      CountedOnce(cs[0], below, m);
      CountedOnceOf(cs[1..], c, below, m);
    }
  }

  /** `icalcomponent_count_errors` */
  method CountErrors(c: Component, ghost below: Tree) returns (errors: nat)
    requires IsTree(below) && c in below
    ensures errors == Errors(c, below)
    decreases below[c]
  {
    hide IsTree, ChildrenIn, Union;
    errors := 0;
    var i := 0;
    while i < |c.properties|
      invariant 0 <= i <= |c.properties|
      invariant CountOwn(c.properties) == errors + CountOwn(c.properties[i..])
    {
      if c.properties[i].content.XLicError? {
        errors := errors + 1;
      }
      i := i + 1;
    }
    i := 0;
    while i < |c.components|
      invariant 0 <= i <= |c.components|
      invariant Errors(c, below) == errors + ErrorsOf(c.components[i..], c, below)
    {
      ChildFacts(c, c.components[i], below);
      var n := CountErrors(c.components[i], below);
      errors := errors + n;
      i := i + 1;
    }
  }

  lemma {:induction false} NoErrors(c: Component, below: Tree)
    requires IsTree(below) && c in below
    requires forall e :: e in below[c] ==> e in below && CountOwn(e.properties) == 0
    ensures Errors(c, below) == 0
    decreases below[c], 1, 0
  {
    assert ChildrenIn(c, c.components, below);
    NoErrorsOf(c.components, c, below);
  }

  lemma {:induction false} NoErrorsOf(cs: seq<Component>, c: Component, below: Tree)
    requires IsTree(below) && c in below && forall d :: d in cs ==> d in c.components
    requires forall e :: e in below[c] ==> e in below && CountOwn(e.properties) == 0
    ensures ErrorsOf(cs, c, below) == 0
    decreases below[c], 0, |cs|
  {
    hide IsTree, ChildrenIn, Union, CountOwn;
    if cs != [] {
      assert cs[0] in c.components;
      ChildFacts(c, cs[0], below);
      NoErrors(cs[0], below);
      NoErrorsOf(cs[1..], c, below);
    }
  }

  ghost predicate ValidTree(below: Tree)
    reads below.Keys`properties, below.Keys`propertyIterator
  {
    forall c :: c in below ==> c.ValidProperties()
  }

  ghost function PropertiesOf(below: Tree): map<Component, seq<Property>>
    reads below.Keys`properties
  {
    map c | c in below :: c.properties
  }

  /** The properties after the errors are stripped from some of the components */
  ghost function Stripped(m: map<Component, seq<Property>>, s: set<Component>): map<Component, seq<Property>> {
    map c | c in m :: if c in s then Survivors(m[c]) else m[c]
  }

  lemma StrippedTwice(m: map<Component, seq<Property>>, s: set<Component>, t: set<Component>)
    ensures Stripped(Stripped(m, s), t) == Stripped(m, s + t)
  {
    forall c | c in m && c in s ensures Survivors(Survivors(m[c])) == Survivors(m[c]) {
      SurvivorsFacts(m[c]);
    }
  }

  /** What is done when the loop over the children stands before child `i` */
  ghost function Done(c: Component, children: seq<Component>, i: nat, below: Tree): set<Component>
    requires i <= |children| && ChildrenIn(c, children, below)
  {
    {c} + Union(children[..i], below)
  }

  lemma DoneSteps(c: Component, children: seq<Component>, i: nat, below: Tree)
    requires i <= |children| && ChildrenIn(c, children, below)
    ensures i == 0 ==> Done(c, children, i, below) == {c}
    ensures c in Done(c, children, i, below) && c in below[c]
    ensures i < |children| ==> children[i] in below
    ensures i < |children| ==> Done(c, children, i + 1, below) == Done(c, children, i, below) + below[children[i]]
    ensures i == |children| ==> Done(c, children, i, below) == below[c]
  {
    if i < |children| {
      UnionAppend(children[..i], children[i], below);
      assert children[..i + 1] == children[..i] + [children[i]];
    } else {
      assert children[..i] == children;
    }
  }

  method StripHere(c: Component, ghost below: Tree)
    requires ValidTree(below) && c in below
    modifies c`properties, c`propertyIterator
    ensures ValidTree(below)
    ensures PropertiesOf(below) == Stripped(old(PropertiesOf(below)), {c})
  {
    hide Survivors;
    StripOwn(c);
  }

  /** `icalcomponent_strip_errors`: exactly the errors go, from the component and everything below it */
  method StripErrors(c: Component, ghost below: Tree)
    requires IsTree(below) && ValidTree(below) && c in below
    modifies below.Keys`properties, below.Keys`propertyIterator
    ensures ValidTree(below)
    ensures PropertiesOf(below) == Stripped(old(PropertiesOf(below)), below[c])
    decreases below[c]
  {
    hide Survivors, Stripped, PropertiesOf, Union, IsTree, Done, ChildrenIn;
    ghost var m, children := PropertiesOf(below), c.components;
    OwnChildren(c, below);
    StripHere(c, below);
    DoneSteps(c, children, 0, below);
    var i := 0;
    while i < |c.components|
      invariant 0 <= i <= |children| && ValidTree(below)
      invariant PropertiesOf(below) == Stripped(m, Done(c, children, i, below))
    {
      DoneSteps(c, children, i, below);
      ChildFacts(c, c.components[i], below);
      StrippedTwice(m, Done(c, children, i, below), below[children[i]]);
      StripErrors(c.components[i], below);
      i := i + 1;
    }
    DoneSteps(c, children, i, below);
  }

  /** Stripping leaves no error, takes nothing else, and leaves the time zone identifiers alone */
  method StripAll(c: Component, ghost below: Tree)
    requires IsTree(below) && ValidTree(below) && c in below
    modifies below.Keys`properties, below.Keys`propertyIterator
    ensures Errors(c, below) == 0
    ensures forall e :: e in below ==> e.TzidOf() == old(e.TzidOf())
    ensures forall e :: e in below && e in below[c] ==>
              |e.properties| + CountOwn(old(e.properties)) == |old(e.properties)|
  {
    hide Survivors, CountOwn, FirstTzid, IsTree;
    ghost var m := PropertiesOf(below);
    StripErrors(c, below);
    forall e | e in below
      ensures e.TzidOf() == old(e.TzidOf())
      ensures e in below[c] ==>
                CountOwn(e.properties) == 0 && |e.properties| + CountOwn(old(e.properties)) == |old(e.properties)|
    {
      assert e.properties == PropertiesOf(below)[e] && m[e] == old(e.properties);
      SurvivorsFacts(m[e]);
    }
    BelowInTree(c, below);
    NoErrors(c, below);
  }

  ghost predicate ValidLists(below: Tree)
    requires IsTree(below)
    reads below.Keys`components, below.Keys`componentIterator, below.Keys`parent
  {
    forall c :: c in below ==> c.ValidLinks()
  }

  /** Walking the children with the iterator functions takes them in order */
  lemma NextChild(cs: seq<Component>, i: nat)
    requires NoDup(cs) && i < |cs|
    ensures FirstOfKind(cs, None) == cs[0]
    ensures FirstOfKind(After(cs, cs[i]), None) == if i + 1 < |cs| then cs[i + 1] else null
  {
    IndexUnique(cs, i);
  }

  ghost function ContentsOf(below: Tree): map<Component, seq<Content>>
    reads below.Keys`properties
  {
    map c | c in below :: Contents(c.properties)
  }

  ghost function ConvertedIn(m: map<Component, seq<Content>>, s: set<Component>): map<Component, seq<Content>> {
    map c | c in m :: if c in s then AfterConversion(m[c]) else m[c]
  }

  lemma ConvertedTwice(m: map<Component, seq<Content>>, s: set<Component>, t: set<Component>)
    ensures ConvertedIn(ConvertedIn(m, s), t) == ConvertedIn(m, s + t)
  {
    forall c | c in m && c in s ensures AfterConversion(AfterConversion(m[c])) == AfterConversion(m[c]) {
      ConversionIdempotent(m[c]);
    }
  }

  /** Converting keeps the number of properties and the time zone identifier, and leaves nothing to convert */
  lemma ConversionKeeps(m: map<Component, seq<Content>>, s: set<Component>, c: Component)
    requires c in m
    ensures |ConvertedIn(m, s)[c]| == |m[c]| && TzidIn(ConvertedIn(m, s)[c]) == TzidIn(m[c])
    ensures c in s ==> CountConvertible(ConvertedIn(m, s)[c]) == 0
  {
    ConversionFacts(m[c]);
    TzidKept(m[c]);
  }

  method ConvertHere(c: Component, ghost below: Tree)
    requires ValidTree(below) && c in below
    modifies c`properties, c`propertyIterator
    ensures ValidTree(below)
    ensures ContentsOf(below) == ConvertedIn(old(ContentsOf(below)), {c})
  {
    hide Contents, AfterConversion;
    ConvertOwn(c);
  }

  /** The errors in some of the components become statuses; all other components stay as they are */
  ghost predicate TurnedIn(
    before: map<Component, seq<Content>>, after: map<Component, seq<Content>>, s: set<Component>)
  {
    && before.Keys == after.Keys
    && forall c :: c in before ==> if c in s then Turned(before[c], after[c]) else after[c] == before[c]
  }

  lemma EachTurned(m: map<Component, seq<Content>>, s: set<Component>)
    ensures TurnedIn(m, ConvertedIn(m, s), s)
  {
    hide Turned, AfterConversion;
    forall c | c in m && c in s ensures Turned(m[c], ConvertedIn(m, s)[c]) {
      ConversionTurns(m[c]);
    }
  }

  method FirstChild(c: Component, ghost below: Tree) returns (r: Component?)
    requires IsTree(below) && ValidLists(below) && c in below
    modifies c`componentIterator
    ensures ValidLists(below) && r == c.componentIterator == if c.components == [] then null else c.components[0]
  {
    r := c.GetFirstComponent(None);
  }

  method ChildAfter(c: Component, ghost i: nat, ghost below: Tree) returns (r: Component?)
    requires IsTree(below) && ValidLists(below) && c in below
    requires i < |c.components| && c.componentIterator == c.components[i]
    modifies c`componentIterator
    ensures ValidLists(below)
    ensures r == c.componentIterator == if i + 1 < |c.components| then c.components[i + 1] else null
  {
    NextChild(c.components, i);
    r := c.GetNextComponent(None);
  }

  /** `icalcomponent_convert_errors`; the children are visited through the component's own iterator */
  method ConvertErrors(c: Component, ghost below: Tree)
    requires IsTree(below) && ValidTree(below) && ValidLists(below) && c in below
    modifies below.Keys`properties, below.Keys`propertyIterator, below.Keys`componentIterator
    ensures ValidTree(below) && ValidLists(below)
    ensures ContentsOf(below) == ConvertedIn(old(ContentsOf(below)), below[c])
    ensures TurnedIn(old(ContentsOf(below)), ContentsOf(below), below[c])
    ensures forall e :: e in below && e !in below[c] ==> e.componentIterator == old(e.componentIterator)
    decreases below[c], 1
  {
    hide *;
    ghost var m, children := ContentsOf(below), c.components;
    OwnChildren(c, below);
    ConvertHere(c, below);
    DoneSteps(c, children, 0, below);
    ghost var i := 0;
    var sub := FirstChild(c, below);
    while sub != null
      invariant 0 <= i <= |children| && ValidTree(below) && ValidLists(below)
      invariant sub == c.componentIterator == if i < |children| then children[i] else null
      invariant ContentsOf(below) == ConvertedIn(m, Done(c, children, i, below))
      invariant forall e :: e in below && e !in Done(c, children, i, below) ==>
                  e.componentIterator == old(e.componentIterator)
      decreases |children| - i
    {
      DoneSteps(c, children, i, below);
      sub := ConvertChild(c, sub, i, below, m);
      i := i + 1;
    }
    DoneSteps(c, children, i, below);
    EachTurned(m, below[c]);
  }

  /** One round of the loop over the children */
  method ConvertChild(c: Component, sub: Component, ghost i: nat, ghost below: Tree,
                      ghost m: map<Component, seq<Content>>)
    returns (next: Component?)
    requires IsTree(below) && ValidTree(below) && ValidLists(below)
    requires c in below && ChildrenIn(c, c.components, below)
    requires i < |c.components| && sub == c.components[i] == c.componentIterator
    requires ContentsOf(below) == ConvertedIn(m, Done(c, c.components, i, below))
    modifies below.Keys`properties, below.Keys`propertyIterator, below.Keys`componentIterator
    ensures ValidTree(below) && ValidLists(below)
    ensures next == c.componentIterator == if i + 1 < |c.components| then c.components[i + 1] else null
    ensures ContentsOf(below) == ConvertedIn(m, Done(c, c.components, i + 1, below))
    ensures forall e :: e in below && e !in Done(c, c.components, i + 1, below) ==>
              e.componentIterator == old(e.componentIterator)
    decreases below[c], 0
  {
    hide *;
    DoneSteps(c, c.components, i, below);
    DoneSteps(c, c.components, i + 1, below);
    ChildFacts(c, sub, below);
    ConvertedTwice(m, Done(c, c.components, i, below), below[sub]);
    ConvertErrors(sub, below);
    next := ChildAfter(c, i, below);
  }
}
