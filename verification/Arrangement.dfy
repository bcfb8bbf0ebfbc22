/**
  What parsing does to the order of components: VTIMEZONEs go to the front, each before the
  ones that came earlier. Twice the same gives the first order back.
 */
module Arrangement {
  import opened CText
  import opened ComponentKinds
  import Components
  import ContentLine
  import opened Lists
  import opened ParserStack
  import opened Gathering
  import opened ParserRuns
  import opened RoundTrip

  predicate AllAre(ts: seq<Node>, zones: bool) {
    forall i :: 0 <= i < |ts| ==> IsZone(ts[i]) == zones
  }

  lemma {:induction false} Picked(ts: seq<Node>, zones: bool)
    ensures AllAre(Pick(ts, zones), zones)
  {
    if ts != [] {
      Picked(ts[1..], zones);
    }
  }

  lemma {:induction false} PickSame(ts: seq<Node>, zones: bool)
    requires AllAre(ts, zones)
    ensures Pick(ts, zones) == ts && Pick(ts, !zones) == []
  {
    if ts != [] {
      PickSame(ts[1..], zones);
    }
  }

  lemma {:induction false} ReverseAllAre(ts: seq<Node>, zones: bool)
    requires AllAre(ts, zones)
    ensures AllAre(Reverse(ts), zones)
  {
    if ts != [] {
      ReverseAllAre(ts[1..], zones);
    }
  }

  lemma {:induction false} ReverseTwice(ts: seq<Node>)
    ensures Reverse(Reverse(ts)) == ts
  {
    if ts != [] {
      ReverseTwice(ts[1..]);
      ReverseAppend(Reverse(ts[1..]), ts[0]);
    }
  }

  // ------------------------------------------------------------------------------------
  // One round

  /** Everything about an arranged component */
  lemma ArrangeParts(t: Node)
    ensures var a := ArrangeAll(t.children);
            Arrange(t) == Node(t.kind, t.entries, Reverse(Zones(a)) + Others(a))
  {
    hide Gather, ArrangeAll, Zones, Others, Reverse;
    var a := ArrangeAll(t.children);
    GatherChildren(Node(t.kind, t.entries, []), a);
    assert Reverse(Zones(a)) + [] == Reverse(Zones(a));
  }

  // ------------------------------------------------------------------------------------
  // Arranging a list

  lemma {:induction false} ArrangeAt(ts: seq<Node>, i: nat)
    requires i < |ts|
    ensures ArrangeAll(ts)[i] == Arrange(ts[i])
    decreases |ts|
  {
    hide Gather;
    if i > 0 {
      ArrangeAt(ts[1..], i - 1);
    }
  }

  lemma ArrangeKind(t: Node)
    ensures Arrange(t).kind == t.kind
  {
    hide Reverse, Pick, ArrangeAll;
    ArrangeParts(t);
  }

  lemma {:induction false} ArrangeConcat(a: seq<Node>, b: seq<Node>)
    ensures ArrangeAll(a + b) == ArrangeAll(a) + ArrangeAll(b)
    decreases |a|
  {
    hide Gather, ArrangeAll;
    if a == [] {
      assert a + b == b;
      NoneArranged(a);
      assert [] + ArrangeAll(b) == ArrangeAll(b);
    } else {
      ArrangeConcat(a[1..], b);
      assert (a + b)[1..] == a[1..] + b;
      ArrangeFirst(a);
      ArrangeFirst(a + b);
      ConcatAssoc([Arrange(a[0])], ArrangeAll(a[1..]), ArrangeAll(b));
    }
  }

  lemma ArrangeOne(t: Node)
    ensures ArrangeAll([t]) == [Arrange(t)]
  {
    hide Gather;
    assert [t][1..] == [];
    assert ArrangeAll([]) == [];
    ArrangeFirst([t]);
  }

  lemma {:induction false} ArrangeReverse(ts: seq<Node>)
    ensures ArrangeAll(Reverse(ts)) == Reverse(ArrangeAll(ts))
    decreases |ts|
  {
    hide Gather, ArrangeAll;
    if ts == [] {
      NoneArranged(ts);
      NoneArranged(Reverse(ts));
    } else {
      ArrangeReverse(ts[1..]);
      ArrangeConcat(Reverse(ts[1..]), [ts[0]]);
      ArrangeOne(ts[0]);
      ArrangeFirst(ts);
      var a := ArrangeAll(ts);
      assert a[0] == Arrange(ts[0]) && a[1..] == ArrangeAll(ts[1..]);
    }
  }

  lemma {:induction false} ArrangePick(ts: seq<Node>, zones: bool)
    ensures ArrangeAll(Pick(ts, zones)) == Pick(ArrangeAll(ts), zones)
    decreases |ts|
  {
    hide Gather, ArrangeAll, Arrange;
    if ts == [] {
      NoneArranged(ts);
    } else {
      var t, rest := ts[0], ts[1..];
      ArrangePick(rest, zones);
      ArrangeFirst(ts);
      ArrangeKind(t);
      PickConcat([Arrange(t)], ArrangeAll(rest), zones);
      PickOne(Arrange(t), zones);
      if IsZone(t) == zones {
        ArrangeConcat([t], Pick(rest, zones));
        ArrangeOne(t);
      } else {
        assert [] + Pick(rest, zones) == Pick(rest, zones);
        assert [] + Pick(ArrangeAll(rest), zones) == Pick(ArrangeAll(rest), zones);
      }
    }
  }

  // ------------------------------------------------------------------------------------
  // Two rounds

  /** The list with its VTIMEZONEs first, otherwise in order */
  function ZonesLed(ts: seq<Node>): seq<Node> {
    Zones(ts) + Others(ts)
  }

  lemma PickOfParts(zs: seq<Node>, os: seq<Node>)
    requires AllAre(zs, true) && AllAre(os, false)
    ensures Zones(zs + os) == zs && Others(zs + os) == os
  {
    hide Pick;
    PickConcat(zs, os, true);
    PickConcat(zs, os, false);
    PickSame(zs, true);
    PickSame(os, false);
    assert zs + [] == zs && [] + os == os;
  }

  lemma ArrangedList(ts: seq<Node>)
    ensures var a := ArrangeAll(ts);
            var u := Reverse(Zones(a)) + Others(a);
            Reverse(Zones(ArrangeAll(u))) + Others(ArrangeAll(u)) == ZonesLed(ArrangeAll(a))
  {
    hide ArrangeAll, Pick, Reverse, AllAre;
    var a := ArrangeAll(ts);
    var zs, os := Zones(ArrangeAll(a)), Others(ArrangeAll(a));
    ArrangeConcat(Reverse(Zones(a)), Others(a));
    ArrangeReverse(Zones(a));
    ArrangePick(a, true);
    ArrangePick(a, false);
    Picked(ArrangeAll(a), true);
    Picked(ArrangeAll(a), false);
    ReverseAllAre(zs, true);
    PickOfParts(Reverse(zs), os);
    ReverseTwice(zs);
  }

  /** After two rounds the children are in their first order, led by the VTIMEZONEs */
  lemma ArrangeTwiceParts(t: Node)
    ensures Arrange(Arrange(t)) == Node(t.kind, t.entries, ZonesLed(ArrangeAll(ArrangeAll(t.children))))
  {
    hide ArrangeAll, Pick, Reverse, Arrange, ZonesLed;
    ArrangeParts(t);
    ArrangeParts(Arrange(t));
    ArrangedList(t.children);
  }

  /** In every component of the trees, VTIMEZONEs come before the other children */
  predicate Settled(ts: seq<Node>)
    decreases ts
  {
    ts == [] || (ZonesFirst(ts[0].children) && Settled(ts[0].children) && Settled(ts[1..]))
  }

  predicate ZonesFirst(ts: seq<Node>) {
    forall i, j :: 0 <= i < j < |ts| && IsZone(ts[j]) ==> IsZone(ts[i])
  }

  lemma {:induction false} LedWhenFirst(ts: seq<Node>)
    ensures ZonesLed(ts) == ts <==> ZonesFirst(ts)
    decreases |ts|
  {
    if ts != [] {
      var t, rest := ts[0], ts[1..];
      assert ts == [t] + rest;
      if IsZone(t) {
        LedWhenFirst(rest);
        ConcatAssoc([t], Zones(rest), Others(rest));
        assert [] + Others(rest) == Others(rest);
        assert ZonesLed(ts) == [t] + ZonesLed(rest);
        assert ZonesLed(ts) == ts <==> ZonesLed(rest) == rest by {
          assert ZonesLed(ts)[1..] == ZonesLed(rest);
        }
        assert ZonesFirst(ts) <==> ZonesFirst(rest) by { FirstAfterZone(t, rest); }
      } else {
        Picked(ts, true);
        Picked(ts, false);
        if Zones(ts) == [] {
          NoZones(ts);
        } else {
          assert IsZone(ZonesLed(ts)[0]);
          SomeZone(ts);
        }
      }
    }
  }

  lemma FirstAfterZone(t: Node, rest: seq<Node>)
    requires IsZone(t)
    ensures ZonesFirst([t] + rest) <==> ZonesFirst(rest)
  {
    var ts := [t] + rest;
    if ZonesFirst(ts) {
      forall i, j | 0 <= i < j < |rest| && IsZone(rest[j]) ensures IsZone(rest[i]) {
        assert ts[i + 1] == rest[i] && ts[j + 1] == rest[j];
      }
    }
  }

  lemma {:induction false} NoZones(ts: seq<Node>)
    requires Zones(ts) == []
    ensures Others(ts) == ts && AllAre(ts, false)
  {
    if ts != [] {
      NoZones(ts[1..]);
    }
  }

  lemma {:induction false} SomeZone(ts: seq<Node>)
    requires Zones(ts) != []
    ensures exists i :: 0 <= i < |ts| && IsZone(ts[i])
  {
    if !IsZone(ts[0]) {
      SomeZone(ts[1..]);
      var i :| 0 <= i < |ts[1..]| && IsZone(ts[1..][i]);
      assert IsZone(ts[i + 1]);
    }
  }

  lemma SameKindsFirst(a: seq<Node>, b: seq<Node>)
    requires |a| == |b| && forall i :: 0 <= i < |a| ==> a[i].kind == b[i].kind
    ensures ZonesFirst(a) == ZonesFirst(b)
  {
  }

  lemma KindsTwice(ts: seq<Node>)
    ensures var b := ArrangeAll(ArrangeAll(ts)); |b| == |ts| && forall i :: 0 <= i < |ts| ==> b[i].kind == ts[i].kind
  {
    hide ArrangeAll, Arrange;
    var a := ArrangeAll(ts);
    forall i | 0 <= i < |ts| ensures ArrangeAll(a)[i].kind == ts[i].kind {
      ArrangeAt(ts, i);
      ArrangeAt(a, i);
      ArrangeKind(ts[i]);
      ArrangeKind(a[i]);
    }
  }

  lemma {:induction false} LedKinds(ts: seq<Node>)
    ensures ZonesFirst(ZonesLed(ts))
  {
    hide Pick;
    Picked(ts, true);
    Picked(ts, false);
  }

  /** Twice arranged is unchanged exactly when the VTIMEZONEs came first everywhere */
  lemma {:induction false} ArrangeTwice(t: Node)
    ensures Arrange(Arrange(t)) == t <==> ZonesFirst(t.children) && Settled(t.children)
    decreases t, 0
  {
    hide ArrangeAll, Arrange, ZonesLed, ZonesFirst, Settled;
    var c := t.children;
    var b := ArrangeAll(ArrangeAll(c));
    ArrangeTwiceParts(t);
    ArrangeAllTwice(c);
    KindsTwice(c);
    SameKindsFirst(b, c);
    LedWhenFirst(b);
    LedKinds(b);
    assert Arrange(Arrange(t)) == t <==> ZonesLed(b) == c;
  }

  lemma {:induction false} ArrangeAllTwice(ts: seq<Node>)
    ensures ArrangeAll(ArrangeAll(ts)) == ts <==> Settled(ts)
    decreases ts, 1
  {
    hide ArrangeAll, Arrange, ZonesFirst;
    if ts == [] {
      NoneArranged(ts);
    } else {
      var t, rest := ts[0], ts[1..];
      ArrangeTwice(t);
      ArrangeAllTwice(rest);
      ArrangeFirst(ts);
      var a := ArrangeAll(ts);
      ArrangeFirst(a);
      assert a[1..] == ArrangeAll(rest);
      var b := ArrangeAll(a);
      assert b == [Arrange(Arrange(t))] + ArrangeAll(ArrangeAll(rest));
      assert ts == [t] + rest;
      assert b == ts <==> b[0] == ts[0] && b[1..] == ts[1..];
    }
  }

  /** Arranged trees have their VTIMEZONEs first everywhere */
  lemma {:induction false} ArrangedSettled(ts: seq<Node>)
    ensures Settled(ArrangeAll(ts))
    decreases ts
  {
    hide ArrangeAll, Arrange, Pick, Reverse;
    if ts == [] {
      NoneArranged(ts);
    } else {
      var t, rest := ts[0], ts[1..];
      ArrangeFirst(ts);
      ArrangeParts(t);
      ArrangedSettled(rest);
      var a := ArrangeAll(t.children);
      ArrangedSettled(t.children);
      Picked(a, true);
      Picked(a, false);
      ReverseAllAre(Zones(a), true);
      PartsFirst(Reverse(Zones(a)), Others(a));
      SettledPick(a, true);
      SettledPick(a, false);
      SettledReverse(Zones(a));
      SettledConcat(Reverse(Zones(a)), Others(a));
      assert ArrangeAll(ts)[1..] == ArrangeAll(rest);
    }
  }

  lemma PartsFirst(zs: seq<Node>, os: seq<Node>)
    requires AllAre(zs, true) && AllAre(os, false)
    ensures ZonesFirst(zs + os)
  {
  }

  lemma {:induction false} SettledConcat(a: seq<Node>, b: seq<Node>)
    ensures Settled(a + b) <==> Settled(a) && Settled(b)
    decreases |a|
  {
    hide ZonesFirst;
    if a == [] {
      assert a + b == b;
    } else {
      SettledConcat(a[1..], b);
      assert (a + b)[1..] == a[1..] + b;
    }
  }

  lemma {:induction false} SettledReverse(ts: seq<Node>)
    ensures Settled(Reverse(ts)) <==> Settled(ts)
    decreases |ts|
  {
    hide ZonesFirst, Settled;
    if ts != [] {
      SettledReverse(ts[1..]);
      SettledConcat(Reverse(ts[1..]), [ts[0]]);
      SettledConcat([ts[0]], ts[1..]);
      assert ts == [ts[0]] + ts[1..];
    }
  }

  lemma {:induction false} SettledPick(ts: seq<Node>, zones: bool)
    requires Settled(ts)
    ensures Settled(Pick(ts, zones))
    decreases |ts|
  {
    hide ZonesFirst;
    if ts != [] {
      SettledPick(ts[1..], zones);
      if IsZone(ts[0]) == zones {
        assert Pick(ts, zones)[1..] == Pick(ts[1..], zones);
      } else {
        assert [] + Pick(ts[1..], zones) == Pick(ts[1..], zones);
      }
    }
  }

  // ------------------------------------------------------------------------------------
  // Whole runs keep VTIMEZONEs first

  lemma SettledOne(t: Node)
    ensures Settled([t]) <==> ZonesFirst(t.children) && Settled(t.children)
  {
    hide ZonesFirst;
    assert [t][1..] == [];
  }

  lemma AddChildSettled(parent: Node, child: Node)
    requires Settled([parent]) && Settled([child])
    ensures Settled([AddChild(parent, child)])
  {
    hide Settled;
    SettledOne(parent);
    SettledOne(AddChild(parent, child));
    SettledConcat([child], parent.children);
    SettledConcat(parent.children, [child]);
  }

  lemma WithEntriesSettled(stack: seq<Node>, entries: seq<Entry>)
    requires stack != [] && Settled(stack)
    ensures Settled(WithEntries(stack, entries))
  {
    hide Settled;
    var n := |stack| - 1;
    assert stack == stack[..n] + [stack[n]];
    SettledConcat(stack[..n], [stack[n]]);
    SettledOne(stack[n]);
    SettledOne(stack[n].(entries := entries));
    SettledConcat(stack[..n], [stack[n].(entries := entries)]);
  }

  lemma InsertSettled(m: Machine, es: seq<Entry>)
    requires m.stack != [] && Settled(m.stack)
    ensures Settled(InsertAll(m, es).stack)
  {
    hide Settled, WithEntries, InsertAll, Recorded;
    InsertAllIs(m, es);
    WithEntriesSettled(m.stack, Entries(m.stack) + Recorded(m.errors, es));
  }

  lemma PropertySettled(reg: Registry, m: Machine, line: string, name: string, end: nat)
    requires m.stack != [] && Settled(m.stack) && 0 < end <= |line|
    ensures Settled(PropertyStep(reg, m, line, name, end).stack)
  {
    hide Settled, WithEntries, Insert, InsertAll, ErrorText, Clip, ParamTroubles, ContentLine.ParamsAt,
        ContentLine.ValueText;
    if !reg.knows(name) {
      var e := Trouble(Components.PropertyParseError, ErrorText("Parse error in property name", Some(name)));
      InsertOne(m, e);
      InsertSettled(m, [e]);
    } else {
      var parsed := ContentLine.ParamsAt(line, end, ContentLine.MAXIMUM_ALLOWED_PARAMETERS);
      var es := ParamTroubles(parsed.errors);
      InsertSettled(m, es + [NoValueTrouble(reg, name)]);
      if ContentLine.ValueText(parsed.rest).Some? {
        var v := ContentLine.ValueText(parsed.rest).value;
        var d := Data(name, parsed.params, v);
        InsertSettled(m, es + [BadValueTrouble(reg, name, v)]);
        WithEntriesSettled(m.stack, Entries(m.stack) + [d]);
        InsertSettled(m.(stack := WithEntry(m.stack, d)), es);
      }
    }
  }

  lemma NamelessSettled(m: Machine, line: string)
    requires Settled(m.stack)
    ensures Settled(NoName(m, line).stack)
  {
    hide Settled, Insert, InsertAll, ErrorText;
    if m.stack != [] {
      var e := Trouble(Components.ComponentParseError, ErrorText(NO_NAME, Some(line)));
      InsertOne(m, e);
      InsertSettled(m, [e]);
    }
  }

  lemma OpenSettled(stack: seq<Node>, kind: Kind)
    requires Settled(stack)
    ensures Settled(stack + [Node(kind, [], [])])
  {
    hide Settled;
    SettledOne(Node(kind, [], []));
    StartSettled();
    SettledConcat(stack, [Node(kind, [], [])]);
  }

  lemma StartSettled()
    ensures Settled([]) && Settled(START.stack)
  {
  }

  lemma CloseSettled(m: Machine)
    requires Settled(m.stack)
    ensures Settled(Close(m).0.stack) && (Close(m).1.Some? ==> Settled([Close(m).1.value]))
  {
    hide Settled, AddChild;
    StartSettled();
    var s, n := m.stack, |m.stack|;
    if n == 1 {
      assert s == [s[0]];
    } else if n > 1 {
      var parent, child := s[n - 2], s[n - 1];
      assert s == s[..n - 2] + ([parent] + [child]);
      SettledConcat(s[..n - 2], [parent] + [child]);
      SettledConcat([parent], [child]);
      AddChildSettled(parent, child);
      SettledConcat(s[..n - 2], [AddChild(parent, child)]);
    }
  }

  lemma StepSettled(reg: Registry, m: Machine, line: string)
    requires Settled(m.stack)
    ensures Settled(Step(reg, m, line).0.stack)
    ensures Step(reg, m, line).1.Some? ==> Settled([Step(reg, m, line).1.value])
  {
    hide Settled, ContentLine.PropName, IsBlankLine, SameName, KindNamed, ComponentName, Close, NoName, PropertyStep;
    NamelessSettled(m, line);
    CloseSettled(m);
    PropNameEnd(line);
    if ContentLine.PropName(line).Some? {
      var (name, end) := ContentLine.PropName(line).value;
      OpenSettled(m.stack, KindNamed(ComponentName(line[end..])));
      if m.stack != [] {
        PropertySettled(reg, m, line, name, end);
      }
    }
  }

  /** Over any lines: if VTIMEZONEs came first everywhere before, they do afterwards */
  lemma {:induction false} RunSettled(reg: Registry, m: Machine, lines: seq<string>)
    requires Settled(m.stack)
    ensures Settled(Run(reg, m, lines).0.stack) && Settled(Run(reg, m, lines).1)
    decreases |lines|
  {
    hide Settled, Step;
    StartSettled();
    if lines != [] {
      var (m', c) := Step(reg, m, lines[0]);
      StepSettled(reg, m, lines[0]);
      RunSettled(reg, m', lines[1..]);
      SettledConcat(if c.Some? then [c.value] else [], Run(reg, m', lines[1..]).1);
    }
  }

  lemma {:induction false} GatherSettled(root: Node, cs: seq<Node>)
    requires Settled([root]) && Settled(cs)
    ensures Settled([Gather(root, cs)])
    decreases |cs|
  {
    hide Settled, AddChild;
    if cs != [] {
      var n := |cs| - 1;
      assert cs == cs[..n] + [cs[n]];
      SettledConcat(cs[..n], [cs[n]]);
      GatherSettled(root, cs[..n]);
      AddChildSettled(Gather(root, cs[..n]), cs[n]);
    }
  }

  lemma RootedSettled(cs: seq<Node>)
    requires Settled(cs)
    ensures Rooted(cs).Some? ==> Settled([Rooted(cs).value])
  {
    hide Settled, Gather;
    if |cs| == 1 {
      assert cs == [cs[0]];
    }
    StartSettled();
    SettledOne(Node(XRoot, [], []));
    GatherSettled(Node(XRoot, [], []), cs);
  }

  // ------------------------------------------------------------------------------------
  // Print and parse

  lemma {:induction false} FaithfulConcat(reg: Registry, a: seq<Node>, b: seq<Node>)
    ensures Faithful(reg, a + b) <==> Faithful(reg, a) && Faithful(reg, b)
    decreases |a|
  {
    hide AllReadable, Speakable;
    if a == [] {
      assert a + b == b;
    } else {
      FaithfulConcat(reg, a[1..], b);
      assert (a + b)[1..] == a[1..] + b;
    }
  }

  lemma {:induction false} FaithfulReverse(reg: Registry, ts: seq<Node>)
    ensures Faithful(reg, Reverse(ts)) <==> Faithful(reg, ts)
    decreases |ts|
  {
    hide Faithful;
    if ts != [] {
      FaithfulReverse(reg, ts[1..]);
      FaithfulConcat(reg, Reverse(ts[1..]), [ts[0]]);
      FaithfulConcat(reg, [ts[0]], ts[1..]);
      assert ts == [ts[0]] + ts[1..];
    }
  }

  lemma {:induction false} FaithfulPick(reg: Registry, ts: seq<Node>, zones: bool)
    requires Faithful(reg, ts)
    ensures Faithful(reg, Pick(ts, zones))
    decreases |ts|
  {
    hide AllReadable, Speakable;
    if ts != [] {
      FaithfulPick(reg, ts[1..], zones);
      if IsZone(ts[0]) == zones {
        assert Pick(ts, zones)[1..] == Pick(ts[1..], zones);
      } else {
        assert [] + Pick(ts[1..], zones) == Pick(ts[1..], zones);
      }
    }
  }

  lemma {:induction false} FaithfulArranged(reg: Registry, ts: seq<Node>)
    requires Faithful(reg, ts)
    ensures Faithful(reg, ArrangeAll(ts))
    decreases ts
  {
    hide ArrangeAll, Arrange, Pick, Reverse, AllReadable, Speakable;
    if ts == [] {
      NoneArranged(ts);
    } else {
      var t, rest := ts[0], ts[1..];
      ArrangeFirst(ts);
      ArrangeParts(t);
      FaithfulArranged(reg, rest);
      FaithfulArranged(reg, t.children);
      var a := ArrangeAll(t.children);
      FaithfulPick(reg, a, true);
      FaithfulPick(reg, a, false);
      FaithfulReverse(reg, Zones(a));
      FaithfulConcat(reg, Reverse(Zones(a)), Others(a));
      assert ArrangeAll(ts)[1..] == ArrangeAll(rest);
    }
  }

  // ------------------------------------------------------------------------------------
  // When one round changes nothing

  function ZoneCount(ts: seq<Node>): (n: nat)
    ensures n <= |ts|
  {
    if ts == [] then 0 else (if IsZone(ts[0]) then 1 else 0) + ZoneCount(ts[1..])
  }

  /** Where the child at `i` goes: among VTIMEZONEs that come first, counted from the other end */
  function Opposite(ts: seq<Node>, i: nat): (j: nat)
    requires i < |ts|
    ensures j < |ts|
  {
    if i < ZoneCount(ts) then ZoneCount(ts) - 1 - i else i
  }

  /**
    `b` is the mirror image of `a`: VTIMEZONEs come first everywhere, and the first of them in
    one is the mirror image of the last in the other, the second of the last but one, and so on
   */
  predicate Mirror(a: Node, b: Node)
    decreases a
  {
    && a.kind == b.kind && a.entries == b.entries && |a.children| == |b.children|
    && ZonesFirst(a.children)
    && forall i :: 0 <= i < |a.children| ==> Mirror(a.children[i], b.children[Opposite(a.children, i)])
  }

  lemma {:induction false} CountZones(ts: seq<Node>, like: seq<Node>)
    requires |ts| == |like| && forall i :: 0 <= i < |ts| ==> ts[i].kind == like[i].kind
    ensures |Zones(ts)| == ZoneCount(like)
    decreases |ts|
  {
    if ts != [] {
      assert ts[0].kind == like[0].kind;
      CountZones(ts[1..], like[1..]);
    }
  }

  lemma {:induction false} ReverseAt(ts: seq<Node>, i: nat)
    requires i < |ts|
    ensures Reverse(ts)[|ts| - 1 - i] == ts[i]
    decreases |ts|
  {
    if i > 0 {
      ReverseAt(ts[1..], i - 1);
    }
  }

  lemma KindsKept(ts: seq<Node>)
    ensures forall i :: 0 <= i < |ts| ==> ArrangeAll(ts)[i].kind == ts[i].kind
  {
    hide ArrangeAll, Arrange;
    forall i | 0 <= i < |ts| ensures ArrangeAll(ts)[i].kind == ts[i].kind {
      ArrangeAt(ts, i);
      ArrangeKind(ts[i]);
    }
  }

  /** Arranging moves each child to the opposite place */
  lemma ArrangedAt(t: Node, i: nat)
    requires ZonesFirst(t.children) && i < |t.children|
    ensures var cs := Arrange(t).children;
            |cs| == |t.children| && cs[Opposite(t.children, i)] == Arrange(t.children[i])
  {
    hide ArrangeAll, Arrange, Pick, Reverse, ZonesFirst, ZoneCount;
    var c := t.children;
    var a := ArrangeAll(c);
    ArrangeParts(t);
    KindsKept(c);
    SameKindsFirst(a, c);
    LedWhenFirst(a);
    CountZones(a, c);
    assert a == Zones(a) + Others(a);
    ArrangeAt(c, i);
    if i < ZoneCount(c) {
      ReverseAt(Zones(a), i);
    }
  }

  lemma {:induction false} SettledAt(ts: seq<Node>)
    ensures Settled(ts) <==> forall i :: 0 <= i < |ts| ==> Settled([ts[i]])
    decreases |ts|
  {
    hide ZonesFirst, Settled;
    if ts == [] {
      assert Settled(ts) by { NoneSettled(); }
    } else {
      var t, rest := ts[0], ts[1..];
      SettledAt(rest);
      SettledConcat([t], rest);
      assert ts == [t] + rest;
      assert forall i :: 0 < i < |ts| ==> ts[i] == rest[i - 1];
      assert forall i :: 0 <= i < |rest| ==> rest[i] == ts[i + 1];
    }
  }

  lemma NoneSettled()
    ensures Settled([])
  {
  }

  /** The mirror image is what arranging gives, as long as VTIMEZONEs come first */
  lemma {:induction false} MirrorIsArranged(a: Node, b: Node)
    ensures Mirror(a, b) <==> Settled([a]) && b == Arrange(a)
    decreases a
  {
    hide Arrange, Settled, ZonesFirst, ZoneCount;
    SettledOne(a);
    SettledAt(a.children);
    ArrangeShape(a);
    if ZonesFirst(a.children) && |a.children| == |b.children| {
      forall i | 0 <= i < |a.children|
        ensures Mirror(a.children[i], b.children[Opposite(a.children, i)]) <==>
                Settled([a.children[i]]) &&
                b.children[Opposite(a.children, i)] == Arrange(a).children[Opposite(a.children, i)]
      {
        MirrorIsArranged(a.children[i], b.children[Opposite(a.children, i)]);
        ArrangedAt(a, i);
      }
      if forall i :: 0 <= i < |a.children| ==> Mirror(a.children[i], b.children[Opposite(a.children, i)]) {
        SameEverywhere(a.children, b.children, Arrange(a).children);
      }
    }
  }

  lemma ArrangeShape(t: Node)
    ensures Arrange(t).kind == t.kind && Arrange(t).entries == t.entries && |Arrange(t).children| == |t.children|
  {
    hide ArrangeAll, Arrange, Pick, Reverse;
    ArrangeParts(t);
    PickAll(ArrangeAll(t.children));
  }

  lemma {:induction false} PickAll(ts: seq<Node>)
    ensures |Zones(ts)| + |Others(ts)| == |ts|
  {
    if ts != [] {
      PickAll(ts[1..]);
    }
  }

  lemma SameEverywhere(ts: seq<Node>, a: seq<Node>, b: seq<Node>)
    requires |a| == |b| == |ts|
    requires forall i :: 0 <= i < |ts| ==> a[Opposite(ts, i)] == b[Opposite(ts, i)]
    ensures a == b
  {
    hide ZoneCount;
    forall i | 0 <= i < |a| ensures a[i] == b[i] {
      assert Opposite(ts, Opposite(ts, i)) == i;
    }
  }

  /** One round changes nothing exactly for a component that is its own mirror image */
  lemma ArrangedIsSame(t: Node)
    ensures Arrange(t) == t <==> Mirror(t, t)
  {
    hide *;
    MirrorIsArranged(t, t);
    ArrangeTwice(t);
    SettledOne(t);
  }

  // ------------------------------------------------------------------------------------
  // Through the text

  /**
    Printing a component and parsing the text gives the component, arranged. It comes back
    unchanged exactly when it is its own mirror image.
   */
  method PrintAndParse(reg: Registry, t: Node) returns (r: Option<Node>)
    requires Faithful(reg, [t])
    ensures r == Some(Arrange(t))
    ensures r == Some(t) <==> Mirror(t, t)
  {
    hide *;
    FaithfulPlain(reg, [t]);
    var text := AsIcalString(t);
    ParsePrinted(reg, [t]);
    r := ParseString(reg, text);
    ArrangeOne(t);
    RootedOne(Arrange(t));
    ArrangedIsSame(t);
  }

  lemma RootedOne(c: Node)
    ensures Rooted([c]) == Some(c)
  {
  }

  /**
    Several components printed one after the other come back under a container, each arranged:
    the VTIMEZONEs among them last to first, then the others in order, and nothing is lost
   */
  method PrintAndParseAll(reg: Registry, ts: seq<Node>) returns (r: Option<Node>)
    requires Faithful(reg, ts) && |ts| >= 2
    ensures r == Some(Node(XRoot, [], Reverse(ArrangeAll(Zones(ts))) + ArrangeAll(Others(ts))))
    ensures Everything([r.value]) == Everything(ts)
  {
    hide *;
    FaithfulPlain(reg, ts);
    var text := PrintComponents(ts);
    ParsePrinted(reg, ts);
    r := ParseString(reg, text);
    ArrangePick(ts, true);
    ArrangePick(ts, false);
    ZonesIs(ts);
    ZonesIs(ArrangeAll(ts));
    ArrangeEverything(ts);
  }

  lemma ZonesIs(ts: seq<Node>)
    ensures Zones(ts) == Pick(ts, true) && Others(ts) == Pick(ts, false)
  {
  }

  /** Printing and parsing twice gives a component back exactly when its VTIMEZONEs came first everywhere */
  method PrintAndParseTwice(reg: Registry, t: Node) returns (r: Option<Node>)
    requires Faithful(reg, [t])
    ensures r == Some(t) <==> Settled([t])
  {
    hide *;
    var once := PrintAndParse(reg, t);
    FaithfulArranged(reg, [t]);
    ArrangeOne(t);
    r := PrintAndParse(reg, once.value);
    ArrangeTwice(t);
    SettledOne(t);
  }

  /**
    Whatever the input, what the parser delivers has its VTIMEZONEs first everywhere, so it
    comes back unchanged from two round trips when it can be read back at all
   */
  method ParsedIsStable(reg: Registry, input: string) returns (parsed: Option<Node>, again: Option<Node>)
    requires IsCString(input)
    ensures parsed == Rooted(Run(reg, START, InputLines(input)).1)
    ensures parsed.Some? ==> Settled([parsed.value])
    ensures parsed.Some? && Faithful(reg, [parsed.value]) ==> again == parsed
  {
    hide *;
    parsed := ParseString(reg, input);
    again := None;
    StartSettled();
    RunSettled(reg, START, InputLines(input));
    RootedSettled(Run(reg, START, InputLines(input)).1);
    if parsed.Some? && Faithful(reg, [parsed.value]) {
      again := PrintAndParseTwice(reg, parsed.value);
    }
  }

  /** At most one VTIMEZONE among the children of any component */
  predicate FewZones(ts: seq<Node>)
    decreases ts
  {
    ts == [] || (|Zones(ts[0].children)| <= 1 && FewZones(ts[0].children) && FewZones(ts[1..]))
  }

  /** In that case one round is enough */
  lemma {:induction false} ArrangeOnce(ts: seq<Node>)
    requires Settled(ts) && FewZones(ts)
    ensures ArrangeAll(ts) == ts
    decreases ts
  {
    hide ArrangeAll, Arrange, Pick, Reverse, ZonesFirst;
    if ts == [] {
      NoneArranged(ts);
    } else {
      var t, rest := ts[0], ts[1..];
      ArrangeFirst(ts);
      ArrangeParts(t);
      ArrangeOnce(rest);
      ArrangeOnce(t.children);
      LedWhenFirst(t.children);
      ReverseShort(Zones(t.children));
      assert ts == [t] + rest;
    }
  }

  lemma ReverseShort(ts: seq<Node>)
    requires |ts| <= 1
    ensures Reverse(ts) == ts
  {
  }

  /** The order is all that changes: every property is where it was, once */
  lemma {:induction false} ArrangeEverything(ts: seq<Node>)
    ensures Everything(ArrangeAll(ts)) == Everything(ts)
    decreases ts
  {
    hide Everything, Gather, Arrange, ArrangeAll;
    if ts == [] {
      NoneArranged(ts);
    } else {
      var t, rest := ts[0], ts[1..];
      ArrangeFirst(ts);
      ArrangeIs(t);
      ArrangeEverything(rest);
      ArrangeEverything(t.children);
      GatherEverything(Node(t.kind, t.entries, []), ArrangeAll(t.children));
      EverythingOne(Node(t.kind, t.entries, []));
      EverythingEmpty();
      EverythingConcat([Arrange(t)], ArrangeAll(rest));
      EverythingFirst(t, rest);
      assert ts == [t] + rest;
    }
  }
}
