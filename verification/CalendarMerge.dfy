/** `icalcomponent_merge_component`: one calendar takes over the content of another. */
module CalendarMerge {
  import opened CText
  import opened ComponentKinds
  import opened Lists
  import opened Components
  import QsortGen

  /** The components that are VTIMEZONEs, or those that are not, in order */
  function Pick(list: seq<Component>, zones: bool): seq<Component> {
    if list == [] then []
    else if (list[0].kind == VTimezone) == zones then [list[0]] + Pick(list[1..], zones)
    else Pick(list[1..], zones)
  }

  function Zones(list: seq<Component>): seq<Component> {
    Pick(list, true)
  }

  function Others(list: seq<Component>): seq<Component> {
    Pick(list, false)
  }

  lemma {:induction false} PickMembers(list: seq<Component>, zones: bool)
    ensures forall c :: c in Pick(list, zones) ==> c in list && (c.kind == VTimezone) == zones
    ensures forall c :: c in list && (c.kind == VTimezone) == zones ==> c in Pick(list, zones)
  {
    if list != [] {
      PickMembers(list[1..], zones);
      assert list == [list[0]] + list[1..];
    }
  }

  lemma {:induction false} PickConcat(a: seq<Component>, b: seq<Component>, zones: bool)
    ensures Pick(a + b, zones) == Pick(a, zones) + Pick(b, zones)
  {
    if a == [] {
      assert a + b == b;
    } else {
      PickConcat(a[1..], b, zones);
      assert (a + b)[1..] == a[1..] + b && (a + b)[0] == a[0];
      ConcatAssoc([a[0]], Pick(a[1..], zones), Pick(b, zones));
    }
  }

  /** The identifiers of the zones among the components */
  ghost function Known(list: seq<Component>): set<string>
    reads list`properties
  {
    set c | c in list && c.IsZone() :: c.TzidOf().value
  }

  /** The zones that move: those whose identifier is not known by the time their turn comes */
  ghost function Moved(known: set<string>, zones: seq<Component>): seq<Component>
    reads zones`properties
    decreases |zones|
  {
    if zones == [] then []
    else
      var tzid := zones[0].TzidOf();
      if tzid.None? || tzid.value in known then Moved(known, zones[1..])
      else [zones[0]] + Moved(known + {tzid.value}, zones[1..])
  }

  /** A zone array is never longer than the list of components */
  lemma FewZones(c: Component)
    requires c.Valid()
    ensures |c.timezones| <= |c.components|
  {
    hide ZonesFor, ZonesSorted, ZonesFirst;
    FewZonesIn(c.timezones, c.components);
  }

  lemma FewZonesIn(zones: seq<Zone>, list: seq<Component>)
    requires ZonesFor(zones, list) && NoDup(list)
    ensures |zones| <= |list|
  {
    hide FirstTzid;
    ShorterList(ZoneComponents(zones), list);
  }

  function ZoneComponents(zones: seq<Zone>): (r: seq<Component>)
    ensures |r| == |zones| && forall i :: 0 <= i < |r| ==> r[i] == zones[i].component
  {
    if zones == [] then [] else [zones[0].component] + ZoneComponents(zones[1..])
  }

  lemma {:induction false} ShorterList(a: seq<Component>, b: seq<Component>)
    requires NoDup(a) && NoDup(b) && forall x :: x in a ==> x in b
    ensures |a| <= |b|
  {
    if a != [] {
      var x := a[0];
      WithoutMembers(b, x);
      assert x !in a[1..];
      ShorterList(a[1..], Without(b, x));
    }
  }

  /** The two calendars of a merge: neither contains the other */
  ghost predicate Mergeable(comp: Component, source: Component)
    reads comp, source, comp.components`parent, comp.components`properties
    reads source.components`parent, source.components`properties
  {
    && comp.Valid() && source.Valid()
    && comp != source && comp !in source.components && source !in comp.components
    && comp.TzidOf() == None
  }

  /** Takes a child out of one component and adds it to another */
  method MoveChild(comp: Component, source: Component, child: Component)
    requires Mergeable(comp, source) && child in source.components
    modifies comp`components, comp`timezones, comp`timezonesSorted
    modifies source`components, source`componentIterator, source`timezones, child`parent
    ensures Mergeable(comp, source)
    ensures source.components == Without(old(source.components), child)
    ensures comp.components ==
            if child.kind == VTimezone then [child] + old(comp.components) else old(comp.components) + [child]
    ensures old(source.componentIterator) != child ==> source.componentIterator == old(source.componentIterator)
  {
    hide ZonesFirst, ZonesFor, ZonesSorted;
    WithoutMembers(source.components, child);
    source.RemoveComponent(child);
    assert comp.Valid();
    comp.AddComponent(child);
  }

  lemma ResolvesEach(c: Component)
    ensures forall t :: c.Resolves(t) <==> t in Known(c.components)
  {
    hide Known;
    forall t ensures c.Resolves(t) <==> t in Known(c.components) {
      ResolvesKnown(c, t);
    }
  }

  /**
    `icalcomponent_compare_vtimezones`. Without a TZID property in either component it returns
    -1; otherwise it compares the printed components, in an order that is left open here.
   */
  method CompareVtimezones(a: Component, b: Component) returns (cmp: int)
    ensures a.TzidOf() == None || b.TzidOf() == None ==> cmp == -1
  {
    if FirstTzid(a.properties).None? || FirstTzid(b.properties).None? {
      return -1;
    }
    cmp := *;
  }

  /** `icalcomponent_merge_vtimezone`, for a calendar that has no TZID property of its own */
  method MergeVtimezone(comp: Component, source: Component, vtimezone: Component)
    requires Mergeable(comp, source) && vtimezone in source.components && vtimezone.kind == VTimezone
    requires |comp.timezones| < QsortGen.Power2(35)
    modifies comp`components, comp`timezones, comp`timezonesSorted
    modifies source`components, source`componentIterator, source`timezones, vtimezone`parent
    ensures Mergeable(comp, source)
    ensures var moves := vtimezone.IsZone() && vtimezone.TzidOf().value !in old(Known(comp.components));
            && source.components ==
               (if moves then Without(old(source.components), vtimezone) else old(source.components))
            && comp.components == (if moves then [vtimezone] else []) + old(comp.components)
    ensures old(source.componentIterator) != vtimezone ==> source.componentIterator == old(source.componentIterator)
  {
    hide Component.ValidLinks, Component.ValidZones, Known, Without;
    ResolvesEach(comp);
    var tzid := FirstTzid(vtimezone.properties);
    if tzid.None? {
      return;
    }
    comp.SortedWhenFlagged();
    var existing := comp.GetTimezone(tzid.value);
    if existing.None? {
      MoveChild(comp, source, vtimezone);
      return;
    }
    if tzid.value != "" && tzid.value[0] == '/' {
      return;
    }
    var cmp := CompareVtimezones(comp, vtimezone);
    if cmp == 0 {
      // the source would rename the zone here
      assert false;
    }
  }

  // ------------------------------------------------------------------------------------
  // The first loop: time zones

  lemma {:induction false} FirstZone(list: seq<Component>) returns (pre: seq<Component>, post: seq<Component>)
    ensures var c := FirstOfKind(list, Some(VTimezone));
            if c == null then Zones(list) == [] else list == pre + [c] + post && Zones(list) == [c] + Zones(post)
    ensures FirstOfKind(list, Some(VTimezone)) != null ==> Zones(pre) == []
  {
    pre, post := [], [];
    if list != [] {
      if list[0].kind == VTimezone {
        pre, post := [], list[1..];
      } else {
        pre, post := FirstZone(list[1..]);
        pre := [list[0]] + pre;
      }
    }
  }

  lemma KnownPlus(c: Component, list: seq<Component>)
    requires c.IsZone()
    ensures Known([c] + list) == Known(list) + {c.TzidOf().value}
  {
    var more := [c] + list;
    assert c in more;
    forall t | t in Known(list) + {c.TzidOf().value} ensures t in Known(more) {
      if t != c.TzidOf().value {
        var d :| d in list && d.IsZone() && d.TzidOf().value == t;
        assert d in more;
      }
    }
  }

  /** One zone of the source, with the decision that the merge takes about it */
  lemma MovedStep(known: set<string>, c: Component, rest: seq<Component>)
    ensures var t := c.TzidOf();
            Moved(known, [c] + rest) == if t.None? || t.value in known then Moved(known, rest)
                                        else [c] + Moved(known + {t.value}, rest)
  {
    assert ([c] + rest)[1..] == rest;
  }

  /** Whether a zone of the source will move */
  ghost predicate Moves(known: set<string>, c: Component)
    reads c`properties
  {
    c.TzidOf().Some? && c.TzidOf().value !in known
  }

  /** Moves the iterator of the source on to the next component of the given kind */
  method ContinueWalk(comp: Component, source: Component, kind: Option<Kind>, ghost pre: seq<Component>,
                      ghost sub: Component, ghost post: seq<Component>)
    returns (next: Component?)
    requires Mergeable(comp, source)
    requires source.components == pre + [sub] + post && source.componentIterator == sub
    modifies source`componentIterator
    ensures Mergeable(comp, source)
    ensures next == source.componentIterator == FirstOfKind(post, kind) && next != sub
    ensures sub in source.components && Without(source.components, sub) == pre + post
  {
    hide FirstOfKind, Without, ZonesFirst, ZonesFor, ZonesSorted, HasKind, FirstTzid;
    AfterMiddle(pre, sub, post);
    WithoutMiddle(pre, sub, post);
    FirstInList(post, kind);
    next := source.GetNextComponent(kind);
  }

  /** One round of the loop over the VTIMEZONEs: looks ahead, then merges the current zone */
  method MergeOneZone(comp: Component, source: Component, sub: Component, ghost pre: seq<Component>,
                      ghost post: seq<Component>)
    returns (next: Component?)
    requires Mergeable(comp, source) && |comp.components| < QsortGen.Power2(35)
    requires source.components == pre + [sub] + post && source.componentIterator == sub && sub.kind == VTimezone
    modifies comp`components, comp`timezones, comp`timezonesSorted
    modifies source`components, source`componentIterator, source`timezones, sub`parent
    ensures Mergeable(comp, source)
    ensures next == source.componentIterator == FirstOfKind(post, Some(VTimezone))
    ensures var moves := old(Moves(Known(comp.components), sub));
            && comp.components == (if moves then [sub] else []) + old(comp.components)
            && source.components == (if moves then pre else pre + [sub]) + post
  {
    FewZones(comp);
    hide *;
    next := ContinueWalk(comp, source, Some(VTimezone), pre, sub, post);
    MergeVtimezone(comp, source, sub);
  }

  /** Positions the iterator of the source on its first component of the given kind */
  method StartWalk(comp: Component, source: Component, kind: Option<Kind>) returns (sub: Component?)
    requires Mergeable(comp, source)
    modifies source`componentIterator
    ensures Mergeable(comp, source)
    ensures sub == source.componentIterator == FirstOfKind(source.components, kind)
  {
    FirstInList(source.components, kind);
    sub := source.GetFirstComponent(kind);
  }

  lemma OthersWithoutZone(pre: seq<Component>, c: Component, post: seq<Component>)
    requires c.kind == VTimezone
    ensures Others(pre + [c] + post) == Others(pre + post)
  {
    PickConcat(pre + [c], post, false);
    PickConcat(pre, [c], false);
    PickConcat(pre, post, false);
    assert Pick([c], false) == [];
  }

  /** How the list of moved zones grows */
  lemma MovedGrows(known: set<string>, sub: Component, post: seq<Component>, moved: seq<Component>,
                   all: seq<Component>, comps: seq<Component>)
    requires known == Known(comps) && sub.kind == VTimezone
    requires all == moved + Moved(known, [sub] + Zones(post))
    ensures Moves(known, sub) ==> all == moved + [sub] + Moved(Known([sub] + comps), Zones(post))
    ensures !Moves(known, sub) ==> all == moved + Moved(known, Zones(post))
  {
    hide Moved, Known, Pick;
    MovedStep(known, sub, Zones(post));
    if Moves(known, sub) {
      KnownPlus(sub, comps);
      ConcatAssoc(moved, [sub], Moved(known + {sub.TzidOf().value}, Zones(post)));
    }
  }

  /** The loop over the VTIMEZONEs, which removes from the list that it walks */
  method MergeZones(comp: Component, source: Component)
    requires Mergeable(comp, source) && |comp.components| + |source.components| < QsortGen.Power2(35)
    modifies comp`components, comp`timezones, comp`timezonesSorted
    modifies source`components, source`componentIterator, source`timezones, source.components`parent
    ensures Mergeable(comp, source)
    ensures comp.components ==
            Reverse(old(Moved(Known(comp.components), Zones(source.components)))) + old(comp.components)
    ensures Others(source.components) == old(Others(source.components))
    ensures forall c :: c in source.components ==> c in old(source.components)
  {
    hide *;
    ghost var d0, s0 := comp.components, source.components;
    ghost var all := Moved(Known(d0), Zones(s0));
    ghost var moved: seq<Component>, todo: seq<Component> := [], Zones(s0);
    ghost var pre: seq<Component>, post: seq<Component> := FirstZone(s0);
    FirstInList(s0, Some(VTimezone));
    ReverseNothing();
    MovedNothing(Known(d0));
    var sub := StartWalk(comp, source, Some(VTimezone));
    while sub != null
      invariant Mergeable(comp, source)
      invariant |comp.components| + |source.components| == |d0| + |s0|
      invariant sub != null ==> source.components == pre + [sub] + post && source.componentIterator == sub
      invariant sub != null ==> sub.kind == VTimezone && sub in s0
      invariant forall c :: c in source.components ==> c in s0
      invariant comp.components == Reverse(moved) + d0
      invariant Others(source.components) == Others(s0)
      invariant todo == if sub == null then [] else [sub] + Zones(post)
      invariant all == moved + Moved(Known(comp.components), todo)
      decreases if sub == null then 0 else |post| + 1
    {
      var zone: Component := sub;
      ghost var comps := comp.components;
      ghost var known := Known(comps);
      ghost var moves := Moves(known, zone);
      MovedGrows(known, zone, post, moved, all, comps);
      OthersWithoutZone(pre, zone, post);
      ghost var pre', post' := FirstZone(post);
      FirstInList(post, Some(VTimezone));
      ghost var left := Moved(Known((if moves then [zone] else []) + comps), Zones(post));
      var next := MergeOneZone(comp, source, zone, pre, post);
      assert left == Moved(Known(comp.components), Zones(post));
      if moves {
        ReverseAppend(moved, zone);
        ConcatAssoc([zone], Reverse(moved), d0);
        moved := moved + [zone];
      }
      todo := Zones(post);
      ghost var before := if moves then pre else pre + [zone];
      if next != null {
        Regroup(before, pre', next, post');
      }
      pre, post := before + pre', post';
      sub := next;
    }
    MovedNothing(Known(comp.components));
    assert all == moved + [] == moved;
  }

  lemma ReverseNothing()
    ensures Reverse<Component>([]) == []
  {
  }

  lemma MovedNothing(known: set<string>)
    ensures Moved(known, []) == []
  {
  }

  // ------------------------------------------------------------------------------------
  // The second loop: everything else

  /** One round of the second loop: looks ahead, then moves the current component unless it is a zone */
  method MergeOneOther(comp: Component, source: Component, sub: Component, ghost pre: seq<Component>,
                      ghost post: seq<Component>)
    returns (next: Component?)
    requires Mergeable(comp, source)
    requires source.components == pre + [sub] + post && source.componentIterator == sub
    modifies comp`components, comp`timezones, comp`timezonesSorted
    modifies source`components, source`componentIterator, source`timezones, sub`parent
    ensures Mergeable(comp, source)
    ensures next == source.componentIterator == FirstOfKind(post, None)
    ensures comp.components == old(comp.components) + Others([sub])
    ensures source.components == (if sub.kind == VTimezone then pre + [sub] else pre) + post
  {
    hide Mergeable, FirstOfKind, Pick;
    PickOne(sub);
    next := ContinueWalk(comp, source, None, pre, sub, post);
    if sub.kind != VTimezone {
      MoveChild(comp, source, sub);
    }
  }

  lemma PickOne(c: Component)
    ensures Others([c]) == if c.kind == VTimezone then [] else [c]
  {
    assert Pick([c][1..], false) == [];
  }

  lemma AnyFirst(list: seq<Component>)
    ensures FirstOfKind(list, None) == if list == [] then null else list[0]
  {
  }

  /** The loop that moves every component but the VTIMEZONEs */
  method MergeOthers(comp: Component, source: Component)
    requires Mergeable(comp, source)
    modifies comp`components, comp`timezones, comp`timezonesSorted
    modifies source`components, source`componentIterator, source`timezones, source.components`parent
    ensures Mergeable(comp, source)
    ensures comp.components == old(comp.components) + old(Others(source.components))
    ensures forall c :: c in source.components ==> c in old(source.components) && c.kind == VTimezone
  {
    hide Mergeable, Pick, FirstOfKind;
    ghost var d0, s0 := comp.components, source.components;
    ghost var pre: seq<Component>, done: seq<Component>, post: seq<Component> := [], [], s0;
    AnyFirst(s0);
    PickNothing();
    var sub := StartWalk(comp, source, None);
    while sub != null
      invariant Mergeable(comp, source)
      invariant s0 == done + post && source.components == pre + post
      invariant sub == if post == [] then null else post[0]
      invariant sub != null ==> source.componentIterator == sub
      invariant forall c :: c in pre ==> c in s0 && c.kind == VTimezone
      invariant comp.components == d0 + Others(done)
      decreases |post|
    {
      var item: Component := sub;
      ghost var tail := post[1..];
      FirstOut(pre, post);
      FirstOut(done, post);
      AnyFirst(tail);
      PickConcat(done, [item], false);
      ConcatAssoc(d0, Others(done), Others([item]));
      var next := MergeOneOther(comp, source, item, pre, tail);
      pre := if item.kind == VTimezone then pre + [item] else pre;
      done, post := done + [item], tail;
      sub := next;
    }
    assert done == s0;
  }

  lemma FirstOut(a: seq<Component>, b: seq<Component>)
    requires b != []
    ensures a + b == a + [b[0]] + b[1..] && b[0] in a + b
  {
    assert (a + b)[|a|] == b[0];
  }

  lemma PickNothing()
    ensures Others([]) == []
  {
  }

  // ------------------------------------------------------------------------------------
  // The merge

  /** No two zones of the component have the same identifier */
  ghost predicate UniqueTzids(list: seq<Component>)
    reads list`properties
  {
    forall x, y :: x in list && y in list && x != y && x.IsZone() && y.IsZone() ==> x.TzidOf() != y.TzidOf()
  }

  /** A zone moves exactly when its identifier is unknown and no zone before it has the same */
  lemma {:induction false} MovedExactly(known: set<string>, zones: seq<Component>, i: nat)
    requires NoDup(zones) && i < |zones|
    ensures zones[i] in Moved(known, zones) <==>
            && zones[i].TzidOf().Some? && zones[i].TzidOf().value !in known
            && forall j :: 0 <= j < i ==> zones[j].TzidOf() != zones[i].TzidOf()
    decreases |zones|
  {
    hide FirstTzid;
    var c, tail := zones[0], zones[1..];
    var t := c.TzidOf();
    var known' := if t.None? || t.value in known then known else known + {t.value};
    if i == 0 {
      NotLater(known', tail, c);
    } else {
      MovedExactly(known', tail, i - 1);
      assert tail[i - 1] == zones[i] && zones[i] != c;
      assert forall j :: 0 < j < i ==> tail[j - 1] == zones[j];
      assert forall j :: 0 <= j < i - 1 ==> tail[j] == zones[j + 1];
    }
  }

  lemma {:induction false} NotLater(known: set<string>, zones: seq<Component>, c: Component)
    requires c !in zones
    ensures c !in Moved(known, zones)
    decreases |zones|
  {
    hide FirstTzid;
    if zones != [] {
      var t := zones[0].TzidOf();
      NotLater(if t.None? || t.value in known then known else known + {t.value}, zones[1..], c);
    }
  }

  lemma {:induction false} MovedFacts(known: set<string>, zones: seq<Component>)
    requires forall c :: c in zones ==> c.kind == VTimezone
    ensures forall c :: c in Moved(known, zones) ==> c in zones && c.IsZone() && c.TzidOf().value !in known
    ensures UniqueTzids(Moved(known, zones))
    ensures known + Known(Moved(known, zones)) == known + Known(zones)
    decreases |zones|
  {
    if zones != [] {
      var c, tail := zones[0], zones[1..];
      assert zones == [c] + tail;
      var t := c.TzidOf();
      if t.None? {
        MovedFacts(known, tail);
        KnownSkip(c, tail);
      } else {
        KnownPlus(c, tail);
        if t.value in known {
          MovedFacts(known, tail);
        } else {
          var known' := known + {t.value};
          MovedFacts(known', tail);
          KnownPlus(c, Moved(known', tail));
        }
      }
    }
  }

  lemma KnownSkip(c: Component, list: seq<Component>)
    requires !c.IsZone()
    ensures Known([c] + list) == Known(list)
  {
    var more := [c] + list;
    forall t | t in Known(list) ensures t in Known(more) {
      var d :| d in list && d.IsZone() && d.TzidOf().value == t;
      assert d in more;
    }
  }

  lemma KnownMembers(a: seq<Component>, b: seq<Component>)
    requires forall c :: c in a && c.IsZone() ==> c in b
    ensures Known(a) <= Known(b)
  {
  }

  lemma MergeableValid(comp: Component, source: Component)
    requires Mergeable(comp, source)
    ensures comp.Valid() && source.Valid()
  {
  }

  lemma ResolvesKnown(c: Component, t: string)
    ensures c.Resolves(t) <==> t in Known(c.components)
  {
    if c.Resolves(t) {
      var z :| z in c.components && z.IsZone() && z.TzidOf() == Some(t);
    }
  }

  /** What the zones of the merged calendar are */
  lemma MergedZones(d0: seq<Component>, s0: seq<Component>, merged: seq<Component>)
    requires merged == Reverse(Moved(Known(d0), Zones(s0))) + d0 + Others(s0)
    ensures Known(merged) == Known(d0) + Known(s0)
    ensures UniqueTzids(d0) ==> UniqueTzids(merged)
  {
    hide Moved, Pick, Reverse, Known;
    var moved := Moved(Known(d0), Zones(s0));
    PickMembers(s0, true);
    PickMembers(s0, false);
    MovedFacts(Known(d0), Zones(s0));
    forall c ensures c in Reverse(moved) <==> c in moved {
      ReverseMembers(moved, c);
    }
    KnownMembers(s0, Zones(s0));
    KnownMembers(Zones(s0), s0);
    KnownMembers(moved, merged);
    KnownMembers(d0, merged);
    KnownOfBoth(d0, moved, merged);
    forall c | c in d0 && c.IsZone() ensures c.TzidOf().value in Known(d0) {
      KnownMember(c, d0);
    }
  }

  lemma KnownMember(c: Component, list: seq<Component>)
    requires c in list && c.IsZone()
    ensures c.TzidOf().value in Known(list)
  {
  }

  lemma KnownOfBoth(a: seq<Component>, b: seq<Component>, merged: seq<Component>)
    requires forall c :: c in merged && c.IsZone() ==> c in a || c in b
    ensures Known(merged) <= Known(a) + Known(b)
  {
  }

  /**
    `icalcomponent_merge_component`: every identifier that either calendar could resolve can be
    resolved afterwards, unique identifiers stay unique, and the other components of the
    source move over once each, in order, although both loops remove from the list they walk.
   */
  method MergeComponent(comp: Component, source: Component)
    requires comp.kind == VCalendar && source.kind == VCalendar && Mergeable(comp, source)
    requires |comp.components| + |source.components| < QsortGen.Power2(35)
    modifies comp`components, comp`timezones, comp`timezonesSorted
    modifies source`components, source`componentIterator, source`timezones, source.components`parent
    ensures comp.Valid() && source.Valid()
    ensures comp.components == Reverse(old(Moved(Known(comp.components), Zones(source.components))))
                               + old(comp.components) + old(Others(source.components))
    ensures forall c :: c in source.components ==> c in old(source.components) && c.kind == VTimezone
    ensures forall t :: comp.Resolves(t) <==> old(comp.Resolves(t)) || old(source.Resolves(t))
    ensures old(UniqueTzids(comp.components)) ==> UniqueTzids(comp.components)
  {
    hide *;
    ghost var d0, s0 := comp.components, source.components;
    ghost var merged := Reverse(Moved(Known(d0), Zones(s0))) + d0 + Others(s0);
    MergedZones(d0, s0, merged);
    forall t ensures comp.Resolves(t) <==> t in Known(d0) { ResolvesKnown(comp, t); }
    forall t ensures source.Resolves(t) <==> t in Known(s0) { ResolvesKnown(source, t); }
    ghost var known, unique := Known(merged), UniqueTzids(merged);
    MergeZones(comp, source);
    assert forall i :: 0 <= i < |source.components| ==> source.components[i] in s0;
    MergeOthers(comp, source);
    MergeableValid(comp, source);
    assert comp.components == merged;
    assert Known(comp.components) == known && UniqueTzids(comp.components) == unique;
    forall t ensures comp.Resolves(t) <==> t in known { ResolvesKnown(comp, t); }
  }
}
