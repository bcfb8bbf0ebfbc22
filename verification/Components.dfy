/**
  Components of `icalcomponent.c`: the list of subcomponents with its internal iterator, and
  the cache of time zones that is sorted lazily and searched by bisection.
 */
module Components {
  import opened CText
  import opened ComponentKinds
  import opened Lists
  import opened StringOrder
  import QsortGen

  /** The kinds of parse error that X-LIC-ERROR properties record */
  datatype ErrorType =
    | ComponentParseError
    | PropertyParseError
    | ParameterNameParseError
    | ParameterValueParseError
    | ValueParseError
    | OtherError

  datatype Status = InvPropName30 | InvPropVal31 | InvParam32 | InvParamVal33 | InvComp34

  datatype Content =
    | XLicError(errorType: ErrorType, text: string)
    | RequestStatus(code: Status, debug: string)
    | Tzid(id: string)
    | OtherProperty(name: string, text: string)

  datatype PropertyKind = XLicErrorKind | RequestStatusKind | TzidKind | OtherPropertyKind(name: string)

  function KindOfContent(c: Content): PropertyKind {
    match c
    case XLicError(_, _) => XLicErrorKind
    case RequestStatus(_, _) => RequestStatusKind
    case Tzid(_) => TzidKind
    case OtherProperty(name, _) => OtherPropertyKind(name)
  }

  /** A property object; its identity is what lists and iterators refer to */
  class Property {
    const content: Content

    constructor (content: Content)
      ensures this.content == content
    {
      this.content := content;
    }
  }

  /** The value of the first TZID property */
  function FirstTzid(ps: seq<Property>): Option<string> {
    if ps == [] then None
    else if ps[0].content.Tzid? then Some(ps[0].content.id)
    else FirstTzid(ps[1..])
  }

  lemma {:induction false} FirstTzidMore(ps: seq<Property>, p: Property)
    ensures FirstTzid(ps + [p]) ==
            if FirstTzid(ps) == None && p.content.Tzid? then Some(p.content.id) else FirstTzid(ps)
  {
    if ps == [] {
      assert ([p])[1..] == [];
    } else {
      FirstTzidMore(ps[1..], p);
      assert (ps + [p])[1..] == ps[1..] + [p];
    }
  }

  /** That is the first TZID property that the iterator functions find */
  lemma {:induction false} FirstTzidIsFound(ps: seq<Property>)
    ensures var p := FirstProperty(ps, Some(TzidKind));
            && (p != null ==> p.content.Tzid?)
            && FirstTzid(ps) == if p == null then None else Some(p.content.id)
  {
    if ps != [] {
      FirstTzidIsFound(ps[1..]);
    }
  }

  /** An element of the time zone array: the identifier is copied when the zone is added */
  datatype Zone = Zone(tzid: string, component: Component)

  class Component {
    const kind: Kind
    var parent: Component?
    var properties: seq<Property>
    var propertyIterator: Property?
    var components: seq<Component>
    var componentIterator: Component?
    var timezones: seq<Zone>
    var timezonesSorted: bool

    /** `icalcomponent_new` */
    constructor (kind: Kind)
      ensures this.kind == kind && parent == null && properties == [] && components == [] && timezones == []
      ensures Valid() && ValidProperties() && TzidOf() == None
    {
      this.kind := kind;
      parent, propertyIterator, componentIterator := null, null, null;
      properties, components, timezones := [], [], [];
      timezonesSorted := true;
    }

    ghost function TzidOf(): Option<string>
      reads this`properties
    {
      FirstTzid(properties)
    }

    /** A time zone child that can be looked up */
    ghost predicate IsZone()
      reads this`properties
    {
      kind == VTimezone && TzidOf().Some?
    }

    ghost predicate ValidLinks()
      reads this`components, this`componentIterator, components`parent
    {
      && NoDup(components)
      && (forall c :: c in components ==> c.parent == this && c != this)
      && (componentIterator != null ==> componentIterator in components)
      && ZonesFirst(components)
    }

    /** The time zone array holds exactly the zones among the children, and is sorted when it says so */
    ghost predicate ValidZones()
      reads this`components, this`timezones, this`timezonesSorted, components`properties
    {
      ZonesFor(timezones, components) && (timezonesSorted ==> ZonesSorted(timezones))
    }

    ghost predicate Valid()
      reads this`components, this`componentIterator, this`timezones, this`timezonesSorted
      reads components`parent, components`properties
    {
      ValidLinks() && ValidZones()
    }

    /** A time zone with this identifier is among the children */
    ghost predicate Resolves(tzid: string)
      reads this`components, components`properties
    {
      exists c :: c in components && c.IsZone() && c.TzidOf() == Some(tzid)
    }

    ghost predicate ValidProperties()
      reads this`properties, this`propertyIterator
    {
      NoDup(properties) && (propertyIterator != null ==> propertyIterator in properties)
    }

    /** This component is the child of a component in good order */
    ghost predicate Attached()
      reads this`parent, parent, if parent == null then [] else parent.components
    {
      parent != null && parent.Valid() && this in parent.components
    }

    /**
      When only properties of this component change, the array of the parent goes on holding
      exactly the zones if and only if this is no time zone or keeps its identifier.
     */
    twostate lemma ParentAfter()
      requires old(Attached()) && parent == old(parent)
      requires parent.components == old(parent.components) && parent.timezones == old(parent.timezones)
      requires forall c :: c in parent.components && c != this ==> c.properties == old(c.properties)
      ensures ZonesFor(parent.timezones, parent.components) <==> kind != VTimezone || TzidOf() == old(TzidOf())
    {
      hide FirstTzid, OneZoneEach, ZonesFirst, ZonesSorted;
      var zones, list := parent.timezones, parent.components;
      if kind != VTimezone || TzidOf() == old(TzidOf()) {
        assert forall c :: c in list && old(c.IsZone()) ==> c.IsZone() && c.TzidOf() == old(c.TzidOf());
        assert forall c :: c in list && c.IsZone() ==> old(c.IsZone());
      } else if old(IsZone()) {
        var z :| z in zones && z.component == this;
      }
    }

    /**
      `icalcomponent_add_property`. The time zone array of the parent is left alone, so a
      VTIMEZONE that gets its identifier only after it was attached is not entered there.
     */
    method AddProperty(property: Property)
      requires ValidProperties() && property !in properties
      modifies this`properties
      ensures ValidProperties() && properties == old(properties) + [property]
      ensures old(Attached()) ==>
                (parent.Valid() <==> kind != VTimezone || old(TzidOf()).Some? || !property.content.Tzid?)
    {
      FirstTzidMore(properties, property);
      properties := properties + [property];
      if old(Attached()) {
        hide ZonesFor, ZonesSorted, ZonesFirst, FirstTzid;
        ParentAfter();
      }
    }

    /**
      `icalcomponent_remove_property`: the iterator moves on when it stood on the removed property.
      The time zone array of the parent is left alone here, too.
     */
    method RemoveProperty(property: Property)
      requires ValidProperties()
      modifies this`properties, this`propertyIterator
      ensures ValidProperties() && properties == Without(old(properties), property)
      ensures old(propertyIterator) != property ==> propertyIterator == old(propertyIterator)
      ensures old(propertyIterator) == property && property in old(properties) ==>
                var rest := After(old(properties), property); propertyIterator == if rest == [] then null else rest[0]
      ensures old(Attached()) ==>
                (parent.Valid() <==>
                 kind != VTimezone || FirstTzid(Without(old(properties), property)) == old(TzidOf()))
    {
      DropProperty(property);
      if old(Attached()) {
        hide ZonesFor, ZonesSorted, ZonesFirst, FirstTzid;
        ParentAfter();
      }
    }

    /** The loop of `icalcomponent_remove_property` */
    method DropProperty(property: Property)
      requires ValidProperties()
      modifies this`properties, this`propertyIterator
      ensures ValidProperties() && properties == Without(old(properties), property)
      ensures old(propertyIterator) != property ==> propertyIterator == old(propertyIterator)
      ensures old(propertyIterator) == property && property in old(properties) ==>
                var rest := After(old(properties), property); propertyIterator == if rest == [] then null else rest[0]
    {
      var i := 0;
      while i < |properties|
        invariant 0 <= i <= |properties| && property !in properties[..i]
        invariant properties == old(properties) && propertyIterator == old(propertyIterator)
      {
        if properties[i] == property {
          IndexUnique(properties, i);
          WithoutMembers(properties, property);
          if propertyIterator == property {
            propertyIterator := if i + 1 < |properties| then properties[i + 1] else null;
          }
          properties := properties[..i] + properties[i + 1..];
          return;
        }
        i := i + 1;
      }
    }

    /** `icalcomponent_get_first_property`; no kind stands for any kind */
    method GetFirstProperty(kind: Option<PropertyKind>) returns (r: Property?)
      requires ValidProperties()
      modifies this`propertyIterator
      ensures ValidProperties()
      ensures r == propertyIterator == FirstProperty(properties, kind)
    {
      FirstPropertyInList(properties, kind);
      r := AdvanceProperty(properties, kind);
      propertyIterator := r;
    }

    /** `icalcomponent_get_next_property` */
    method GetNextProperty(kind: Option<PropertyKind>) returns (r: Property?)
      requires ValidProperties()
      modifies this`propertyIterator
      ensures ValidProperties()
      ensures r == propertyIterator ==
              if old(propertyIterator) == null then null
              else FirstProperty(After(properties, old(propertyIterator)), kind)
    {
      if propertyIterator == null {
        return null;
      }
      FirstPropertyInList(After(properties, propertyIterator), kind);
      r := AdvanceProperty(After(properties, propertyIterator), kind);
      propertyIterator := r;
    }

    /**
      `icalcomponent_add_component`. The source takes a child that still has a parent, too, and
      only sets an error code; the list of the old parent then holds a child that is not its own.
      A child that is added twice is in the list twice.
     */
    method AddComponent(child: Component)
      requires Valid()
      modifies this`components, this`timezones, this`timezonesSorted, child`parent
      ensures child.parent == this
      ensures components == if child.kind == VTimezone then [child] + old(components) else old(components) + [child]
      ensures timezones == if child.IsZone() then old(timezones) + [Zone(child.TzidOf().value, child)]
                           else old(timezones)
      ensures timezonesSorted == (old(timezonesSorted) && child.kind != VTimezone)
      ensures Valid() <==> child !in old(components) && child != this
      ensures forall q: Component :: q != this && old(allocated(q) && q.Valid()) ==>
                                       (q.Valid() <==> child !in q.components)
    {
      hide ZonesFor, ZonesSorted, ZonesFirst, FirstTzid;
      ZonesFirstMore(components, child);
      if child in components {
        InTwice(components, child);
      } else {
        ZonesForMore(timezones, components, child);
      }
      child.parent := this;
      if child.kind != VTimezone {
        components := components + [child];
      } else {
        components := [child] + components;
        var tzid := FirstTzid(child.properties);
        if tzid.Some? {
          timezones := timezones + [Zone(tzid.value, child)];
        }
        timezonesSorted := false;
      }
    }

    /** The loop of `icalcomponent_remove_component` over the time zone array */
    method RemoveZone(child: Component)
      modifies this`timezones
      ensures timezones == DropZone(old(timezones), child)
    {
      hide DropZone;
      var i := 0;
      DropZoneFrom(timezones, child, 0);
      while i < |timezones|
        invariant 0 <= i <= |timezones| && timezones == old(timezones)
        invariant DropZone(timezones, child) == timezones[..i] + DropZone(timezones[i..], child)
      {
        DropZoneFrom(timezones, child, i);
        if timezones[i].component == child {
          timezones := timezones[..i] + timezones[i + 1..];
          return;
        }
        i := i + 1;
      }
      DropZoneFrom(timezones, child, i);
    }

    /** The loop of `icalcomponent_remove_component` over the list of components */
    method Unlink(child: Component)
      requires ValidLinks()
      modifies this`components, this`componentIterator, child`parent
      ensures ValidLinks()
      ensures components == Without(old(components), child)
      ensures child.parent == if child in old(components) then null else old(child.parent)
      ensures componentIterator ==
              if old(componentIterator) == child then NextOf(old(components), child) else old(componentIterator)
    {
      hide ZonesFirst;
      var i := 0;
      while i < |components|
        invariant 0 <= i <= |components| && components == old(components)
        invariant child !in components[..i]
      {
        if components[i] == child {
          IndexUnique(components, i);
          WithoutMembers(components, child);
          ZonesFirstWithout(components, i);
          if componentIterator == child {
            componentIterator := if i + 1 < |components| then components[i + 1] else null;
          }
          components := components[..i] + components[i + 1..];
          child.parent := null;
          return;
        }
        i := i + 1;
      }
    }

    /** `icalcomponent_remove_component`: the iterator moves on when it stood on the removed child */
    method RemoveComponent(child: Component)
      requires Valid()
      modifies this`components, this`componentIterator, this`timezones, child`parent
      ensures Valid()
      ensures components == Without(old(components), child)
      ensures child.parent == if child in old(components) then null else old(child.parent)
      ensures componentIterator ==
              if old(componentIterator) == child then NextOf(old(components), child) else old(componentIterator)
    {
      hide ZonesFor, ZonesSorted, DropZone, NextOf;
      ghost var zones, cs := timezones, components;
      ZonesForFewer(zones, cs, child);
      WithoutMembers(cs, child);
      if child.kind == VTimezone {
        RemoveZone(child);
      }
      Unlink(child);
      assert components == Without(cs, child) && timezones == DropZone(zones, child);
    }

    /** `icalcomponent_get_first_component`; no kind stands for any kind */
    method GetFirstComponent(kind: Option<Kind>) returns (r: Component?)
      requires ValidLinks()
      modifies this`componentIterator
      ensures ValidLinks()
      ensures r == componentIterator == FirstOfKind(components, kind)
    {
      FirstInList(components, kind);
      r := Advance(components, kind);
      componentIterator := r;
    }

    /** `icalcomponent_get_next_component` */
    method GetNextComponent(kind: Option<Kind>) returns (r: Component?)
      requires ValidLinks()
      modifies this`componentIterator
      ensures ValidLinks()
      ensures r == componentIterator ==
              if old(componentIterator) == null then null
              else FirstOfKind(After(components, old(componentIterator)), kind)
    {
      if componentIterator == null {
        return null;
      }
      FirstInList(After(components, componentIterator), kind);
      r := Advance(After(components, componentIterator), kind);
      componentIterator := r;
    }

    /**
      `icalcomponent_get_timezone`: sorts the array if need be and bisects it. What is found is
      what the array holds, whether or not that agrees with the children.
     */
    method GetTimezone(tzid: string) returns (r: Option<Zone>)
      requires (timezonesSorted ==> ZonesSorted(timezones)) && |timezones| < QsortGen.Power2(35)
      modifies this`timezones, this`timezonesSorted
      ensures timezonesSorted && ZonesSorted(timezones) && multiset(timezones) == multiset(old(timezones))
      ensures r.Some? <==> exists z :: z in timezones && z.tzid == tzid
      ensures r.Some? ==> r.value.tzid == tzid && r.value in timezones
      ensures old(Valid()) ==> Valid() && (r.Some? <==> Resolves(tzid))
      ensures old(Valid()) && r.Some? ==> r.value.component in components
    {
      hide ValidLinks, ValidZones, Resolves, ZonesSorted;
      if !timezonesSorted {
        SortZones();
      }
      r := Bisect(timezones, tzid);
      assert r.Some? <==> exists z :: z in timezones && z.tzid == tzid;
      if old(Valid()) {
        FoundIffResolves(tzid, r);
      }
    }

    lemma SortedWhenFlagged()
      requires ValidZones()
      ensures timezonesSorted ==> ZonesSorted(timezones)
    {
    }

    lemma FoundIffResolves(tzid: string, r: Option<Zone>)
      requires ValidZones()
      requires r.Some? ==> r.value in timezones && r.value.tzid == tzid
      requires r.Some? <==> exists z :: z in timezones && z.tzid == tzid
      ensures r.Some? <==> Resolves(tzid)
      ensures r.Some? ==> r.value.component in components
    {
    }

    /** `icalarray_sort` of the time zones */
    method SortZones()
      requires |timezones| < QsortGen.Power2(35)
      modifies this`timezones, this`timezonesSorted
      ensures timezonesSorted && ZonesSorted(timezones) && multiset(timezones) == multiset(old(timezones))
      ensures old(ValidZones()) ==> ValidZones()
    {
      hide *;
      var sorted := SortByTzid(timezones);
      if ValidZones() {
        RearrangedZones(sorted);
      }
      timezones := sorted;
      timezonesSorted := true;
      if old(ValidZones()) {
        SortedZones();
      }
    }

    lemma RearrangedZones(zones: seq<Zone>)
      requires ValidZones() && multiset(zones) == multiset(timezones)
      ensures ZonesFor(zones, components)
    {
      hide OneZoneEach, ZonesSorted;
      SamePlaces(timezones, zones);
      forall c | c in components && c.IsZone() ensures exists z :: z in zones && z.component == c {
        var z :| z in timezones && z.component == c;
        assert z in zones;
      }
    }

    lemma SortedZones()
      requires ZonesFor(timezones, components) && ZonesSorted(timezones)
      ensures ValidZones()
    {
      hide OneZoneEach, ZonesSorted;
    }
  }

  /** The loop of the iterator functions for properties */
  method AdvanceProperty(list: seq<Property>, kind: Option<PropertyKind>) returns (r: Property?)
    ensures r == FirstProperty(list, kind)
  {
    var i := 0;
    while i < |list|
      invariant 0 <= i <= |list|
      invariant FirstProperty(list, kind) == FirstProperty(list[i..], kind)
    {
      if IsOfKind(list[i], kind) {
        return list[i];
      }
      i := i + 1;
    }
    r := null;
  }

  predicate IsOfKind(p: Property, kind: Option<PropertyKind>) {
    kind == None || kind == Some(KindOfContent(p.content))
  }

  function FirstProperty(list: seq<Property>, kind: Option<PropertyKind>): Property? {
    if list == [] then null
    else if IsOfKind(list[0], kind) then list[0]
    else FirstProperty(list[1..], kind)
  }

  lemma {:induction false} FirstPropertyInList(list: seq<Property>, kind: Option<PropertyKind>)
    ensures var p := FirstProperty(list, kind); p != null ==> p in list && IsOfKind(p, kind)
    ensures FirstProperty(list, kind) == null ==> forall p :: p in list ==> !IsOfKind(p, kind)
  {
    if list != [] {
      FirstPropertyInList(list[1..], kind);
    }
  }

  /** It is the first of the kind */
  lemma {:induction false} FirstPropertyAt(list: seq<Property>, kind: Option<PropertyKind>, i: nat)
    requires i < |list| && IsOfKind(list[i], kind) && forall j :: 0 <= j < i ==> !IsOfKind(list[j], kind)
    ensures FirstProperty(list, kind) == list[i]
    decreases |list|
  {
    if i > 0 {
      FirstPropertyAt(list[1..], kind, i - 1);
    }
  }

  /** The loop of the iterator functions: the first item of the given kind */
  method Advance(list: seq<Component>, kind: Option<Kind>) returns (r: Component?)
    ensures r == FirstOfKind(list, kind)
  {
    var i := 0;
    while i < |list|
      invariant 0 <= i <= |list|
      invariant FirstOfKind(list, kind) == FirstOfKind(list[i..], kind)
    {
      if HasKind(list[i], kind) {
        return list[i];
      }
      i := i + 1;
    }
    r := null;
  }

  predicate HasKind(c: Component, kind: Option<Kind>) {
    kind == None || kind == Some(c.kind)
  }

  function FirstOfKind(list: seq<Component>, kind: Option<Kind>): Component? {
    if list == [] then null
    else if HasKind(list[0], kind) then list[0]
    else FirstOfKind(list[1..], kind)
  }

  lemma {:induction false} FirstInList(list: seq<Component>, kind: Option<Kind>)
    ensures var c := FirstOfKind(list, kind); c != null ==> c in list && HasKind(c, kind)
  {
    if list != [] {
      FirstInList(list[1..], kind);
    }
  }

  /** It is the first of the kind, and there is none without one */
  lemma {:induction false} FirstComponentAt(list: seq<Component>, kind: Option<Kind>, i: nat)
    requires i <= |list| && (i < |list| ==> HasKind(list[i], kind))
    requires forall j :: 0 <= j < i ==> !HasKind(list[j], kind)
    ensures FirstOfKind(list, kind) == if i < |list| then list[i] else null
    decreases |list|
  {
    if i > 0 {
      FirstComponentAt(list[1..], kind, i - 1);
    }
  }

  /** `icalcomponent_compare_timezone_fn` */
  function CompareZones(a: Zone, b: Zone): int {
    StrCmp(a.tzid, b.tzid)
  }

  function Tzids(zones: seq<Zone>): (ids: seq<string>)
    ensures |ids| == |zones| && forall i :: 0 <= i < |zones| ==> ids[i] == zones[i].tzid
  {
    if zones == [] then [] else [zones[0].tzid] + Tzids(zones[1..])
  }

  method SortByTzid(zones: seq<Zone>) returns (sorted: seq<Zone>)
    requires |zones| < QsortGen.Power2(35)
    ensures multiset(sorted) == multiset(zones) && ZonesSorted(sorted)
  {
    hide StrCmp, Rank;
    ghost var ids := Tzids(zones);
    ghost var rank := (z: Zone) => Rank(ids, z.tzid) as int;
    assert QsortGen.OrdersBy(CompareZones, rank, zones) by {
      forall x, y | x in zones && y in zones
        ensures (CompareZones(x, y) < 0 <==> rank(x) < rank(y)) && (CompareZones(x, y) > 0 <==> rank(x) > rank(y))
      {
        RankOrders(ids, x.tzid, y.tzid);
      }
    }
    sorted := QsortGen.Sort(zones, CompareZones, rank);
    forall i, j | 0 <= i < j < |sorted| ensures StrCmp(sorted[i].tzid, sorted[j].tzid) <= 0 {
      assert sorted[i] in multiset(zones) && sorted[j] in multiset(zones);
      assert rank(sorted[i]) <= rank(sorted[j]);
      RankOrders(ids, sorted[i].tzid, sorted[j].tzid);
    }
  }

  /** Rearranging the zones changes neither their set nor that each child has one */
  lemma SamePlaces(a: seq<Zone>, b: seq<Zone>)
    requires multiset(a) == multiset(b) && OneZoneEach(a)
    ensures forall z :: z in a <==> z in b
    ensures OneZoneEach(b)
  {
    forall z ensures z in a <==> z in b {
      assert z in a <==> z in multiset(a);
      assert z in b <==> z in multiset(b);
    }
    forall i, j | 0 <= i < j < |b| ensures b[i].component != b[j].component {
      if b[i].component == b[j].component {
        TwoInMultiset(a, b, i, j);
      }
    }
  }

  lemma TwoInMultiset(a: seq<Zone>, b: seq<Zone>, i: nat, j: nat)
    requires multiset(a) == multiset(b) && OneZoneEach(a) && i < j < |b|
    ensures b[i].component != b[j].component
  {
    var x, y := b[i], b[j];
    if x != y {
      assert x in multiset(a) && y in multiset(a);
      var p :| 0 <= p < |a| && a[p] == x;
      var q :| 0 <= q < |a| && a[q] == y;
    } else {
      assert multiset(b)[x] >= 2 by {
        assert b == b[..i] + [x] + b[i + 1..j] + [x] + b[j + 1..];
      }
      OnlyOnce(a, x);
    }
  }

  lemma {:induction false} OnlyOnce(a: seq<Zone>, x: Zone)
    requires OneZoneEach(a)
    ensures multiset(a)[x] <= 1
  {
    if a != [] {
      OnlyOnce(a[1..], x);
      assert a == [a[0]] + a[1..];
      if a[0] == x {
        assert x !in a[1..];
        assert x !in multiset(a[1..]);
      }
    }
  }

  /** The binary search of `icalcomponent_get_timezone` */
  method Bisect(zones: seq<Zone>, tzid: string) returns (r: Option<Zone>)
    requires ZonesSorted(zones)
    ensures r.Some? ==> r.value in zones && r.value.tzid == tzid
    ensures r.None? ==> forall z :: z in zones ==> z.tzid != tzid
  {
    hide StrCmp;
    var lower, upper := 0, |zones|;
    while lower < upper
      invariant 0 <= lower <= upper <= |zones|
      invariant forall i :: 0 <= i < lower ==> zones[i].tzid != tzid
      invariant forall i :: upper <= i < |zones| ==> zones[i].tzid != tzid
    {
      var middle := (lower + upper) / 2;
      var zone := zones[middle];
      var cmp := StrCmp(tzid, zone.tzid);
      Antisymmetric(tzid, zone.tzid);
      if cmp == 0 {
        return Some(zone);
      } else if cmp < 0 {
        forall i | middle <= i < upper ensures zones[i].tzid != tzid {
          Antisymmetric(zone.tzid, zones[i].tzid);
        }
        upper := middle;
      } else {
        forall i | lower <= i <= middle ensures zones[i].tzid != tzid {
          Antisymmetric(zones[i].tzid, zone.tzid);
        }
        lower := middle + 1;
      }
    }
    r := None;
  }

  /** The successor of `x` in a list, `null` when there is none */
  function NextOf(s: seq<Component>, x: Component): Component? {
    if x in s && After(s, x) != [] then After(s, x)[0] else null
  }

  function DropZone(zones: seq<Zone>, child: Component): seq<Zone> {
    if zones == [] then []
    else if zones[0].component == child then zones[1..]
    else [zones[0]] + DropZone(zones[1..], child)
  }

  /** Exactly the zones among the components in the list, one each */
  ghost predicate ZonesFor(zones: seq<Zone>, list: seq<Component>)
    reads list`properties
  {
    && (forall z :: z in zones ==> z.component in list && z.component.IsZone() && z.component.TzidOf() == Some(z.tzid))
    && (forall c :: c in list && c.IsZone() ==> exists z :: z in zones && z.component == c)
    && OneZoneEach(zones)
  }

  lemma InTwice(list: seq<Component>, child: Component)
    requires child in list
    ensures !NoDup(list + [child]) && !NoDup([child] + list)
  {
    var i :| 0 <= i < |list| && list[i] == child;
    assert (list + [child])[i] == (list + [child])[|list|];
    assert ([child] + list)[0] == ([child] + list)[i + 1];
  }

  lemma ZonesForMore(zones: seq<Zone>, list: seq<Component>, child: Component)
    requires ZonesFor(zones, list) && child !in list
    ensures !child.IsZone() ==> ZonesFor(zones, list + [child]) && ZonesFor(zones, [child] + list)
    ensures child.IsZone() ==> ZonesFor(zones + [Zone(child.TzidOf().value, child)], [child] + list)
  {
    hide FirstTzid;
    if child.IsZone() {
      var all, more := zones + [Zone(child.TzidOf().value, child)], [child] + list;
      assert all[|zones|].component == child;
      forall c | c in more && c.IsZone() ensures exists z :: z in all && z.component == c {
        if c == child {
          assert all[|zones|] in all;
        } else {
          var z :| z in zones && z.component == c;
          assert z in all;
        }
      }
    }
  }

  lemma OneEach(zones: seq<Zone>, list: seq<Component>)
    requires ZonesFor(zones, list)
    ensures OneZoneEach(zones)
  {
  }

  lemma OnlyZones(zones: seq<Zone>, list: seq<Component>, child: Component)
    requires ZonesFor(zones, list) && child.kind != VTimezone
    ensures forall z :: z in zones ==> z.component != child
  {
  }

  lemma FewerZones(zones: seq<Zone>, list: seq<Component>, child: Component, fewer: seq<Zone>, rest: seq<Component>)
    requires ZonesFor(zones, list) && OneZoneEach(fewer)
    requires forall z :: z in fewer <==> z in zones && z.component != child
    requires forall c :: c in rest <==> c in list && c != child
    ensures ZonesFor(fewer, rest)
  {
    hide OneZoneEach, FirstTzid;
    forall c | c in rest && c.IsZone() ensures exists z :: z in fewer && z.component == c {
      assert c in list;
      var z :| z in zones && z.component == c;
      assert z in fewer;
    }
  }

  lemma ZonesForFewer(zones: seq<Zone>, list: seq<Component>, child: Component)
    requires ZonesFor(zones, list) && NoDup(list)
    ensures ZonesFor(DropZone(zones, child), Without(list, child))
    ensures child.kind != VTimezone ==> DropZone(zones, child) == zones
    ensures ZonesSorted(zones) ==> ZonesSorted(DropZone(zones, child))
  {
    hide DropZone, ZonesSorted, OneZoneEach, FirstTzid, ZonesFor;
    WithoutMembers(list, child);
    OneEach(zones, list);
    DropZoneFacts(zones, child);
    if child.kind != VTimezone {
      OnlyZones(zones, list, child);
      DropZoneAbsent(zones, child);
    }
    FewerZones(zones, list, child, DropZone(zones, child), Without(list, child));
  }

  lemma DropZoneFrom(zones: seq<Zone>, child: Component, i: nat)
    requires i <= |zones|
    ensures i == 0 ==> zones[..i] + DropZone(zones[i..], child) == DropZone(zones, child)
    ensures i == |zones| ==> zones[..i] + DropZone(zones[i..], child) == zones
    ensures i < |zones| && zones[i].component == child ==> DropZone(zones[i..], child) == zones[i + 1..]
    ensures i < |zones| && zones[i].component != child ==>
              zones[..i] + DropZone(zones[i..], child) == zones[..i + 1] + DropZone(zones[i + 1..], child)
  {
    if i < |zones| {
      assert zones[i..][1..] == zones[i + 1..];
    }
  }

  ghost predicate OneZoneEach(zones: seq<Zone>) {
    forall i, j :: 0 <= i < j < |zones| ==> zones[i].component != zones[j].component
  }

  lemma {:induction false} DropZoneAbsent(zones: seq<Zone>, child: Component)
    requires forall z :: z in zones ==> z.component != child
    ensures DropZone(zones, child) == zones
  {
    if zones != [] {
      DropZoneAbsent(zones[1..], child);
    }
  }

  lemma {:induction false} DropZoneShape(zones: seq<Zone>, child: Component) returns (k: nat)
    ensures k <= |zones| && forall i :: 0 <= i < k ==> zones[i].component != child
    ensures k < |zones| ==> zones[k].component == child
    ensures DropZone(zones, child) == if k < |zones| then zones[..k] + zones[k + 1..] else zones
  {
    if zones == [] {
      k := 0;
    } else if zones[0].component == child {
      k := 0;
    } else {
      var m := DropZoneShape(zones[1..], child);
      k := m + 1;
    }
  }

  /** Exactly the zone of `child` goes, and a sorted array stays sorted */
  lemma DropZoneFacts(zones: seq<Zone>, child: Component)
    requires OneZoneEach(zones)
    ensures forall z :: z in DropZone(zones, child) <==> z in zones && z.component != child
    ensures OneZoneEach(DropZone(zones, child))
    ensures ZonesSorted(zones) ==> ZonesSorted(DropZone(zones, child))
  {
    hide DropZone, StrCmp;
    var k := DropZoneShape(zones, child);
    var r := DropZone(zones, child);
    assert forall i :: 0 <= i < |r| ==> r[i] == if i < k then zones[i] else zones[i + 1];
    forall z | z in zones && z.component != child ensures z in r {
      var i :| 0 <= i < |zones| && zones[i] == z;
      assert z == r[if i < k then i else i - 1];
    }
  }

  /** VTIMEZONEs come first in a list of components */
  ghost predicate ZonesFirst(list: seq<Component>) {
    forall i, j :: 0 <= i < j < |list| && list[j].kind == VTimezone ==> list[i].kind == VTimezone
  }

  lemma ZonesFirstMore(list: seq<Component>, child: Component)
    requires ZonesFirst(list)
    ensures ZonesFirst(if child.kind == VTimezone then [child] + list else list + [child])
  {
  }

  lemma ZonesFirstWithout(list: seq<Component>, i: nat)
    requires ZonesFirst(list) && i < |list|
    ensures ZonesFirst(list[..i] + list[i + 1..])
  {
  }

  ghost predicate ZonesSorted(zones: seq<Zone>) {
    forall i, j :: 0 <= i < j < |zones| ==> StrCmp(zones[i].tzid, zones[j].tzid) <= 0
  }

  // ------------------------------------------------------------------------------------
  // Ways to lose the agreement between the array and the children

  lemma FewerThanTwo(zones: seq<Zone>)
    requires |zones| < 2
    ensures ZonesSorted(zones) && |zones| < QsortGen.Power2(35)
  {
    assert QsortGen.Power2(1) == 2;
    QsortGen.Power2Monotone(1, 35);
  }

  lemma OneTzid(p: Property)
    requires p.content.Tzid?
    ensures FirstTzid([]) == None && FirstTzid([p]) == Some(p.content.id) && Without([p], p) == []
  {
  }

  lemma OneZone(zones: seq<Zone>, z: Zone)
    requires multiset(zones) == multiset([z])
    ensures zones == [z]
  {
    assert |multiset(zones)| == 1 && |zones| == 1;
    assert zones[0] in multiset(zones);
  }

  /** A time zone that gets its identifier after it was attached is not found */
  method LateIdentifier(id: string) returns (calendar: Component, zone: Component, found: Option<Zone>)
    ensures zone in calendar.components && zone.kind == VTimezone && zone.TzidOf() == Some(id)
    ensures calendar.Resolves(id) && found == None
  {
    hide ZonesFor, ZonesSorted, QsortGen.Power2;
    calendar := new Component(VCalendar);
    zone := new Component(VTimezone);
    var tzid := new Property(Tzid(id));
    calendar.AddComponent(zone);
    zone.AddProperty(tzid);
    FewerThanTwo(calendar.timezones);
    found := calendar.GetTimezone(id);
  }

  method NewZone(id: string) returns (zone: Component, tzid: Property)
    ensures fresh(zone) && zone.kind == VTimezone && zone.parent == null && zone.Valid() && zone.ValidProperties()
    ensures tzid.content == Tzid(id) && zone.properties == [tzid]
  {
    zone := new Component(VTimezone);
    tzid := new Property(Tzid(id));
    zone.AddProperty(tzid);
  }

  method DropIdentifier(id: string) returns (calendar: Component, zone: Component)
    ensures fresh(calendar) && zone.parent == calendar && zone.properties == []
    ensures calendar.components == [zone] && calendar.timezones == [Zone(id, zone)]
  {
    hide ZonesFor, ZonesSorted, ZonesFirst, FirstTzid, Without, QsortGen.Power2;
    var tzid;
    zone, tzid := NewZone(id);
    OneTzid(tzid);
    calendar := new Component(VCalendar);
    calendar.AddComponent(zone);
    zone.RemoveProperty(tzid);
  }

  /** One that lost its identifier while it was attached is still found */
  method LostIdentifier(id: string) returns (calendar: Component, zone: Component, found: Option<Zone>)
    ensures zone.parent == calendar && zone.TzidOf() == None
    ensures !calendar.Resolves(id) && found == Some(Zone(id, zone))
  {
    calendar, zone := DropIdentifier(id);
    hide ZonesFor, ZonesSorted, QsortGen.Power2;
    FewerThanTwo(calendar.timezones);
    found := calendar.GetTimezone(id);
    OneZone(calendar.timezones, Zone(id, zone));
  }

  /** A child that is added to a second parent stays in the list of the first */
  method TwoParents() returns (first: Component, second: Component, child: Component)
    ensures child in first.components && child in second.components && child.parent == second
    ensures !first.Valid() && second.Valid()
  {
    first := new Component(VCalendar);
    second := new Component(VCalendar);
    child := new Component(VEvent);
    first.AddComponent(child);
    second.AddComponent(child);
  }
}
