/** Trees of component objects, and the operations that keep them trees. */
module ComponentTrees {
  import opened Lists
  import opened Components

  /** `below` gives for every component of a tree what is below it, the component itself included */
  type Tree = map<Component, set<Component>>

  ghost predicate IsTree(below: Tree)
    reads below.Keys`components
  {
    forall c :: c in below ==> ChildrenIn(c, c.components, below)
  }

  ghost predicate ChildrenIn(c: Component, children: seq<Component>, below: Tree) {
    && c in below
    && (forall d :: d in children ==> d in below && c !in below[d])
    && below[c] == {c} + Union(children, below)
  }

  /** Everything below some components */
  ghost function Union(cs: seq<Component>, below: Tree): set<Component>
    requires forall d :: d in cs ==> d in below
  {
    if cs == [] then {} else below[cs[0]] + Union(cs[1..], below)
  }

  lemma {:induction false} UnionHas(cs: seq<Component>, d: Component, below: Tree)
    requires forall e :: e in cs ==> e in below
    requires d in cs
    ensures below[d] <= Union(cs, below)
  {
    if cs[0] != d {
      UnionHas(cs[1..], d, below);
    }
  }

  lemma {:induction false} UnionAppend(cs: seq<Component>, d: Component, below: Tree)
    requires forall e :: e in cs ==> e in below
    requires d in below
    ensures Union(cs + [d], below) == Union(cs, below) + below[d]
  {
    if cs == [] {
      assert cs + [d] == [d];
      assert Union([d], below) == below[d] + Union([], below);
    } else {
      UnionAppend(cs[1..], d, below);
      assert (cs + [d])[1..] == cs[1..] + [d];
    }
  }

  lemma OwnChildren(c: Component, below: Tree)
    requires IsTree(below) && c in below
    ensures ChildrenIn(c, c.components, below)
  {
  }

  lemma ChildFacts(c: Component, d: Component, below: Tree)
    requires IsTree(below) && c in below && d in c.components
    ensures d in below && c !in below[d] && c in below[c] && below[d] < below[c]
  {
    assert ChildrenIn(c, c.components, below);
    UnionHas(c.components, d, below);
  }

  /** A component without children is a tree by itself */
  lemma LeafIsTree(c: Component)
    requires c.components == []
    ensures IsTree(map[c := {c}])
  {
    var below: Tree := map[c := {c}];
    assert Union([], below) == {};
    assert ChildrenIn(c, c.components, below);
  }

  // ------------------------------------------------------------------------------------
  // What is below a component

  /** The lists of children, as a value */
  ghost function Kids(below: Tree): map<Component, seq<Component>>
    reads below.Keys`components
  {
    map c | c in below :: c.components
  }

  ghost predicate Fits(kids: map<Component, seq<Component>>, below: Tree) {
    kids.Keys == below.Keys && forall c :: c in below ==> ChildrenIn(c, kids[c], below)
  }

  lemma KidsFit(below: Tree)
    ensures IsTree(below) <==> Fits(Kids(below), below)
  {
    hide ChildrenIn;
  }

  lemma {:induction false} UnionMember(cs: seq<Component>, e: Component, below: Tree)
    requires forall d :: d in cs ==> d in below
    ensures e in Union(cs, below) <==> exists d :: d in cs && e in below[d]
  {
    if cs != [] {
      UnionMember(cs[1..], e, below);
      assert forall d :: d in cs <==> d == cs[0] || d in cs[1..];
    }
  }

  lemma Smaller(kids: map<Component, seq<Component>>, below: Tree, c: Component, d: Component)
    requires Fits(kids, below) && c in below && d in kids[c]
    ensures d in below && c in below[c] && c !in below[d] && below[d] < below[c]
  {
    assert ChildrenIn(c, kids[c], below);
    UnionHas(kids[c], d, below);
  }

  /** What is below a component is in the tree, and with a component its children are below it */
  lemma {:induction false} Closed(kids: map<Component, seq<Component>>, below: Tree, d: Component, c: Component)
    requires Fits(kids, below) && d in below && c in below[d]
    ensures c in below && forall x :: x in kids[c] ==> x in below[d]
    decreases below[d]
  {
    assert ChildrenIn(d, kids[d], below);
    if c == d {
      forall x | x in kids[d] ensures x in below[d] {
        Smaller(kids, below, d, x);
        assert ChildrenIn(x, kids[x], below);
      }
    } else {
      UnionMember(kids[d], c, below);
      var x :| x in kids[d] && c in below[x];
      Smaller(kids, below, d, x);
      Closed(kids, below, x, c);
    }
  }

  lemma BelowInTree(c: Component, below: Tree)
    requires IsTree(below) && c in below
    ensures below[c] <= below.Keys
  {
    KidsFit(below);
    forall e | e in below[c] ensures e in below {
      Closed(Kids(below), below, c, e);
    }
  }

  // ------------------------------------------------------------------------------------
  // Heights

  /** Children are lower than their parents */
  ghost predicate Ranked(kids: map<Component, seq<Component>>, height: map<Component, nat>) {
    && (forall c :: c in kids ==> c in height)
    && (forall c, d :: c in kids && d in kids[c] ==> d in kids && height[d] < height[c])
  }

  lemma ProperSubset(a: set<Component>, b: set<Component>)
    requires a < b
    ensures |a| < |b|
  {
    var x :| x in b && x !in a;
    SubsetSize(a, b - {x});
  }

  lemma {:induction false} SubsetSize(a: set<Component>, b: set<Component>)
    requires a <= b
    ensures |a| <= |b|
  {
    if a != {} {
      var x :| x in a;
      SubsetSize(a - {x}, b - {x});
    }
  }

  ghost function Sizes(below: Tree): map<Component, nat> {
    map c | c in below :: |below[c]|
  }

  lemma TreeIsRanked(kids: map<Component, seq<Component>>, below: Tree)
    requires Fits(kids, below)
    ensures Ranked(kids, Sizes(below))
  {
    hide ChildrenIn;
    forall c, d | c in kids && d in kids[c] ensures d in kids && Sizes(below)[d] < Sizes(below)[c] {
      Smaller(kids, below, c, d);
      ProperSubset(below[d], below[c]);
    }
  }

  ghost function Reach(kids: map<Component, seq<Component>>, height: map<Component, nat>, c: Component): set<Component>
    requires Ranked(kids, height) && c in kids
    decreases height[c]
  {
    {c} + set d, e | d in kids[c] && e in Reach(kids, height, d) :: e
  }

  lemma {:induction false} ReachIsLow(kids: map<Component, seq<Component>>, height: map<Component, nat>, c: Component)
    requires Ranked(kids, height) && c in kids
    ensures forall e :: e in Reach(kids, height, c) ==> e in kids && height[e] <= height[c]
    decreases height[c]
  {
    forall d | d in kids[c] ensures forall e :: e in Reach(kids, height, d) ==> e in kids && height[e] <= height[d] {
      ReachIsLow(kids, height, d);
    }
  }

  ghost function Reached(kids: map<Component, seq<Component>>, height: map<Component, nat>): Tree
    requires Ranked(kids, height)
  {
    map c | c in kids :: Reach(kids, height, c)
  }

  /** Where children are lower than their parents, there is a tree */
  lemma RankedIsTree(kids: map<Component, seq<Component>>, height: map<Component, nat>)
    requires Ranked(kids, height)
    ensures Fits(kids, Reached(kids, height))
  {
    hide Reach;
    var below := Reached(kids, height);
    forall c | c in below ensures ChildrenIn(c, kids[c], below) {
      forall d | d in kids[c] ensures d in below && c !in below[d] {
        ReachIsLow(kids, height, d);
      }
      ReachIsUnion(kids, height, c);
    }
  }

  lemma ReachIsUnion(kids: map<Component, seq<Component>>, height: map<Component, nat>, c: Component)
    requires Ranked(kids, height) && c in kids
    ensures Reach(kids, height, c) == {c} + Union(kids[c], Reached(kids, height))
  {
    hide Reach, Union;
    var below := Reached(kids, height);
    var u, r := Union(kids[c], below), Reach(kids, height, c);
    forall e | e in r ensures e in {c} + u {
      ReachParts(kids, height, c, e);
      UnionMember(kids[c], e, below);
    }
    forall e | e in {c} + u ensures e in r {
      ReachParts(kids, height, c, e);
      UnionMember(kids[c], e, below);
    }
  }

  lemma ReachParts(kids: map<Component, seq<Component>>, height: map<Component, nat>, c: Component, e: Component)
    requires Ranked(kids, height) && c in kids
    ensures e in Reach(kids, height, c) <==> e == c || exists d :: d in kids[c] && e in Reach(kids, height, d)
  {
  }

  // ------------------------------------------------------------------------------------
  // Adding and removing children

  /** The heights after `d` becomes a child of `p`: everything that is not below `d` moves up */
  ghost function Raised(height: map<Component, nat>, low: set<Component>, lift: nat): map<Component, nat> {
    map c | c in height :: if c in low then height[c] else height[c] + lift
  }

  lemma AddRanked(kids: map<Component, seq<Component>>, below: Tree, p: Component, d: Component, list: seq<Component>)
    requires Fits(kids, below) && p in below && d in below && p !in below[d]
    requires forall x :: x in list ==> x in kids[p] || x == d
    ensures Ranked(kids[p := list], Raised(Sizes(below), below[d], |below[d]| + 1))
  {
    hide Fits, Raised, Sizes, Ranked;
    TreeIsRanked(kids, below);
    var height := Raised(Sizes(below), below[d], |below[d]| + 1);
    SameKeys(kids, below);
    RaisedRanked(kids, below, d);
    RaisedEdge(kids, below, d, p, d);
    RankedWith(kids, height, p, d, list);
  }

  lemma RaisedRanked(kids: map<Component, seq<Component>>, below: Tree, d: Component)
    requires Fits(kids, below) && d in below && Ranked(kids, Sizes(below))
    ensures Ranked(kids, Raised(Sizes(below), below[d], |below[d]| + 1))
  {
    hide ChildrenIn;
    var height := Raised(Sizes(below), below[d], |below[d]| + 1);
    forall c, x | c in kids && x in kids[c] ensures x in kids && height[x] < height[c] {
      RaisedEdge(kids, below, d, c, x);
    }
  }

  lemma RankedWith(kids: map<Component, seq<Component>>, height: map<Component, nat>,
                   p: Component, d: Component, list: seq<Component>)
    requires Ranked(kids, height) && p in kids && d in kids && height[d] < height[p]
    requires forall x :: x in list ==> x in kids[p] || x == d
    ensures Ranked(kids[p := list], height)
  {
  }

  lemma SameKeys(kids: map<Component, seq<Component>>, below: Tree)
    requires Fits(kids, below)
    ensures kids.Keys == below.Keys
  {
  }

  /** Heights still fall along an edge, and along the new one */
  lemma RaisedEdge(kids: map<Component, seq<Component>>, below: Tree, d: Component, c: Component, x: Component)
    requires Fits(kids, below) && d in below && c in below
    requires Ranked(kids, Sizes(below))
    ensures var height := Raised(Sizes(below), below[d], |below[d]| + 1);
            && (x in kids[c] ==> x in below && height[x] < height[c])
            && (x == d && c !in below[d] ==> height[x] < height[c])
  {
    hide ChildrenIn;
    SelfBelow(kids, below, d);
    if x in kids[c] && c in below[d] {
      Closed(kids, below, d, c);
    }
  }

  lemma SelfBelow(kids: map<Component, seq<Component>>, below: Tree, d: Component)
    requires Fits(kids, below) && d in below
    ensures d in below[d]
  {
    assert ChildrenIn(d, kids[d], below);
  }

  lemma FewerRanked(kids: map<Component, seq<Component>>, height: map<Component, nat>, p: Component,
          list: seq<Component>)
    requires Ranked(kids, height) && p in kids && forall x :: x in list ==> x in kids[p]
    ensures Ranked(kids[p := list], height)
  {
  }

  lemma ReachedKeys(kids: map<Component, seq<Component>>, height: map<Component, nat>)
    requires Ranked(kids, height)
    ensures Reached(kids, height).Keys == kids.Keys
  {
  }

  lemma NoneTwice(p: Component)
    requires p.Valid()
    ensures NoDup(p.components) && forall c :: c in p.components ==> c.parent == p
  {
  }

  /** `icalcomponent_add_component` keeps a tree, as long as the parent is not below the child */
  method AddToTree(p: Component, d: Component, ghost below: Tree) returns (ghost after: Tree)
    requires IsTree(below) && p in below && d in below && p !in below[d]
    requires p.Valid() && d.parent == null
    modifies p`components, p`timezones, p`timezonesSorted, d`parent
    ensures p.Valid() && IsTree(after) && after.Keys == below.Keys && d in p.components
  {
    hide IsTree, Fits, ChildrenIn, Ranked, Union, Reached, Sizes, Raised, Component.ValidLinks, Component.ValidZones;
    ghost var kids := Kids(below);
    KidsFit(below);
    SelfBelow(kids, below, d);
    NoneTwice(p);
    p.AddComponent(d);
    ghost var height := Raised(Sizes(below), below[d], |below[d]| + 1);
    AddRanked(kids, below, p, d, p.components);
    RankedIsTree(kids[p := p.components], height);
    after := Reached(kids[p := p.components], height);
    ReachedKeys(kids[p := p.components], height);
    assert Kids(after) == kids[p := p.components];
    KidsFit(after);
  }

  /** `icalcomponent_remove_component` keeps a tree */
  method RemoveFromTree(p: Component, d: Component, ghost below: Tree) returns (ghost after: Tree)
    requires IsTree(below) && p in below && p.Valid()
    modifies p`components, p`componentIterator, p`timezones, d`parent
    ensures p.Valid() && IsTree(after) && after.Keys == below.Keys && d !in p.components
  {
    hide IsTree, Fits, ChildrenIn, Ranked, Union, Reached, Sizes, IndexOf, Component.ValidLinks, Component.ValidZones;
    ghost var kids := Kids(below);
    KidsFit(below);
    TreeIsRanked(kids, below);
    NoneTwice(p);
    WithoutMembers(p.components, d);
    p.RemoveComponent(d);
    FewerRanked(kids, Sizes(below), p, p.components);
    RankedIsTree(kids[p := p.components], Sizes(below));
    after := Reached(kids[p := p.components], Sizes(below));
    ReachedKeys(kids[p := p.components], Sizes(below));
    assert Kids(after) == kids[p := p.components];
    KidsFit(after);
  }
}
