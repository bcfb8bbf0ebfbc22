/**
  Components under a common parent: what the parser does with finished components, and where
  children end up.
 */
module Gathering {
  import opened CText
  import opened ComponentKinds
  import opened Lists
  import opened ParserStack

  /** All entries of some components and of everything below them */
  function Everything(nodes: seq<Node>): multiset<Entry>
    decreases nodes
  {
    if nodes == [] then multiset{}
    else multiset(nodes[0].entries) + Everything(nodes[0].children) + Everything(nodes[1..])
  }

  lemma EverythingFirst(n: Node, rest: seq<Node>)
    ensures Everything([n] + rest) == multiset(n.entries) + Everything(n.children) + Everything(rest)
    ensures Everything([]) == multiset{}
  {
    assert ([n] + rest)[1..] == rest && ([n] + rest)[0] == n;
  }

  lemma {:induction false} EverythingConcat(a: seq<Node>, b: seq<Node>)
    ensures Everything(a + b) == Everything(a) + Everything(b)
    decreases |a|
  {
    hide Everything;
    if a == [] {
      assert a + b == b;
      EverythingEmpty();
    } else {
      var n, rest := a[0], a[1..];
      assert a == [n] + rest && a + b == [n] + (rest + b);
      EverythingConcat(rest, b);
      EverythingFirst(n, rest);
      EverythingFirst(n, rest + b);
    }
  }

  lemma EverythingEmpty()
    ensures Everything([]) == multiset{}
  {
  }

  lemma EverythingOne(n: Node)
    ensures Everything([n]) == multiset(n.entries) + Everything(n.children)
  {
    EverythingFirst(n, []);
    assert [n] + [] == [n];
  }

  lemma EverythingChild(parent: Node, child: Node)
    ensures Everything([AddChild(parent, child)]) == Everything([parent]) + Everything([child])
  {
    hide Everything;
    EverythingOne(parent);
    EverythingOne(AddChild(parent, child));
    EverythingConcat([child], parent.children);
    EverythingConcat(parent.children, [child]);
  }

  // ------------------------------------------------------------------------------------
  // Where children end up

  predicate IsZone(t: Node) {
    t.kind == VTimezone
  }

  /** The VTIMEZONEs of a list, or the others */
  function Pick(ts: seq<Node>, zones: bool): seq<Node> {
    if ts == [] then [] else (if IsZone(ts[0]) == zones then [ts[0]] else []) + Pick(ts[1..], zones)
  }

  function Zones(ts: seq<Node>): seq<Node> {
    Pick(ts, true)
  }

  function Others(ts: seq<Node>): seq<Node> {
    Pick(ts, false)
  }

  lemma {:induction false} PickConcat(a: seq<Node>, b: seq<Node>, zones: bool)
    ensures Pick(a + b, zones) == Pick(a, zones) + Pick(b, zones)
  {
    hide IsZone;
    if a == [] {
      assert a + b == b;
    } else {
      PickConcat(a[1..], b, zones);
      assert (a + b)[1..] == a[1..] + b && (a + b)[0] == a[0];
      ConcatAssoc(if IsZone(a[0]) == zones then [a[0]] else [], Pick(a[1..], zones), Pick(b, zones));
    }
  }

  lemma PickOne(t: Node, zones: bool)
    ensures Pick([t], zones) == if IsZone(t) == zones then [t] else []
  {
    assert [t][1..] == [];
  }

  function Gather(root: Node, cs: seq<Node>): Node {
    if cs == [] then root else AddChild(Gather(root, cs[..|cs| - 1]), cs[|cs| - 1])
  }

  /** One finished component stands for itself; several are gathered under an XROOT */
  function Rooted(cs: seq<Node>): Option<Node> {
    if cs == [] then None else if |cs| == 1 then Some(cs[0]) else Some(Gather(Node(XRoot, [], []), cs))
  }

  lemma {:induction false} GatherKind(root: Node, cs: seq<Node>)
    ensures Gather(root, cs).kind == root.kind
  {
    if cs != [] {
      GatherKind(root, cs[..|cs| - 1]);
    }
  }

  /** The children that a gathering component ends up with */
  lemma {:induction false} GatherChildren(root: Node, cs: seq<Node>)
    ensures var g := Gather(root, cs);
            && g.kind == root.kind && g.entries == root.entries
            && g.children == Reverse(Zones(cs)) + root.children + Others(cs)
    decreases |cs|
  {
    hide Pick, Reverse;
    if cs == [] {
      NothingPicked(root.children);
    } else {
      var n := |cs| - 1;
      var front, c := cs[..n], cs[n];
      assert cs == front + [c];
      GatherChildren(root, front);
      PickConcat(front, [c], true);
      PickConcat(front, [c], false);
      PickOne(c, true);
      PickOne(c, false);
      if IsZone(c) {
        ReverseAppend(Zones(front), c);
        assert Zones(front) + [c] == Zones(cs) && Others(front) + [] == Others(front);
        assert [c] + (Reverse(Zones(front)) + root.children + Others(front)) ==
               [c] + Reverse(Zones(front)) + root.children + Others(front);
      } else {
        assert Zones(front) + [] == Zones(front);
        ConcatAssoc(Reverse(Zones(front)) + root.children, Others(front), [c]);
      }
    }
  }

  lemma NothingPicked(cs: seq<Node>)
    ensures Reverse(Zones([])) + cs + Others([]) == cs
  {
  }

  lemma {:induction false} GatherEverything(root: Node, cs: seq<Node>)
    ensures Everything([Gather(root, cs)]) == Everything([root]) + Everything(cs)
    decreases |cs|
  {
    hide Everything, AddChild;
    if cs == [] {
      EverythingEmpty();
    } else {
      var n := |cs| - 1;
      assert cs == cs[..n] + [cs[n]];
      GatherEverything(root, cs[..n]);
      EverythingChild(Gather(root, cs[..n]), cs[n]);
      EverythingConcat(cs[..n], [cs[n]]);
    }
  }

  // ------------------------------------------------------------------------------------
  // The root

  lemma GatherTwo(a: Node, b: Node)
    ensures Gather(Node(XRoot, [], []), [a, b]) == AddChild(AddChild(Node(XRoot, [], []), a), b)
  {
    var root := Node(XRoot, [], []);
    assert [a, b][..1] == [a] && [a][..0] == [];
    assert Gather(root, []) == root;
    assert Gather(root, [a]) == AddChild(root, a);
  }

  /** The container holds all components, VTIMEZONEs last to first and then the others in order */
  lemma RootedWhole(cs: seq<Node>)
    ensures Rooted(cs).None? <==> cs == []
    ensures |cs| == 1 ==> Rooted(cs) == Some(cs[0])
    ensures |cs| >= 2 ==> Rooted(cs) == Some(Node(XRoot, [], Reverse(Zones(cs)) + Others(cs)))
    ensures Rooted(cs).Some? ==> Everything([Rooted(cs).value]) == Everything(cs)
  {
    hide Gather, Everything, Reverse, Zones, Others;
    var root := Node(XRoot, [], []);
    GatherChildren(root, cs);
    assert Reverse(Zones(cs)) + [] == Reverse(Zones(cs));
    GatherEverything(root, cs);
    EverythingOne(root);
    EverythingEmpty();
    if |cs| == 1 {
      assert cs == [cs[0]];
    }
  }
}
