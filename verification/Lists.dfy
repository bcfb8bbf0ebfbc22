/** Lists without repetitions: a `pvl` list is the sequence of the items in its elements. */
module Lists {

  predicate NoDup<T(==)>(s: seq<T>) {
    forall i, j :: 0 <= i < j < |s| ==> s[i] != s[j]
  }

  function IndexOf<T(==)>(s: seq<T>, x: T): (i: nat)
    requires x in s
    ensures i < |s| && s[i] == x && x !in s[..i]
  {
    if s[0] == x then 0 else 1 + IndexOf(s[1..], x)
  }

  /** The list after `pvl_remove` of the element that holds `x` */
  function Without<T(==)>(s: seq<T>, x: T): seq<T> {
    if x in s then s[..IndexOf(s, x)] + s[IndexOf(s, x) + 1..] else s
  }

  lemma IndexUnique<T>(s: seq<T>, i: nat)
    requires NoDup(s) && i < |s|
    ensures IndexOf(s, s[i]) == i
  {
  }

  lemma WithoutMembers<T>(s: seq<T>, x: T)
    requires NoDup(s)
    ensures NoDup(Without(s, x))
    ensures forall y :: y in Without(s, x) <==> y in s && y != x
  {
    hide IndexOf;
    if x in s {
      var k := IndexOf(s, x);
      var r := Without(s, x);
      assert forall i :: 0 <= i < |r| ==> r[i] == if i < k then s[i] else s[i + 1];
      forall y | y in s && y != x ensures y in r {
        var i :| 0 <= i < |s| && s[i] == y;
        assert y == r[if i < k then i else i - 1];
      }
    }
  }

  lemma WithoutMiddle<T>(pre: seq<T>, x: T, post: seq<T>)
    requires NoDup(pre + [x] + post)
    ensures Without(pre + [x] + post, x) == pre + post
    ensures x !in pre && x !in post
  {
    var s := pre + [x] + post;
    assert s[|pre|] == x;
    IndexUnique(s, |pre|);
    assert s[..|pre|] == pre && s[|pre| + 1..] == post;
    assert forall i :: 0 <= i < |pre| ==> s[i] == pre[i];
    assert forall i :: 0 <= i < |post| ==> s[|pre| + 1 + i] == post[i];
  }

  /** What follows `x` in the list, or nothing: `pvl_next` */
  function After<T(==)>(s: seq<T>, x: T): seq<T>
    requires x in s
  {
    s[IndexOf(s, x) + 1..]
  }

  lemma AfterMiddle<T>(pre: seq<T>, x: T, post: seq<T>)
    requires NoDup(pre + [x] + post)
    ensures x in pre + [x] + post && After(pre + [x] + post, x) == post
  {
    var s := pre + [x] + post;
    assert s[|pre|] == x;
    IndexUnique(s, |pre|);
    assert s[|pre| + 1..] == post;
  }

  function Reverse<T>(s: seq<T>): (r: seq<T>)
    ensures |r| == |s|
  {
    if s == [] then [] else Reverse(s[1..]) + [s[0]]
  }

  lemma {:induction false} ReverseMembers<T>(s: seq<T>, x: T)
    ensures x in Reverse(s) <==> x in s
  {
    if s != [] {
      ReverseMembers(s[1..], x);
      assert s == [s[0]] + s[1..];
    }
  }

  lemma {:induction false} ReverseAppend<T>(s: seq<T>, x: T)
    ensures Reverse(s + [x]) == [x] + Reverse(s)
  {
    if s == [] {
      assert s + [x] == [x];
      assert [x][1..] == [];
    } else {
      ReverseAppend(s[1..], x);
      assert (s + [x])[1..] == s[1..] + [x];
    }
  }
}
