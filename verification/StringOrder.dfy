/** `strcmp`, and ranks that turn its order into an order of numbers. */
module StringOrder {

  /** `strcmp`: the sign tells the order of the first octets that differ */
  function StrCmp(a: string, b: string): int {
    if a == [] && b == [] then 0
    else if a == [] then -1
    else if b == [] then 1
    else if a[0] != b[0] then (if a[0] < b[0] then -1 else 1)
    else StrCmp(a[1..], b[1..])
  }

  lemma {:induction false} Antisymmetric(a: string, b: string)
    ensures StrCmp(a, b) == -StrCmp(b, a)
    ensures StrCmp(a, b) == 0 <==> a == b
    decreases |a|
  {
    if a != [] && b != [] && a[0] == b[0] {
      Antisymmetric(a[1..], b[1..]);
      assert a == [a[0]] + a[1..] && b == [b[0]] + b[1..];
    }
  }

  /** The first octets that differ decide */
  lemma {:induction false} FirstDifference(p: string, x: char, y: char, s: string, t: string)
    requires x < y
    ensures StrCmp(p + [x] + s, p + [y] + t) < 0
    decreases |p|
  {
    if p == [] {
      assert p + [x] + s == [x] + s && p + [y] + t == [y] + t;
    } else {
      FirstDifference(p[1..], x, y, s, t);
      assert (p + [x] + s)[1..] == p[1..] + [x] + s && (p + [y] + t)[1..] == p[1..] + [y] + t;
    }
  }

  /** Without a difference, the shorter string comes first */
  lemma {:induction false} ShorterFirst(a: string, b: string)
    requires a < b
    ensures StrCmp(a, b) < 0
    decreases |a|
  {
    if a != [] {
      ShorterFirst(a[1..], b[1..]);
    }
  }

  lemma {:induction false} Transitive(a: string, b: string, c: string)
    requires StrCmp(a, b) <= 0 && StrCmp(b, c) <= 0
    ensures StrCmp(a, c) <= 0
    ensures StrCmp(a, b) < 0 || StrCmp(b, c) < 0 ==> StrCmp(a, c) < 0
    decreases |a|
  {
    if a != [] && b != [] && c != [] && a[0] == b[0] == c[0] {
      Transitive(a[1..], b[1..], c[1..]);
    }
  }

  /** How many of the keys come before `x` */
  function Rank(keys: seq<string>, x: string): nat {
    if keys == [] then 0 else (if StrCmp(keys[0], x) < 0 then 1 else 0) + Rank(keys[1..], x)
  }

  lemma {:induction false} RankMonotone(keys: seq<string>, x: string, y: string)
    requires StrCmp(x, y) <= 0
    ensures Rank(keys, x) <= Rank(keys, y)
    ensures x in keys && StrCmp(x, y) < 0 ==> Rank(keys, x) < Rank(keys, y)
  {
    if keys != [] {
      RankMonotone(keys[1..], x, y);
      if StrCmp(keys[0], x) <= 0 {
        Transitive(keys[0], x, y);
      }
      Antisymmetric(x, x);
    }
  }

  /** On its own keys the rank says what `strcmp` says */
  lemma RankOrders(keys: seq<string>, x: string, y: string)
    requires x in keys && y in keys
    ensures StrCmp(x, y) < 0 <==> Rank(keys, x) < Rank(keys, y)
    ensures StrCmp(x, y) > 0 <==> Rank(keys, x) > Rank(keys, y)
  {
    hide StrCmp, Rank;
    Antisymmetric(x, y);
    if StrCmp(x, y) <= 0 {
      RankMonotone(keys, x, y);
    }
    if StrCmp(y, x) <= 0 {
      RankMonotone(keys, y, x);
    }
  }
}
