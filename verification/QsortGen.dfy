/**
  `qsort_gen`: a quicksort that sees its list only through a comparison and a swap of
  positions, with an explicit stack of 64 words.
 */
module QsortGen {

  /** Below this many elements insertion sort takes over */
  const T: nat := 7
  const STACKSIZE: nat := 64

  function Swap<E>(a: seq<E>, i: nat, j: nat): (b: seq<E>)
    requires i < |a| && j < |a|
    ensures |b| == |a|
  {
    a[i := a[j]][j := a[i]]
  }

  /** `cmp` orders the elements of the list by their ranks */
  ghost predicate OrdersBy<E>(cmp: (E, E) -> int, rank: E -> int, a: seq<E>) {
    forall x, y :: x in a && y in a ==>
      (cmp(x, y) < 0 <==> rank(x) < rank(y)) && (cmp(x, y) > 0 <==> rank(x) > rank(y))
  }

  /** `b` is `a` with the part from `lo` to `hi` rearranged */
  ghost predicate Rearranged<E>(a: seq<E>, b: seq<E>, lo: int, hi: int) {
    && 0 <= lo <= hi <= |a| == |b|
    && a[..lo] == b[..lo] && a[hi..] == b[hi..]
    && multiset(a[lo..hi]) == multiset(b[lo..hi])
  }

  lemma SwapRearranges<E>(a: seq<E>, lo: int, hi: int, i: nat, j: nat)
    requires 0 <= lo <= i < hi <= |a| && lo <= j < hi
    ensures Rearranged(a, Swap(a, i, j), lo, hi)
  {
    var b := Swap(a, i, j);
    var s, t := a[lo..hi], b[lo..hi];
    assert t == s[i - lo := s[j - lo]][j - lo := s[i - lo]];
  }

  lemma RearrangedSelf<E>(a: seq<E>, lo: int, hi: int)
    requires 0 <= lo <= hi <= |a|
    ensures Rearranged(a, a, lo, hi)
  {
  }

  lemma RearrangedTwice<E>(a: seq<E>, b: seq<E>, c: seq<E>, lo: int, hi: int)
    requires Rearranged(a, b, lo, hi) && Rearranged(b, c, lo, hi)
    ensures Rearranged(a, c, lo, hi)
  {
  }

  /** Every element of the rearranged part was there before */
  lemma FromWhere<E>(a: seq<E>, b: seq<E>, lo: int, hi: int, q: int) returns (p: int)
    requires Rearranged(a, b, lo, hi) && 0 <= q < |a|
    ensures 0 <= p < |a| && a[p] == b[q]
    ensures if lo <= q < hi then lo <= p < hi else p == q
  {
    if lo <= q < hi {
      assert b[q] == b[lo..hi][q - lo];
      assert b[q] in multiset(a[lo..hi]);
      var k :| 0 <= k < hi - lo && a[lo..hi][k] == b[q];
      p := lo + k;
    } else {
      p := q;
      if q < lo {
        assert a[..lo][q] == b[..lo][q];
      } else {
        assert a[hi..][q - hi] == b[hi..][q - hi];
      }
    }
  }

  lemma RearrangedAll<E>(a: seq<E>, b: seq<E>, lo: int, hi: int)
    requires Rearranged(a, b, lo, hi)
    ensures multiset(a) == multiset(b)
    ensures forall x :: x in b ==> x in a
  {
    assert a == a[..lo] + a[lo..hi] + a[hi..];
    assert b == b[..lo] + b[lo..hi] + b[hi..];
    forall x | x in b ensures x in a {
      assert x in multiset(b);
    }
  }

  lemma Compared<E>(cmp: (E, E) -> int, rank: E -> int, a: seq<E>, i: nat, j: nat)
    requires OrdersBy(cmp, rank, a) && i < |a| && j < |a|
    ensures cmp(a[i], a[j]) > 0 <==> rank(a[i]) > rank(a[j])
    ensures cmp(a[i], a[j]) < 0 <==> rank(a[i]) < rank(a[j])
  {
  }

  lemma OrderKept<E>(cmp: (E, E) -> int, rank: E -> int, a: seq<E>, b: seq<E>, lo: int, hi: int)
    requires OrdersBy(cmp, rank, a) && Rearranged(a, b, lo, hi)
    ensures OrdersBy(cmp, rank, b)
  {
    RearrangedAll(a, b, lo, hi);
  }

  // ------------------------------------------------------------------------------------
  // Partition

  /** The scan from the left: stops at the first element that is not below the pivot */
  method ScanRight<E>(a: seq<E>, cmp: (E, E) -> int, ghost rank: E -> int, base: nat, start: nat, ghost stop: nat)
    returns (i: nat)
    requires OrdersBy(cmp, rank, a) && base < |a| && start < stop < |a| && rank(a[stop]) >= rank(a[base])
    ensures start < i <= stop
    ensures rank(a[i]) >= rank(a[base])
    ensures forall k :: start < k < i ==> rank(a[k]) < rank(a[base])
  {
    i := start + 1;
    while cmp(a[i], a[base]) < 0
      invariant start < i <= stop
      invariant forall k :: start < k < i ==> rank(a[k]) < rank(a[base])
      decreases stop - i
    {
      i := i + 1;
    }
  }

  /** The scan from the right: stops at the first element that is not above the pivot */
  method ScanLeft<E>(a: seq<E>, cmp: (E, E) -> int, ghost rank: E -> int, base: nat, start: nat, ghost stop: nat)
    returns (j: nat)
    requires OrdersBy(cmp, rank, a) && base < |a| && stop < start < |a| && rank(a[stop]) <= rank(a[base])
    ensures stop <= j < start
    ensures rank(a[j]) <= rank(a[base])
    ensures forall k :: j < k < start ==> rank(a[k]) > rank(a[base])
  {
    j := start - 1;
    while cmp(a[j], a[base]) > 0
      invariant stop <= j < start
      invariant forall k :: j < k < start ==> rank(a[k]) > rank(a[base])
      decreases j
    {
      j := j - 1;
    }
  }

  /** The median of three elements goes to the front, the other two become sentinels */
  method MedianToFront<E>(list: seq<E>, cmp: (E, E) -> int, ghost rank: E -> int, base: nat, limit: nat)
    returns (a: seq<E>)
    requires OrdersBy(cmp, rank, list) && base + T < limit <= |list|
    ensures |a| == |list| && Rearranged(list, a, base, limit)
    ensures rank(a[base + 1]) <= rank(a[base]) <= rank(a[limit - 1])
  {
    hide Rearranged, OrdersBy, Swap;
    var i, j := base + 1, limit - 1;
    var mid := (limit - base) / 2 + base;
    RearrangedSelf(list, base, limit);
    a := SwapStep(list, list, cmp, rank, base, limit, mid, base);
    a := OrderPair(list, a, cmp, rank, base, limit, i, j, base);
    a := OrderPair(list, a, cmp, rank, base, limit, base, j, i);
    a := OrderPair(list, a, cmp, rank, base, limit, i, base, j);
  }

  /** Swaps two elements when they are out of order; a third one stays */
  method OrderPair<E>(ghost list: seq<E>, a: seq<E>, cmp: (E, E) -> int, ghost rank: E -> int,
                      ghost base: nat, ghost limit: nat, i: nat, j: nat, ghost k: nat)
    returns (b: seq<E>)
    requires OrdersBy(cmp, rank, list) && Rearranged(list, a, base, limit) && OrdersBy(cmp, rank, a)
    requires base <= i < limit <= |a| == |list| && base <= j < limit && i != j
    requires k < |a| && k != i && k != j
    ensures |b| == |list| && Rearranged(list, b, base, limit) && OrdersBy(cmp, rank, b)
    ensures rank(b[k]) == rank(a[k])
    ensures rank(b[i]) <= rank(b[j])
    ensures (rank(b[i]) == rank(a[i]) && rank(b[j]) == rank(a[j])) ||
            (rank(b[i]) == rank(a[j]) && rank(b[j]) == rank(a[i]))
  {
    hide Rearranged, OrdersBy;
    Compared(cmp, rank, a, i, j);
    b := a;
    if cmp(a[i], a[j]) > 0 {
      b := SwapStep(list, a, cmp, rank, base, limit, i, j);
    }
  }

  /** A swap inside the part that is being rearranged */
  method SwapStep<E>(ghost list: seq<E>, a: seq<E>, ghost cmp: (E, E) -> int, ghost rank: E -> int,
                     ghost base: nat, ghost limit: nat, i: nat, j: nat)
    returns (b: seq<E>)
    requires OrdersBy(cmp, rank, list) && Rearranged(list, a, base, limit)
    requires base <= i < limit <= |a| == |list| && base <= j < limit
    ensures |b| == |list| && b == Swap(a, i, j) && Rearranged(list, b, base, limit) && OrdersBy(cmp, rank, b)
  {
    b := Swap(a, i, j);
    SwapRearranges(a, base, limit, i, j);
    RearrangedTwice(list, a, b, base, limit);
    OrderKept(cmp, rank, list, b, base, limit);
  }

  /** Nothing up to `j` is above, nothing from `i` on is below what lies between them */
  ghost predicate Partitioned<E>(rank: E -> int, a: seq<E>, base: int, limit: int, i: int, j: int) {
    && 0 <= base < j < i < limit <= |a|
    && (forall k :: base <= k < i ==> rank(a[k]) <= rank(a[j]))
    && (forall k :: j <= k < limit ==> rank(a[k]) >= rank(a[j]))
  }

  method Partition<E>(list: seq<E>, cmp: (E, E) -> int, ghost rank: E -> int, base: nat, limit: nat)
    returns (a: seq<E>, i: nat, j: nat)
    requires OrdersBy(cmp, rank, list) && base + T < limit <= |list|
    ensures |a| == |list| && Rearranged(list, a, base, limit)
    ensures Partitioned(rank, a, base, limit, i, j)
  {
    hide Rearranged, OrdersBy;
    a := MedianToFront(list, cmp, rank, base, limit);
    OrderKept(cmp, rank, list, a, base, limit);
    i, j := base + 1, limit - 1;
    while true
      invariant base + 1 <= i < limit - 1 && base + 1 < j <= limit - 1 && |a| == |list|
      invariant Rearranged(list, a, base, limit) && OrdersBy(cmp, rank, a)
      invariant rank(a[base + 1]) <= rank(a[base]) <= rank(a[limit - 1])
      invariant forall k :: base < k <= i ==> rank(a[k]) <= rank(a[base])
      invariant forall k :: j <= k < limit ==> rank(a[k]) >= rank(a[base])
      decreases limit - i
    {
      i := ScanRight(a, cmp, rank, base, i, limit - 1);
      j := ScanLeft(a, cmp, rank, base, j, base + 1);
      if i > j {
        break;
      }
      a := SwapStep(list, a, cmp, rank, base, limit, i, j);
    }
    a := SwapStep(list, a, cmp, rank, base, limit, base, j);
  }

  // ------------------------------------------------------------------------------------
  // Insertion sort

  ghost predicate SortedPart<E>(rank: E -> int, a: seq<E>, lo: int, hi: int) {
    && 0 <= lo && hi <= |a|
    && forall p, q :: lo <= p < q < hi ==> rank(a[p]) <= rank(a[q])
  }

  /** Sorted up to `hi`, except that the element at `at` may still have to move left */
  ghost predicate SortedBut<E>(rank: E -> int, a: seq<E>, lo: int, hi: int, at: int) {
    && 0 <= lo <= at < hi <= |a|
    && (forall p, q :: lo <= p < q < hi && p != at && q != at ==> rank(a[p]) <= rank(a[q]))
    && (forall q :: at < q < hi ==> rank(a[at]) <= rank(a[q]))
  }

  /** The inner loop: the element at `from + 1` moves left to its place */
  method Insert<E>(list: seq<E>, cmp: (E, E) -> int, ghost rank: E -> int, base: nat, ghost limit: nat, from: nat)
    returns (a: seq<E>)
    requires OrdersBy(cmp, rank, list) && base <= from && from + 1 < limit <= |list|
    requires SortedPart(rank, list, base, from + 1)
    ensures |a| == |list| && Rearranged(list, a, base, limit)
    ensures SortedPart(rank, a, base, from + 2)
  {
    hide Rearranged, OrdersBy, SortedBut, SortedPart, Swap;
    RearrangedSelf(list, base, limit);
    StartInsert(rank, list, base, from);
    a := list;
    var j := from;
    var more := true;
    Compared(cmp, rank, a, j, j + 1);
    while more && cmp(a[j], a[j + 1]) > 0
      invariant base <= j <= from && |a| == |list|
      invariant Rearranged(list, a, base, limit) && OrdersBy(cmp, rank, a)
      invariant more ==> SortedBut(rank, a, base, from + 2, j + 1)
      invariant !more ==> SortedPart(rank, a, base, from + 2)
      invariant more ==> (cmp(a[j], a[j + 1]) > 0 <==> rank(a[j]) > rank(a[j + 1]))
      decreases more, j
    {
      MoveLeft(rank, a, base, from + 2, j);
      a := SwapStep(list, a, cmp, rank, base, limit, j, j + 1);
      if j == base {
        more := false;
      } else {
        j := j - 1;
        Compared(cmp, rank, a, j, j + 1);
      }
    }
    if more {
      InPlace(rank, a, base, from + 2, j);
    }
  }

  lemma StartInsert<E>(rank: E -> int, a: seq<E>, lo: int, from: nat)
    requires lo <= from && from + 1 < |a| && SortedPart(rank, a, lo, from + 1)
    ensures SortedBut(rank, a, lo, from + 2, from + 1)
  {
  }

  lemma MoveLeft<E>(rank: E -> int, a: seq<E>, lo: int, hi: int, j: nat)
    requires lo <= j && SortedBut(rank, a, lo, hi, j + 1) && rank(a[j]) > rank(a[j + 1])
    ensures SortedBut(rank, Swap(a, j, j + 1), lo, hi, j)
    ensures j == lo ==> SortedPart(rank, Swap(a, j, j + 1), lo, hi)
  {
  }

  lemma InPlace<E>(rank: E -> int, a: seq<E>, lo: int, hi: int, j: nat)
    requires lo <= j && SortedBut(rank, a, lo, hi, j + 1) && rank(a[j]) <= rank(a[j + 1])
    ensures SortedPart(rank, a, lo, hi)
  {
    forall p, q | lo <= p < q < hi ensures rank(a[p]) <= rank(a[q]) {
      if q == j + 1 && p < j {
        assert rank(a[p]) <= rank(a[j]);
      }
    }
  }

  method InsertionSort<E>(list: seq<E>, cmp: (E, E) -> int, ghost rank: E -> int, base: nat, limit: nat)
    returns (a: seq<E>)
    requires OrdersBy(cmp, rank, list) && base <= limit <= |list|
    ensures |a| == |list| && Rearranged(list, a, base, limit)
    ensures SortedPart(rank, a, base, limit)
  {
    hide Rearranged, OrdersBy;
    RearrangedSelf(list, base, limit);
    a := list;
    var i := base + 1;
    while i < limit
      invariant base < i && |a| == |list|
      invariant Rearranged(list, a, base, limit) && OrdersBy(cmp, rank, a)
      invariant SortedPart(rank, a, base, if i <= limit then i else limit)
    {
      var b := Insert(a, cmp, rank, base, limit, i - 1);
      RearrangedTwice(list, a, b, base, limit);
      OrderKept(cmp, rank, list, b, base, limit);
      a := b;
      i := i + 1;
    }
  }

  // ------------------------------------------------------------------------------------
  // The stack of pending parts

  /** A part of the list that is still to be sorted: from `0` inclusive to `1` exclusive */
  type Part = (nat, nat)

  /** Nothing before `c` ranks above anything from `c` on */
  ghost predicate Cut<E>(rank: E -> int, a: seq<E>, c: int) {
    0 <= c <= |a| && forall p, q :: 0 <= p < c <= q < |a| ==> rank(a[p]) <= rank(a[q])
  }

  ghost predicate Inside(parts: seq<Part>, c: int) {
    exists k :: 0 <= k < |parts| && parts[k].0 < c < parts[k].1
  }

  /** The list is sorted but for the pending parts, which do not overlap */
  ghost predicate Pending<E>(rank: E -> int, a: seq<E>, parts: seq<Part>) {
    && (forall k :: 0 <= k < |parts| ==> parts[k].0 <= parts[k].1 <= |a|)
    && (forall k :: 0 <= k < |parts| ==> Cut(rank, a, parts[k].0) && Cut(rank, a, parts[k].1))
    && (forall k, l :: 0 <= k < l < |parts| ==> parts[k].1 <= parts[l].0 || parts[l].1 <= parts[k].0)
    && (forall c :: 0 <= c <= |a| ==> Cut(rank, a, c) || Inside(parts, c))
  }

  lemma CutKept<E>(rank: E -> int, a: seq<E>, b: seq<E>, lo: int, hi: int, c: int)
    requires Rearranged(a, b, lo, hi) && Cut(rank, a, c) && (c <= lo || hi <= c)
    ensures Cut(rank, b, c)
  {
    forall p, q | 0 <= p < c <= q < |b| ensures rank(b[p]) <= rank(b[q]) {
      var p' := FromWhere(a, b, lo, hi, p);
      var q' := FromWhere(a, b, lo, hi, q);
    }
  }

  /** Cuts inside a part whose elements are separated there */
  lemma CutInside<E>(rank: E -> int, b: seq<E>, lo: int, hi: int, c: int)
    requires lo <= c <= hi && Cut(rank, b, lo) && Cut(rank, b, hi)
    requires forall p, q :: lo <= p < c <= q < hi ==> rank(b[p]) <= rank(b[q])
    ensures Cut(rank, b, c)
  {
    forall p, q | 0 <= p < c <= q < |b| ensures rank(b[p]) <= rank(b[q]) {
      if p < lo || q >= hi {
      }
    }
  }

  /** The last part has been rearranged and is replaced by parts of itself; the gaps are cuts */
  lemma ReplaceLast<E>(rank: E -> int, a: seq<E>, b: seq<E>, rest: seq<Part>, lo: nat, hi: nat, sub: seq<Part>)
    requires Pending(rank, a, rest + [(lo, hi)]) && Rearranged(a, b, lo, hi)
    requires |sub| <= 2 && forall k :: 0 <= k < |sub| ==> lo <= sub[k].0 <= sub[k].1 <= hi
    requires |sub| == 2 ==> sub[0].1 <= sub[1].0 || sub[1].1 <= sub[0].0
    requires forall k :: 0 <= k < |sub| ==> Cut(rank, b, sub[k].0) && Cut(rank, b, sub[k].1)
    requires forall c :: lo < c < hi ==> Cut(rank, b, c) || Inside(sub, c)
    ensures Pending(rank, b, rest + sub)
  {
    hide Rearranged, Cut, Inside;
    var was, parts := rest + [(lo, hi)], rest + sub;
    assert |a| == |b| by { SameLength(a, b, lo, hi); }
    assert was[|rest|] == (lo, hi);
    forall k | 0 <= k < |rest| ensures Cut(rank, b, rest[k].0) && Cut(rank, b, rest[k].1) && rest[k] == was[k] {
      assert was[k].1 <= was[|rest|].0 || was[|rest|].1 <= was[k].0;
      CutKept(rank, a, b, lo, hi, rest[k].0);
      CutKept(rank, a, b, lo, hi, rest[k].1);
    }
    forall c | 0 <= c <= |b| ensures Cut(rank, b, c) || Inside(parts, c) {
      if lo < c < hi {
        InsideMore(rest, sub, c);
      } else if Cut(rank, a, c) {
        CutKept(rank, a, b, lo, hi, c);
      } else {
        InsideRest(rest, lo, hi, c);
        InsideMore(rest, sub, c);
      }
    }
  }

  lemma SameLength<E>(a: seq<E>, b: seq<E>, lo: int, hi: int)
    requires Rearranged(a, b, lo, hi)
    ensures |a| == |b|
  {
  }

  lemma InsideMore(rest: seq<Part>, sub: seq<Part>, c: int)
    ensures Inside(rest, c) || Inside(sub, c) ==> Inside(rest + sub, c)
  {
    if Inside(rest, c) {
      var k :| 0 <= k < |rest| && rest[k].0 < c < rest[k].1;
      assert (rest + sub)[k] == rest[k];
    } else if Inside(sub, c) {
      var k :| 0 <= k < |sub| && sub[k].0 < c < sub[k].1;
      assert (rest + sub)[|rest| + k] == sub[k];
    }
  }

  lemma InsideRest(rest: seq<Part>, lo: nat, hi: nat, c: int)
    requires Inside(rest + [(lo, hi)], c) && !(lo < c < hi)
    ensures Inside(rest, c)
  {
    var parts := rest + [(lo, hi)];
    var k :| 0 <= k < |parts| && parts[k].0 < c < parts[k].1;
    assert k < |rest|;
    assert rest[k] == parts[k];
  }

  /** Sorting a part of few elements closes it */
  lemma CloseLast<E>(rank: E -> int, a: seq<E>, b: seq<E>, rest: seq<Part>, lo: nat, hi: nat)
    requires Pending(rank, a, rest + [(lo, hi)]) && Rearranged(a, b, lo, hi) && SortedPart(rank, b, lo, hi)
    ensures Pending(rank, b, rest)
  {
    hide Rearranged;
    EndsOfLast(rank, a, b, rest, lo, hi);
    forall c | lo < c < hi ensures Cut(rank, b, c) || Inside([], c) {
      CutInside(rank, b, lo, hi, c);
    }
    ReplaceLast(rank, a, b, rest, lo, hi, []);
    assert rest + [] == rest;
  }

  lemma EndsOfLast<E>(rank: E -> int, a: seq<E>, b: seq<E>, rest: seq<Part>, lo: nat, hi: nat)
    requires Pending(rank, a, rest + [(lo, hi)]) && Rearranged(a, b, lo, hi)
    ensures lo <= hi <= |a| == |b| && Cut(rank, b, lo) && Cut(rank, b, hi)
  {
    hide Cut;
    var parts := rest + [(lo, hi)];
    assert parts[|rest|] == (lo, hi);
    CutKept(rank, a, b, lo, hi, lo);
    CutKept(rank, a, b, lo, hi, hi);
  }

  /** Partitioning a part splits it in two */
  lemma SplitLast<E>(rank: E -> int, a: seq<E>, b: seq<E>, rest: seq<Part>, lo: nat, hi: nat, i: nat, j: nat)
    requires Pending(rank, a, rest + [(lo, hi)]) && Rearranged(a, b, lo, hi) && Partitioned(rank, b, lo, hi, i, j)
    ensures Pending(rank, b, rest + [(lo, j), (i, hi)]) && Pending(rank, b, rest + [(i, hi), (lo, j)])
  {
    hide Rearranged, Pending;
    EndsOfLast(rank, a, b, rest, lo, hi);
    forall c | j <= c <= i ensures Cut(rank, b, c) {
      forall p, q | lo <= p < c <= q < hi ensures rank(b[p]) <= rank(b[q]) {
        assert rank(b[p]) <= rank(b[j]) <= rank(b[q]);
      }
      CutInside(rank, b, lo, hi, c);
    }
    var parts, turned := [(lo, j), (i, hi)], [(i, hi), (lo, j)];
    forall c | lo < c < hi ensures Cut(rank, b, c) || (Inside(parts, c) && Inside(turned, c)) {
      if c < j {
        assert parts[0].0 < c < parts[0].1 && turned[1].0 < c < turned[1].1;
      } else if c > i {
        assert parts[1].0 < c < parts[1].1 && turned[0].0 < c < turned[0].1;
      }
    }
    ReplaceLast(rank, a, b, rest, lo, hi, parts);
    ReplaceLast(rank, a, b, rest, lo, hi, turned);
  }

  // ------------------------------------------------------------------------------------
  // Depth of the stack

  function Power2(k: nat): nat {
    if k == 0 then 1 else 2 * Power2(k - 1)
  }

  /** The parts halve in size as the stack grows */
  ghost predicate Halving(parts: seq<Part>, n: nat) {
    forall k :: 0 <= k < |parts| ==> parts[k].0 <= parts[k].1 && (parts[k].1 - parts[k].0) * Power2(k) <= n
  }

  lemma HalvingPush(rest: seq<Part>, lo: nat, hi: nat, n: nat, larger: Part, smaller: Part)
    requires Halving(rest + [(lo, hi)], n)
    requires larger.0 <= larger.1 && larger.1 - larger.0 <= hi - lo
    requires smaller.0 <= smaller.1 && 2 * (smaller.1 - smaller.0) <= hi - lo
    ensures Halving(rest + [larger, smaller], n)
  {
    var was, parts := rest + [(lo, hi)], rest + [larger, smaller];
    var d := |rest|;
    assert was[d] == (lo, hi);
    forall k | 0 <= k < |parts| ensures parts[k].0 <= parts[k].1 && (parts[k].1 - parts[k].0) * Power2(k) <= n {
      if k < d {
        assert parts[k] == was[k];
      } else if k == d {
        MulMonotone(larger.1 - larger.0, hi - lo, Power2(d));
      } else {
        MulMonotone(2 * (smaller.1 - smaller.0), hi - lo, Power2(d));
        MulTwice(smaller.1 - smaller.0, Power2(d));
      }
    }
  }

  lemma MulMonotone(x: nat, y: nat, f: nat)
    requires x <= y
    ensures x * f <= y * f
  {
  }

  lemma MulTwice(x: nat, f: nat)
    ensures x * (2 * f) == 2 * x * f
  {
  }

  lemma {:induction false} Power2Monotone(i: nat, j: nat)
    requires i <= j
    ensures Power2(i) <= Power2(j)
    decreases j
  {
    if i < j {
      Power2Monotone(i, j - 1);
    }
  }

  /** A part that is large enough to be split lies at a depth below 32 when the list has less than 2^35 elements */
  lemma DepthBound(parts: seq<Part>, n: nat)
    requires parts != [] && Halving(parts, n) && n < Power2(35)
    requires parts[|parts| - 1].1 - parts[|parts| - 1].0 > T
    ensures 2 * |parts| <= STACKSIZE
  {
    hide Power2, Halving;
    var d := |parts| - 1;
    var size := parts[d].1 - parts[d].0;
    LastHalves(parts, n);
    MulMonotone(8, size, Power2(d));
    EightTimes(d);
    if d >= 32 {
      Power2Monotone(35, d + 3);
    }
  }

  lemma LastHalves(parts: seq<Part>, n: nat)
    requires parts != [] && Halving(parts, n)
    ensures var d := |parts| - 1; (parts[d].1 - parts[d].0) * Power2(d) <= n
  {
    hide Power2;
  }

  lemma EightTimes(d: nat)
    ensures Power2(d + 3) == 8 * Power2(d)
  {
    assert Power2(d + 1) == 2 * Power2(d);
    assert Power2(d + 2) == 2 * Power2(d + 1);
  }

  function Size(p: Part): nat {
    if p.0 <= p.1 then p.1 - p.0 else 0
  }

  /** The measure by which the loop terminates */
  function Weight(parts: seq<Part>): nat {
    if parts == [] then 0 else Weight(parts[..|parts| - 1]) + 2 * Size(parts[|parts| - 1]) + 1
  }

  lemma WeightLast(rest: seq<Part>, p: Part)
    ensures Weight(rest + [p]) == Weight(rest) + 2 * Size(p) + 1
  {
    assert (rest + [p])[..|rest|] == rest;
  }

  // ------------------------------------------------------------------------------------
  // The sort

  /**
    `qsort_gen`: sorts the list by the given comparison.  The explicit stack never holds more
    than its 64 words as long as the list has less than 2^35 elements.
   */
  method Sort<E>(list: seq<E>, cmp: (E, E) -> int, ghost rank: E -> int) returns (a: seq<E>)
    requires OrdersBy(cmp, rank, list) && |list| < Power2(35)
    ensures multiset(a) == multiset(list)
    ensures SortedPart(rank, a, 0, |a|)
  {
    hide OrdersBy, Pending, Halving, Power2, Rearranged, Partitioned, Weight;
    a := list;
    var base: nat, limit: nat := 0, |list|;
    var stack: seq<Part> := [];
    Start(rank, list);
    var done := false;
    while !done
      invariant |a| == |list| && multiset(a) == multiset(list) && OrdersBy(cmp, rank, a)
      invariant done ==> Pending(rank, a, [])
      invariant !done ==> base <= limit <= |a| && Pending(rank, a, stack + [(base, limit)])
      invariant !done ==> Halving(stack + [(base, limit)], |list|)
      invariant 2 * |stack| <= STACKSIZE
      decreases !done, Weight(stack + [(base, limit)])
    {
      ghost var rest, lo: nat, hi: nat := stack, base, limit;
      if limit - base > T {
        DepthBound(stack + [(base, limit)], |list|);
        var b, i, j := Partition(a, cmp, rank, base, limit);
        Shrinks(rank, b, base, limit, i, j);
        SplitLast(rank, a, b, rest, base, limit, i, j);
        RearrangedAll(a, b, base, limit);
        OrderKept(cmp, rank, a, b, base, limit);
        a := b;
        if j - base > limit - i {
          stack, base := stack + [(base, j)], i;
        } else {
          stack, limit := stack + [(i, limit)], j;
        }
        assert stack + [(base, limit)] == rest + [stack[|rest|], (base, limit)];
        HalvingPush(rest, lo, hi, |list|, stack[|rest|], (base, limit));
        SplitWeighs(rest, lo, hi, stack, (base, limit));
      } else {
        var b := InsertionSort(a, cmp, rank, base, limit);
        CloseLast(rank, a, b, rest, base, limit);
        RearrangedAll(a, b, base, limit);
        OrderKept(cmp, rank, a, b, base, limit);
        a := b;
        if stack != [] {
          var top := stack[|stack| - 1];
          stack := stack[..|stack| - 1];
          base, limit := top.0, top.1;
          assert rest == stack + [(base, limit)];
          PendingBounds(rank, a, stack, base, limit);
          HalvingPop(rest, lo, hi, |list|);
          WeightLast(rest, (lo, hi));
        } else {
          done := true;
        }
      }
    }
    Finished(rank, a);
  }

  lemma Start<E>(rank: E -> int, a: seq<E>)
    ensures Pending(rank, a, [] + [(0, |a|)]) && Halving([] + [(0, |a|)], |a|)
  {
    var parts: seq<Part> := [] + [(0, |a|)];
    forall c | 0 <= c <= |a| ensures Cut(rank, a, c) || Inside(parts, c) {
      if 0 < c < |a| {
        assert parts[0].0 < c < parts[0].1;
      }
    }
    assert Power2(0) == 1;
  }

  lemma Shrinks<E>(rank: E -> int, b: seq<E>, lo: nat, hi: nat, i: nat, j: nat)
    requires Partitioned(rank, b, lo, hi, i, j)
    ensures lo < j < i < hi <= |b|
  {
  }

  lemma SplitWeighs(rest: seq<Part>, lo: nat, hi: nat, stack: seq<Part>, last: Part)
    requires |stack| == |rest| + 1 && stack[..|rest|] == rest
    requires var p := stack[|rest|];
             p.0 <= p.1 && last.0 <= last.1 && (p.1 - p.0) + (last.1 - last.0) < hi - lo
    ensures Weight(stack + [last]) < Weight(rest + [(lo, hi)])
  {
    hide Weight;
    WeightLast(stack, last);
    assert stack == rest + [stack[|rest|]];
    WeightLast(rest, stack[|rest|]);
    WeightLast(rest, (lo, hi));
  }

  lemma PendingBounds<E>(rank: E -> int, a: seq<E>, rest: seq<Part>, lo: nat, hi: nat)
    requires Pending(rank, a, rest + [(lo, hi)])
    ensures lo <= hi <= |a|
  {
    assert (rest + [(lo, hi)])[|rest|] == (lo, hi);
  }

  lemma HalvingPop(rest: seq<Part>, lo: nat, hi: nat, n: nat)
    requires Halving(rest + [(lo, hi)], n)
    ensures Halving(rest, n) && lo <= hi
  {
    var parts := rest + [(lo, hi)];
    assert parts[|rest|] == (lo, hi);
    assert forall k :: 0 <= k < |rest| ==> parts[k] == rest[k];
  }

  lemma Finished<E>(rank: E -> int, a: seq<E>)
    requires Pending(rank, a, [])
    ensures SortedPart(rank, a, 0, |a|)
  {
    forall p, q | 0 <= p < q < |a| ensures rank(a[p]) <= rank(a[q]) {
      assert Cut(rank, a, q) || Inside([], q);
    }
  }
}
