/** The growing array of `icalarray.c`, which keeps its elements in chunks of equal size. */
module IcalArray {
  import QsortGen

  // ------------------------------------------------------------------------------------
  // Places

  function Chunk(p: nat, increment: nat): nat
    requires increment > 0
  {
    p / increment
  }

  function Offset(p: nat, increment: nat): nat
    requires increment > 0
  {
    p % increment
  }

  function Space(chunks: nat, increment: nat): nat {
    chunks * increment
  }

  lemma PlaceOf(p: nat, increment: nat, chunks: nat)
    requires increment > 0 && p < Space(chunks, increment)
    ensures Chunk(p, increment) < chunks && Offset(p, increment) < increment
  {
    var q := p / increment;
    if q >= chunks {
      QsortGen.MulMonotone(chunks, q, increment);
    }
  }

  lemma PlacesDiffer(p: nat, q: nat, increment: nat)
    requires increment > 0 && p != q
    ensures Chunk(p, increment) != Chunk(q, increment) || Offset(p, increment) != Offset(q, increment)
  {
    assert p == (p / increment) * increment + p % increment;
    assert q == (q / increment) * increment + q % increment;
  }

  lemma DivideBack(chunks: nat, increment: nat)
    requires increment > 0
    ensures Space(chunks, increment) / increment == chunks
  {
    var r := (chunks * increment) / increment;
    assert r * increment + (chunks * increment) % increment == chunks * increment;
    if r < chunks {
      QsortGen.MulMonotone(r + 1, chunks, increment);
    } else if r > chunks {
      QsortGen.MulMonotone(chunks + 1, r, increment);
    }
  }

  /** The number of new chunks that `icalarray_expand` asks for is enough */
  lemma EnoughChunks(needed: nat, increment: nat, n: nat)
    requires increment > 0 && n > 0 && n >= (needed + increment - 1) / increment
    ensures Space(n, increment) >= needed && Space(n, increment) > 0
  {
    var q := (needed + increment - 1) / increment;
    assert q * increment + (needed + increment - 1) % increment == needed + increment - 1;
    QsortGen.MulMonotone(q, n, increment);
    QsortGen.MulMonotone(1, n, increment);
  }

  lemma SpaceAdds(a: nat, b: nat, increment: nat)
    ensures Space(a + b, increment) == Space(a, increment) + Space(b, increment)
  {
  }

  // ------------------------------------------------------------------------------------
  // A sequence in chunks

  ghost predicate At<T>(store: seq<seq<T>>, increment: nat, p: nat, x: T)
    requires increment > 0
  {
    && Chunk(p, increment) < |store| && Offset(p, increment) < |store[Chunk(p, increment)]|
    && store[Chunk(p, increment)][Offset(p, increment)] == x
  }

  /** The sequence is laid out in the chunks */
  ghost predicate LaidOut<T>(elements: seq<T>, store: seq<seq<T>>, increment: nat) {
    && increment > 0 && |elements| <= Space(|store|, increment)
    && (forall c :: 0 <= c < |store| ==> |store[c]| == increment)
    && forall p :: 0 <= p < |elements| ==> At(store, increment, p, elements[p])
  }

  function Put<T>(elements: seq<T>, p: nat, x: T): seq<T>
    requires p <= |elements|
  {
    if p == |elements| then elements + [x] else elements[p := x]
  }

  /** Storing one element: the others stay, because each position has its own place */
  lemma LaidOutPut<T>(elements: seq<T>, store: seq<seq<T>>, increment: nat, p: nat, x: T)
    requires LaidOut(elements, store, increment) && p <= |elements| && p < Space(|store|, increment)
    ensures Chunk(p, increment) < |store| && Offset(p, increment) < |store[Chunk(p, increment)]|
    ensures var c := Chunk(p, increment);
            LaidOut(Put(elements, p, x), store[c := store[c][Offset(p, increment) := x]], increment)
  {
    hide Chunk, Offset, Space;
    PlaceOf(p, increment, |store|);
    var c := Chunk(p, increment);
    var after := store[c := store[c][Offset(p, increment) := x]];
    var es := Put(elements, p, x);
    forall q | 0 <= q < |es| ensures At(after, increment, q, es[q]) {
      if q != p {
        assert At(store, increment, q, elements[q]);
        PlacesDiffer(p, q, increment);
      }
    }
  }

  lemma LaidOutMore<T>(elements: seq<T>, store: seq<seq<T>>, increment: nat, more: seq<seq<T>>)
    requires LaidOut(elements, store, increment) && forall c :: 0 <= c < |more| ==> |more[c]| == increment
    ensures LaidOut(elements, store + more, increment)
  {
    hide Chunk, Offset, Space;
    SpaceAdds(|store|, |more|, increment);
    forall q | 0 <= q < |elements| ensures At(store + more, increment, q, elements[q]) {
      assert At(store, increment, q, elements[q]);
    }
  }

  lemma LaidOutFewer<T>(elements: seq<T>, store: seq<seq<T>>, increment: nat)
    requires LaidOut(elements, store, increment) && elements != []
    ensures LaidOut(elements[..|elements| - 1], store, increment)
  {
    hide Chunk, Offset, Space;
    var fewer := elements[..|elements| - 1];
    forall q | 0 <= q < |fewer| ensures At(store, increment, q, fewer[q]) {
      assert At(store, increment, q, elements[q]);
    }
  }

  lemma LaidOutFacts<T>(elements: seq<T>, store: seq<seq<T>>, increment: nat)
    requires LaidOut(elements, store, increment)
    ensures increment > 0 && |elements| <= Space(|store|, increment)
    ensures forall c :: 0 <= c < |store| ==> |store[c]| == increment
  {
  }

  lemma LaidOutAt<T>(elements: seq<T>, store: seq<seq<T>>, increment: nat, p: nat)
    requires LaidOut(elements, store, increment) && p < |elements|
    ensures increment > 0 && At(store, increment, p, elements[p])
  {
  }

  lemma LaidOutNothing<T>(increment: nat)
    requires increment > 0
    ensures LaidOut<T>([], [], increment)
  {
  }

  /** The sequence while elements after `at` are being moved: up to `p` they have moved already */
  function Shifted<T>(es: seq<T>, at: nat, p: nat): seq<T>
    requires at <= p < |es|
  {
    es[..at] + es[at + 1..p + 1] + es[p..]
  }

  lemma ShiftedSteps<T>(es: seq<T>, at: nat, p: nat)
    requires at <= p < |es|
    ensures |Shifted(es, at, p)| == |es|
    ensures p == at ==> Shifted(es, at, p) == es
    ensures p + 1 < |es| ==> Put(Shifted(es, at, p), p, Shifted(es, at, p)[p + 1]) == Shifted(es, at, p + 1)
    ensures p + 1 == |es| ==> Shifted(es, at, p)[..p] == es[..at] + es[at + 1..]
  {
  }

  // ------------------------------------------------------------------------------------
  // The array object

  /** The chunks as values */
  ghost function Stored<T>(chunks: seq<array<T>>): (s: seq<seq<T>>)
    reads chunks
    ensures |s| == |chunks| && forall i :: 0 <= i < |chunks| ==> s[i] == chunks[i][..]
  {
    seq(|chunks|, i requires 0 <= i < |chunks| reads chunks => chunks[i][..])
  }

  ghost predicate Distinct<T>(chunks: seq<array<T>>) {
    forall i, j :: 0 <= i < j < |chunks| ==> chunks[i] != chunks[j]
  }

  lemma StoredJoin<T>(a: seq<array<T>>, b: seq<array<T>>)
    ensures Stored(a + b) == Stored(a) + Stored(b)
  {
  }

  lemma DistinctJoin<T>(a: seq<array<T>>, b: seq<array<T>>)
    requires Distinct(a) && Distinct(b) && forall i, j :: 0 <= i < |a| && 0 <= j < |b| ==> a[i] != b[j]
    ensures Distinct(a + b)
  {
  }

  class Array<T(0)> {
    const incrementSize: nat
    var numElements: nat
    var spaceAllocated: nat
    var chunks: seq<array<T>>
    /** The sequence that the array stands for */
    ghost var elements: seq<T>

    /** The space is the number of chunks times their size */
    ghost predicate Valid()
      reads this, chunks
    {
      && spaceAllocated == Space(|chunks|, incrementSize) && numElements == |elements|
      && Distinct(chunks) && LaidOut(elements, Stored(chunks), incrementSize)
    }

    /** `icalarray_new` */
    constructor (incrementSize: nat)
      requires incrementSize > 0
      ensures Valid() && elements == [] && chunks == [] && this.incrementSize == incrementSize
    {
      this.incrementSize := incrementSize;
      numElements, spaceAllocated, chunks, elements := 0, 0, [], [];
      new;
      LaidOutNothing<T>(incrementSize);
      assert Stored(chunks) == [];
    }

    /** `icalarray_element_at` */
    method ElementAt(position: nat) returns (x: T)
      requires Valid() && position < numElements
      ensures x == elements[position]
    {
      hide Chunk, Offset, Space, LaidOut, Distinct;
      LaidOutAt(elements, Stored(chunks), incrementSize, position);
      x := chunks[Chunk(position, incrementSize)][Offset(position, incrementSize)];
    }

    /** Writes to the place that `icalarray_element_at` gives */
    method Store(position: nat, x: T)
      requires Valid() && position <= numElements && position < spaceAllocated
      modifies this`numElements, this`elements, chunks
      ensures Valid() && elements == Put(old(elements), position, x)
    {
      hide Chunk, Offset, Space, LaidOut;
      LaidOutFacts(elements, Stored(chunks), incrementSize);
      ghost var store := Stored(chunks);
      LaidOutPut(elements, store, incrementSize, position, x);
      var c, o := Chunk(position, incrementSize), Offset(position, incrementSize);
      chunks[c][o] := x;
      elements := Put(elements, position, x);
      numElements := if position == numElements then numElements + 1 else numElements;
      assert Stored(chunks) == store[c := store[c][o := x]];
    }

    /** `icalarray_expand` */
    method Expand(spaceNeeded: nat)
      requires Valid()
      modifies this`spaceAllocated, this`chunks
      ensures Valid() && spaceAllocated > old(spaceAllocated) && spaceAllocated >= old(spaceAllocated) + spaceNeeded
      ensures forall c :: c in chunks ==> c in old(chunks) || fresh(c)
    {
      hide Space, LaidOut, Distinct, Stored;
      var numChunks := CountChunks();
      var numNewChunks := ChunksNeeded(spaceNeeded);
      SpaceAdds(numChunks, numNewChunks, incrementSize);
      ghost var store := Stored(chunks);
      var newChunks := AllocateChunks(numNewChunks);
      LaidOutMore(elements, store, incrementSize, Stored(newChunks));
      assert chunks[..numChunks] == chunks;
      DistinctJoin(chunks, newChunks);
      chunks := chunks[..numChunks] + newChunks;
      spaceAllocated := spaceAllocated + Space(numNewChunks, incrementSize);
      StoredJoin(old(chunks), newChunks);
    }

    method CountChunks() returns (n: nat)
      requires Valid()
      ensures n == |chunks| && incrementSize > 0
    {
      hide Space, LaidOut, Distinct;
      LaidOutFacts(elements, Stored(chunks), incrementSize);
      DivideBack(|chunks|, incrementSize);
      n := spaceAllocated / incrementSize;
    }

    method ChunksNeeded(spaceNeeded: nat) returns (n: nat)
      requires incrementSize > 0
      ensures Space(n, incrementSize) >= spaceNeeded && Space(n, incrementSize) > 0
    {
      n := (spaceNeeded + incrementSize - 1) / incrementSize;
      if n == 0 {
        n := 1;
      }
      EnoughChunks(spaceNeeded, incrementSize, n);
    }

    /** `icalarray_alloc_chunk`, as often as needed */
    method AllocateChunks(n: nat) returns (newChunks: seq<array<T>>)
      ensures |newChunks| == n && Distinct(newChunks)
      ensures forall i :: 0 <= i < n ==> fresh(newChunks[i]) && newChunks[i].Length == incrementSize
    {
      newChunks := [];
      for c := 0 to n
        invariant |newChunks| == c && Distinct(newChunks)
        invariant forall i :: 0 <= i < c ==> fresh(newChunks[i]) && newChunks[i].Length == incrementSize
      {
        var chunk := new T[incrementSize];
        newChunks := newChunks + [chunk];
      }
    }

    /** `icalarray_append` */
    method Append(x: T)
      requires Valid()
      modifies this, chunks
      ensures Valid() && elements == old(elements) + [x]
      ensures forall c :: c in chunks ==> c in old(chunks) || fresh(c)
    {
      hide Space, LaidOut, Distinct;
      LaidOutFacts(elements, Stored(chunks), incrementSize);
      if numElements >= spaceAllocated {
        Expand(1);
      }
      assert forall i :: 0 <= i < |chunks| ==> chunks[i] in old(chunks) || fresh(chunks[i]);
      Store(numElements, x);
    }

    /** `icalarray_remove_element_at`: a position past the end removes the last element */
    method RemoveElementAt(position: nat)
      requires Valid() && numElements > 0
      modifies this`numElements, this`elements, chunks
      ensures Valid()
      ensures var at := if position < |old(elements)| then position else |old(elements)| - 1;
              elements == old(elements)[..at] + old(elements)[at + 1..]
    {
      hide Space, LaidOut, Distinct, Shifted, Put;
      ghost var es := elements;
      ghost var at := if position < |es| then position else |es| - 1;
      var p := position;
      ShiftedSteps(es, at, at);
      while p < numElements - 1
        invariant Valid() && numElements == |es| && (p < numElements ==> at <= p)
        invariant elements == Shifted(es, at, if p < |es| then p else |es| - 1)
        decreases numElements - p
      {
        ShiftedSteps(es, at, p);
        ShiftedSteps(es, at, p + 1);
        var x := ElementAt(p + 1);
        LaidOutFacts(elements, Stored(chunks), incrementSize);
        Store(p, x);
        p := p + 1;
      }
      ShiftedSteps(es, at, |es| - 1);
      LaidOutFewer(elements, Stored(chunks), incrementSize);
      numElements := numElements - 1;
      elements := elements[..|elements| - 1];
    }

    /** `icalarray_copy` */
    method Copy() returns (copy: Array<T>)
      requires Valid()
      ensures fresh(copy) && copy.Valid() && forall c :: c in copy.chunks ==> fresh(c)
      ensures copy.elements == elements && copy.spaceAllocated == spaceAllocated && copy.incrementSize == incrementSize
    {
      hide Space, LaidOut;
      LaidOutFacts(elements, Stored(chunks), incrementSize);
      copy := new Array<T>(incrementSize);
      var numChunks := CountChunks();
      var newChunks := CopyChunks(numChunks);
      copy.chunks, copy.numElements, copy.spaceAllocated := newChunks, numElements, spaceAllocated;
      copy.elements := elements;
      assert Stored(copy.chunks) == Stored(chunks);
    }

    method CopyChunks(n: nat) returns (newChunks: seq<array<T>>)
      requires n == |chunks| && forall i :: 0 <= i < n ==> chunks[i].Length == incrementSize
      ensures |newChunks| == n && Distinct(newChunks)
      ensures forall i :: 0 <= i < n ==> fresh(newChunks[i]) && newChunks[i][..] == chunks[i][..]
    {
      newChunks := [];
      for c := 0 to n
        invariant |newChunks| == c && Distinct(newChunks)
        invariant forall i :: 0 <= i < c ==> fresh(newChunks[i]) && newChunks[i][..] == chunks[i][..]
      {
        var source := chunks[c];
        var chunk := new T[incrementSize](i requires 0 <= i < source.Length reads source => source[i]);
        assert chunk[..] == source[..];
        newChunks := newChunks + [chunk];
      }
    }
  }
}
