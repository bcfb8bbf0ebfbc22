/** The ring of temporary buffers in `icalmemory.c`. */
module BufferRing {
  import opened CText

  const BUFFER_RING_SIZE: nat := 2500

  /** A buffer from the allocator; only its identity matters */
  class Buffer {
    constructor () {
    }
  }

  function NonNull(bs: seq<Buffer?>): seq<Buffer> {
    if bs == [] then []
    else if bs[0] == null then NonNull(bs[1..])
    else [bs[0]] + NonNull(bs[1..])
  }

  lemma NonNullFirst(bs: seq<Buffer?>)
    ensures NonNull(bs) ==
            if bs == [] then [] else if bs[0] == null then NonNull(bs[1..]) else [bs[0]] + NonNull(bs[1..])
  {
  }

  lemma {:induction false} NonNullConcat(a: seq<Buffer?>, b: seq<Buffer?>)
    ensures NonNull(a + b) == NonNull(a) + NonNull(b)
  {
    hide NonNull;
    NonNullFirst(a);
    if a == [] {
      assert a + b == b;
    } else {
      NonNullConcat(a[1..], b);
      NonNullFirst(a + b);
      assert (a + b)[1..] == a[1..] + b && (a + b)[0] == a[0];
      if a[0] != null {
        ConcatAssoc([a[0]], NonNull(a[1..]), NonNull(b));
      }
    }
  }

  /** The slot that the k-th buffer goes to */
  function Slot(k: nat): (s: nat)
    ensures s < BUFFER_RING_SIZE
  {
    (k + 1) % BUFFER_RING_SIZE
  }

  /** The buffers that have been pushed out */
  function PushedOut(added: seq<Buffer?>): seq<Buffer?> {
    if |added| <= BUFFER_RING_SIZE then [] else added[..|added| - BUFFER_RING_SIZE]
  }

  /** The buffers that are still in the ring */
  function Window(added: seq<Buffer?>): seq<Buffer?> {
    if |added| <= BUFFER_RING_SIZE then added else added[|added| - BUFFER_RING_SIZE..]
  }

  /** The last buffers are in their slots; slots that were never used are empty */
  ghost predicate Holds(slots: seq<Buffer?>, added: seq<Buffer?>) {
    && |slots| == BUFFER_RING_SIZE
    && (forall k :: 0 <= k < |added| && |added| <= k + BUFFER_RING_SIZE ==> slots[Slot(k)] == added[k])
    && (|added| < BUFFER_RING_SIZE ==> slots[0] == null)
    && (|added| < BUFFER_RING_SIZE ==> forall s :: |added| < s < BUFFER_RING_SIZE ==> slots[s] == null)
  }

  lemma HoldsLength(slots: seq<Buffer?>, added: seq<Buffer?>)
    requires Holds(slots, added)
    ensures |slots| == BUFFER_RING_SIZE
  {
  }

  lemma HoldsNext(slots: seq<Buffer?>, added: seq<Buffer?>, buf: Buffer?)
    requires Holds(slots, added)
    ensures |slots| == BUFFER_RING_SIZE && Holds(slots[Slot(|added|) := buf], added + [buf])
  {
    hide Slot;
    var n := |added|;
    SlotStep(n);
    forall k | 0 <= k < n && n < k + BUFFER_RING_SIZE ensures Slot(k) != Slot(n) {
      SlotsDiffer(k, n);
    }
  }

  class Ring {
    var pos: nat
    const ring: array<Buffer?>
    /** All buffers that were added, and those that were freed, in order */
    ghost var added: seq<Buffer?>
    ghost var freed: seq<Buffer>

    /** `buffer_ring_new` */
    constructor ()
      ensures Valid() && added == [] && freed == [] && fresh(ring)
    {
      ring := new Buffer?[BUFFER_RING_SIZE](i => null);
      pos, added, freed := 0, [], [];
    }

    ghost predicate Valid()
      reads this, ring
    {
      && Holds(ring[..], added)
      && pos == |added| % BUFFER_RING_SIZE
      && freed == NonNull(PushedOut(added))
    }

    /**
      `icalmemory_add_tmp_buffer`: a buffer is freed when, and only when, it is pushed out of
      the ring by the 2500th buffer after it
     */
    method AddTmpBuffer(buf: Buffer?)
      requires Valid()
      modifies this, ring
      ensures Valid() && added == old(added) + [buf]
      ensures var n := |old(added)|;
              freed == old(freed) + if n >= 2500 && old(added)[n - 2500] != null then [old(added)[n - 2500]] else []
    {
      hide Holds, NonNull, PushedOut;
      ghost var n, slots := |added|, ring[..];
      HoldsLength(slots, added);
      pos := pos + 1;
      if pos == BUFFER_RING_SIZE {
        pos := 0;
      }
      SlotStep(n);
      PushOut(slots, added, buf);
      if ring[pos] != null {
        freed := freed + [ring[pos]];
      }
      HoldsNext(slots, added, buf);
      ring[pos] := buf;
      added := added + [buf];
      assert ring[..] == slots[Slot(n) := buf];
    }

    /** `icalmemory_free_ring_byval`: in all, every buffer that was ever added is freed once */
    method FreeRing()
      requires Valid()
      modifies this`freed
      ensures multiset(freed) == multiset(NonNull(added))
    {
      ghost var before := freed;
      SlotsHoldWindow(ring[..], added);
      HoldsLength(ring[..], added);
      for i := 0 to BUFFER_RING_SIZE
        invariant freed == before + NonNull(ring[..i])
      {
        assert ring[..i + 1] == ring[..i] + [ring[i]];
        NonNullConcat(ring[..i], [ring[i]]);
        NonNullOne(ring[i]);
        if ring[i] != null {
          ConcatAssoc(before, NonNull(ring[..i]), [ring[i]]);
          freed := freed + [ring[i]];
        }
      }
      assert ring[..BUFFER_RING_SIZE] == ring[..];
      WindowOf(added);
      NonNullConcat(PushedOut(added), Window(added));
    }
  }

  /** The ring is the window, turned */
  lemma SlotsHoldWindow(s: seq<Buffer?>, added: seq<Buffer?>)
    requires Holds(s, added)
    ensures multiset(NonNull(s)) == multiset(NonNull(Window(added)))
  {
    hide Slot, NonNull;
    var n := |added|;
    if n < BUFFER_RING_SIZE {
      forall k | 0 <= k < n ensures s[k + 1] == added[k] {
        SlotStep(k);
        assert s[Slot(k)] == added[k];
      }
      assert s == [null] + added + s[n + 1..];
      NullsAreNothing(s[n + 1..]);
      NonNullConcat([null], added);
      NonNullConcat([null] + added, s[n + 1..]);
      NonNullOne(null);
      assert NonNull(s) == NonNull(added);
    } else {
      var r := Slot(n);
      forall i | 0 <= i < BUFFER_RING_SIZE ensures (s[r..] + s[..r])[i] == Window(added)[i] {
        SlotAt(n, i);
        assert s[Slot(n - BUFFER_RING_SIZE + i)] == added[n - BUFFER_RING_SIZE + i];
      }
      assert s[r..] + s[..r] == Window(added);
      Turned(s, r);
    }
  }

  lemma Turned(s: seq<Buffer?>, r: nat)
    requires r <= |s|
    ensures multiset(NonNull(s)) == multiset(NonNull(s[r..] + s[..r]))
  {
    hide NonNull;
    NonNullConcat(s[r..], s[..r]);
    assert s == s[..r] + s[r..];
    NonNullConcat(s[..r], s[r..]);
  }

  lemma NonNullOne(b: Buffer?)
    ensures NonNull([b]) == if b == null then [] else [b]
  {
    assert [b][1..] == [];
  }

  lemma {:induction false} NullsAreNothing(bs: seq<Buffer?>)
    requires forall i :: 0 <= i < |bs| ==> bs[i] == null
    ensures NonNull(bs) == []
  {
    if bs != [] {
      NullsAreNothing(bs[1..]);
    }
  }

  lemma WindowOf(added: seq<Buffer?>)
    ensures PushedOut(added) + Window(added) == added
  {
  }

  lemma SlotAt(n: nat, i: nat)
    requires n >= BUFFER_RING_SIZE && i < BUFFER_RING_SIZE
    ensures var r := Slot(n);
            Slot(n - BUFFER_RING_SIZE + i) == if r + i < BUFFER_RING_SIZE then r + i else r + i - BUFFER_RING_SIZE
  {
  }

  /** With distinct buffers, none is freed twice */
  lemma {:induction false} FreedOnce(bs: seq<Buffer?>, b: Buffer)
    requires forall i, j :: 0 <= i < j < |bs| && bs[i] == bs[j] ==> bs[i] == null
    ensures multiset(NonNull(bs))[b] == if b in bs then 1 else 0
  {
    if bs != [] {
      FreedOnce(bs[1..], b);
      assert bs == [bs[0]] + bs[1..];
      if bs[0] == b {
        assert b !in bs[1..];
      }
      if bs[0] != null {
        assert NonNull(bs) == [bs[0]] + NonNull(bs[1..]);
      }
    }
  }

  lemma SlotStep(n: nat)
    ensures Slot(n) == if n % BUFFER_RING_SIZE + 1 == BUFFER_RING_SIZE then 0 else n % BUFFER_RING_SIZE + 1
    ensures n >= BUFFER_RING_SIZE ==> Slot(n - BUFFER_RING_SIZE) == Slot(n)
    ensures n < BUFFER_RING_SIZE - 1 ==> Slot(n) == n + 1
    ensures n == BUFFER_RING_SIZE - 1 ==> Slot(n) == 0
  {
  }

  lemma SlotsDiffer(k: nat, n: nat)
    requires k < n < k + BUFFER_RING_SIZE
    ensures Slot(k) != Slot(n)
  {
  }

  /** What the slot of the next buffer holds is what is pushed out */
  lemma PushOut(slots: seq<Buffer?>, added: seq<Buffer?>, buf: Buffer?)
    requires Holds(slots, added)
    ensures |slots| == BUFFER_RING_SIZE
    ensures var out := slots[Slot(|added|)];
            && NonNull(PushedOut(added + [buf])) == NonNull(PushedOut(added)) + (if out == null then [] else [out])
            && (|added| < BUFFER_RING_SIZE ==> out == null)
            && (|added| >= BUFFER_RING_SIZE ==> out == added[|added| - BUFFER_RING_SIZE])
  {
    hide Slot, NonNull;
    var n := |added|;
    SlotStep(n);
    var out := slots[Slot(n)];
    NonNullOne(out);
    if n >= BUFFER_RING_SIZE {
      var k := n - BUFFER_RING_SIZE;
      assert slots[Slot(k)] == added[k];
      assert (added + [buf])[..k + 1] == added[..k] + [out];
      NonNullConcat(added[..k], [out]);
    }
  }
}
