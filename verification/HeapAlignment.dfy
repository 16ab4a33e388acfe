/**
 Which payloads of the two coalescing allocators are 16-byte aligned. Requests are rounded to 16 bytes, but
 header and footer take 24, and a merge makes blocks of odd size.
 */
module HeapAlignment {
  import opened Memory
  import opened BlockHeap
  import E = ExplicitSpec
  import C = CoalescingHeap
  import opened HeapTheorems

  /** The blocks of even size that start below address `a`. */
  ghost function EvenBelow(h: Blocks, a: int): set<int> {
    set b | b in h && b < a && h[b].size % 2 == 0
  }

  /** A payload is 16-byte aligned exactly if an even number of blocks of even size come before its block. */
  lemma {:induction false} AlignedExactly(h: Blocks, last: int, a: int)
    requires Tiled(h, last) && a in h
    ensures (a + 2) % 2 == 0 <==> |EvenBelow(h, a)| % 2 == 0
    decreases a
  {
    if a == 0 {
      assert EvenBelow(h, a) == {};
    } else {
      hide EvenBelow, Tiled;
      BeforeIs(h, last, a);
      var p := Before(h, a);
      AlignedExactly(h, last, p);
      BelowStep(h, last, p);
    }
  }

  lemma BelowStep(h: Blocks, last: int, p: int)
    requires Tiled(h, last) && p in h
    ensures |EvenBelow(h, End(h, p))| == |EvenBelow(h, p)| + (if h[p].size % 2 == 0 then 1 else 0)
  {
    assert EvenBelow(h, End(h, p)) == EvenBelow(h, p) + (if h[p].size % 2 == 0 then {p} else {}) by {
      BlocksBelow(h, last, p);
    }
  }

  lemma BlocksBelow(h: Blocks, last: int, p: int)
    requires Tiled(h, last) && p in h
    ensures forall b :: b in h ==> (b < End(h, p) <==> b <= p)
  {
    forall b | b in h ensures b < End(h, p) <==> b <= p {
      assert Apart(h, p, b);
    }
  }

  /** As long as all blocks have even sizes, as before the first split or merge, every other payload is aligned. */
  lemma EveryOther(h: Blocks, last: int, a: int)
    requires Tiled(h, last) && a in h && forall b :: b in h ==> h[b].size % 2 == 0
    ensures (a + 2) % 2 == 0 <==> |set b | b in h && b < a| % 2 == 0
  {
    AlignedExactly(h, last, a);
    assert EvenBelow(h, a) == set b | b in h && b < a;
  }

  /** The same for the end of the last block. */
  lemma EndAlignedExactly(h: Blocks, last: int)
    requires WellFormed(h, last)
    ensures last % 2 == 0 <==> |EvenBelow(h, last)| % 2 == 0
  {
    var g := Bump(h, last, 0);
    BumpKeeps(h, last, 0);
    AlignedExactly(g, last + OVERHEAD, last);
    assert EvenBelow(g, last) == EvenBelow(h, last);
  }

  /** A request is answered with an aligned payload exactly if the free block that it reuses, or `last`
      if none fits, is itself aligned: if an even number of blocks of even size lie below. */
  lemma CoalescingAligned(s: C.Heap, n: int, capacity: int)
    requires C.HeapInv(s, capacity) && 0 <= n
    ensures var p := C.MallocSpec(s, n, capacity).1; p != NULL ==>
      && (Fits(s.blocks, n) ==> C.Lowest(s.blocks, n, p - 2))
      && (!Fits(s.blocks, n) ==> p - 2 == s.last)
      && (p % 2 == 0 <==> |EvenBelow(s.blocks, p - 2)| % 2 == 0)
  {
    CoalescingMalloc(s, n, capacity);
    EndAlignedExactly(s.blocks, s.last);
    var p := C.MallocSpec(s, n, capacity).1;
    if Fits(s.blocks, n) {
      WalkFindsFit(s.blocks, s.last, n, 0);
      AlignedExactly(s.blocks, s.last, p - 2);
    }
  }

  lemma ExplicitAligned(s: E.Heap, n: int, capacity: int)
    requires E.HeapInv(s, capacity) && 0 <= n
    ensures var (p, k) := (E.MallocSpec(s, n, capacity).1, E.FirstFit(s.blocks, s.ring, n)); p != NULL ==>
      && (Fits(s.blocks, n) ==> k < |s.ring| && p - 2 == s.ring[k])
      && (!Fits(s.blocks, n) ==> p - 2 == s.last)
      && (p % 2 == 0 <==> |EvenBelow(s.blocks, p - 2)| % 2 == 0)
  {
    RingFindsFit(s, n);
    ExplicitMalloc(s, n, capacity);
    EndAlignedExactly(s.blocks, s.last);
    var p := E.MallocSpec(s, n, capacity).1;
    if Fits(s.blocks, n) { AlignedExactly(s.blocks, s.last, p - 2); }
  }

  /** The second payload of a fresh arena never is aligned. */
  lemma SecondMisaligned(n: int, n': int, capacity: int)
    requires n >= 0 && n % 2 == 0 && n' >= 0 && n + OVERHEAD + n' + OVERHEAD <= capacity
    ensures var (s, p) := C.MallocSpec(C.Heap(map[], 0), n, capacity);
      var (t, q) := C.MallocSpec(s, n', capacity);
      p % 2 == 0 && q % 2 == 1
  {
    var s := C.Heap(Bump(map[], 0, n), n + OVERHEAD);
    assert C.MallocSpec(C.Heap(map[], 0), n, capacity) == (s, 2);
    assert forall a :: !FreeAt(s.blocks, a);
    assert !Fits(s.blocks, n');
  }
}
