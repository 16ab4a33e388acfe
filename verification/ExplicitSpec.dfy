/**
 What `malloc` and `free` of `1_mem_allocator/list_explicit_free/allocator.c` do to the heap and to
 its free list, without the memory that holds them.
 */
module ExplicitSpec {
  import opened Memory
  import opened BlockHeap
  import opened FreeRing
  import opened Collections

  datatype Heap = Heap(blocks: Blocks, ring: Ring, last: int)

  ghost predicate Distinct(ring: Ring) {
    forall i, j :: 0 <= i < j < |ring| ==> ring[i] != ring[j]
  }

  /** Every free block is in the ring, once, and nothing else is. */
  ghost predicate RingOf(h: Blocks, ring: Ring) {
    && (forall k :: 0 <= k < |ring| ==> FreeAt(h, ring[k]))
    && (forall a {:trigger a in ring} :: FreeAt(h, a) ==> a in ring)
    && (Distinct(ring))
  }

  /** Free blocks have room for two links. */
  ghost predicate RoomForLinks(h: Blocks) {
    forall a :: FreeAt(h, a) ==> h[a].size >= 2
  }

  ghost predicate HeapInv(s: Heap, capacity: int) {
    && WellFormed(s.blocks, s.last)
    && s.last <= capacity
    && RoomForLinks(s.blocks)
    && RingOf(s.blocks, s.ring)
  }

  // ---- transitions ----

  /** Position in the ring of the first block that can hold `n` words; `|ring|` if there is none. */
  ghost function FirstFit(h: Blocks, ring: Ring, n: int): (k: int)
    ensures 0 <= k <= |ring|
  {
    if ring == [] then 0
    else if ring[0] in h && h[ring[0]].size >= n then 0
    else 1 + FirstFit(h, ring[1..], n)
  }

  ghost function AfterCarve(h: Blocks, ring: Ring, k: int, n: int): Ring
    requires 0 <= k < |ring| && ring[k] in h
  {
    if h[ring[k]].size >= n + SPLIT then ring[k := ring[k] + n + OVERHEAD] else Without(ring, k)
  }

  ghost function MallocSpec(s: Heap, n: int, capacity: int): (r: (Heap, int))
    requires RingOf(s.blocks, s.ring)
  {
    var k := FirstFit(s.blocks, s.ring, n);
    if k < |s.ring| then
      (Heap(Carve(s.blocks, s.ring[k], n), AfterCarve(s.blocks, s.ring, k, n), s.last), s.ring[k] + 2)
    else if s.last + OVERHEAD + n > capacity then
      (s, NULL)
    else
      (Heap(Bump(s.blocks, s.last, n), s.ring, s.last + n + OVERHEAD), s.last + 2)
  }

  ghost function Minus(ring: Ring, a: int): Ring
  {
    if ring == [] then [] else if ring[0] == a then ring[1..] else [ring[0]] + Minus(ring[1..], a)
  }

  /** An address out of range, or the payload of a current block. */
  ghost predicate Addressed(s: Heap, p: int) {
    p < 2 || p >= s.last || p - 2 in s.blocks
  }

  /** What callers may pass to free: the block in use at `p`, merged with its free neighbours, has room for two
      links. Only a block without payload and without free neighbours has not. */
  ghost predicate Freeable(s: Heap, p: int) {
    Addressed(s, p) && (2 <= p < s.last && !s.blocks[p - 2].free ==> MergedSize(s.blocks, p - 2) >= 2)
  }

  ghost function FreeSpec(s: Heap, p: int): (r: (Heap, int))
    requires Addressed(s, p)
  {
    if p < 2 || p >= s.last then (s, 1)
    else if s.blocks[p - 2].free then (s, 1)
    else (Heap(Release(s.blocks, p - 2),
               [MergedAt(s.blocks, p - 2)] + Neighbourless(s, p - 2),
               s.last), 0)
  }

  // ---- facts about the ring ----

  lemma {:induction false} FirstFitIs(h: Blocks, ring: Ring, n: int)
    requires forall k :: 0 <= k < |ring| ==> ring[k] in h
    ensures var k := FirstFit(h, ring, n);
      && (k < |ring| ==> h[ring[k]].size >= n)
      && forall j :: 0 <= j < k ==> h[ring[j]].size < n
  {
    if ring != [] && h[ring[0]].size < n {
      FirstFitIs(h, ring[1..], n);
      var k := FirstFit(h, ring, n);
      forall j | 0 <= j < k ensures h[ring[j]].size < n {
        if j > 0 { assert ring[j] == ring[1..][j - 1]; }
      }
    }
  }

  lemma {:induction false} MinusIs(ring: Ring, a: int, k: int)
    requires 0 <= k < |ring| && ring[k] == a
    requires Distinct(ring)
    ensures Minus(ring, a) == Without(ring, k)
  {
    if ring[0] != a {
      MinusIs(ring[1..], a, k - 1);
    }
  }

  lemma {:induction false} MinusNone(ring: Ring, a: int)
    requires a !in ring
    ensures Minus(ring, a) == ring
  {
    if ring != [] { MinusNone(ring[1..], a); }
  }

  lemma RingSpaced(h: Blocks, ring: Ring)
    requires Disjoint(h) && RoomForLinks(h) && Distinct(ring)
    requires forall k :: 0 <= k < |ring| ==> FreeAt(h, ring[k])
    ensures Spaced(ring)
  {
    forall i, j | 0 <= i < j < |ring| ensures ring[i] + 2 <= ring[j] || ring[j] + 2 <= ring[i] {
      assert Apart(h, ring[i], ring[j]) && Apart(h, ring[j], ring[i]);
    }
  }

  // ---- the transitions keep the heap ----

  lemma RingAfterSplit(h: Blocks, ring: Ring, last: int, k: int, n: int)
    requires Tiled(h, last) && RingOf(h, ring)
    requires 0 <= k < |ring| && 0 <= n && h[ring[k]].size >= n + SPLIT
    ensures RingOf(Carve(h, ring[k], n), AfterCarve(h, ring, k, n))
  {
    CarveTiled(h, last, ring[k], n);
    var g, a, ring' := Carve(h, ring[k], n), ring[k], AfterCarve(h, ring, k, n);
    forall b | FreeAt(g, b) ensures b in ring' {
      if b == a + n + OVERHEAD {
        assert ring'[k] == b;
      } else {
        assert b in ring;
        var j :| 0 <= j < |ring| && ring[j] == b;
        assert ring'[j] == b;
      }
    }
  }

  lemma RingAfterTake(h: Blocks, ring: Ring, k: int, n: int)
    requires RingOf(h, ring)
    requires 0 <= k < |ring| && h[ring[k]].size < n + SPLIT
    ensures RingOf(Carve(h, ring[k], n), AfterCarve(h, ring, k, n))
  {
    var g, a, ring' := Carve(h, ring[k], n), ring[k], Without(ring, k);
    forall b | FreeAt(g, b) ensures b in ring' {
      assert b in ring;
      var j :| 0 <= j < |ring| && ring[j] == b;
      assert b == ring'[if j < k then j else j - 1];
    }
  }

  lemma SplitKeeps(s: Heap, k: int, n: int, capacity: int)
    requires HeapInv(s, capacity) && 0 <= n
    requires 0 <= k < |s.ring| && s.blocks[s.ring[k]].size >= n + SPLIT
    ensures HeapInv(Heap(Carve(s.blocks, s.ring[k], n), AfterCarve(s.blocks, s.ring, k, n), s.last), capacity)
    ensures LiveKept(s.blocks, Carve(s.blocks, s.ring[k], n))
  {
    CarveKeeps(s.blocks, s.last, s.ring[k], n);
    RingAfterSplit(s.blocks, s.ring, s.last, k, n);
  }

  lemma MallocKeeps(s: Heap, n: int, capacity: int)
    requires HeapInv(s, capacity) && 0 <= n
    ensures HeapInv(MallocSpec(s, n, capacity).0, capacity)
  {
    var k := FirstFit(s.blocks, s.ring, n);
    FirstFitIs(s.blocks, s.ring, n);
    if k < |s.ring| {
      CarveKeeps(s.blocks, s.last, s.ring[k], n);
      if s.blocks[s.ring[k]].size >= n + SPLIT {
        RingAfterSplit(s.blocks, s.ring, s.last, k, n);
      } else {
        RingAfterTake(s.blocks, s.ring, k, n);
      }
    } else {
      BumpKeeps(s.blocks, s.last, n);
      var g := Bump(s.blocks, s.last, n);
      assert forall a :: FreeAt(g, a) ==> FreeAt(s.blocks, a);
    }
  }

  /** The ring without node `a`, where `a` may be absent. */
  lemma MinusElements(ring: Ring, a: int)
    requires Distinct(ring)
    ensures var g := Minus(ring, a);
      && (Distinct(g))
      && (forall b :: b in g <==> b in ring && b != a)
  {
    if a in ring {
      var k :| 0 <= k < |ring| && ring[k] == a;
      MinusIs(ring, a, k);
      var g := Without(ring, k);
      forall b | b in ring && b != a ensures b in g {
        var j :| 0 <= j < |ring| && ring[j] == b;
        assert b == g[if j < k then j else j - 1];
      }
    } else {
      MinusNone(ring, a);
    }
  }

  ghost function Neighbourless(s: Heap, a: int): Ring
    requires a in s.blocks
  {
    Minus(Minus(s.ring, End(s.blocks, a)), Before(s.blocks, a))
  }

  lemma RingAfterRelease(s: Heap, a: int)
    requires Tiled(s.blocks, s.last) && RingOf(s.blocks, s.ring)
    requires a in Live(s.blocks)
    ensures RingOf(Release(s.blocks, a), [MergedAt(s.blocks, a)] + Neighbourless(s, a))
  {
    RingOfMerged(s, a, Release(s.blocks, a), MergedAt(s.blocks, a)) by {
      ReleaseIs(s.blocks, s.last, a);
      forall b { ReleaseFree(s.blocks, s.last, a, b); }
    }
  }

  lemma RingOfMerged(s: Heap, a: int, g: Blocks, m: int)
    requires RingOf(s.blocks, s.ring)
    requires a in Live(s.blocks)
    requires m == a || m == Before(s.blocks, a)
    requires forall b :: FreeAt(g, b) <==>
      b == m || (FreeAt(s.blocks, b) && b != End(s.blocks, a) && b != Before(s.blocks, a))
    ensures RingOf(g, [m] + Neighbourless(s, a))
  {
    var h, e, p := s.blocks, End(s.blocks, a), Before(s.blocks, a);
    MinusElements(s.ring, e);
    MinusElements(Minus(s.ring, e), p);
    var rest := Neighbourless(s, a);
    var ring' := [m] + rest;
    forall k | 0 <= k < |ring'| ensures FreeAt(g, ring'[k]) {
      if k > 0 {
        assert rest[k - 1] in rest && rest[k - 1] in s.ring;
      }
    }
    forall b | FreeAt(g, b) ensures b in ring' {
      if b != m { assert b in s.ring && b in rest; }
    }
    assert m !in rest;
  }

  lemma ReleaseRoom(h: Blocks, last: int, a: int)
    requires Tiled(h, last) && RoomForLinks(h) && a in Live(h)
    ensures RoomForLinks(Release(h, a)) <==> MergedSize(h, a) >= 2
  {
    ReleaseIs(h, last, a);
    var g, m := Release(h, a), MergedAt(h, a);
    assert FreeAt(g, m) && g[m].size == MergedSize(h, a);
    forall b | FreeAt(g, b) && b != m ensures FreeAt(h, b) && g[b] == h[b] {
      ReleaseFree(h, last, a, b);
    }
  }

  lemma ReleaseHeap(s: Heap, a: int, capacity: int)
    requires HeapInv(s, capacity) && a in Live(s.blocks) && MergedSize(s.blocks, a) >= 2
    ensures WellFormed(Release(s.blocks, a), s.last)
    ensures RoomForLinks(Release(s.blocks, a))
    ensures RingOf(Release(s.blocks, a), [MergedAt(s.blocks, a)] + Neighbourless(s, a))
  {
    ReleaseKeeps(s.blocks, s.last, a);
    ReleaseRoom(s.blocks, s.last, a);
    RingAfterRelease(s, a);
  }

  /** Of all frees of current blocks, exactly the permitted ones leave a heap whose free blocks can hold links. */
  lemma FreeKeeps(s: Heap, p: int, capacity: int)
    requires HeapInv(s, capacity) && Addressed(s, p)
    ensures HeapInv(FreeSpec(s, p).0, capacity) <==> Freeable(s, p)
  {
    if 2 <= p < s.last && !s.blocks[p - 2].free {
      ReleaseRoom(s.blocks, s.last, p - 2);
      if Freeable(s, p) { ReleaseHeap(s, p - 2, capacity); }
    }
  }
}
