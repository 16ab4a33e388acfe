/**
 Requests for zero bytes in the explicit free list allocator: they are granted with payloads that have no room
 for the two links that `free` writes.
 */
module EmptyRequests {
  import opened Memory
  import opened BlockHeap
  import opened BoundaryTags
  import opened FreeRing
  import opened ExplicitSpec
  import opened ExplicitHeap
  import opened HeapTheorems
  import opened HeapRuns

  /** A payload in use may be freed exactly if it has two words or a free neighbour to merge with. */
  lemma FreeableExactly(s: Heap, p: int, capacity: int)
    requires HeapInv(s, capacity) && p - 2 in Live(s.blocks)
    ensures var h, a := s.blocks, p - 2;
      Freeable(s, p) <==> h[a].size >= 2 || FreeAt(h, End(h, a)) || FreeLeft(h, a)
  {
    InRange(s.blocks, s.last, p - 2);
  }

  ghost predicate AtLeastOneByte(ops: seq<Op>) {
    forall i :: 0 <= i < |ops| && ops[i].Malloc? ==> ops[i].bytes > 0
  }

  /** As long as all requests are for at least one byte, every payload in use may be freed. */
  lemma {:induction false} NonEmptyMayBeFreed(ops: seq<Op>, answers: seq<int>, heaps: seq<AnyHeap>, capacity: int, i: nat)
    requires Run(ops, answers, heaps, capacity) && heaps[0].Explicit?
    requires HeapInv(heaps[0].e, capacity) && RoomInUse(heaps[0].e.blocks)
    requires AtLeastOneByte(ops) && i < |heaps|
    ensures heaps[i].Explicit? && RoomInUse(heaps[i].e.blocks)
    ensures forall p :: Addressed(heaps[i].e, p) ==> Freeable(heaps[i].e, p)
  {
    RunKeeps(ops, answers, heaps, capacity, i);
    if i > 0 {
      NonEmptyMayBeFreed(ops, answers, heaps, capacity, i - 1);
      RunKeeps(ops, answers, heaps, capacity, i - 1);
      assert Called(heaps[i - 1], ops[i - 1], answers[i - 1], heaps[i], capacity);
      StepRoom(heaps[i - 1], ops[i - 1], answers[i - 1], heaps[i], capacity);
    }
    MayBeFreed(heaps[i].e, capacity);
  }

  lemma MayBeFreed(s: Heap, capacity: int)
    requires HeapInv(s, capacity) && RoomInUse(s.blocks)
    ensures forall p :: Addressed(s, p) ==> Freeable(s, p)
  {
    forall p | Addressed(s, p) && p - 2 in Live(s.blocks) ensures Freeable(s, p) {
      RoomForMerge(s, p - 2, capacity);
    }
  }

  lemma GrantedRoom(h: Blocks, last: int, n: int, capacity: int, g: Blocks, last': int, p: int)
    requires Granted(h, last, n, capacity, g, last', p) && RoomInUse(h) && n >= 2
    ensures RoomInUse(g)
  {
    forall a | a in Live(g) ensures g[a].size >= 2 {
      if p != NULL && a != p - 2 { assert a in Live(h) && g[a] == h[a]; }
    }
  }

  lemma StepRoom(s: AnyHeap, op: Op, p: int, s': AnyHeap, capacity: int)
    requires Sound(s, capacity) && Called(s, op, p, s', capacity) && (op.Malloc? ==> op.bytes > 0)
    requires RoomInUse(BlocksOf(s))
    ensures RoomInUse(BlocksOf(s'))
  {
    hide Sound, MallocOf, FreeOf, Granted;
    match op
    case Malloc(bytes) =>
      MallocGrants(s, Words(bytes), capacity);
      GrantedRoom(BlocksOf(s), LastOf(s), Words(bytes), capacity, BlocksOf(s'), LastOf(s'), p);
    case Free(q) => FreeReleases(s, q, capacity);
    case Reset =>
  }

  /** What free writes for the merged block `x` of `n` words and the rest of the ring, if that lies in the arena. */
  ghost predicate FreeWrites(m: seq<int>, m1: seq<int>, m': seq<int>, ring: Ring, x: int, n: int) {
    TagsWritten(m, m1, x, n, 0) && (InMemory(m, x) ==> Pushed(m1, m', ring, x))
  }

  /** Once free has absorbed the neighbours of block `a`, what it writes stays in the arena and leaves every header
      and footer right exactly if the payload is one that may be freed. */
  lemma TagsRightExactly(m: seq<int>, m1: seq<int>, m': seq<int>, head: int, s: Heap, a: int)
    requires a in Live(s.blocks) && Stage(m, head, s, Neighbourless(s, a))
    requires FreeWrites(m, m1, m', Neighbourless(s, a), MergedAt(s.blocks, a), MergedSize(s.blocks, a))
    ensures InMemory(m, MergedAt(s.blocks, a)) && Tagged(m', Release(s.blocks, a)) <==> Freeable(s, a + 2)
  {
    InRange(s.blocks, s.last, a);
    var x, n := MergedAt(s.blocks, a), MergedSize(s.blocks, a);
    if n >= 2 {
      MergedTags(m, m1, head, s, a);
      MergedRoom(m, head, s, a);
      FreeDone(m, m1, m', s, a, Heap(Release(s.blocks, a), [x] + Neighbourless(s, a), s.last));
    } else if InMemory(m, x) {
      StaysAlone(s, a, |m|);
      LinksLandOnTags(m, m1, m', s, a);
    }
  }

  lemma StaysAlone(s: Heap, a: int, capacity: int)
    requires HeapInv(s, capacity) && a in Live(s.blocks) && MergedSize(s.blocks, a) < 2
    ensures 0 <= MergedSize(s.blocks, a) == s.blocks[a].size && MergedAt(s.blocks, a) == a
    ensures a in Release(s.blocks, a) && Release(s.blocks, a)[a] == Block(s.blocks[a].size, true)
  {
    var h := s.blocks;
    assert FreeLeft(h, a) ==> FreeAt(h, Before(h, a));
    assert !FreeLeft(h, a) && !FreeAt(h, End(h, a));
    ReleaseIs(h, s.last, a);
  }

  lemma NodesInArena(s: Heap, a: int, capacity: int)
    requires HeapInv(s, capacity) && a in Live(s.blocks)
    ensures forall i :: 0 <= i < |Neighbourless(s, a)| ==> Neighbourless(s, a)[i] >= 0
  {
    NeighbourlessNodes(s, a);
  }

  /** Otherwise a link lands on the footer, which is then an address and not the size of the block. */
  lemma LinksLandOnTags(m: seq<int>, m1: seq<int>, m': seq<int>, s: Heap, a: int)
    requires HeapInv(s, |m|) && a in Live(s.blocks) && MergedSize(s.blocks, a) < 2 && InMemory(m, a)
    requires FreeWrites(m, m1, m', Neighbourless(s, a), MergedAt(s.blocks, a), MergedSize(s.blocks, a))
    ensures a in Release(s.blocks, a) && !TagsAt(m', Release(s.blocks, a), a)
  {
    StaysAlone(s, a, |m|);
    NodesInArena(s, a, |m|);
    hide HeapInv, Neighbourless, Release;
  }

  /** The memory of a fresh arena through a request for nothing, one for 16 bytes, and a free of the first, which
      is not a permitted one: the header of the second block, in use with 2 words, then has the address of the
      first block for its size. */
  lemma EmptyRequestCorrupts(m: seq<int>, m1: seq<int>, m2: seq<int>, m3: seq<int>, m4: seq<int>)
    requires |m| >= 8
    requires TagsWritten(m, m1, 0, Words(0), 1) && TagsWritten(m1, m2, 3, Words(16), 1)
    requires FreeWrites(m2, m3, m4, [], 0, Words(0))
    ensures var s := MallocSpec(MallocSpec(Heap(map[], [], 0), Words(0), |m|).0, Words(16), |m|).0;
      && s == Heap(map[0 := Block(0, false), 3 := Block(2, false)], [], 8)
      && Addressed(s, 2) && !Freeable(s, 2)
      && Tagged(m2, s.blocks) && !TagsAt(m4, s.blocks, 3) && m4[3] == START && m4[7] == 2
  {
    var s := Heap(map[0 := Block(0, false), 3 := Block(2, false)], [], 8);
    assert Bump(Bump(map[], 0, 0), 3, 2) == s.blocks;
    assert forall a :: a in s.blocks ==> a == 0 || a == 3;
    assert TagsAt(m2, s.blocks, 0) && TagsAt(m2, s.blocks, 3);
    assert Before(s.blocks, 0) == NULL;
  }
}
