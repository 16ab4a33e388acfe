/**
 Whole runs of the two coalescing allocators.
 */
module HeapRuns {
  import opened Memory
  import opened BlockHeap
  import opened HeapTheorems
  import E = ExplicitSpec
  import C = CoalescingHeap

  /** A heap of the explicit allocator or of the implicit one. */
  datatype AnyHeap = Explicit(e: E.Heap) | Coalescing(c: C.Heap)

  function BlocksOf(s: AnyHeap): Blocks {
    match s
    case Explicit(e) => e.blocks
    case Coalescing(c) => c.blocks
  }

  function LastOf(s: AnyHeap): int {
    match s
    case Explicit(e) => e.last
    case Coalescing(c) => c.last
  }

  ghost predicate Sound(s: AnyHeap, capacity: int) {
    match s
    case Explicit(e) => E.HeapInv(e, capacity)
    case Coalescing(c) => C.HeapInv(c, capacity)
  }

  ghost predicate MayFree(s: AnyHeap, p: int) {
    match s
    case Explicit(e) => E.Freeable(e, p)
    case Coalescing(c) => C.Freeable(c, p)
  }

  ghost function MallocOf(s: AnyHeap, n: int, capacity: int): (r: (AnyHeap, int))
    requires Sound(s, capacity)
  {
    match s
    case Explicit(e) => var (e', p) := E.MallocSpec(e, n, capacity); (Explicit(e'), p)
    case Coalescing(c) => var (c', p) := C.MallocSpec(c, n, capacity); (Coalescing(c'), p)
  }

  ghost function FreeOf(s: AnyHeap, p: int): (r: (AnyHeap, int))
    requires MayFree(s, p)
  {
    match s
    case Explicit(e) => var (e', r) := E.FreeSpec(e, p); (Explicit(e'), r)
    case Coalescing(c) => var (c', r) := C.FreeSpec(c, p); (Coalescing(c'), r)
  }

  function Fresh(s: AnyHeap): AnyHeap {
    match s
    case Explicit(_) => Explicit(E.Heap(map[], [], 0))
    case Coalescing(_) => Coalescing(C.Heap(map[], 0))
  }

  lemma SoundIsTiled(s: AnyHeap, capacity: int)
    requires Sound(s, capacity)
    ensures WellFormed(BlocksOf(s), LastOf(s))
  {
  }

  lemma MallocGrants(s: AnyHeap, n: nat, capacity: int)
    requires Sound(s, capacity)
    ensures var (s', p) := MallocOf(s, n, capacity);
      && Sound(s', capacity) && s'.Explicit? == s.Explicit?
      && Granted(BlocksOf(s), LastOf(s), n, capacity, BlocksOf(s'), LastOf(s'), p)
  {
    match s
    case Explicit(e) =>
      E.MallocKeeps(e, n, capacity);
      ExplicitMalloc(e, n, capacity);
    case Coalescing(c) =>
      C.MallocKeeps(c, n, capacity);
      CoalescingMalloc(c, n, capacity);
  }

  /** A free takes the block out of use if its payload is the given one, and nothing else. */
  lemma FreeReleases(s: AnyHeap, p: int, capacity: int)
    requires Sound(s, capacity) && MayFree(s, p)
    ensures var (s', r) := FreeOf(s, p); var h, g := BlocksOf(s), BlocksOf(s');
      && Sound(s', capacity) && s'.Explicit? == s.Explicit? && LastOf(s') == LastOf(s)
      && r == (if p - 2 in Live(h) then 0 else 1)
      && g == (if p - 2 in Live(h) then Release(h, p - 2) else h)
      && Live(g) == Live(h) - {p - 2} && forall a :: a in Live(g) ==> g[a] == h[a]
  {
    hide Release, Tiled;
    match s {
      case Explicit(e) => E.FreeKeeps(e, p, capacity);
      case Coalescing(c) => C.FreeKeeps(c, p, capacity);
    }
    SoundIsTiled(s, capacity);
    var h, last := BlocksOf(s), LastOf(s);
    if p - 2 in Live(h) {
      InRange(h, last, p - 2);
      ReleaseLive(h, last, p - 2);
    }
  }

  // ---- runs ----

  datatype Op = Malloc(bytes: nat) | Free(p: int) | Reset

  ghost function Step(s: AnyHeap, op: Op, capacity: int): (r: (AnyHeap, int))
    requires Sound(s, capacity) && (op.Free? ==> MayFree(s, op.p))
  {
    match op
    case Malloc(bytes) => MallocOf(s, Words(bytes), capacity)
    case Free(p) => FreeOf(s, p)
    case Reset => (Fresh(s), 0)
  }

  /** Call `op` is answered with `p` and turns heap `s` into `s'`. Callers free what is `MayFree`. */
  ghost predicate Called(s: AnyHeap, op: Op, p: int, s': AnyHeap, capacity: int) {
    (op.Free? ==> MayFree(s, op.p)) && (Sound(s, capacity) ==> (s', p) == Step(s, op, capacity))
  }

  /** `heaps` and `answers` are what the calls `ops` make of heap `heaps[0]`, one after the other. */
  ghost predicate Run(ops: seq<Op>, answers: seq<int>, heaps: seq<AnyHeap>, capacity: int) {
    && |answers| == |ops| && |heaps| == |ops| + 1
    && forall i :: 0 <= i < |ops| ==> Called(heaps[i], ops[i], answers[i], heaps[i + 1], capacity)
  }

  lemma StepKeeps(s: AnyHeap, op: Op, p: int, s': AnyHeap, capacity: int)
    requires Sound(s, capacity) && Called(s, op, p, s', capacity)
    ensures Sound(s', capacity) && s'.Explicit? == s.Explicit?
  {
    match op
    case Malloc(bytes) => MallocGrants(s, Words(bytes), capacity);
    case Free(p) => FreeReleases(s, p, capacity);
    case Reset =>
  }

  /** Every heap that any sequence of calls leads to is well formed: its blocks tile the arena below `last`, no two
      neighbours are free, and the ring of the explicit allocator holds exactly the free blocks, each once. */
  lemma {:induction false} RunKeeps(ops: seq<Op>, answers: seq<int>, heaps: seq<AnyHeap>, capacity: int, i: nat)
    requires Run(ops, answers, heaps, capacity) && Sound(heaps[0], capacity)
    requires i < |heaps|
    ensures Sound(heaps[i], capacity) && heaps[i].Explicit? == heaps[0].Explicit?
  {
    if i > 0 {
      RunKeeps(ops, answers, heaps, capacity, i - 1);
      assert Called(heaps[i - 1], ops[i - 1], answers[i - 1], heaps[i], capacity);
      StepKeeps(heaps[i - 1], ops[i - 1], answers[i - 1], heaps[i], capacity);
    }
  }

  /** Payload `p` of heap `g`, if it is not null, shares no word with the payload of block `a` of heap `h`. */
  ghost predicate Clear(h: Blocks, a: int, g: Blocks, p: int) {
    p == NULL || (a in h && p - 2 in g && forall i :: InPayload(h, a, i) ==> !InPayload(g, p - 2, i))
  }

  lemma StepLeaves(s: AnyHeap, op: Op, p: int, s': AnyHeap, capacity: int, a: int)
    requires Sound(s, capacity) && Called(s, op, p, s', capacity)
    requires a in Live(BlocksOf(s)) && op != Free(a + 2) && op != Reset
    ensures a in Live(BlocksOf(s')) && BlocksOf(s')[a] == BlocksOf(s)[a]
    ensures op.Malloc? ==> Clear(BlocksOf(s), a, BlocksOf(s'), p)
  {
    hide MallocOf, FreeOf, Release, Sound;
    match op
    case Malloc(bytes) =>
      MallocGrants(s, Words(bytes), capacity);
      var h, g := BlocksOf(s), BlocksOf(s');
      if p != NULL {
        assert a in Live(g) && g[a] == h[a] && a != p - 2;
        forall i | InPayload(h, a, i) ensures !InPayload(g, p - 2, i) {
          assert InPayload(g, a, i);
        }
      }
    case Free(q) => FreeReleases(s, q, capacity);
    case Reset =>
  }

  /** A payload stays where it is, with its size, until it is freed or the arena is reset; meanwhile no request is
      answered with a payload that shares a word with it. */
  lemma {:induction false} LivesUntilFreed(
    ops: seq<Op>, answers: seq<int>, heaps: seq<AnyHeap>, capacity: int, a: int, i: nat, j: nat)
    requires Run(ops, answers, heaps, capacity) && Sound(heaps[0], capacity)
    requires i <= j < |heaps| && a in Live(BlocksOf(heaps[i]))
    requires forall k :: i <= k < j ==> ops[k] != Free(a + 2) && ops[k] != Reset
    ensures a in Live(BlocksOf(heaps[j])) && BlocksOf(heaps[j])[a] == BlocksOf(heaps[i])[a]
    ensures forall k :: i <= k < j && ops[k].Malloc? ==> Clear(BlocksOf(heaps[k]), a, BlocksOf(heaps[k + 1]), answers[k])
  {
    if i < j {
      LivesUntilFreed(ops, answers, heaps, capacity, a, i, j - 1);
      RunKeeps(ops, answers, heaps, capacity, j - 1);
      assert Called(heaps[j - 1], ops[j - 1], answers[j - 1], heaps[j], capacity);
      StepLeaves(heaps[j - 1], ops[j - 1], answers[j - 1], heaps[j], capacity, a);
    }
  }

  /** Along any run every request is answered as promised; whatever it is handed has fewer than five words too many. */
  lemma RunGrants(ops: seq<Op>, answers: seq<int>, heaps: seq<AnyHeap>, capacity: int, k: nat)
    requires Run(ops, answers, heaps, capacity) && Sound(heaps[0], capacity)
    requires k < |ops| && ops[k].Malloc?
    ensures var n, p, g := Words(ops[k].bytes), answers[k], BlocksOf(heaps[k + 1]);
      && Granted(BlocksOf(heaps[k]), LastOf(heaps[k]), n, capacity, g, LastOf(heaps[k + 1]), p)
      && (p != NULL ==> p - 2 in Live(g) && n <= g[p - 2].size < n + 5)
  {
    RunKeeps(ops, answers, heaps, capacity, k);
    assert Called(heaps[k], ops[k], answers[k], heaps[k + 1], capacity);
    MallocGrants(heaps[k], Words(ops[k].bytes), capacity);
  }

  // ---- freeing everything ----

  /** With no block in use, a well-formed heap is one free block from the start to `last`. */
  lemma AllFree(h: Blocks, last: int)
    requires WellFormed(h, last) && Live(h) == {} && last > 0
    ensures h == map[0 := Block(last - OVERHEAD, true)]
  {
    assert forall b :: b in h ==> h[b].free by {
      forall b | b in h ensures h[b].free { assert b !in Live(h); }
    }
    var e := End(h, 0);
    assert e in h ==> NotBothFree(h, 0, e);
    assert e == last;
    forall b | b in h ensures b == 0 { assert Apart(h, 0, b); }
  }

  /** The payloads of the blocks in use, each once. */
  ghost predicate AllPayloads(h: Blocks, order: seq<int>) {
    && (forall p :: p in order <==> p - 2 in Live(h))
    && (forall i, j :: 0 <= i < j < |order| ==> order[i] != order[j])
  }

  lemma PayloadsAfterFree(h: Blocks, last: int, order: seq<int>)
    requires Tiled(h, last) && AllPayloads(h, order) && order != []
    ensures order[0] - 2 in Live(h)
    ensures AllPayloads(Release(h, order[0] - 2), order[1..])
  {
    assert order[0] in order;
    ReleaseLive(h, last, order[0] - 2);
    var g := Release(h, order[0] - 2);
    forall p ensures p in order[1..] <==> p - 2 in Live(g) {
      assert p in order <==> p == order[0] || p in order[1..];
    }
  }

  /** Requests of at least one byte have payloads of at least two words. */
  ghost predicate RoomInUse(h: Blocks) {
    forall a :: a in Live(h) ==> h[a].size >= 2
  }

  lemma RoomForMerge(s: E.Heap, a: int, capacity: int)
    requires E.HeapInv(s, capacity) && a in Live(s.blocks) && RoomInUse(s.blocks)
    ensures MergedSize(s.blocks, a) >= 2
  {
  }

  /** All payloads may be freed: those of the explicit allocator need room for two links. */
  ghost predicate MayFreeAll(s: AnyHeap, order: seq<int>, capacity: int) {
    Sound(s, capacity) && AllPayloads(BlocksOf(s), order) && (s.Explicit? ==> RoomInUse(BlocksOf(s)))
  }

  /** Frees the payloads in the given order. */
  ghost function Frees(s: AnyHeap, order: seq<int>, capacity: int): (r: AnyHeap)
    requires MayFreeAll(s, order, capacity)
    decreases |order|
  {
    if order == [] then s
    else
      FreeFirst(s, order, capacity);
      Frees(FreeOf(s, order[0]).0, order[1..], capacity)
  }

  lemma FreeFirst(s: AnyHeap, order: seq<int>, capacity: int)
    requires MayFreeAll(s, order, capacity) && order != []
    ensures MayFree(s, order[0])
    ensures var s' := FreeOf(s, order[0]).0;
      MayFreeAll(s', order[1..], capacity) && LastOf(s') == LastOf(s) && s'.Explicit? == s.Explicit?
  {
    SoundIsTiled(s, capacity);
    PayloadsAfterFree(BlocksOf(s), LastOf(s), order);
    InRange(BlocksOf(s), LastOf(s), order[0] - 2);
    if s.Explicit? { RoomForMerge(s.e, order[0] - 2, capacity); }
    FreeReleases(s, order[0], capacity);
  }

  lemma InRange(h: Blocks, last: int, a: int)
    requires Tiled(h, last) && a in h
    ensures 2 <= a + 2 < last
  {
  }

  lemma NoneInUse(h: Blocks)
    requires AllPayloads(h, [])
    ensures Live(h) == {}
  {
    forall a | a in h ensures a !in Live(h) {
      assert a + 2 !in [];
    }
  }

  /** Freeing every payload, in any order, leaves one free block that spans the whole used part of the arena, so
      that the next request that it can hold is answered with the first payload address. */
  lemma {:induction false} FreesAll(s: AnyHeap, order: seq<int>, capacity: int, n: nat)
    requires MayFreeAll(s, order, capacity)
    ensures var s', last := Frees(s, order, capacity), LastOf(s);
      && Sound(s', capacity) && LastOf(s') == last
      && (last > 0 ==> BlocksOf(s') == map[0 := Block(last - OVERHEAD, true)])
      && (n <= last - OVERHEAD ==> MallocOf(s', n, capacity).1 == 2)
    decreases |order|
  {
    hide Sound, MallocOf, FreeOf;
    if order == [] {
      SoundIsTiled(s, capacity);
      NoneInUse(BlocksOf(s));
      if LastOf(s) > 0 {
        AllFree(BlocksOf(s), LastOf(s));
        MallocGrants(s, n, capacity);
        assert FreeAt(BlocksOf(s), 0);
      }
    } else {
      FreeFirst(s, order, capacity);
      FreesAll(FreeOf(s, order[0]).0, order[1..], capacity, n);
    }
  }
}
