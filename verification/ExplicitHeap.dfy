/**
 The explicit free list allocator, `1_mem_allocator/list_explicit_free/allocator.c`: tiles, boundary
 tags, free-list links and the client's own data all live in the words of one array.
 */
module ExplicitHeap {
  import opened BlockHeap
  import opened BoundaryTags
  import opened FreeRing
  import opened ExplicitSpec
  import opened Memory
  import opened Collections

  /** The ghost heap `s` is what memory `m` and the pointer `head` hold. */
  ghost predicate Represents(m: seq<int>, head: int, s: Heap) {
    && HeapInv(s, |m|)
    && Tagged(m, s.blocks)
    && Linked(m, s.ring)
    && head == HeadOf(s.ring)
  }

  function HeadOf(ring: Ring): int {
    if ring == [] then NULL else ring[0]
  }

  /** Writing the links of free blocks touches no tag and no live payload. */
  lemma LinkWrites(m: seq<int>, m': seq<int>, h: Blocks, last: int, b: int, p: int, q: int)
    requires Tiled(h, last) && RoomForLinks(h) && Tagged(m, h)
    requires FreeAt(h, b) && FreeAt(h, p) && FreeAt(h, q)
    requires SameBut(m, m', {b + 2, b + 3, p + 3, q + 2})
    ensures Tagged(m', h)
    ensures SameLive(m, m', h)
  {
    forall c | c in h ensures TagsAt(m', h, c) && (c in Live(h) ==> SamePayload(m, m', h, c)) {
      assert TagsAt(m, h, c);
      LinksApart(h, last, b, c);
      LinksApart(h, last, p, c);
      LinksApart(h, last, q, c);
    }
  }

  /** The link words of a free block are no tags, and lie in no live payload. */
  lemma LinksApart(h: Blocks, last: int, b: int, c: int)
    requires Tiled(h, last) && RoomForLinks(h)
    requires FreeAt(h, b) && c in h
    ensures c != b ==> b + 3 < c || c + h[c].size + 2 < b
    ensures h[b].size >= 2
  {
    assert Apart(h, b, c) && Apart(h, c, b);
  }

  /** Writing inside a block without touching its links leaves the ring linked. */
  lemma BlockWritesLinks(m: seq<int>, m': seq<int>, h: Blocks, last: int, a: int, ring: Ring)
    requires Tiled(h, last) && RoomForLinks(h) && Linked(m, ring) && a in h
    requires forall i :: 0 <= i < |ring| ==> FreeAt(h, ring[i])
    requires SameOutside(m, m', h, a)
    requires a in ring && InMemory(m, a) ==> m'[a + 2] == m[a + 2] && m'[a + 3] == m[a + 3]
    ensures Linked(m', ring)
  {
    forall i | 0 <= i < |ring| && InMemory(m, ring[i])
      ensures m'[ring[i] + 2] == m[ring[i] + 2] && m'[ring[i] + 3] == m[ring[i] + 3]
    {
      assert FreeAt(h, ring[i]) && Apart(h, a, ring[i]) && Apart(h, ring[i], a);
    }
    LinkedFrame(m, m', ring);
  }

  /** Writing inside the block of node `k` touches no links of other nodes. */
  lemma BlockWritesOthers(m: seq<int>, m': seq<int>, h: Blocks, last: int, ring: Ring, k: int)
    requires Tiled(h, last) && RoomForLinks(h) && Linked(m, ring) && Distinct(ring)
    requires forall i :: 0 <= i < |ring| ==> FreeAt(h, ring[i])
    requires 0 <= k < |ring| && SameOutside(m, m', h, ring[k])
    ensures LinkedBut(m', ring, k)
  {
    forall i | 0 <= i < |ring| && i != k && InMemory(m, ring[i])
      ensures m'[ring[i] + 2] == m[ring[i] + 2] && m'[ring[i] + 3] == m[ring[i] + 3]
    {
      assert FreeAt(h, ring[i]) && Apart(h, ring[k], ring[i]) && Apart(h, ring[i], ring[k]);
    }
    LinkedButFrame(m, m', ring, k);
  }

  lemma ClientWriteKeeps(m: seq<int>, m': seq<int>, s: Heap, a: int, i: int)
    requires Represents(m, HeadOf(s.ring), s)
    requires a in Live(s.blocks) && InPayload(s.blocks, a, i)
    requires SameBut(m, m', {i})
    ensures Represents(m', HeadOf(s.ring), s)
  {
    var h := s.blocks;
    forall c | c in h ensures TagsAt(m', h, c) {
      assert TagsAt(m, h, c) && Apart(h, a, c) && Apart(h, c, a);
    }
    forall k | 0 <= k < |s.ring| && InMemory(m, s.ring[k])
      ensures m'[s.ring[k] + 2] == m[s.ring[k] + 2] && m'[s.ring[k] + 3] == m[s.ring[k] + 3]
    {
      assert FreeAt(h, s.ring[k]) && Apart(h, a, s.ring[k]) && Apart(h, s.ring[k], a);
    }
    LinkedFrame(m, m', s.ring);
  }

  // ---- malloc on memory: each path represents the specified heap ----

  lemma AppendRepresents(m: seq<int>, m': seq<int>, s: Heap, n: int)
    requires Represents(m, HeadOf(s.ring), s) && 0 <= n && s.last + OVERHEAD + n <= |m|
    requires FirstFit(s.blocks, s.ring, n) == |s.ring|
    requires |m| == |m'| && forall i :: 0 <= i < s.last ==> m'[i] == m[i]
    requires m'[s.last] == n && m'[s.last + 1] == 1 && m'[s.last + 2 + n] == n
    ensures Represents(m', HeadOf(s.ring), MallocSpec(s, n, |m|).0)
    ensures SameLive(m, m', s.blocks)
  {
    MallocKeeps(s, n, |m|);
    BumpKeeps(s.blocks, s.last, n);
    var g := Bump(s.blocks, s.last, n);
    forall c | c in g ensures TagsAt(m', g, c) {
      if c != s.last { assert TagsAt(m, s.blocks, c); }
    }
    LinkedFrame(m, m', s.ring);
  }

  lemma ReplaceLinks(m: seq<int>, m': seq<int>, g: Blocks, last: int, ring: Ring, k: int, o: int)
    requires Tiled(g, last) && RoomForLinks(g) && Tagged(m, g) && LinkedBut(m, ring, k)
    requires 0 <= k < |ring| && RingOf(g, ring[k := o])
    requires Replaced(m, m', ring, k, o)
    ensures Tagged(m', g) && Linked(m', ring[k := o]) && SameLive(m, m', g)
  {
    var ring' := ring[k := o];
    RingSpaced(g, ring');
    Replace(m, m', ring, k, o);
    assert FreeAt(g, ring'[k]);
    if |ring| == 1 {
      LinkWrites(m, m', g, last, o, o, o);
    } else {
      assert Prev(ring, k) == ring'[if k == 0 then |ring| - 1 else k - 1];
      assert Next(ring, k) == ring'[if k == |ring| - 1 then 0 else k + 1];
      LinkWrites(m, m', g, last, o, Prev(ring, k), Next(ring, k));
    }
  }

  lemma SplitRepresents(m: seq<int>, m': seq<int>, s: Heap, ring: Ring, k: int, o: int)
    requires HeapInv(s, |m|) && Tagged(m, s.blocks) && LinkedBut(m, ring, k)
    requires 0 <= k < |ring| && s.ring == ring[k := o]
    requires Replaced(m, m', ring, k, o)
    ensures Represents(m', HeadOf(s.ring), s)
    ensures SameLive(m, m', s.blocks)
  {
    ReplaceLinks(m, m', s.blocks, s.last, ring, k, o);
  }

  /** The tag writes of a split, before the links are rewritten. */
  lemma SplitTagsOnMemory(m: seq<int>, m0: seq<int>, m': seq<int>, h: Blocks, last: int, ring: Ring, k: int, n: int)
    requires Tiled(h, last) && last <= |m| && RoomForLinks(h)
    requires Tagged(m, h) && Linked(m, ring) && Distinct(ring)
    requires forall i :: 0 <= i < |ring| ==> FreeAt(h, ring[i])
    requires 0 <= k < |ring| && 0 <= n && h[ring[k]].size >= n + SPLIT
    requires TagsWritten(m, m0, ring[k], n, 1)
    requires TagsWritten(m0, m', ring[k] + n + OVERHEAD, h[ring[k]].size - n - OVERHEAD, 0)
    ensures Tagged(m', Carve(h, ring[k], n))
    ensures LinkedBut(m', ring, k)
    ensures SameLive(m, m', h)
  {
    var a := ring[k];
    assert SameOutside(m, m', h, a);
    assert m'[a] == n && m'[a + 1] == 1 && m'[a + n + 2] == n;
    SplitTags(m, m', h, last, a, n);
    BlockWrites(m, m', h, last, a);
    BlockWritesOthers(m, m', h, last, ring, k);
  }

  lemma SplitDone(m: seq<int>, m0: seq<int>, m1: seq<int>, m': seq<int>, s: Heap, k: int, n: int, s': Heap)
    requires Represents(m, HeadOf(s.ring), s) && 0 <= n
    requires 0 <= k < |s.ring| && s.blocks[s.ring[k]].size >= n + SPLIT
    requires TagsWritten(m, m0, s.ring[k], n, 1)
    requires TagsWritten(m0, m1, s.ring[k] + n + OVERHEAD, s.blocks[s.ring[k]].size - n - OVERHEAD, 0)
    requires Replaced(m1, m', s.ring, k, s.ring[k] + n + OVERHEAD)
    requires s' == Heap(Carve(s.blocks, s.ring[k], n), AfterCarve(s.blocks, s.ring, k, n), s.last)
    ensures Represents(m', HeadOf(s'.ring), s')
    ensures SameLive(m, m', s.blocks)
  {
    hide Replaced, SameLive, Tagged, Linked, Tiled;
    SplitKeeps(s, k, n, |m|);
    SplitTagsOnMemory(m, m0, m1, s.blocks, s.last, s.ring, k, n);
    SplitRepresents(m1, m', s', s.ring, k, s.ring[k] + n + OVERHEAD);
    SameLiveThrough(m, m1, m', s.blocks, s'.blocks);
  }

  /** Node `k` is taken out of the ring. */
  ghost predicate Unlinked(m: seq<int>, m': seq<int>, ring: Ring, k: int)
    requires 0 <= k < |ring|
  {
    if |ring| == 1 then m' == m else Spliced(m, m', ring, k)
  }

  lemma UnlinkKeeps(m: seq<int>, m': seq<int>, h: Blocks, last: int, ring: Ring, k: int)
    requires Tiled(h, last) && RoomForLinks(h) && Tagged(m, h) && Linked(m, ring)
    requires Spaced(ring) && 0 <= k < |ring|
    requires |ring| > 1 ==> FreeAt(h, Prev(ring, k)) && FreeAt(h, Next(ring, k))
    requires Unlinked(m, m', ring, k)
    ensures Tagged(m', h) && Linked(m', Without(ring, k)) && SameLive(m, m', h)
  {
    if |ring| > 1 {
      Splice(m, m', ring, k);
      LinkWrites(m, m', h, last, Prev(ring, k), Prev(ring, k), Next(ring, k));
    }
  }

  lemma TakeTags(m: seq<int>, m': seq<int>, h: Blocks, last: int, ring: Ring, a: int, n: int)
    requires Tiled(h, last) && last <= |m| && RoomForLinks(h) && Tagged(m, h) && Linked(m, ring)
    requires forall i :: 0 <= i < |ring| ==> FreeAt(h, ring[i])
    requires FreeAt(h, a) && h[a].size < n + SPLIT
    requires SameBut(m, m', {a + 1}) && m'[a + 1] == 1
    ensures Tagged(m', Carve(h, a, n)) && Linked(m', ring) && SameLive(m, m', h)
  {
    BlockWrites(m, m', h, last, a);
    BlockWritesLinks(m, m', h, last, a, ring);
    assert TagsAt(m, h, a);
    var g := Carve(h, a, n);
    forall c | c in g ensures TagsAt(m', g, c) {
      if c != a { assert TagsAt(m', h, c); }
    }
  }

  lemma TakeKeeps(s: Heap, k: int, n: int, capacity: int)
    requires HeapInv(s, capacity) && 0 <= n
    requires 0 <= k < |s.ring| && n <= s.blocks[s.ring[k]].size < n + SPLIT
    ensures HeapInv(Heap(Carve(s.blocks, s.ring[k], n), Without(s.ring, k), s.last), capacity)
    ensures LiveKept(s.blocks, Carve(s.blocks, s.ring[k], n))
    ensures |s.ring| > 1 ==>
      FreeAt(Carve(s.blocks, s.ring[k], n), Prev(s.ring, k)) && FreeAt(Carve(s.blocks, s.ring[k], n), Next(s.ring, k))
  {
    CarveKeeps(s.blocks, s.last, s.ring[k], n);
    RingAfterTake(s.blocks, s.ring, k, n);
  }

  lemma TakeDone(m: seq<int>, m0: seq<int>, m': seq<int>, s: Heap, k: int, n: int, s': Heap)
    requires Represents(m, HeadOf(s.ring), s) && 0 <= n
    requires 0 <= k < |s.ring| && n <= s.blocks[s.ring[k]].size < n + SPLIT
    requires SameBut(m, m0, {s.ring[k] + 1}) && s.ring[k] + 1 < |m| && m0[s.ring[k] + 1] == 1
    requires Unlinked(m0, m', s.ring, k)
    requires s' == Heap(Carve(s.blocks, s.ring[k], n), AfterCarve(s.blocks, s.ring, k, n), s.last)
    ensures Represents(m', HeadOf(s'.ring), s')
    ensures SameLive(m, m', s.blocks)
  {
    TakeKeeps(s, k, n, |m|);
    RingSpaced(s.blocks, s.ring);
    TakeTags(m, m0, s.blocks, s.last, s.ring, s.ring[k], n);
    UnlinkKeeps(m0, m', s'.blocks, s.last, s.ring, k);
    SameLiveThrough(m, m0, m', s.blocks, s'.blocks);
  }

  // ---- free on memory ----

  lemma ReleaseTags(m: seq<int>, m': seq<int>, s: Heap, a: int, ring: Ring)
    requires HeapInv(s, |m|) && Tagged(m, s.blocks) && Linked(m, ring)
    requires a in Live(s.blocks) && MergedSize(s.blocks, a) >= 2
    requires TagsWritten(m, m', MergedAt(s.blocks, a), MergedSize(s.blocks, a), 0)
    requires forall i :: 0 <= i < |ring| ==> FreeAt(s.blocks, ring[i]) && ring[i] !in Absorbed(s.blocks, a)
    ensures Tagged(m', Release(s.blocks, a))
    ensures Linked(m', ring)
    ensures SameLive(m, m', Release(s.blocks, a))
  {
    ReleaseTagged(m, m', s.blocks, s.last, a);
    ReleaseIs(s.blocks, s.last, a);
    ReleaseHeap(s, a, |m|);
    var g, x := Release(s.blocks, a), MergedAt(s.blocks, a);
    assert forall i :: 0 <= i < |ring| ==> FreeAt(g, ring[i]) && ring[i] != x;
    BlockWritesLinks(m, m', g, s.last, x, ring);
  }

  lemma PushDone(m: seq<int>, m': seq<int>, s: Heap, ring: Ring, x: int)
    requires HeapInv(s, |m|) && Tagged(m, s.blocks) && Linked(m, ring)
    requires s.ring == [x] + ring
    requires Pushed(m, m', ring, x)
    ensures Represents(m', x, s)
    ensures SameLive(m, m', s.blocks)
  {
    RingSpaced(s.blocks, s.ring);
    assert s.ring[0] == x;
    Push(m, m', ring, x);
    if ring == [] {
      LinkWrites(m, m', s.blocks, s.last, x, x, x);
    } else {
      assert Prev(ring, 0) == s.ring[|ring|] && ring[0] == s.ring[1];
      LinkWrites(m, m', s.blocks, s.last, x, Prev(ring, 0), ring[0]);
    }
  }

  /** The links of node `k`, as read from memory. */
  ghost predicate LinkReads(m: seq<int>, ring: Ring, k: int) {
    && 0 <= k < |ring|
    && InMemory(m, ring[k]) && m[ring[k] + 2] == START + Prev(ring, k) && m[ring[k] + 3] == START + Next(ring, k)
    && InMemory(m, Prev(ring, k)) && InMemory(m, Next(ring, k))
  }

  /** The block of node `k`, as read from memory, and its place apart from its neighbours in the ring. */
  ghost predicate BlockReads(m: seq<int>, ring: Ring, k: int) {
    && LinkReads(m, ring, k)
    && 2 <= m[ring[k]] && ring[k] + m[ring[k]] + OVERHEAD <= |m|
    && (|ring| > 1 ==> Prev(ring, k) + 2 <= ring[k] || ring[k] + m[ring[k]] + OVERHEAD <= Prev(ring, k))
    && (|ring| > 1 ==> Next(ring, k) + 2 <= ring[k] || ring[k] + m[ring[k]] + OVERHEAD <= Next(ring, k))
  }

  lemma OnlyHead(ring: Ring, k: int)
    requires Spaced(ring) && 0 <= k < |ring|
    ensures ring[0] == ring[k] <==> k == 0
  {
  }

  lemma TakeReads(m: seq<int>, s: Heap, k: int)
    requires Represents(m, HeadOf(s.ring), s)
    requires 0 <= k < |s.ring|
    ensures Spaced(s.ring) && BlockReads(m, s.ring, k)
    ensures FreeAt(s.blocks, s.ring[k]) && m[s.ring[k]] == s.blocks[s.ring[k]].size
  {
    RingSpaced(s.blocks, s.ring);
    var before, after := if k == 0 then |s.ring| - 1 else k - 1, if k == |s.ring| - 1 then 0 else k + 1;
    assert LinkedAt(m, s.ring, k) && TagsAt(m, s.blocks, s.ring[k]);
    assert LinkedAt(m, s.ring, before) && LinkedAt(m, s.ring, after);
    assert Apart(s.blocks, s.ring[k], s.ring[before]) && Apart(s.blocks, s.ring[before], s.ring[k]);
    assert Apart(s.blocks, s.ring[k], s.ring[after]) && Apart(s.blocks, s.ring[after], s.ring[k]);
  }

  /** What malloc writes when it hands out node `k` of the ring. */
  ghost predicate TakeWrites(m: seq<int>, m0: seq<int>, m1: seq<int>, m': seq<int>, ring: Ring, k: int, n: int)
    requires 0 <= k < |ring| && 0 <= ring[k] < |m|
  {
    var a := ring[k];
    if m[a] >= n + SPLIT then
      && TagsWritten(m, m0, a, n, 1)
      && TagsWritten(m0, m1, a + n + OVERHEAD, m[a] - n - OVERHEAD, 0)
      && Replaced(m1, m', ring, k, a + n + OVERHEAD)
    else
      a + 1 < |m| && SameBut(m, m0, {a + 1}) && m0[a + 1] == 1 && Unlinked(m0, m', ring, k)
  }

  lemma TakeRepresents(m: seq<int>, m0: seq<int>, m1: seq<int>, m': seq<int>, s: Heap, k: int, n: int, s': Heap)
    requires Represents(m, HeadOf(s.ring), s) && 0 <= n
    requires 0 <= k < |s.ring| && n <= s.blocks[s.ring[k]].size == m[s.ring[k]]
    requires TakeWrites(m, m0, m1, m', s.ring, k, n)
    requires s' == Heap(Carve(s.blocks, s.ring[k], n), AfterCarve(s.blocks, s.ring, k, n), s.last)
    ensures Represents(m', HeadOf(s'.ring), s')
    ensures SameLive(m, m', s.blocks)
  {
    if m[s.ring[k]] >= n + SPLIT {
      SplitDone(m, m0, m1, m', s, k, n, s');
    } else {
      TakeDone(m, m0, m', s, k, n, s');
    }
  }

  /** Free at work: the tags still describe heap `s`, but the ring has already lost some nodes. */
  ghost predicate Stage(m: seq<int>, head: int, s: Heap, ring: Ring) {
    && HeapInv(s, |m|)
    && Tagged(m, s.blocks)
    && Linked(m, ring)
    && head == HeadOf(ring)
    && FreeNodes(s.blocks, ring)
  }

  ghost predicate FreeNodes(h: Blocks, ring: Ring) {
    Distinct(ring) && forall i :: 0 <= i < |ring| ==> FreeAt(h, ring[i])
  }

  lemma StageReads(m: seq<int>, head: int, s: Heap, ring: Ring, k: int)
    requires Stage(m, head, s, ring) && 0 <= k < |ring|
    ensures Spaced(ring) && LinkReads(m, ring, k)
  {
    RingSpaced(s.blocks, ring);
    assert LinkedAt(m, ring, k);
    assert LinkedAt(m, ring, if k == 0 then |ring| - 1 else k - 1);
    assert LinkedAt(m, ring, if k == |ring| - 1 then 0 else k + 1);
  }

  lemma StageDrops(m: seq<int>, m': seq<int>, head: int, s: Heap, ring: Ring, k: int)
    requires Stage(m, head, s, ring) && 0 <= k < |ring|
    requires Unlinked(m, m', ring, k)
    ensures Stage(m', HeadOf(Without(ring, k)), s, Without(ring, k))
    ensures SameLive(m, m', s.blocks)
  {
    StageReads(m, head, s, ring, k);
    UnlinkKeeps(m, m', s.blocks, s.last, ring, k);
  }

  lemma StageDropsAll(m: seq<int>, head: int, s: Heap, ring: Ring, k: int)
    requires Stage(m, head, s, ring) && 0 <= k < |ring|
    ensures forall m' :: Unlinked(m, m', ring, k) ==>
      Stage(m', HeadOf(Without(ring, k)), s, Without(ring, k)) && SameLive(m, m', s.blocks)
  {
    forall m' | Unlinked(m, m', ring, k)
      ensures Stage(m', HeadOf(Without(ring, k)), s, Without(ring, k)) && SameLive(m, m', s.blocks)
    {
      StageDrops(m, m', head, s, ring, k);
    }
  }

  /** What free reads of block `a` and of its right neighbour. */
  lemma ReadRight(m: seq<int>, head: int, s: Heap, ring: Ring, a: int)
    requires Stage(m, head, s, ring) && a in s.blocks
    ensures 0 <= a && a + 2 < |m| && m[a] == s.blocks[a].size && (m[a + 1] == 0 <==> s.blocks[a].free)
    ensures End(s.blocks, a) < s.last <==> End(s.blocks, a) in s.blocks
    ensures var e := End(s.blocks, a); e in s.blocks ==>
      0 <= e && e + 1 < |m| && m[e] == s.blocks[e].size && (m[e + 1] == 0 <==> s.blocks[e].free)
  {
    assert TagsAt(m, s.blocks, a);
    var e := End(s.blocks, a);
    if e in s.blocks { assert TagsAt(m, s.blocks, e); }
  }

  /** What free reads of the left neighbour of block `a`, found through its footer. */
  lemma ReadLeft(m: seq<int>, head: int, s: Heap, ring: Ring, a: int)
    requires Stage(m, head, s, ring) && a in s.blocks && a > 0
    ensures var p := Before(s.blocks, a);
      && a <= |m| && p == a - OVERHEAD - m[a - 1] && p in s.blocks && 0 <= p && p + 1 < |m|
      && m[a - 1] == s.blocks[p].size && (m[p + 1] == 0 <==> s.blocks[p].free)
      && (FreeLeft(s.blocks, a) <==> s.blocks[p].free)
  {
    BeforeIs(s.blocks, s.last, a);
    assert TagsAt(m, s.blocks, Before(s.blocks, a));
  }

  /** The merged block lies in the arena, and has room for the links of the ring it joins. */
  lemma MergedRoom(m: seq<int>, head: int, s: Heap, a: int)
    requires a in Live(s.blocks) && MergedSize(s.blocks, a) >= 2 && Stage(m, head, s, Neighbourless(s, a))
    ensures var x, n := MergedAt(s.blocks, a), MergedSize(s.blocks, a);
      0 <= x && 2 <= n && x + n + OVERHEAD <= |m|
    ensures Spaced([MergedAt(s.blocks, a)] + Neighbourless(s, a))
    ensures NULL !in Neighbourless(s, a) && HeadOf(Neighbourless(s, a)) != MergedAt(s.blocks, a)
  {
    ReleaseHeap(s, a, |m|);
    ReleaseIs(s.blocks, s.last, a);
    var ring := [MergedAt(s.blocks, a)] + Neighbourless(s, a);
    RingSpaced(Release(s.blocks, a), ring);
    assert ring[0] == MergedAt(s.blocks, a);
    if |ring| > 1 { assert ring[1] == HeadOf(Neighbourless(s, a)); }
  }

  lemma MergedTags(m: seq<int>, m1: seq<int>, head: int, s: Heap, a: int)
    requires a in Live(s.blocks) && MergedSize(s.blocks, a) >= 2 && Stage(m, head, s, Neighbourless(s, a))
    requires TagsWritten(m, m1, MergedAt(s.blocks, a), MergedSize(s.blocks, a), 0)
    ensures HeapInv(Heap(Release(s.blocks, a), [MergedAt(s.blocks, a)] + Neighbourless(s, a), s.last), |m1|)
    ensures Tagged(m1, Release(s.blocks, a))
    ensures Linked(m1, Neighbourless(s, a))
    ensures SameLive(m, m1, Release(s.blocks, a))
  {
    ReleaseHeap(s, a, |m|);
    NeighbourlessNodes(s, a);
    ReleaseTags(m, m1, s, a, Neighbourless(s, a));
  }

  lemma FreeDone(m: seq<int>, m1: seq<int>, m': seq<int>, s: Heap, a: int, s': Heap)
    requires a in Live(s.blocks)
    requires s' == Heap(Release(s.blocks, a), [MergedAt(s.blocks, a)] + Neighbourless(s, a), s.last)
    requires HeapInv(s', |m1|) && Tagged(m1, s'.blocks) && Linked(m1, Neighbourless(s, a))
    requires SameLive(m, m1, s'.blocks)
    requires Pushed(m1, m', Neighbourless(s, a), MergedAt(s.blocks, a))
    ensures Represents(m', MergedAt(s.blocks, a), s')
    ensures SameLive(m, m', s'.blocks)
  {
    PushDone(m1, m', s', Neighbourless(s, a), MergedAt(s.blocks, a));
    SameLiveThrough(m, m1, m', s'.blocks, s'.blocks);
  }

  lemma SameLiveAfterFree(m: seq<int>, m1: seq<int>, m2: seq<int>, m': seq<int>, s: Heap, a: int)
    requires HeapInv(s, s.last) && a in Live(s.blocks)
    requires SameLive(m, m1, s.blocks) && SameLive(m1, m2, s.blocks) && SameLive(m2, m', Release(s.blocks, a))
    ensures SameLive(m, m', Release(s.blocks, a))
  {
    ReleaseLive(s.blocks, s.last, a);
    var g := Release(s.blocks, a);
    forall c | c in Live(g) ensures SamePayload(m, m', g, c) {
      assert SamePayload(m, m1, s.blocks, c) && SamePayload(m1, m2, s.blocks, c) && SamePayload(m2, m', g, c);
    }
  }

  lemma NeighbourlessNodes(s: Heap, a: int)
    requires a in Live(s.blocks) && RingOf(s.blocks, s.ring)
    ensures var ring := Neighbourless(s, a);
      forall i :: 0 <= i < |ring| ==> FreeAt(s.blocks, ring[i]) && ring[i] !in Absorbed(s.blocks, a)
  {
    MinusElements(s.ring, End(s.blocks, a));
    MinusElements(Minus(s.ring, End(s.blocks, a)), Before(s.blocks, a));
    var ring := Neighbourless(s, a);
    forall i | 0 <= i < |ring| ensures FreeAt(s.blocks, ring[i]) && ring[i] !in Absorbed(s.blocks, a) {
      assert ring[i] in ring;
      assert ring[i] in s.ring;
    }
  }

  /** The size of block `a` after it absorbed a free right neighbour. */
  ghost function RightSize(h: Blocks, a: int): int
    requires a in h
  {
    if FreeAt(h, End(h, a)) then h[a].size + h[End(h, a)].size + OVERHEAD else h[a].size
  }

  lemma StageNode(m: seq<int>, head: int, s: Heap, e: int)
    requires Stage(m, head, s, s.ring)
    ensures e in s.ring <==> FreeAt(s.blocks, e)
    ensures e !in s.ring ==> Minus(s.ring, e) == s.ring
  {
    if e !in s.ring { MinusNone(s.ring, e); }
  }

  lemma LeftNode(s: Heap, a: int)
    requires HeapInv(s, s.last) && a in Live(s.blocks)
    ensures var p, ring := Before(s.blocks, a), Minus(s.ring, End(s.blocks, a));
      && (p in ring <==> FreeLeft(s.blocks, a))
      && (p !in ring ==> Neighbourless(s, a) == ring)
      && (a == 0 ==> p == NULL)
  {
    var e, p := End(s.blocks, a), Before(s.blocks, a);
    if a > 0 { BeforeIs(s.blocks, s.last, a); } else { BeforeNone(s.blocks, s.last); }
    MinusElements(s.ring, e);
    assert p in s.ring <==> FreeAt(s.blocks, p);
    if p !in Minus(s.ring, e) { MinusNone(Minus(s.ring, e), p); }
  }

  class Allocator {
    /** The arena, `size` bytes as 8-byte words. */
    const mem: array<int>
    var head: int
    var last: int
    ghost var heap: Heap

    ghost predicate Valid()
      reads this, mem
    {
      last == heap.last && Represents(mem[..], head, heap)
    }

    constructor (bytes: nat)
      ensures Valid()
      ensures fresh(mem) && mem.Length == bytes / WORD
      ensures heap == Heap(map[], [], 0)
    {
      mem := new int[bytes / WORD];
      head, last := NULL, 0;
      heap := Heap(map[], [], 0);
      new;
      if bytes >= WORD {
        mem[0] := 0;
      }
    }

    method Reset()
      requires Valid()
      modifies this
      ensures Valid()
      ensures heap == Heap(map[], [], 0)
    {
      last := 0;
      head := NULL;
      heap := Heap(map[], [], 0);
    }

    /** The client writes word `i` of a live payload. */
    method ClientWrite(a: int, i: int, v: int)
      requires Valid()
      requires a in Live(heap.blocks) && InPayload(heap.blocks, a, i)
      modifies mem
      ensures Valid()
      ensures heap == old(heap)
      ensures mem[..] == old(mem[..])[i := v]
    {
      mem[i] := v;
      ClientWriteKeeps(old(mem[..]), mem[..], heap, a, i);
    }

    /** Searches the ring from `head` for the first free block that can hold `size` words. */
    method Search(size: int) returns (found: bool, current: int)
      requires Valid()
      ensures found == (FirstFit(heap.blocks, heap.ring, size) < |heap.ring|)
      ensures found ==> current == heap.ring[FirstFit(heap.blocks, heap.ring, size)]
    {
      found, current := false, head;
      FirstFitIs(heap.blocks, heap.ring, size);
      if head != NULL {
        var started := false;
        ghost var k := 0;
        while !started || (current != head && !found)
          invariant 0 <= k <= |heap.ring|
          invariant started <==> k > 0 || found
          invariant forall j :: 0 <= j < k ==> heap.blocks[heap.ring[j]].size < size
          invariant found ==> k < |heap.ring| && heap.blocks[heap.ring[k]].size >= size
          invariant current == if k == |heap.ring| then heap.ring[0] else heap.ring[k]
          decreases |heap.ring| - k, !found
        {
          started := true;
          assert LinkedAt(mem[..], heap.ring, k) && TagsAt(mem[..], heap.blocks, heap.ring[k]);
          if mem[current] >= size {
            found := true;
          } else {
            current := mem[current + 3] - START;
            k := k + 1;
          }
        }
      }
    }

    /** Writes header and footer of the block at `a`. */
    method WriteTags(a: int, size: int, flag: int)
      requires 0 <= a && 0 <= size && a + size + OVERHEAD <= mem.Length
      modifies mem
      ensures TagsWritten(old(mem[..]), mem[..], a, size, flag)
    {
      mem[a + 1] := flag;
      mem[a] := size;
      mem[a + 2 + size] := size;
    }

    /** Puts node `b` in the place of node `old`, whose neighbours are `prev` and `next`. */
    method ReplaceNode(node: int, b: int, prev: int, next: int, ghost ring: Ring, ghost k: int)
      requires InMemory(mem[..], b) && InMemory(mem[..], prev) && InMemory(mem[..], next)
      requires Spaced(ring) && 0 <= k < |ring| && node == ring[k] && prev == Prev(ring, k) && next == Next(ring, k)
      requires next != node ==> b + 2 <= prev || prev + 2 <= b
      requires next != node ==> b + 2 <= next || next + 2 <= b
      modifies mem
      ensures Replaced(old(mem[..]), mem[..], ring, k, b)
    {
      if next == node {
        mem[b + 2] := START + b;
        mem[b + 3] := START + b;
      } else {
        mem[b + 2] := START + prev;
        mem[b + 3] := START + next;
        mem[prev + 3] := START + b;
        mem[next + 2] := START + b;
      }
    }

    /** Takes `node` out of the ring. */
    method Unlink(node: int, ghost ring: Ring, ghost k: int)
      requires LinkReads(mem[..], ring, k) && Spaced(ring) && node == ring[k]
      requires head == HeadOf(ring)
      modifies mem, this`head
      ensures Unlinked(old(mem[..]), mem[..], ring, k)
      ensures head == HeadOf(Without(ring, k))
    {
      var prev := mem[node + 2] - START;
      var next := mem[node + 3] - START;
      if next == node {
        head := NULL;
      } else {
        mem[prev + 3] := START + next;
        mem[next + 2] := START + prev;
        if head == node {
          head := next;
        }
      }
    }

    /** Puts node `b` at the head of the ring. */
    method PushNode(b: int, ghost ring: Ring)
      requires Linked(mem[..], ring) && head == HeadOf(ring) && head != b && NULL !in ring
      requires InMemory(mem[..], b) && Spaced([b] + ring)
      modifies mem, this`head
      ensures Pushed(old(mem[..]), mem[..], ring, b)
      ensures head == b
    {
      if head == NULL {
        mem[b + 2] := START + b;
        mem[b + 3] := START + b;
      } else {
        assert LinkedAt(mem[..], ring, 0) && LinkedAt(mem[..], ring, |ring| - 1);
        assert ([b] + ring)[0] == b && ([b] + ring)[1] == ring[0] && ([b] + ring)[|ring|] == ring[|ring| - 1];
        var tail := mem[head + 2] - START;
        mem[b + 2] := START + tail;
        mem[b + 3] := START + head;
        mem[tail + 3] := START + b;
        mem[head + 2] := START + b;
      }
      head := b;
    }

    /** Splits the block of `original` words at `current`; the rest becomes node `k` of the ring. */
    method SplitOff(current: int, size: int, original: int, prev: int, next: int, ghost ring: Ring, ghost k: int)
      returns (ghost m0: seq<int>, ghost m1: seq<int>)
      requires 0 <= current && 0 <= size && size + SPLIT <= original && current + original + OVERHEAD <= mem.Length
      requires Spaced(ring) && 0 <= k < |ring| && current == ring[k] && prev == Prev(ring, k) && next == Next(ring, k)
      requires InMemory(mem[..], prev) && InMemory(mem[..], next)
      requires |ring| > 1 ==> prev + 2 <= current || current + original + OVERHEAD <= prev
      requires |ring| > 1 ==> next + 2 <= current || current + original + OVERHEAD <= next
      modifies mem, this`head
      ensures TagsWritten(old(mem[..]), m0, current, size, 1)
      ensures TagsWritten(m0, m1, current + size + OVERHEAD, original - size - OVERHEAD, 0)
      ensures Replaced(m1, mem[..], ring, k, current + size + OVERHEAD)
      ensures head == if old(head) == current then current + size + OVERHEAD else old(head)
    {
      var other := current + size + OVERHEAD;
      WriteTags(current, size, 1);
      m0 := mem[..];
      WriteTags(other, original - size - OVERHEAD, 0);
      m1 := mem[..];
      ReplaceNode(current, other, prev, next, ring, k);
      if head == current {
        head := other;
      }
    }

    /** Hands out the free block `current`, node `k` of the ring, split if what is left is large
        enough. Returns the memory between the writes. */
    method Take(current: int, size: int, ghost ring: Ring, ghost k: int)
      returns (p: int, ghost m0: seq<int>, ghost m1: seq<int>)
      requires BlockReads(mem[..], ring, k) && Spaced(ring) && current == ring[k]
      requires head == HeadOf(ring) && 0 <= size
      modifies mem, this`head
      ensures p == current + 2
      ensures TakeWrites(old(mem[..]), m0, m1, mem[..], ring, k, size)
      ensures head == HeadOf(if old(mem[current]) >= size + SPLIT then ring[k := current + size + OVERHEAD]
                             else Without(ring, k))
    {
      hide TagsWritten, Replaced, Unlinked, Spaced;
      OnlyHead(ring, k);
      p := current + 2;
      var prev := mem[current + 2] - START;
      var next := mem[current + 3] - START;
      var original := mem[current];
      if original >= size + SPLIT {
        m0, m1 := SplitOff(current, size, original, prev, next, ring, k);
      } else {
        mem[current + 1] := 1;
        m0, m1 := mem[..], mem[..];
        Unlink(current, ring, k);
      }
    }

    /** Reuses the free block `current`, found by the search. */
    method Reuse(current: int, size: int) returns (p: int)
      requires Valid() && 0 <= size
      requires FirstFit(heap.blocks, heap.ring, size) < |heap.ring|
      requires current == heap.ring[FirstFit(heap.blocks, heap.ring, size)]
      modifies this, mem
      ensures Valid()
      ensures (heap, p) == MallocSpec(old(heap), size, mem.Length)
      ensures SameLive(old(mem[..]), mem[..], old(heap.blocks))
    {
      hide Carve, TakeWrites, Linked, Tagged, SameLive, WellFormed;
      ghost var s, m, k := heap, mem[..], FirstFit(heap.blocks, heap.ring, size);
      FirstFitIs(s.blocks, s.ring, size);
      TakeReads(m, s, k);
      ghost var m0, m1;
      p, m0, m1 := Take(current, size, s.ring, k);
      heap := Heap(Carve(s.blocks, current, size), AfterCarve(s.blocks, s.ring, k, size), last);
      TakeRepresents(m, m0, m1, mem[..], s, k, size, heap);
    }

    method Malloc(bytes: nat) returns (p: int)
      requires Valid()
      modifies this, mem
      ensures Valid()
      ensures (heap, p) == MallocSpec(old(heap), Words(bytes), mem.Length)
      ensures SameLive(old(mem[..]), mem[..], old(heap.blocks))
    {
      var size := Words(bytes);
      ghost var s, m := heap, mem[..];
      var found, current := Search(size);
      if found {
        p := Reuse(current, size);
        return;
      }
      if last + OVERHEAD + size > mem.Length {
        return NULL;
      }
      p := last + 2;
      WriteTags(last, size, 1);
      last := last + size + OVERHEAD;
      heap := Heap(Bump(s.blocks, s.last, size), s.ring, last);
      AppendRepresents(m, mem[..], s, size);
    }

    /** Takes the free block `node` out of the ring, during a free. */
    method DropNode(node: int, ghost s: Heap, ghost ring: Ring)
      requires Stage(mem[..], head, s, ring) && node in ring
      modifies mem, this`head
      ensures Stage(mem[..], head, s, Minus(ring, node))
      ensures SameLive(old(mem[..]), mem[..], s.blocks)
    {
      ghost var k :| 0 <= k < |ring| && ring[k] == node;
      StageReads(mem[..], head, s, ring, k);
      MinusIs(ring, node, k);
      StageDropsAll(mem[..], head, s, ring, k);
      Unlink(node, ring, k);
    }

    /** Absorbs the block right of `header` if it is free. */
    method AbsorbRight(header: int, ghost s: Heap) returns (size: int)
      requires header in Live(s.blocks) && Stage(mem[..], head, s, s.ring) && last == s.last
      requires 0 <= header && header + 2 < mem.Length && mem[header] == s.blocks[header].size
      modifies mem, this`head
      ensures Stage(mem[..], head, s, Minus(s.ring, End(s.blocks, header)))
      ensures SameLive(old(mem[..]), mem[..], s.blocks)
      ensures size == RightSize(s.blocks, header)
    {
      ghost var e, m := End(s.blocks, header), mem[..];
      ReadRight(mem[..], head, s, s.ring, header);
      StageNode(m, head, s, e);
      size := mem[header];
      var nextHdr := header + 2 + size + 1;
      if nextHdr < last && mem[nextHdr + 1] == 0 {
        DropNode(nextHdr, s, s.ring);
        ReadRight(mem[..], head, s, Minus(s.ring, nextHdr), header);
        size := size + mem[nextHdr] + OVERHEAD;
      }
    }

    /** Lets the block left of `header` absorb it, if that one is free. */
    method AbsorbLeft(header: int, size: int, ghost s: Heap) returns (hdr: int, total: int)
      requires header in Live(s.blocks) && size == RightSize(s.blocks, header)
      requires Stage(mem[..], head, s, Minus(s.ring, End(s.blocks, header)))
      modifies mem, this`head
      ensures Stage(mem[..], head, s, Neighbourless(s, header))
      ensures SameLive(old(mem[..]), mem[..], s.blocks)
      ensures hdr == MergedAt(s.blocks, header) && total == MergedSize(s.blocks, header)
    {
      hdr, total := header, size;
      ghost var ring := Minus(s.ring, End(s.blocks, header));
      LeftNode(s, header);
      if header > 0 {
        ReadLeft(mem[..], head, s, ring, header);
        var prevSize := mem[header - 1];
        var prevHdr := header - OVERHEAD - prevSize;
        if mem[prevHdr + 1] == 0 {
          DropNode(prevHdr, s, ring);
          hdr, total := prevHdr, size + prevSize + OVERHEAD;
        }
      }
    }

    /** Writes the tags of the merged block and pushes it on the ring. */
    method InsertMerged(header: int, size: int, ghost s: Heap, ghost a: int)
      requires a in Live(s.blocks) && MergedSize(s.blocks, a) >= 2
      requires Stage(mem[..], head, s, Neighbourless(s, a))
      requires header == MergedAt(s.blocks, a) && size == MergedSize(s.blocks, a)
      modifies mem, this`head
      ensures Represents(mem[..], head, Heap(Release(s.blocks, a), [header] + Neighbourless(s, a), s.last))
      ensures SameLive(old(mem[..]), mem[..], Release(s.blocks, a))
    {
      ghost var m, ring := mem[..], Neighbourless(s, a);
      MergedRoom(m, head, s, a);
      WriteTags(header, size, 0);
      ghost var m1 := mem[..];
      MergedTags(m, m1, head, s, a);
      PushNode(header, ring);
      FreeDone(m, m1, mem[..], s, a, Heap(Release(s.blocks, a), [header] + ring, s.last));
    }

    method Free(p: int) returns (r: int)
      requires Valid() && Freeable(heap, p)
      modifies this, mem
      ensures Valid()
      ensures (heap, r) == FreeSpec(old(heap), p)
      ensures SameLive(old(mem[..]), mem[..], heap.blocks)
    {
      if p < 2 || p >= last {
        return 1;
      }
      var header := p - 2;
      ghost var s, m := heap, mem[..];
      ReadRight(m, head, s, s.ring, header);
      if mem[header + 1] == 0 {
        return 1;
      }
      var size := AbsorbRight(header, s);
      ghost var m1 := mem[..];
      header, size := AbsorbLeft(header, size, s);
      ghost var m2 := mem[..];
      InsertMerged(header, size, s, p - 2);
      heap := Heap(Release(s.blocks, p - 2), [header] + Neighbourless(s, p - 2), s.last);
      SameLiveAfterFree(m, m1, m2, mem[..], s, p - 2);
      return 0;
    }
  }
}
