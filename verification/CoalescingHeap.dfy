/**
 The implicit free list allocator with coalescing,
 `1_mem_allocator/implicit_free_list_coalasce/allocator.c`: it finds free blocks by walking all
 blocks in address order.
 */
module CoalescingHeap {
  import opened BlockHeap
  import opened BoundaryTags
  import opened Memory

  datatype Heap = Heap(blocks: Blocks, last: int)

  ghost predicate HeapInv(s: Heap, capacity: int) {
    WellFormed(s.blocks, s.last) && s.last <= capacity
  }

  /** Block `a` is the free block of lowest address that can hold `n` words. */
  ghost predicate Lowest(h: Blocks, n: int, a: int) {
    && FreeAt(h, a) && h[a].size >= n
    && forall b :: FreeAt(h, b) && h[b].size >= n ==> a <= b
  }

  ghost function MallocSpec(s: Heap, n: int, capacity: int): (r: (Heap, int)) {
    if exists a :: Lowest(s.blocks, n, a) then
      var a :| Lowest(s.blocks, n, a);
      (Heap(Carve(s.blocks, a, n), s.last), a + 2)
    else if s.last + n + OVERHEAD > capacity then
      (s, NULL)
    else
      (Heap(Bump(s.blocks, s.last, n), s.last + n + OVERHEAD), s.last + 2)
  }

  /** What callers may pass to free: an address out of range, or the payload of a current block. */
  ghost predicate Freeable(s: Heap, p: int) {
    p < 2 || p >= s.last || p - 2 in s.blocks
  }

  ghost function FreeSpec(s: Heap, p: int): (r: (Heap, int))
    requires Freeable(s, p)
  {
    if p < 2 || p >= s.last then (s, 1)
    else if s.blocks[p - 2].free then (s, 1)
    else (Heap(Release(s.blocks, p - 2), s.last), 0)
  }

  lemma MallocKeeps(s: Heap, n: int, capacity: int)
    requires HeapInv(s, capacity) && 0 <= n
    ensures HeapInv(MallocSpec(s, n, capacity).0, capacity)
  {
    if exists a :: Lowest(s.blocks, n, a) {
      var a :| Lowest(s.blocks, n, a) && MallocSpec(s, n, capacity).0 == Heap(Carve(s.blocks, a, n), s.last);
      CarveKeeps(s.blocks, s.last, a, n);
    } else {
      BumpKeeps(s.blocks, s.last, n);
    }
  }

  lemma FreeKeeps(s: Heap, p: int, capacity: int)
    requires HeapInv(s, capacity) && Freeable(s, p)
    ensures HeapInv(FreeSpec(s, p).0, capacity)
  {
    if 2 <= p < s.last && !s.blocks[p - 2].free {
      ReleaseKeeps(s.blocks, s.last, p - 2);
    }
  }

  // ---- the heap in memory ----

  /** The ghost heap `s` is what memory `m` holds. */
  ghost predicate Represents(m: seq<int>, s: Heap) {
    HeapInv(s, |m|) && Tagged(m, s.blocks)
  }

  lemma ClientWriteKeeps(m: seq<int>, m': seq<int>, s: Heap, a: int, i: int)
    requires Represents(m, s)
    requires a in Live(s.blocks) && InPayload(s.blocks, a, i)
    requires SameBut(m, m', {i})
    ensures Represents(m', s)
  {
    var h := s.blocks;
    forall c | c in h ensures TagsAt(m', h, c) {
      assert TagsAt(m, h, c) && Apart(h, a, c) && Apart(h, c, a);
    }
  }

  lemma AppendRepresents(m: seq<int>, m': seq<int>, s: Heap, n: int)
    requires Represents(m, s) && 0 <= n && s.last + n + OVERHEAD <= |m|
    requires TagsWritten(m, m', s.last, n, 1)
    ensures Represents(m', Heap(Bump(s.blocks, s.last, n), s.last + n + OVERHEAD))
    ensures SameLive(m, m', s.blocks)
  {
    BumpKeeps(s.blocks, s.last, n);
    var g := Bump(s.blocks, s.last, n);
    forall c | c in g && c != s.last ensures TagsAt(m, g, c) {
      assert TagsAt(m, s.blocks, c);
    }
    OwnTags(m, m', g, s.last + n + OVERHEAD, s.last, 1);
    forall c | c in Live(s.blocks) ensures SamePayload(m, m', s.blocks, c) {
      assert SamePayload(m, m', g, c);
    }
  }

  /** What malloc writes when it hands out block `a`, whose header says `size`. */
  ghost predicate TakeWrites(m: seq<int>, m0: seq<int>, m': seq<int>, a: int, size: int, n: int) {
    if size >= n + SPLIT then
      TagsWritten(m, m0, a, n, 1) && TagsWritten(m0, m', a + n + OVERHEAD, size - n - OVERHEAD, 0)
    else
      0 <= a && a + 1 < |m| && SameBut(m, m', {a + 1}) && m'[a + 1] == 1
  }

  lemma TakeRepresents(m: seq<int>, m0: seq<int>, m': seq<int>, s: Heap, a: int, n: int)
    requires Represents(m, s) && FreeAt(s.blocks, a) && 0 <= n <= s.blocks[a].size
    requires TakeWrites(m, m0, m', a, s.blocks[a].size, n)
    ensures Represents(m', Heap(Carve(s.blocks, a, n), s.last))
    ensures SameLive(m, m', s.blocks)
  {
    var h, g := s.blocks, Carve(s.blocks, a, n);
    CarveKeeps(h, s.last, a, n);
    assert TagsAt(m, h, a);
    BlockWrites(m, m', h, s.last, a);
    if h[a].size >= n + SPLIT {
      SplitTags(m, m', h, s.last, a, n);
    } else {
      forall c | c in g ensures TagsAt(m', g, c) {
        if c != a { assert TagsAt(m', h, c); }
      }
    }
  }

  lemma FreeReads(m: seq<int>, s: Heap, a: int)
    requires Represents(m, s) && a in s.blocks
    ensures 0 <= a && a + 2 < |m| && m[a] == s.blocks[a].size && (m[a + 1] == 0 <==> s.blocks[a].free)
    ensures End(s.blocks, a) < s.last <==> End(s.blocks, a) in s.blocks
    ensures var e := End(s.blocks, a); e in s.blocks ==>
      0 <= e && e + 1 < |m| && m[e] == s.blocks[e].size && (m[e + 1] == 0 <==> s.blocks[e].free)
    ensures a == 0 ==> !FreeLeft(s.blocks, a)
    ensures var p := Before(s.blocks, a); a > 0 ==>
      && p == a - OVERHEAD - m[a - 1] && 0 <= p && p + 1 < |m| && p in s.blocks
      && m[a - 1] == s.blocks[p].size && (m[p + 1] == 0 <==> s.blocks[p].free)
      && (FreeLeft(s.blocks, a) <==> s.blocks[p].free)
  {
    assert TagsAt(m, s.blocks, a);
    var e := End(s.blocks, a);
    if e in s.blocks { assert TagsAt(m, s.blocks, e); }
    if a > 0 {
      BeforeIs(s.blocks, s.last, a);
      assert TagsAt(m, s.blocks, Before(s.blocks, a));
    } else {
      BeforeNone(s.blocks, s.last);
    }
  }

  lemma MergedInArena(s: Heap, capacity: int, a: int)
    requires HeapInv(s, capacity) && a in s.blocks
    ensures 0 <= MergedAt(s.blocks, a) && 0 <= MergedSize(s.blocks, a)
    ensures MergedAt(s.blocks, a) + MergedSize(s.blocks, a) + OVERHEAD <= capacity
  {
    ReleaseIs(s.blocks, s.last, a);
    ReleaseTiled(s.blocks, s.last, a);
    assert MergedAt(s.blocks, a) in Release(s.blocks, a);
  }

  class Allocator {
    /** The arena, `size` bytes as 8-byte words. */
    const mem: array<int>
    var last: int
    ghost var heap: Heap

    ghost predicate Valid()
      reads this, mem
    {
      last == heap.last && Represents(mem[..], heap)
    }

    constructor (bytes: nat)
      ensures Valid()
      ensures fresh(mem) && mem.Length == bytes / WORD
      ensures heap == Heap(map[], 0)
    {
      mem := new int[bytes / WORD];
      last := 0;
      heap := Heap(map[], 0);
    }

    method Reset()
      requires Valid()
      modifies this
      ensures Valid()
      ensures heap == Heap(map[], 0)
    {
      last := 0;
      heap := Heap(map[], 0);
    }

    /** The client writes word `i` of a live payload. */
    method ClientWrite(a: int, i: int, v: int)
      requires Valid()
      requires a in Live(heap.blocks) && InPayload(heap.blocks, a, i)
      modifies mem
      ensures Valid()
      ensures heap == old(heap)
      ensures mem[..] == old(mem[..])[i := v]
    {
      mem[i] := v;
      ClientWriteKeeps(old(mem[..]), mem[..], heap, a, i);
    }

    /** Walks the blocks in address order up to the first free one that can hold `size` words;
        `current` is `last` if there is none. */
    method Search(size: int) returns (found: bool, current: int)
      requires Valid() && 0 <= size
      ensures found ==> Lowest(heap.blocks, size, current)
      ensures !found ==> !Fits(heap.blocks, size) && current == last
    {
      ghost var h := heap.blocks;
      found, current := false, 0;
      while !found && current < last
        invariant current in h || current == last
        invariant forall b :: FreeAt(h, b) && h[b].size >= size ==> current <= b
        invariant found ==> Lowest(h, size, current)
        decreases last - current, !found
      {
        assert TagsAt(mem[..], h, current) && End(h, current) > current;
        if mem[current + 1] == 0 && mem[current] >= size {
          found := true;
        } else {
          forall b | FreeAt(h, b) && h[b].size >= size ensures End(h, current) <= b {
            assert Apart(h, current, b);
          }
          current := current + 2 + mem[current] + 1;
        }
      }
    }

    /** Writes header and footer of the block at `a`. */
    method WriteTags(a: int, size: int, flag: int)
      requires 0 <= a && 0 <= size && a + size + OVERHEAD <= mem.Length
      modifies mem
      ensures TagsWritten(old(mem[..]), mem[..], a, size, flag)
    {
      mem[a] := size;
      mem[a + 1] := flag;
      mem[a + 2 + size] := size;
    }

    /** Hands out block `current`, split if the rest is large enough. */
    method Take(current: int, size: int) returns (p: int, ghost m0: seq<int>)
      requires 0 <= current && 0 <= size && current + 1 < mem.Length
      requires 0 <= mem[current] && current + mem[current] + OVERHEAD <= mem.Length
      modifies mem
      ensures p == current + 2
      ensures TakeWrites(old(mem[..]), m0, mem[..], current, old(mem[current]), size)
    {
      p := current + 2;
      var oldSize := mem[current];
      m0 := mem[..];
      if oldSize >= size + SPLIT {
        WriteTags(current, size, 1);
        m0 := mem[..];
        WriteTags(current + size + OVERHEAD, oldSize - size - OVERHEAD, 0);
      } else {
        mem[current + 1] := 1;
      }
    }

    method Malloc(bytes: nat) returns (p: int)
      requires Valid()
      modifies this, mem
      ensures Valid()
      ensures (heap, p) == MallocSpec(old(heap), Words(bytes), mem.Length)
      ensures SameLive(old(mem[..]), mem[..], old(heap.blocks))
    {
      var size := Words(bytes);
      ghost var s, m := heap, mem[..];
      var found, current := Search(size);
      if found {
        assert TagsAt(m, s.blocks, current);
        ghost var m0;
        p, m0 := Take(current, size);
        heap := Heap(Carve(s.blocks, current, size), last);
        TakeRepresents(m, m0, mem[..], s, current, size);
      } else if current + size + OVERHEAD > mem.Length {
        p := NULL;
      } else {
        p := current + 2;
        WriteTags(current, size, 1);
        last := current + size + OVERHEAD;
        heap := Heap(Bump(s.blocks, s.last, size), last);
        AppendRepresents(m, mem[..], s, size);
      }
    }

    /** Finds the block that the block at `header` merges into, and its size. */
    method Merged(header: int) returns (hdr: int, size: int)
      requires Valid() && header in heap.blocks
      ensures hdr == MergedAt(heap.blocks, header) && size == MergedSize(heap.blocks, header)
    {
      FreeReads(mem[..], heap, header);
      hdr, size := header, mem[header];
      var nextHdr := header + 2 + size + 1;
      if nextHdr < last && mem[nextHdr + 1] == 0 {
        size := size + mem[nextHdr] + OVERHEAD;
      }
      if header > 0 {
        var prevSize := mem[header - 1];
        var prevHdr := header - OVERHEAD - prevSize;
        if mem[prevHdr + 1] == 0 {
          size := size + prevSize + OVERHEAD;
          hdr := prevHdr;
        }
      }
    }

    method Free(p: int) returns (r: int)
      requires Valid() && Freeable(heap, p)
      modifies this, mem
      ensures Valid()
      ensures (heap, r) == FreeSpec(old(heap), p)
      ensures SameLive(old(mem[..]), mem[..], heap.blocks)
    {
      if p < 2 || p >= last {
        return 1;
      }
      ghost var s, m, a := heap, mem[..], p - 2;
      assert TagsAt(m, s.blocks, a);
      if mem[p - 1] == 0 {
        return 1;
      }
      var hdr, size := Merged(p - 2);
      MergedInArena(s, mem.Length, a);
      WriteTags(hdr, size, 0);
      heap := Heap(Release(s.blocks, a), last);
      ReleaseTagged(m, mem[..], s.blocks, s.last, a);
      FreeKeeps(s, p, mem.Length);
      return 0;
    }
  }
}
