/**
 What one request promises the clients of the two coalescing allocators.
 */
module HeapTheorems {
  import opened Memory
  import opened BlockHeap
  import E = ExplicitSpec
  import C = CoalescingHeap

  // ---- what one malloc promises ----

  /** The outcome of a request for `n` words: heap `h` with `last` becomes `g` with `last'`, and `p` is
      returned. */
  ghost predicate Granted(h: Blocks, last: int, n: int, capacity: int, g: Blocks, last': int, p: int) {
    if p == NULL then
      // no free block fits and the tail is too short; nothing changes
      !Fits(h, n) && last + n + 3 > capacity && g == h && last' == last
    else
      && p - 2 in g && p - 2 !in Live(h)
      && Live(g) == Live(h) + {p - 2}
      && LiveKept(h, g)
      && 2 <= p && p + g[p - 2].size < last' <= capacity
      // a free block is reused exactly if one fits; otherwise the arena grows by one block
      && (if Fits(h, n) then FreeAt(h, p - 2) && last' == last && HandedOut(h, p - 2, n, g)
          else p - 2 == last && last' == last + n + 3 && Appended(h, last, n, g))
      // no grant is more than four words too large
      && n <= g[p - 2].size < n + 5
      // nobody else's payload shares a word with the new one
      && forall b, i :: b in Live(g) && b != p - 2 && InPayload(g, b, i) ==> !InPayload(g, p - 2, i)
  }

  /** The free block `a` is handed out for `n` words. If it has at least five words more, it is split: what is left
      besides three words of tags becomes a free block right behind. Otherwise it is handed out whole. */
  ghost predicate HandedOut(h: Blocks, a: int, n: int, g: Blocks)
    requires a in h
  {
    var z, o := h[a].size, a + n + 3;
    && OthersStay(h, a, g) && a in g
    && (if z >= n + 5 then
          o !in h && g.Keys == h.Keys + {o} && g[a] == Block(n, false) && g[o] == Block(z - n - 3, true)
        else
          g.Keys == h.Keys && g[a] == Block(z, false))
  }

  ghost predicate Appended(h: Blocks, a: int, n: int, g: Blocks) {
    a !in h && g.Keys == h.Keys + {a} && g[a] == Block(n, false) && OthersStay(h, a, g)
  }

  ghost predicate OthersStay(h: Blocks, a: int, g: Blocks) {
    forall b :: b in h && b != a ==> b in g && g[b] == h[b]
  }

  lemma GrantedByCarve(h: Blocks, last: int, n: int, capacity: int, a: int)
    requires WellFormed(h, last) && last <= capacity && 0 <= n
    requires FreeAt(h, a) && n <= h[a].size
    ensures Granted(h, last, n, capacity, Carve(h, a, n), last, a + 2)
  {
    var g := Carve(h, a, n);
    CarveKeeps(h, last, a, n);
    CarveTiled(h, last, a, n);
    OthersApart(g, last, a);
  }

  lemma GrantedByBump(h: Blocks, last: int, n: int, capacity: int)
    requires WellFormed(h, last) && last + n + OVERHEAD <= capacity && 0 <= n && !Fits(h, n)
    ensures Granted(h, last, n, capacity, Bump(h, last, n), last + n + OVERHEAD, last + 2)
  {
    var g := Bump(h, last, n);
    BumpKeeps(h, last, n);
    OthersApart(g, last + n + OVERHEAD, last);
  }

  lemma OthersApart(g: Blocks, last: int, a: int)
    requires Tiled(g, last) && a in g
    ensures forall b, i :: b in Live(g) && b != a && InPayload(g, b, i) ==> !InPayload(g, a, i)
  {
    forall b, i | b in Live(g) && b != a && InPayload(g, b, i) ensures !InPayload(g, a, i) {
      assert Apart(g, a, b) && Apart(g, b, a);
    }
  }

  /** The ring search of the explicit allocator finds a block exactly when some free block fits. */
  lemma RingFindsFit(s: E.Heap, n: int)
    requires E.RingOf(s.blocks, s.ring)
    ensures E.FirstFit(s.blocks, s.ring, n) < |s.ring| <==> Fits(s.blocks, n)
  {
    E.FirstFitIs(s.blocks, s.ring, n);
    var k := E.FirstFit(s.blocks, s.ring, n);
    forall a | FreeAt(s.blocks, a) && s.blocks[a].size >= n ensures k < |s.ring| {
      assert a in s.ring;
    }
  }

  /** Block `a` is the first in the ring that can hold `n` words. */
  ghost predicate FirstOf(s: E.Heap, n: int, a: int) {
    exists k :: 0 <= k < |s.ring| && s.ring[k] == a && a in s.blocks && s.blocks[a].size >= n
      && forall j :: 0 <= j < k && s.ring[j] in s.blocks ==> s.blocks[s.ring[j]].size < n
  }

  lemma ExplicitMalloc(s: E.Heap, n: int, capacity: int)
    requires E.HeapInv(s, capacity) && 0 <= n
    ensures var (s', p) := E.MallocSpec(s, n, capacity);
      && Granted(s.blocks, s.last, n, capacity, s'.blocks, s'.last, p)
      && (Fits(s.blocks, n) ==> FirstOf(s, n, p - 2))
  {
    RingFindsFit(s, n);
    E.FirstFitIs(s.blocks, s.ring, n);
    var k := E.FirstFit(s.blocks, s.ring, n);
    if k < |s.ring| {
      GrantedByCarve(s.blocks, s.last, n, capacity, s.ring[k]);
    } else if s.last + n + OVERHEAD <= capacity {
      GrantedByBump(s.blocks, s.last, n, capacity);
    }
  }

  /** The walk over all blocks in address order finds a lowest block exactly when some free block fits. */
  lemma {:induction false} WalkFindsFit(h: Blocks, last: int, n: int, from: int)
    requires Tiled(h, last)
    requires from in h && forall b :: FreeAt(h, b) && h[b].size >= n ==> from <= b
    requires Fits(h, n)
    ensures exists a :: C.Lowest(h, n, a)
    decreases last - from
  {
    if FreeAt(h, from) && h[from].size >= n {
      assert C.Lowest(h, n, from);
    } else {
      var a :| a in h && h[a].free && h[a].size >= n;
      assert Apart(h, from, a);
      assert End(h, from) in h;
      forall b | FreeAt(h, b) && h[b].size >= n ensures End(h, from) <= b {
        assert Apart(h, from, b);
      }
      WalkFindsFit(h, last, n, End(h, from));
    }
  }

  lemma CoalescingMalloc(s: C.Heap, n: int, capacity: int)
    requires C.HeapInv(s, capacity) && 0 <= n
    ensures var (s', p) := C.MallocSpec(s, n, capacity);
      && Granted(s.blocks, s.last, n, capacity, s'.blocks, s'.last, p)
      && (p != NULL ==> forall b :: FreeAt(s.blocks, b) && s.blocks[b].size >= n ==> p - 2 <= b)
  {
    if Fits(s.blocks, n) {
      WalkFindsFit(s.blocks, s.last, n, 0);
      var a :| C.Lowest(s.blocks, n, a) && C.MallocSpec(s, n, capacity) == (C.Heap(Carve(s.blocks, a, n), s.last), a + 2);
      GrantedByCarve(s.blocks, s.last, n, capacity, a);
    } else if s.last + n + OVERHEAD <= capacity {
      GrantedByBump(s.blocks, s.last, n, capacity);
    }
  }

  /** On the same heap the two allocators refuse the same requests, and reuse a free block for the
      same requests: the ring search misses nothing that a scan of the whole heap would find. */
  lemma SameRefusals(s: E.Heap, t: C.Heap, n: int, capacity: int)
    requires E.HeapInv(s, capacity) && 0 <= n
    requires t == C.Heap(s.blocks, s.last)
    ensures var (s', p), (t', q) := E.MallocSpec(s, n, capacity), C.MallocSpec(t, n, capacity);
      && (p == NULL <==> q == NULL)
      && (p != NULL && p - 2 < s.last <==> q != NULL && q - 2 < s.last)
      && s'.last == t'.last
  {
    ExplicitMalloc(s, n, capacity);
    CoalescingMalloc(t, n, capacity);
  }
}
