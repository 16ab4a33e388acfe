/**
 The abstract heap shared by the two coalescing allocators
 (`1_mem_allocator/implicit_free_list_coalasce`, `1_mem_allocator/list_explicit_free`).

 Addresses and sizes are counted in 8-byte words from `start_ptr`. A block at header address `a` is
 two header words, `size` payload words and one footer word. `blocks` maps each header address to
 its block; `last` is `last_ptr`.
 */
module BlockHeap {
  import opened Memory
  datatype Block = Block(size: int, free: bool)

  type Blocks = map<int, Block>

  /** Words of header and footer around a payload. */
  const OVERHEAD := 3
  /** A block is split only if the rest can hold header, footer and two payload words. */
  const SPLIT := 5
  ghost function End(h: Blocks, a: int): int
    requires a in h
  {
    a + h[a].size + OVERHEAD
  }

  ghost predicate Placed(h: Blocks, last: int) {
    forall a :: a in h ==> 0 <= a && 0 <= h[a].size && a + h[a].size + OVERHEAD <= last
  }

  /** Block `a` ends before block `b` begins, if it comes first. */
  ghost predicate Apart(h: Blocks, a: int, b: int)
    requires a in h
  {
    a < b ==> a + h[a].size + OVERHEAD <= b
  }

  ghost predicate Disjoint(h: Blocks) {
    forall a, b {:trigger Apart(h, a, b)} :: a in h && b in h ==> Apart(h, a, b)
  }

  ghost predicate Chained(h: Blocks, last: int) {
    forall a {:trigger End(h, a)} :: a in h ==> End(h, a) == last || End(h, a) in h
  }

  /** The blocks tile the words `0..last`: they start at 0, each ends where the next begins or at
      `last`, and no two overlap. */
  ghost predicate Tiled(h: Blocks, last: int) {
    && 0 <= last
    && (last > 0 ==> 0 in h)
    && Placed(h, last)
    && Disjoint(h)
    && Chained(h, last)
  }

  /** No two neighbouring blocks are both free. */
  ghost predicate Coalesced(h: Blocks) {
    forall a, b {:trigger NotBothFree(h, a, b)} :: a in h && b in h ==> NotBothFree(h, a, b)
  }

  ghost predicate NotBothFree(h: Blocks, a: int, b: int)
    requires a in h && b in h
  {
    End(h, a) == b && h[a].free ==> !h[b].free
  }

  ghost predicate WellFormed(h: Blocks, last: int) {
    Tiled(h, last) && Coalesced(h)
  }

  /** The header addresses of the blocks in use. */
  ghost function Live(h: Blocks): set<int> {
    set a | a in h && !h[a].free
  }

  /** The words of the payload of block `a`. */
  ghost predicate InPayload(h: Blocks, a: int, i: int)
    requires a in h
  {
    a + 2 <= i < a + 2 + h[a].size
  }

  /** Some free block can hold `n` words. */
  ghost predicate Fits(h: Blocks, n: int) {
    exists a :: a in h && h[a].free && h[a].size >= n
  }

  // ---- transitions ----

  /** Puts `n` words in the free block `a`; the rest becomes a free block of its own if it is large
      enough, and is handed out with the payload otherwise. */
  ghost function Carve(h: Blocks, a: int, n: int): Blocks
    requires a in h
  {
    if h[a].size >= n + SPLIT
    then h[a := Block(n, false)][a + n + OVERHEAD := Block(h[a].size - n - OVERHEAD, true)]
    else h[a := Block(h[a].size, false)]
  }

  /** Appends a block of `n` words at `last`. */
  ghost function Bump(h: Blocks, last: int, n: int): Blocks {
    h[last := Block(n, false)]
  }

  /** The block that ends where `a` begins, or NULL. */
  ghost function Before(h: Blocks, a: int): (p: int)
    ensures p == NULL || (p in h && End(h, p) == a)
  {
    if exists p :: p in h && End(h, p) == a then var p :| p in h && End(h, p) == a; p else NULL
  }

  ghost predicate FreeAt(h: Blocks, a: int) {
    a in h && h[a].free
  }

  ghost predicate FreeLeft(h: Blocks, a: int) {
    Before(h, a) != NULL && h[Before(h, a)].free
  }

  /** Block `a` absorbs its right neighbour, header and footer words included. */
  ghost function Merge(h: Blocks, a: int): Blocks
    requires a in h && End(h, a) in h
  {
    (h - {End(h, a)})[a := Block(h[a].size + h[End(h, a)].size + OVERHEAD, h[a].free)]
  }

  ghost function MergeRight(h: Blocks, a: int): Blocks
    requires a in h
  {
    if FreeAt(h, End(h, a)) then Merge(h, a) else h
  }

  /** The header of the free block that `a` becomes part of when it is released. */
  ghost function MergedAt(h: Blocks, a: int): int {
    if FreeLeft(h, a) then Before(h, a) else a
  }

  /** Releases block `a`: it absorbs a free right neighbour, and a free left neighbour absorbs it. */
  ghost function Release(h: Blocks, a: int): Blocks
    requires a in h
  {
    var g := MergeRight(h, a)[a := Block(MergeRight(h, a)[a].size, true)];
    if FreeLeft(g, a) then Merge(g, Before(g, a)) else g
  }

  /** Every block in use in `h` is in use in `g`, with the same size. */
  ghost predicate LiveKept(h: Blocks, g: Blocks) {
    forall c :: c in Live(h) ==> c in Live(g) && g[c] == h[c]
  }

  // ---- the tiling ----

  /** Every block but the first has a left neighbour. */
  lemma {:induction false} Neighbour(h: Blocks, last: int, a: int, from: int)
    requires Tiled(h, last)
    requires a in h && from in h && from < a
    ensures exists p :: p in h && End(h, p) == a
    decreases a - from
  {
    assert Apart(h, from, a);
    if End(h, from) != a {
      Neighbour(h, last, a, End(h, from));
    }
  }

  lemma BeforeIs(h: Blocks, last: int, a: int)
    requires Tiled(h, last)
    requires a in h && a > 0
    ensures Before(h, a) in h && Before(h, a) < a && End(h, Before(h, a)) == a
    ensures forall p {:trigger End(h, p)} :: p in h && End(h, p) == a ==> p == Before(h, a)
  {
    assert Apart(h, 0, a);
    Neighbour(h, last, a, 0);
    var q := Before(h, a);
    forall p {:trigger End(h, p)} | p in h && End(h, p) == a ensures p == q {
      assert Apart(h, p, q) && Apart(h, q, p);
    }
  }

  lemma BeforeNone(h: Blocks, last: int)
    requires Tiled(h, last)
    ensures Before(h, 0) == NULL
  {
  }

  /** The blocks cover the words below `last` exactly: each word lies in one and only one block. */
  lemma {:induction false} Cover(h: Blocks, last: int, i: int, from: int) returns (a: int)
    requires Tiled(h, last)
    requires from in h && from <= i < last
    ensures a in h && a <= i < End(h, a)
    ensures forall b :: b in h && b <= i < End(h, b) ==> b == a
    decreases i - from
  {
    if i < End(h, from) {
      a := from;
      forall b | b in h && b <= i < End(h, b) ensures b == a {
        assert Apart(h, a, b) && Apart(h, b, a);
      }
    } else {
      a := Cover(h, last, i, End(h, from));
    }
  }

  // ---- each transition keeps the heap well formed ----

  lemma CarveDisjoint(h: Blocks, a: int, n: int)
    requires Disjoint(h)
    requires a in h && 0 <= n <= h[a].size
    ensures Disjoint(Carve(h, a, n))
    ensures h[a].size >= n + SPLIT ==> a + n + OVERHEAD !in h
  {
    var g, o := Carve(h, a, n), a + n + OVERHEAD;
    if h[a].size >= n + SPLIT {
      forall b | b in h ensures b != o {
        assert Apart(h, a, b);
      }
      forall b, c | b in g && c in g ensures Apart(g, b, c) {
        assert Apart(h, if b == o then a else b, if c == o then a else c);
        if b != o { assert Apart(h, a, b); }
      }
    } else {
      forall b, c | b in g && c in g ensures Apart(g, b, c) {
        assert Apart(h, b, c);
      }
    }
  }

  lemma CarveTiled(h: Blocks, last: int, a: int, n: int)
    requires Tiled(h, last)
    requires FreeAt(h, a) && 0 <= n <= h[a].size
    ensures Tiled(Carve(h, a, n), last)
    ensures h[a].size >= n + SPLIT ==> a + n + OVERHEAD !in h
  {
    var g := Carve(h, a, n);
    var o := a + n + OVERHEAD;
    CarveDisjoint(h, a, n);
    assert End(h, a) == last || End(h, a) in h;
    if h[a].size >= n + SPLIT {
      assert End(g, o) == End(h, a);
      assert End(g, a) == o;
      assert forall b {:trigger End(g, b)} :: b in h && b != a ==> b != o && End(g, b) == End(h, b);
    } else {
      assert forall b {:trigger End(g, b)} :: b in h ==> End(g, b) == End(h, b);
    }
  }

  lemma CarveKeeps(h: Blocks, last: int, a: int, n: int)
    requires WellFormed(h, last)
    requires FreeAt(h, a) && 0 <= n <= h[a].size
    ensures WellFormed(Carve(h, a, n), last)
    ensures Live(Carve(h, a, n)) == Live(h) + {a}
    ensures forall b :: b in Live(h) ==> Carve(h, a, n)[b] == h[b]
    ensures Carve(h, a, n)[a].size >= n
  {
    CarveTiled(h, last, a, n);
    var g := Carve(h, a, n);
    var o := a + n + OVERHEAD;
    forall b, c | b in g && c in g ensures NotBothFree(g, b, c) {
      if h[a].size >= n + SPLIT && b == o {
        if c != a && c != o { assert NotBothFree(h, a, c); }
      } else if h[a].size >= n + SPLIT && c == o {
        assert b != a ==> Apart(h, b, a) && Apart(h, a, b);
      } else {
        assert NotBothFree(h, b, c);
      }
    }
  }

  lemma BumpKeeps(h: Blocks, last: int, n: int)
    requires WellFormed(h, last)
    requires 0 <= n
    ensures last !in h
    ensures WellFormed(Bump(h, last, n), last + n + OVERHEAD)
    ensures Live(Bump(h, last, n)) == Live(h) + {last}
    ensures forall b :: b in h ==> Bump(h, last, n)[b] == h[b]
  {
    var g := Bump(h, last, n);
    assert last !in h;
    assert forall b {:trigger End(g, b)} :: b in h ==> End(g, b) == End(h, b);
    assert End(g, last) == last + n + OVERHEAD;
    forall b, c | b in g && c in g ensures Apart(g, b, c) && NotBothFree(g, b, c) {
      if b != last && c != last { assert Apart(h, b, c) && NotBothFree(h, b, c); }
    }
  }

  lemma MergeTiled(h: Blocks, last: int, a: int)
    requires Tiled(h, last)
    requires a in h && End(h, a) in h
    ensures Tiled(Merge(h, a), last)
    ensures End(Merge(h, a), a) == End(h, End(h, a))
    ensures forall b {:trigger End(Merge(h, a), b)} :: b in Merge(h, a) && b != a ==>
      b in h && End(Merge(h, a), b) == End(h, b) != End(h, a)
  {
    var g, e := Merge(h, a), End(h, a);
    assert End(g, a) == End(h, e);
    forall b {:trigger End(g, b)} | b in g && b != a ensures End(g, b) == End(h, b) != e {
      assert Apart(h, a, b) && Apart(h, b, a);
    }
    forall b, c | b in g && c in g ensures Apart(g, b, c) {
      assert Apart(h, b, c) && Apart(h, e, c);
    }
  }

  lemma RetagTiled(h: Blocks, last: int, a: int, free: bool)
    requires Tiled(h, last)
    requires a in h
    ensures Tiled(h[a := Block(h[a].size, free)], last)
    ensures forall b {:trigger End(h[a := Block(h[a].size, free)], b)} :: b in h ==>
      End(h[a := Block(h[a].size, free)], b) == End(h, b)
  {
    var g := h[a := Block(h[a].size, free)];
    assert forall b {:trigger End(g, b)} :: b in h ==> End(g, b) == End(h, b);
    forall b, c | b in g && c in g ensures Apart(g, b, c) {
      assert Apart(h, b, c);
    }
  }

  lemma MergeRightTiled(h: Blocks, last: int, a: int)
    requires Tiled(h, last)
    requires a in h
    ensures var g := MergeRight(h, a)[a := Block(MergeRight(h, a)[a].size, true)];
      Tiled(g, last) && Before(g, a) == Before(h, a) && FreeLeft(g, a) == FreeLeft(h, a)
  {
    var g1 := MergeRight(h, a);
    if FreeAt(h, End(h, a)) { MergeTiled(h, last, a); }
    var g := g1[a := Block(g1[a].size, true)];
    RetagTiled(g1, last, a, true);
    if a > 0 {
      BeforeIs(h, last, a);
      BeforeIs(g, last, a);
      var p := Before(h, a);
      assert End(g, p) == a;
    } else {
      BeforeNone(h, last);
      BeforeNone(g, last);
    }
  }

  lemma ReleaseTiled(h: Blocks, last: int, a: int)
    requires Tiled(h, last)
    requires a in h
    ensures Tiled(Release(h, a), last)
  {
    var g := MergeRight(h, a)[a := Block(MergeRight(h, a)[a].size, true)];
    MergeRightTiled(h, last, a);
    if FreeLeft(g, a) { MergeTiled(g, last, Before(g, a)); }
  }

  /** The blocks that give way to the merged block. */
  ghost function Absorbed(h: Blocks, a: int): set<int>
    requires a in h
  {
    {a} + (if FreeAt(h, End(h, a)) then {End(h, a)} else {}) + (if FreeLeft(h, a) then {Before(h, a)} else {})
  }

  ghost function MergedSize(h: Blocks, a: int): int
    requires a in h
  {
    h[a].size + (if FreeAt(h, End(h, a)) then h[End(h, a)].size + OVERHEAD else 0)
    + (if FreeLeft(h, a) then h[Before(h, a)].size + OVERHEAD else 0)
  }

  lemma DropOnce(h: Blocks, right: set<int>, a: int, x: Block)
    ensures (h - right)[a := x] == (h - (right + {a}))[a := x]
  {
  }

  lemma DropTwice(h: Blocks, right: set<int>, a: int, x: Block, p: int, y: Block)
    requires a != p
    ensures ((h - right)[a := x] - {a})[p := y] == (h - (right + {a, p}))[p := y]
  {
  }

  /** What a release does, once the merges are worked out: block `a` and its free neighbours give
      way to one free block, and every other block stays as it is. */
  lemma ReleaseIs(h: Blocks, last: int, a: int)
    requires Tiled(h, last)
    requires a in h
    ensures Release(h, a) == (h - Absorbed(h, a))[MergedAt(h, a) := Block(MergedSize(h, a), true)]
    ensures MergedAt(h, a) in h
    ensures FreeAt(h, End(h, a)) ==> a < End(h, a)
    ensures FreeLeft(h, a) ==> Before(h, a) < a
  {
    var e, p := End(h, a), Before(h, a);
    var g1 := MergeRight(h, a);
    var g := g1[a := Block(g1[a].size, true)];
    MergeRightTiled(h, last, a);
    if a > 0 { BeforeIs(h, last, a); } else { BeforeNone(h, last); }
    var right := if FreeAt(h, e) then {e} else {};
    assert g == (h - right)[a := Block(g1[a].size, true)];
    assert g[a] == Block(g1[a].size, true);
    if FreeLeft(h, a) {
      assert End(g, p) == a && g[p] == h[p];
      var merged := Block(g[p].size + g[a].size + OVERHEAD, g[p].free);
      assert merged == Block(MergedSize(h, a), true);
      assert Merge(g, p) == (g - {a})[p := merged];
      DropTwice(h, right, a, g[a], p, merged);
      assert Absorbed(h, a) == right + {a, p};
    } else {
      assert g[a] == Block(MergedSize(h, a), true);
      DropOnce(h, right, a, g[a]);
      assert Absorbed(h, a) == right + {a};
    }
  }

  lemma ReleaseLive(h: Blocks, last: int, a: int)
    requires Tiled(h, last)
    requires a in Live(h)
    ensures Live(Release(h, a)) == Live(h) - {a}
    ensures forall b :: b in Live(h) && b != a ==> Release(h, a)[b] == h[b]
  {
    ReleaseIs(h, last, a);
    var m, gone, size := MergedAt(h, a), Absorbed(h, a), MergedSize(h, a);
    assert Live(h) * gone == {a};
    assert m == a || m !in Live(h);
  }

  lemma ReleaseEnds(h: Blocks, last: int, a: int)
    requires Tiled(h, last)
    requires a in h
    ensures var g, m, e := Release(h, a), MergedAt(h, a), End(h, a);
      && m in g && g[m].free
      && End(g, m) == (if FreeAt(h, e) then End(h, e) else e)
      && forall b {:trigger End(g, b)} :: b in g && b != m ==> b in h && h[b] == g[b] && End(g, b) == End(h, b)
  {
    ReleaseIs(h, last, a);
  }

  lemma ReleaseCoalesced(h: Blocks, last: int, a: int)
    requires WellFormed(h, last)
    requires a in Live(h)
    ensures Coalesced(Release(h, a))
  {
    ReleaseEnds(h, last, a);
    ReleaseIs(h, last, a);
    var g, m, e := Release(h, a), MergedAt(h, a), End(h, a);
    forall b, c | b in g && c in g ensures NotBothFree(g, b, c) {
      if End(g, b) == c && g[b].free { ReleaseNotBothFree(h, last, a, b, c); }
    }
  }

  lemma ReleaseNotBothFree(h: Blocks, last: int, a: int, b: int, c: int)
    requires WellFormed(h, last)
    requires a in Live(h)
    requires b in Release(h, a) && c in Release(h, a) && End(Release(h, a), b) == c && Release(h, a)[b].free
    ensures !Release(h, a)[c].free
  {
    ReleaseEnds(h, last, a);
    var g, m, e := Release(h, a), MergedAt(h, a), End(h, a);
    if b == m {
      assert c != m;
      if FreeAt(h, e) { assert NotBothFree(h, e, c); }
    } else if c == m {
      assert End(h, b) == m && NotBothFree(h, b, m);
      if a > 0 { BeforeIs(h, last, a); } else { BeforeNone(h, last); }
    } else {
      assert NotBothFree(h, b, c);
    }
  }

  lemma ReleaseFree(h: Blocks, last: int, a: int, b: int)
    requires Tiled(h, last)
    requires a in Live(h)
    ensures FreeAt(Release(h, a), b) <==>
      b == MergedAt(h, a) || (FreeAt(h, b) && b != End(h, a) && b != Before(h, a))
  {
    ReleaseIs(h, last, a);
  }

  lemma ReleaseKeeps(h: Blocks, last: int, a: int)
    requires WellFormed(h, last)
    requires a in Live(h)
    ensures WellFormed(Release(h, a), last)
  {
    ReleaseTiled(h, last, a);
    ReleaseCoalesced(h, last, a);
  }
}
