/**
 Headers and footers in memory, as both coalescing allocators write them: word `a` of a block holds
 its size, word `a + 1` is 0 if it is free and 1 if not, and the word after the payload holds the
 size again.
 */
module BoundaryTags {
  import opened BlockHeap
  import opened Memory

  ghost predicate TagsAt(m: seq<int>, h: Blocks, a: int)
    requires a in h
  {
    && 0 <= a && 0 <= h[a].size && a + h[a].size + OVERHEAD <= |m|
    && m[a] == h[a].size
    && m[a + 1] == (if h[a].free then 0 else 1)
    && m[a + 2 + h[a].size] == h[a].size
  }

  ghost predicate Tagged(m: seq<int>, h: Blocks) {
    forall a {:trigger TagsAt(m, h, a)} :: a in h ==> TagsAt(m, h, a)
  }

  /** The payload of block `a` is the same in both memories. */
  ghost predicate SamePayload(m: seq<int>, m': seq<int>, h: Blocks, a: int)
    requires a in h
  {
    |m| == |m'| && forall i :: 0 <= i < |m| && InPayload(h, a, i) ==> m'[i] == m[i]
  }

  ghost predicate SameLive(m: seq<int>, m': seq<int>, h: Blocks) {
    forall c :: c in Live(h) ==> SamePayload(m, m', h, c)
  }

  /** `m'` differs from `m` only inside block `a`. */
  ghost predicate SameOutside(m: seq<int>, m': seq<int>, h: Blocks, a: int)
    requires a in h
  {
    |m| == |m'| && forall i :: 0 <= i < |m| && !(a <= i < a + h[a].size + OVERHEAD) ==> m'[i] == m[i]
  }

  /** Writing inside a free block touches no tag of another block and no live payload. */
  lemma BlockWrites(m: seq<int>, m': seq<int>, h: Blocks, last: int, a: int)
    requires Tiled(h, last) && Tagged(m, h) && a in h
    requires SameOutside(m, m', h, a)
    ensures forall c :: c in h && c != a ==> TagsAt(m', h, c)
    ensures forall c :: c in Live(h) && c != a ==> SamePayload(m, m', h, c)
  {
    forall c | c in h && c != a ensures TagsAt(m', h, c) && SamePayload(m, m', h, c) {
      assert TagsAt(m, h, c) && Apart(h, a, c) && Apart(h, c, a);
    }
  }

  lemma SplitTags(m: seq<int>, m': seq<int>, h: Blocks, last: int, a: int, n: int)
    requires Tiled(h, last) && Tagged(m, h) && FreeAt(h, a) && SameOutside(m, m', h, a)
    requires 0 <= n && h[a].size >= n + SPLIT && last <= |m|
    requires var o, r := a + n + OVERHEAD, h[a].size - n - OVERHEAD;
      && m'[a] == n && m'[a + 1] == 1 && m'[a + n + 2] == n
      && m'[o] == r && m'[o + 1] == 0 && m'[o + r + 2] == r
    ensures Tagged(m', Carve(h, a, n))
  {
    BlockWrites(m, m', h, last, a);
    var g := Carve(h, a, n);
    forall c | c in g ensures TagsAt(m', g, c) {
      if c in h && c != a && c != a + n + OVERHEAD { assert TagsAt(m', h, c); }
    }
  }

  /** The tags of a block of `n` words at `a` were written, and nothing else. */
  ghost predicate TagsWritten(m: seq<int>, m': seq<int>, a: int, n: int, flag: int) {
    && 0 <= a && 0 <= n && a + n + OVERHEAD <= |m|
    && SameBut(m, m', {a, a + 1, a + 2 + n})
    && m'[a] == n && m'[a + 1] == flag && m'[a + 2 + n] == n
  }

  lemma SameLiveThrough(m: seq<int>, m1: seq<int>, m': seq<int>, h: Blocks, g: Blocks)
    requires SameLive(m, m1, h) && SameLive(m1, m', g)
    requires LiveKept(h, g)
    ensures SameLive(m, m', h)
  {
    forall c | c in Live(h) ensures SamePayload(m, m', h, c) {
      assert SamePayload(m, m1, h, c) && SamePayload(m1, m', g, c);
    }
  }

  /** Header and footer of block `x` of heap `g` are written; all other tags were right already. */
  lemma OwnTags(m: seq<int>, m': seq<int>, g: Blocks, last: int, x: int, flag: int)
    requires Tiled(g, last) && last <= |m| && x in g
    requires forall c :: c in g && c != x ==> TagsAt(m, g, c)
    requires TagsWritten(m, m', x, g[x].size, flag) && flag == if g[x].free then 0 else 1
    ensures Tagged(m', g)
    ensures forall c :: c in g && c != x ==> SamePayload(m, m', g, c)
  {
    forall c | c in g ensures TagsAt(m', g, c) && (c != x ==> SamePayload(m, m', g, c)) {
      if c != x { assert TagsAt(m, g, c) && Apart(g, x, c) && Apart(g, c, x); }
    }
  }

  /** The tags of a merged block are written: memory describes the heap after the release, and no
      payload in use has changed. */
  lemma ReleaseTagged(m: seq<int>, m': seq<int>, h: Blocks, last: int, a: int)
    requires Tiled(h, last) && last <= |m| && Tagged(m, h) && a in Live(h)
    requires TagsWritten(m, m', MergedAt(h, a), MergedSize(h, a), 0)
    ensures Tagged(m', Release(h, a))
    ensures SameLive(m, m', Release(h, a))
    ensures MergedAt(h, a) in Release(h, a) && SameOutside(m, m', Release(h, a), MergedAt(h, a))
  {
    ReleaseIs(h, last, a);
    ReleaseTiled(h, last, a);
    var g, x := Release(h, a), MergedAt(h, a);
    forall c | c in g && c != x ensures TagsAt(m, g, c) {
      assert TagsAt(m, h, c);
    }
    OwnTags(m, m', g, last, x, 0);
  }
}
