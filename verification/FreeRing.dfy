/**
 The circular doubly linked free list that `1_mem_allocator/list_explicit_free/allocator.c` threads
 through the payloads of free blocks: word `b + 2` of a free block `b` holds the header address of
 the previous free block, word `b + 3` that of the next one.

 A ring is the sequence of header addresses met when following the next links from `HEAD`.
 */
module FreeRing {
  import opened Memory
  import opened Collections

  type Ring = seq<int>

  /** Where an arena can start, counted in words: no page is mapped at the null address. */
  type Address = a: int | a >= 512 witness 512

  /** Where the arena starts. A link to block `b` is the word `START + b`. */
  const START: Address

  function Next(ring: Ring, k: int): int
    requires 0 <= k < |ring|
  {
    if k == |ring| - 1 then ring[0] else ring[k + 1]
  }

  function Prev(ring: Ring, k: int): int
    requires 0 <= k < |ring|
  {
    if k == 0 then ring[|ring| - 1] else ring[k - 1]
  }

  /** The link words of two nodes do not overlap (so no node occurs twice). */
  ghost predicate Spaced(ring: Ring) {
    forall i, j :: 0 <= i < j < |ring| ==> ring[i] + 2 <= ring[j] || ring[j] + 2 <= ring[i]
  }

  ghost predicate InMemory(m: seq<int>, b: int) {
    0 <= b && b + 3 < |m|
  }

  /** Memory `m` holds the links of node `k`, in both directions. */
  ghost predicate LinkedAt(m: seq<int>, ring: Ring, k: int)
    requires 0 <= k < |ring|
  {
    InMemory(m, ring[k]) && m[ring[k] + 2] == START + Prev(ring, k) && m[ring[k] + 3] == START + Next(ring, k)
  }

  ghost predicate Linked(m: seq<int>, ring: Ring) {
    forall k :: 0 <= k < |ring| ==> LinkedAt(m, ring, k)
  }

  /** Memory `m` holds the links of all nodes but `k`. */
  ghost predicate LinkedBut(m: seq<int>, ring: Ring, k: int) {
    forall i :: 0 <= i < |ring| && i != k ==> LinkedAt(m, ring, i)
  }

  /** Splices node `k` out: its two neighbours are linked to each other. */
  ghost predicate Spliced(m: seq<int>, m': seq<int>, ring: Ring, k: int)
    requires 0 <= k < |ring|
  {
    && InMemory(m, Prev(ring, k)) && InMemory(m, Next(ring, k))
    && SameBut(m, m', {Prev(ring, k) + 3, Next(ring, k) + 2})
    && m'[Prev(ring, k) + 3] == START + Next(ring, k)
    && m'[Next(ring, k) + 2] == START + Prev(ring, k)
  }

  /** The neighbours of a node once node `k` is gone. */
  lemma WithoutLinks(ring: Ring, k: int, i: int)
    requires 0 <= k < |ring| && |ring| > 1 && 0 <= i < |ring| - 1
    ensures var g, j := Without(ring, k), if i < k then i else i + 1;
      && g[i] == ring[j]
      && Prev(g, i) == (if j == k + 1 || (k == |ring| - 1 && j == 0) then Prev(ring, k) else Prev(ring, j))
      && Next(g, i) == (if j + 1 == k || (k == 0 && j == |ring| - 1) then Next(ring, k) else Next(ring, j))
  {
  }

  lemma SplicedAt(m: seq<int>, m': seq<int>, ring: Ring, k: int, i: int)
    requires Linked(m, ring) && Spaced(ring) && 0 <= k < |ring| && |ring| > 1
    requires Spliced(m, m', ring, k)
    requires 0 <= i < |ring| - 1
    ensures LinkedAt(m', Without(ring, k), i)
  {
    var j := if i < k then i else i + 1;
    WithoutLinks(ring, k, i);
    assert LinkedAt(m, ring, j);
    hide Linked, Without;
  }

  /** Puts node `b` in the place of node `k`. */
  ghost predicate Replaced(m: seq<int>, m': seq<int>, ring: Ring, k: int, b: int)
    requires 0 <= k < |ring|
  {
    && InMemory(m, b) && InMemory(m, Prev(ring, k)) && InMemory(m, Next(ring, k))
    && if |ring| == 1 then
      SameBut(m, m', {b + 2, b + 3}) && m'[b + 2] == START + b && m'[b + 3] == START + b
    else
      && SameBut(m, m', {b + 2, b + 3, Prev(ring, k) + 3, Next(ring, k) + 2})
      && m'[b + 2] == START + Prev(ring, k) && m'[b + 3] == START + Next(ring, k)
      && m'[Prev(ring, k) + 3] == START + b && m'[Next(ring, k) + 2] == START + b
  }

  lemma ReplacedAt(m: seq<int>, m': seq<int>, ring: Ring, k: int, b: int, i: int)
    requires LinkedBut(m, ring, k) && 0 <= k < |ring|
    requires Spaced(ring[k := b])
    requires Replaced(m, m', ring, k, b)
    requires 0 <= i < |ring|
    ensures LinkedAt(m', ring[k := b], i)
  {
    assert i != k ==> LinkedAt(m, ring, i);
    var g, n := ring[k := b], |ring|;
    var before, after := if k == 0 then n - 1 else k - 1, if k == n - 1 then 0 else k + 1;
    assert g[k] == b;
    if n > 1 {
      assert g[before] == Prev(ring, k) && g[after] == Next(ring, k);
    }
  }

  /** Pushes node `b` at the head. */
  ghost predicate Pushed(m: seq<int>, m': seq<int>, ring: Ring, b: int)
  {
    && InMemory(m, b)
    && if ring == [] then
      SameBut(m, m', {b + 2, b + 3}) && m'[b + 2] == START + b && m'[b + 3] == START + b
    else
      && InMemory(m, Prev(ring, 0)) && InMemory(m, ring[0])
      && SameBut(m, m', {b + 2, b + 3, Prev(ring, 0) + 3, ring[0] + 2})
      && m'[b + 2] == START + Prev(ring, 0) && m'[b + 3] == START + ring[0]
      && m'[Prev(ring, 0) + 3] == START + b && m'[ring[0] + 2] == START + b
  }

  lemma PushedAt(m: seq<int>, m': seq<int>, ring: Ring, b: int, i: int)
    requires Linked(m, ring)
    requires Spaced([b] + ring)
    requires Pushed(m, m', ring, b)
    requires 0 <= i <= |ring|
    ensures LinkedAt(m', [b] + ring, i)
  {
    var g := [b] + ring;
    assert g[0] == b;
    if ring != [] {
      assert g[1] == ring[0] && g[|ring|] == ring[|ring| - 1];
    }
    if i > 0 {
      assert g[i] == ring[i - 1];
      assert LinkedAt(m, ring, i - 1);
    }
  }

  lemma Splice(m: seq<int>, m': seq<int>, ring: Ring, k: int)
    requires Linked(m, ring) && Spaced(ring) && 0 <= k < |ring| && |ring| > 1
    requires Spliced(m, m', ring, k)
    ensures Linked(m', Without(ring, k))
  {
    forall i | 0 <= i < |ring| - 1 ensures LinkedAt(m', Without(ring, k), i) {
      SplicedAt(m, m', ring, k, i);
    }
  }

  lemma Replace(m: seq<int>, m': seq<int>, ring: Ring, k: int, b: int)
    requires LinkedBut(m, ring, k) && 0 <= k < |ring|
    requires Spaced(ring[k := b])
    requires Replaced(m, m', ring, k, b)
    ensures Linked(m', ring[k := b])
  {
    var g := ring[k := b];
    forall i | 0 <= i < |ring| ensures LinkedAt(m', g, i) {
      ReplacedAt(m, m', ring, k, b, i);
    }
  }

  lemma Push(m: seq<int>, m': seq<int>, ring: Ring, b: int)
    requires Linked(m, ring)
    requires Spaced([b] + ring)
    requires Pushed(m, m', ring, b)
    ensures Linked(m', [b] + ring)
  {
    forall i | 0 <= i <= |ring| ensures LinkedAt(m', [b] + ring, i) {
      PushedAt(m, m', ring, b, i);
    }
  }

  lemma LinkedFrame(m: seq<int>, m': seq<int>, ring: Ring)
    requires Linked(m, ring) && |m| == |m'|
    requires forall k :: 0 <= k < |ring| && InMemory(m, ring[k]) ==>
      m'[ring[k] + 2] == m[ring[k] + 2] && m'[ring[k] + 3] == m[ring[k] + 3]
    ensures Linked(m', ring)
  {
    forall k | 0 <= k < |ring| ensures LinkedAt(m', ring, k) {
      assert LinkedAt(m, ring, k);
    }
  }

  /** The links of all nodes but `x` are the same in both memories. */
  lemma LinkedButFrame(m: seq<int>, m': seq<int>, ring: Ring, x: int)
    requires Linked(m, ring) && |m| == |m'|
    requires forall k :: 0 <= k < |ring| && k != x && InMemory(m, ring[k]) ==>
      m'[ring[k] + 2] == m[ring[k] + 2] && m'[ring[k] + 3] == m[ring[k] + 3]
    ensures LinkedBut(m', ring, x)
  {
    forall k | 0 <= k < |ring| && k != x ensures LinkedAt(m', ring, k) {
      assert LinkedAt(m, ring, k);
    }
  }
}
