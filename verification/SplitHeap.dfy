/**
 The implicit allocator with separate headers, `1_mem_allocator/implicit_free_list-improved/allocator.c`:
 entries of three words, size, allocated and payload address, in a region of their own; in front of each
 payload, a padding word and the address of its entry.
 */
module SplitHeap {
  import opened Memory
  import opened SlotSpec

  /** The entry of block `i` and the address of the entry in front of its payload are in memory. */
  ghost predicate EntryAt(meta: seq<int>, data: seq<int>, b: seq<Slot>, i: nat)
    requires i < |b|
  {
    && ENTRY * (i + 1) <= |meta| && Payload(b, i) + b[i].size <= |data|
    && meta[ENTRY * i] == b[i].size && meta[ENTRY * i + 1] == (if b[i].used then 1 else 0)
    && meta[ENTRY * i + 2] == Payload(b, i)
    && data[Payload(b, i) - 1] == ENTRY * i
  }

  ghost predicate Represents(meta: seq<int>, data: seq<int>, b: seq<Slot>) {
    forall i: nat {:trigger EntryAt(meta, data, b, i)} :: i < |b| ==> EntryAt(meta, data, b, i)
  }

  lemma MarkRepresents(meta: seq<int>, data: seq<int>, b: seq<Slot>, k: nat, used: bool)
    requires Represents(meta, data, b) && k < |b| && ENTRY * k + 1 < |meta|
    ensures Represents(meta[ENTRY * k + 1 := if used then 1 else 0], data, b[k := b[k].(used := used)])
  {
    var meta', c := meta[ENTRY * k + 1 := if used then 1 else 0], b[k := b[k].(used := used)];
    forall i: nat | i < |c| ensures EntryAt(meta', data, c, i) {
      assert EntryAt(meta, data, b, i);
      SameStart(b, c, i);
    }
  }

  lemma AppendRepresents(meta: seq<int>, data: seq<int>, meta': seq<int>, data': seq<int>, b: seq<Slot>, n: nat)
    requires Represents(meta, data, b) && |meta'| == |meta| && |data'| == |data|
    requires Payload(b, |b|) + n <= |data| && ENTRY * (|b| + 1) <= |meta|
    requires forall i :: 0 <= i < ENTRY * |b| ==> meta'[i] == meta[i]
    requires forall i :: 0 <= i < Start(b, |b|) ==> data'[i] == data[i]
    requires meta'[ENTRY * |b|] == n && meta'[ENTRY * |b| + 1] == 1 && meta'[ENTRY * |b| + 2] == Payload(b, |b|)
    requires data'[Payload(b, |b|) - 1] == ENTRY * |b|
    ensures Represents(meta', data', b + [Slot(n, true)])
  {
    var c := b + [Slot(n, true)];
    forall i: nat | i < |c| ensures EntryAt(meta', data', c, i) {
      SameStart(b, c, i);
      if i < |b| {
        assert EntryAt(meta, data, b, i);
        StartsApart(b, i, |b|);
      }
    }
  }

  lemma ClientRepresents(meta: seq<int>, data: seq<int>, b: seq<Slot>, k: nat, w: int, v: int)
    requires Represents(meta, data, b) && UsedWord(b, k, w) && w < |data|
    ensures Represents(meta, data[w := v], b)
  {
    var data' := data[w := v];
    forall i: nat | i < |b| ensures EntryAt(meta, data', b, i) {
      assert EntryAt(meta, data, b, i);
      if i < k { StartsApart(b, i, k); }
      if k < i { StartsApart(b, k, i); }
    }
  }

  /** The word in front of `p` names the only block that `p` can be the payload of. */
  lemma OnlyByHeader(meta: seq<int>, data: seq<int>, b: seq<Slot>, p: int)
    requires Represents(meta, data, b) && 1 <= p <= |data|
    ensures forall i: nat :: UsedAt(b, p, i) ==> data[p - 1] == ENTRY * i && ENTRY * i + 2 < |meta| && meta[ENTRY * i + 2] == p
  {
    forall i: nat | UsedAt(b, p, i) ensures data[p - 1] == ENTRY * i && ENTRY * i + 2 < |meta| && meta[ENTRY * i + 2] == p {
      assert EntryAt(meta, data, b, i);
    }
  }

  class Allocator {
    /** Bytes of each region. */
    const size: nat
    const meta: array<int>
    const data: array<int>
    var metaLast: int
    ghost var blocks: seq<Slot>

    ghost predicate Valid()
      reads this, meta, data
    {
      && meta != data && meta.Length == data.Length == size / WORD
      && metaLast == ENTRY * |blocks| <= meta.Length
      && Start(blocks, |blocks|) <= data.Length
      && Represents(meta[..], data[..], blocks)
    }

    constructor (bytes: nat)
      ensures Valid() && fresh(meta) && fresh(data) && size == bytes && data.Length == bytes / WORD && blocks == []
    {
      size := bytes;
      meta, data := new int[bytes / WORD], new int[bytes / WORD];
      metaLast, blocks := 0, [];
    }

    /** `alloc_reset` */
    method Reset()
      requires Valid()
      modifies this
      ensures Valid() && blocks == []
    {
      metaLast, blocks := 0, [];
    }

    /** The client writes word `w` of the payload of a block in use. */
    method ClientWrite(w: int, v: int, ghost k: nat)
      requires Valid() && UsedWord(blocks, k, w) && w < data.Length
      modifies data
      ensures Valid() && data[..] == old(data[..])[w := v]
    {
      ClientRepresents(meta[..], data[..], blocks, k, w, v);
      data[w] := v;
    }

    /** Scans the entries for the first free block that can hold `n` words. */
    method Search(n: nat) returns (current: int, ghost k: nat)
      requires Valid()
      ensures k == FirstFit(blocks, n, 0) && current == ENTRY * k
    {
      current, k := 0, 0;
      while current < metaLast
        invariant k <= |blocks| && current == ENTRY * k
        invariant FirstFit(blocks, n, 0) == FirstFit(blocks, n, k)
      {
        assert EntryAt(meta[..], data[..], blocks, k);
        if meta[current + 1] == 0 && meta[current] >= n {
          return;
        }
        current, k := current + ENTRY, k + 1;
      }
    }

    /** `alloc_malloc` */
    method AllocMalloc(bytes: nat) returns (p: int)
      requires Valid()
      modifies this, meta, data
      ensures Valid()
      ensures MallocApart(old(blocks), Words(bytes), data.Length) == Outcome(blocks, p)
      ensures SamePayloads(old(data[..]), data[..], old(blocks))
    {
      var n := Words(bytes);
      ghost var b := blocks;
      var current;
      ghost var k;
      current, k := Search(n);
      if current < metaLast {
        assert EntryAt(meta[..], data[..], b, k);
        MarkRepresents(meta[..], data[..], b, k, true);
        meta[current + 1] := 1;
        blocks := b[k := b[k].(used := true)];
        SameStart(b, blocks, |b|);
        return meta[current + 2];
      }
      p := Extend(n);
    }

    /** Appends a block after the last one. */
    method Extend(n: nat) returns (p: int)
      requires Valid()
      modifies this, meta, data
      ensures Valid() && SamePayloads(old(data[..]), data[..], old(blocks))
      ensures var b := old(blocks);
        if Payload(b, |b|) + n > data.Length || ENTRY * (|b| + 1) > data.Length then p == NULL && blocks == b
        else p == Payload(b, |b|) && blocks == b + [Slot(n, true)]
    {
      ghost var m, d, b := meta[..], data[..], blocks;
      var start := 0;
      if metaLast != 0 {
        assert EntryAt(m, d, b, |b| - 1);
        start := meta[metaLast - ENTRY + 2] + meta[metaLast - ENTRY];
      }
      if start + HEADER + n > data.Length {
        return NULL;
      }
      if metaLast + ENTRY > meta.Length {
        return NULL;
      }
      p := start + HEADER;
      meta[metaLast] := n;
      meta[metaLast + 1] := 1;
      meta[metaLast + 2] := p;
      data[p - 1] := metaLast;
      metaLast := metaLast + ENTRY;
      blocks := b + [Slot(n, true)];
      AppendRepresents(m, d, meta[..], data[..], b, n);
      AppendLeavesPayloads(d, data[..], b);
      SameStart(b, blocks, |b|);
    }

    /** `alloc_free`: whatever the address in the region, only the payload of a block in use is freed. */
    method AllocFree(p: int) returns (r: int)
      requires Valid()
      modifies this`blocks, meta
      ensures Valid()
      ensures Outcome(blocks, r) == FreeApart(old(blocks), p, size)
    {
      ghost var m, d, b := meta[..], data[..], blocks;
      if p < HEADER || WORD * p >= size {
        return 1;
      }
      OnlyByHeader(m, d, b, p);
      var header := data[p - 1];
      if header < 0 || header >= metaLast || header % ENTRY != 0 {
        return 1;
      }
      ghost var k := header / ENTRY;
      assert EntryAt(m, d, b, k);
      if meta[header + 2] != p {
        return 1;
      }
      if meta[header + 1] == 0 {
        return 1;
      }
      FreeIs(b, p, k);
      MarkRepresents(m, d, b, k, false);
      meta[header + 1] := 0;
      blocks := b[k := b[k].(used := false)];
      SameStart(b, blocks, |b|);
      return 0;
    }
  }
}
