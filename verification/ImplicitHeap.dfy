/**
 The plain implicit allocator, `1_mem_allocator/implicit_free_list/allocator.c`: each block is a header of
 two words, size and allocated, and its payload.
 */
module ImplicitHeap {
  import opened Memory
  import opened SlotSpec

  /** The header of block `i` is in memory. */
  ghost predicate HeaderAt(m: seq<int>, b: seq<Slot>, i: nat)
    requires i < |b|
  {
    && Payload(b, i) + b[i].size <= |m|
    && m[Start(b, i)] == b[i].size && m[Start(b, i) + 1] == (if b[i].used then 1 else 0)
  }

  ghost predicate Represents(m: seq<int>, b: seq<Slot>) {
    forall i: nat {:trigger HeaderAt(m, b, i)} :: i < |b| ==> HeaderAt(m, b, i)
  }

  lemma MarkRepresents(m: seq<int>, m': seq<int>, b: seq<Slot>, k: nat, used: bool)
    requires Represents(m, b) && k < |b|
    requires SameBut(m, m', {Start(b, k) + 1}) && Start(b, k) + 1 < |m| && m'[Start(b, k) + 1] == if used then 1 else 0
    ensures Represents(m', b[k := b[k].(used := used)])
  {
    var c := b[k := b[k].(used := used)];
    forall i: nat | i < |c| ensures HeaderAt(m', c, i) {
      SameStart(b, c, i);
      assert HeaderAt(m, b, i) && HeaderAt(m, b, k);
      if i < k { StartsApart(b, i, k); }
      if k < i { StartsApart(b, k, i); }
    }
  }

  lemma AppendRepresents(m: seq<int>, m': seq<int>, b: seq<Slot>, n: nat)
    requires Represents(m, b) && |m'| == |m| && Payload(b, |b|) + n <= |m|
    requires forall i :: 0 <= i < Start(b, |b|) ==> m'[i] == m[i]
    requires m'[Start(b, |b|)] == n && m'[Start(b, |b|) + 1] == 1
    ensures Represents(m', b + [Slot(n, true)])
  {
    var c := b + [Slot(n, true)];
    forall i: nat | i < |c| ensures HeaderAt(m', c, i) {
      SameStart(b, c, i);
      if i < |b| {
        assert HeaderAt(m, b, i);
        StartsApart(b, i, |b|);
      }
    }
  }

  lemma ClientRepresents(m: seq<int>, m': seq<int>, b: seq<Slot>, k: nat, w: int)
    requires Represents(m, b) && k < |b| && Payload(b, k) <= w < Payload(b, k) + b[k].size && SameBut(m, m', {w})
    ensures Represents(m', b)
  {
    forall i: nat | i < |b| ensures HeaderAt(m', b, i) {
      assert HeaderAt(m, b, i);
      if i < k { StartsApart(b, i, k); }
      if k < i { StartsApart(b, k, i); }
    }
  }

  lemma MarkLeavesPayloads(m: seq<int>, m': seq<int>, b: seq<Slot>, k: nat)
    requires k < |b| && SameBut(m, m', {Start(b, k) + 1})
    ensures SamePayloads(m, m', b)
  {
    forall i: nat, w: nat | UsedWord(b, i, w) && w < |m| ensures m'[w] == m[w] {
      if i < k { StartsApart(b, i, k); }
      if k < i { StartsApart(b, k, i); }
    }
  }

  lemma NotUsedAt(b: seq<Slot>, p: int, k: nat)
    requires k < |b| && Payload(b, k) == p && !b[k].used
    ensures Free(b, p) == Outcome(b, 1)
  {
    forall i: nat ensures !UsedAt(b, p, i) {
      if UsedAt(b, p, i) { OnePayload(b, i, k); }
    }
  }

  lemma NothingBelow(b: seq<Slot>, p: int)
    requires p < HEADER
    ensures Free(b, p) == Outcome(b, 1)
  {
  }

  class Allocator {
    const mem: array<int>
    var last: int
    ghost var blocks: seq<Slot>

    ghost predicate Valid()
      reads this, mem
    {
      last == Start(blocks, |blocks|) <= mem.Length && Represents(mem[..], blocks)
    }

    constructor (bytes: nat)
      ensures Valid() && fresh(mem) && mem.Length == bytes / WORD && blocks == []
    {
      mem := new int[bytes / WORD];
      last, blocks := 0, [];
    }

    /** `alloc_reset` */
    method Reset()
      requires Valid()
      modifies this
      ensures Valid() && blocks == []
    {
      last, blocks := 0, [];
    }

    /** The client writes word `w` of the payload of a block in use. */
    method ClientWrite(w: int, v: int, ghost k: nat)
      requires Valid() && UsedWord(blocks, k, w) && w < mem.Length
      modifies mem
      ensures Valid() && mem[..] == old(mem[..])[w := v]
    {
      ghost var m := mem[..];
      mem[w] := v;
      ClientRepresents(m, mem[..], blocks, k, w);
    }

    /** Walks the headers to the first free block that can hold `n` words. */
    method Search(n: nat) returns (found: bool, current: int, ghost k: nat)
      requires Valid()
      ensures k == FirstFit(blocks, n, 0) && current == Start(blocks, k) && (found <==> k < |blocks|)
    {
      current, found, k := 0, false, 0;
      while !found && current < last
        invariant k <= |blocks| && current == Start(blocks, k)
        invariant FirstFit(blocks, n, 0) == FirstFit(blocks, n, k) && (found ==> k < |blocks| && Fits(blocks, n, k))
        decreases |blocks| - k, !found
      {
        assert k < |blocks| && HeaderAt(mem[..], blocks, k);
        var size, used := mem[current], mem[current + 1];
        if used == 0 && size >= n {
          found := true;
        } else {
          current, k := current + HEADER + size, k + 1;
        }
      }
      if !found && k < |blocks| { StartsApart(blocks, k, |blocks|); }
    }

    /** `alloc_malloc` */
    method AllocMalloc(bytes: nat) returns (p: int)
      requires Valid()
      modifies this, mem
      ensures Valid()
      ensures Malloc(old(blocks), Words(bytes), mem.Length) == Outcome(blocks, p)
      ensures SamePayloads(old(mem[..]), mem[..], old(blocks))
    {
      var n := Words(bytes);
      ghost var m, b := mem[..], blocks;
      var found, current;
      ghost var k;
      found, current, k := Search(n);
      if !found && current + n + HEADER > mem.Length {
        return NULL;
      }
      if !found {
        mem[current] := n;
        mem[current + 1] := 1;
        last := current + HEADER + n;
        blocks := b + [Slot(n, true)];
        AppendRepresents(m, mem[..], b, n);
        AppendLeavesPayloads(m, mem[..], b);
        SameStart(b, blocks, |b|);
      } else {
        assert HeaderAt(m, b, k);
        mem[current + 1] := 1;
        blocks := b[k := b[k].(used := true)];
        MarkRepresents(m, mem[..], b, k, true);
        MarkLeavesPayloads(m, mem[..], b, k);
        SameStart(b, blocks, |b|);
      }
      return current + HEADER;
    }

    /** `alloc_free` on the payload of block `k`. */
    method FreeBlock(p: int, ghost k: nat) returns (r: int)
      requires Valid() && k < |blocks| && Payload(blocks, k) == p
      modifies this`blocks, mem
      ensures Valid() && Free(old(blocks), p) == Outcome(blocks, r)
      ensures SamePayloads(old(mem[..]), mem[..], old(blocks))
    {
      ghost var m, b := mem[..], blocks;
      assert HeaderAt(m, b, k);
      if mem[p - 1] == 0 {
        NotUsedAt(b, p, k);
        return 1;
      }
      mem[p - 1] := 0;
      FreeIs(b, p, k);
      blocks := b[k := b[k].(used := false)];
      MarkRepresents(m, mem[..], b, k, false);
      MarkLeavesPayloads(m, mem[..], b, k);
      SameStart(b, blocks, |b|);
      return 0;
    }

    /** `alloc_free` */
    method AllocFree(p: int) returns (r: int)
      requires Valid() && Freeable(blocks, p)
      modifies this`blocks, mem
      ensures Valid() && SamePayloads(old(mem[..]), mem[..], old(blocks))
      ensures Outcome(blocks, r) == FreePlain(old(blocks), p)
    {
      if p < HEADER || p >= last {
        NothingBelow(blocks, if p < HEADER then p else 0);
        return 1;
      }
      ghost var k: nat :| k < |blocks| && Payload(blocks, k) == p;
      r := FreeBlock(p, k);
    }
  }
}
