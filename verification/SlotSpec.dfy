/**
 What the plain implicit allocator (`1_mem_allocator/implicit_free_list`) and the one that keeps block
 headers apart from the data (`1_mem_allocator/implicit_free_list-improved`) do: blocks in a row that are
 reused but neither split nor merged. Sizes and payload addresses are counted in 8-byte words from the start
 of the data.
 */
module SlotSpec {
  import opened Memory

  /** Words in front of a payload. */
  const HEADER := 2
  /** Words of an entry of the separate headers. */
  const ENTRY := 3

  datatype Slot = Slot(size: nat, used: bool)

  /** Where block `i` starts; `Start(b, |b|)` is the end of the last one. */
  function Start(b: seq<Slot>, i: nat): (a: nat)
    requires i <= |b|
  {
    if i == 0 then 0 else Start(b, i - 1) + HEADER + b[i - 1].size
  }

  function Payload(b: seq<Slot>, i: nat): int
    requires i <= |b|
  {
    Start(b, i) + HEADER
  }

  predicate Fits(b: seq<Slot>, n: nat, i: nat)
    requires i < |b|
  {
    !b[i].used && b[i].size >= n
  }

  /** The first free block from `i` on that can hold `n` words; `|b|` if there is none. */
  function FirstFit(b: seq<Slot>, n: nat, i: nat): (k: nat)
    requires i <= |b|
    ensures i <= k <= |b| && (k < |b| ==> Fits(b, n, k)) && forall j :: i <= j < k ==> !Fits(b, n, j)
    decreases |b| - i
  {
    if i == |b| || Fits(b, n, i) then i else FirstFit(b, n, i + 1)
  }

  datatype Outcome = Outcome(blocks: seq<Slot>, result: int)

  /** A request for `n` words, with room for `capacity` words of data. */
  function Malloc(b: seq<Slot>, n: nat, capacity: int): Outcome {
    var k := FirstFit(b, n, 0);
    if k < |b| then Outcome(b[k := b[k].(used := true)], Payload(b, k))
    else if Payload(b, |b|) + n > capacity then Outcome(b, NULL)
    else Outcome(b + [Slot(n, true)], Payload(b, |b|))
  }

  /** A request for `n` words, with room for as many words of headers. */
  function MallocApart(b: seq<Slot>, n: nat, capacity: int): Outcome {
    var k := FirstFit(b, n, 0);
    if k < |b| then Outcome(b[k := b[k].(used := true)], Payload(b, k))
    else if Payload(b, |b|) + n > capacity then Outcome(b, NULL)
    else if ENTRY * (|b| + 1) > capacity then Outcome(b, NULL)
    else Outcome(b + [Slot(n, true)], Payload(b, |b|))
  }

  /** Address `p` is the payload of block `i`, which is in use. */
  predicate UsedAt(b: seq<Slot>, p: int, i: nat) {
    i < |b| && b[i].used && Payload(b, i) == p
  }

  /** Frees the block whose payload is `p`; 1 if there is none in use. */
  ghost function Free(b: seq<Slot>, p: int): Outcome {
    if i: nat :| UsedAt(b, p, i) then Outcome(b[i := b[i].(used := false)], 0) else Outcome(b, 1)
  }

  /** `alloc_free` with headers in front of payloads: nothing is freed from `last_ptr` on. */
  ghost function FreePlain(b: seq<Slot>, p: int): Outcome {
    if p >= Start(b, |b|) then Outcome(b, 1) else Free(b, p)
  }

  /** `alloc_free` with separate headers: nothing is freed outside the data region of `size` bytes, which may
      end in the middle of a word. */
  ghost function FreeApart(b: seq<Slot>, p: int, size: int): Outcome {
    if WORD * p >= size then Outcome(b, 1) else Free(b, p)
  }

  /** What callers of the plain allocator may free: a payload of a block, or an address outside the used part. */
  ghost predicate Freeable(b: seq<Slot>, p: int) {
    p < HEADER || p >= Start(b, |b|) || exists i: nat :: i < |b| && Payload(b, i) == p
  }

  // ---- where blocks start ----

  lemma {:induction false} StartsApart(b: seq<Slot>, i: nat, j: nat)
    requires i < j <= |b|
    ensures Payload(b, i) + b[i].size <= Start(b, j)
    decreases j
  {
    if i + 1 < j { StartsApart(b, i, j - 1); }
  }

  lemma {:induction false} SameStart(b: seq<Slot>, c: seq<Slot>, i: nat)
    requires i <= |b| && i <= |c| && forall j :: 0 <= j < i ==> b[j].size == c[j].size
    ensures Start(b, i) == Start(c, i)
  {
    if i > 0 { SameStart(b, c, i - 1); }
  }

  lemma OnePayload(b: seq<Slot>, i: nat, j: nat)
    requires i < |b| && j < |b| && Payload(b, i) == Payload(b, j)
    ensures i == j
  {
    if i < j { StartsApart(b, i, j); }
    if j < i { StartsApart(b, j, i); }
  }

  lemma FreeIs(b: seq<Slot>, p: int, i: nat)
    requires UsedAt(b, p, i)
    ensures Free(b, p) == Outcome(b[i := b[i].(used := false)], 0)
  {
    forall j: nat | UsedAt(b, p, j) ensures j == i {
      OnePayload(b, i, j);
    }
  }

  // ---- payloads ----

  /** Word `w` belongs to the payload of block `k`, which is in use. */
  ghost predicate UsedWord(b: seq<Slot>, k: nat, w: int) {
    k < |b| && b[k].used && Payload(b, k) <= w < Payload(b, k) + b[k].size
  }

  /** Every word of every payload in use is the same. */
  ghost predicate SamePayloads(m: seq<int>, m': seq<int>, b: seq<Slot>) {
    |m| == |m'| && forall k: nat, w: nat {:trigger UsedWord(b, k, w)} :: UsedWord(b, k, w) && w < |m| ==> m'[w] == m[w]
  }

  lemma AppendLeavesPayloads(m: seq<int>, m': seq<int>, b: seq<Slot>)
    requires |m| == |m'| && forall i :: 0 <= i < Start(b, |b|) && i < |m| ==> m'[i] == m[i]
    ensures SamePayloads(m, m', b)
  {
    forall i: nat, w: nat | UsedWord(b, i, w) && w < |m| ensures m'[w] == m[w] {
      StartsApart(b, i, |b|);
    }
  }
}
