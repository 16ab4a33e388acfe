/**
 What clients of the two allocators without coalescing may rely on, call by call and over whole runs.
 */
module SlotRuns {
  import opened Memory
  import opened SlotSpec
  import opened SlotAgreement

  /** Blocks follow each other, two words in front of each payload. */
  lemma Layout(b: seq<Slot>, i: nat)
    requires i < |b|
    ensures Start(b, 0) == 0 && Payload(b, i) == Start(b, i) + 2 && Start(b, i + 1) == Payload(b, i) + b[i].size
  {
  }

  /** What a request for `n` words promises, in a region of `capacity` words with one of the same size for headers of
      three words or (if not `apart`) without: an answer `p`, and blocks `c` that were `b`. */
  ghost predicate Granted(apart: bool, b: seq<Slot>, n: nat, capacity: int, c: seq<Slot>, p: int) {
    if p == NULL then
      // no free block is large enough, and there is no room to append one; nothing changes
      && c == b && (forall i :: 0 <= i < |b| ==> b[i].used || b[i].size < n)
      && (Start(b, |b|) + 2 + n > capacity || (apart && 3 * (|b| + 1) > capacity))
    else
      exists i: nat {:trigger HandedOut(b, n, c, p, i)} ::
        HandedOut(b, n, c, p, i) && (i == |b| ==> p + n <= capacity && (apart ==> 3 * (|b| + 1) <= capacity))
  }

  /** The answer is the payload of block `i`: the first free one that is large enough, or a new last one if none is. */
  ghost predicate HandedOut(b: seq<Slot>, n: nat, c: seq<Slot>, p: int, i: nat) {
    && i < |c| && p == Start(c, i) + 2 && c[i].used && c[i].size >= n
    && (forall j :: 0 <= j < i && j < |b| ==> b[j].used || b[j].size < n)
    && (if i < |b| then !b[i].used && c == b[i := Slot(b[i].size, true)] else i == |b| && c == b + [Slot(n, true)])
  }

  lemma MallocGrants(apart: bool, b: seq<Slot>, n: nat, capacity: int)
    ensures var r := if apart then MallocApart(b, n, capacity) else Malloc(b, n, capacity);
      Granted(apart, b, n, capacity, r.blocks, r.result)
  {
    var r := if apart then MallocApart(b, n, capacity) else Malloc(b, n, capacity);
    var i := FirstFit(b, n, 0);
    forall j | 0 <= j < i ensures b[j].used || b[j].size < n {
      assert !Fits(b, n, j);
    }
    if r.result != NULL {
      SameStart(b, r.blocks, i);
      assert HandedOut(b, n, r.blocks, r.result, i);
    }
  }

  /** Address `p` is the payload of block `i` of `size` words, which is in use. */
  ghost predicate InUse(b: seq<Slot>, i: nat, p: int, size: nat) {
    i < |b| && b[i] == Slot(size, true) && p == Start(b, i) + 2
  }

  /** The payload handed out shares no word with the payload at `a`. */
  ghost predicate Clear(a: int, size: nat, p: int, n: nat) {
    p == NULL || p + n <= a || a + size <= p
  }

  /** A request leaves a payload in use where it is, with its size, and hands out other words. */
  lemma GrantLeaves(apart: bool, b: seq<Slot>, n: nat, capacity: int, c: seq<Slot>, p: int, i: nat, a: int, size: nat)
    requires Granted(apart, b, n, capacity, c, p) && InUse(b, i, a, size)
    ensures InUse(c, i, a, size)
    ensures p != NULL ==> exists k: nat, z: nat :: k != i && InUse(c, k, p, z) && z >= n && Clear(a, size, p, z)
  {
    if p != NULL {
      var k: nat :| HandedOut(b, n, c, p, k);
      SameStart(b, c, i);
      assert InUse(c, k, p, c[k].size);
      if i < k { StartsApart(c, i, k); } else { StartsApart(c, k, i); }
    }
  }

  /** A free answers 0 and frees the block whose payload it is given, if that is in use and in range; otherwise it
      answers 1 and changes nothing. */
  lemma FreeAnswers(apart: bool, b: seq<Slot>, p: int, size: nat)
    ensures var r := if apart then FreeApart(b, p, size) else FreePlain(b, p);
      && (forall i: nat, z: nat :: InUse(b, i, p, z) && (if apart then 8 * p < size else p < Start(b, |b|)) ==>
           r == Outcome(b[i := Slot(z, false)], 0))
      && ((forall i: nat, z: nat :: !InUse(b, i, p, z)) || !(if apart then 8 * p < size else p < Start(b, |b|)) ==>
           r == Outcome(b, 1))
  {
    forall i: nat, z: nat | InUse(b, i, p, z) ensures Free(b, p) == Outcome(b[i := Slot(z, false)], 0) {
      FreeIs(b, p, i);
    }
    forall i: nat | UsedAt(b, p, i) ensures InUse(b, i, p, b[i].size) { }
  }

  lemma FreeLeaves(apart: bool, b: seq<Slot>, p: int, size: nat, i: nat, a: int, z: nat)
    requires InUse(b, i, a, z) && a != p
    ensures var r := if apart then FreeApart(b, p, size) else FreePlain(b, p); InUse(r.blocks, i, a, z)
  {
    var r := if apart then FreeApart(b, p, size) else FreePlain(b, p);
    if k: nat :| UsedAt(b, p, k) {
      FreeIs(b, p, k);
      SameStart(b, r.blocks, i);
    }
  }

  // ---- whole runs ----

  /** Along any run every request is answered as promised. */
  lemma RunGrants(apart: bool, ops: seq<Op>, outcomes: seq<Outcome>, size: nat, k: nat)
    requires Run(apart, ops, outcomes, size) && k < |ops| && ops[k].MallocOp?
    ensures Granted(apart, Before(outcomes, k), Words(ops[k].bytes), size / 8, outcomes[k].blocks, outcomes[k].result)
  {
    RunStep(apart, ops, outcomes, size, k);
    MallocGrants(apart, Before(outcomes, k), Words(ops[k].bytes), size / 8);
  }

  /** The request is answered with words apart from those of the payload at `a`. */
  ghost predicate StaysClear(r: Outcome, n: nat, a: int, size: nat) {
    r.result == NULL || exists k: nat, z: nat :: InUse(r.blocks, k, r.result, z) && z >= n && Clear(a, size, r.result, z)
  }

  lemma StepLeaves(apart: bool, b: seq<Slot>, op: Op, r: Outcome, size: nat, i: nat, a: int, z: nat)
    requires Step(apart, b, op, r, size) && InUse(b, i, a, z) && op != FreeOp(a) && op != ResetOp
    ensures InUse(r.blocks, i, a, z)
    ensures op.MallocOp? ==> StaysClear(r, Words(op.bytes), a, z)
  {
    match op
    case MallocOp(bytes) =>
      MallocGrants(apart, b, Words(bytes), size / 8);
      hide Malloc, MallocApart, Granted;
      GrantLeaves(apart, b, Words(bytes), size / 8, r.blocks, r.result, i, a, z);
    case FreeOp(p) => FreeLeaves(apart, b, p, size, i, a, z);
    case ResetOp =>
  }

  /** Along any run of either allocator a payload keeps its place and size until it is freed or the arena is reset, and
      no request in between is answered with a word of it. */
  lemma {:induction false} LivesUntilFreed(apart: bool, ops: seq<Op>, outcomes: seq<Outcome>, size: nat,
                                           b: nat, a: int, z: nat, i: nat, j: nat)
    requires Run(apart, ops, outcomes, size) && i <= j <= |ops| && InUse(Before(outcomes, i), b, a, z)
    requires forall k :: i <= k < j ==> ops[k] != FreeOp(a) && ops[k] != ResetOp
    ensures InUse(Before(outcomes, j), b, a, z)
    ensures forall k :: i <= k < j && ops[k].MallocOp? ==> StaysClear(outcomes[k], Words(ops[k].bytes), a, z)
    decreases j
  {
    if i < j {
      hide Step, InUse, StaysClear;
      LivesUntilFreed(apart, ops, outcomes, size, b, a, z, i, j - 1);
      RunStep(apart, ops, outcomes, size, j - 1);
      StepLeaves(apart, Before(outcomes, j - 1), ops[j - 1], outcomes[j - 1], size, b, a, z);
    }
  }
}
