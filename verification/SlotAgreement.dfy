/**
 The plain implicit allocator and the one with separate headers, call by call and over whole runs: exactly
 when they agree, and where their payloads are.
 */
module SlotAgreement {
  import opened Memory
  import opened SlotSpec

  // ---- one call ----

  /** A request in bytes, a free, or a reset. */
  datatype Op = MallocOp(bytes: nat) | FreeOp(p: int) | ResetOp

  /** The plain allocator, with an arena of `size` bytes. */
  ghost function Do(b: seq<Slot>, op: Op, size: nat): Outcome {
    match op
    case MallocOp(bytes) => Malloc(b, Words(bytes), size / WORD)
    case FreeOp(p) => FreePlain(b, p)
    case ResetOp => Outcome([], 0)
  }

  /** The allocator with separate headers, with as many bytes for each region. */
  ghost function DoApart(b: seq<Slot>, op: Op, size: nat): Outcome {
    match op
    case MallocOp(bytes) => MallocApart(b, Words(bytes), size / WORD)
    case FreeOp(p) => FreeApart(b, p, size)
    case ResetOp => Outcome([], 0)
  }

  /** A block that is appended finds room for its separate header too. */
  ghost predicate HeadersFit(b: seq<Slot>, n: nat, capacity: int) {
    FirstFit(b, n, 0) == |b| && Payload(b, |b|) + n <= capacity ==> ENTRY * (|b| + 1) <= capacity
  }

  /** `p` is the payload of the last block, in use and empty, so that `p` is not below `last_ptr`. */
  ghost predicate EmptyAtEnd(b: seq<Slot>, p: int) {
    b != [] && b[|b| - 1] == Slot(0, true) && p == Start(b, |b|)
  }

  /** All blocks lie in the region. */
  ghost predicate InRegion(b: seq<Slot>, size: nat) {
    Start(b, |b|) <= size / WORD
  }

  /** The guards of the branches in which the two allocators differ. */
  ghost predicate Common(b: seq<Slot>, op: Op, size: nat) {
    match op
    case MallocOp(bytes) => HeadersFit(b, Words(bytes), size / WORD)
    case FreeOp(p) => !(EmptyAtEnd(b, p) && WORD * p < size)
    case ResetOp => true
  }

  lemma SameMalloc(b: seq<Slot>, n: nat, capacity: int)
    ensures MallocApart(b, n, capacity) == Malloc(b, n, capacity) <==> HeadersFit(b, n, capacity)
  {
  }

  /** Nothing is in use from the end of the last block on, unless that block is empty. */
  lemma NothingBeyond(b: seq<Slot>, p: int)
    requires p >= Start(b, |b|)
    ensures EmptyAtEnd(b, p) ==> UsedAt(b, p, |b| - 1)
    ensures !EmptyAtEnd(b, p) ==> Free(b, p) == Outcome(b, 1)
  {
    if !EmptyAtEnd(b, p) {
      forall i: nat ensures !UsedAt(b, p, i) {
        if UsedAt(b, p, i) {
          StartsApart(b, i, |b|);
          if i < |b| - 1 { StartsApart(b, i, |b| - 1); }
        }
      }
    }
  }

  lemma SameFree(b: seq<Slot>, p: int, size: nat)
    requires InRegion(b, size)
    ensures FreeApart(b, p, size) == FreePlain(b, p) <==> !(EmptyAtEnd(b, p) && WORD * p < size)
  {
    if p >= Start(b, |b|) {
      NothingBeyond(b, p);
      if EmptyAtEnd(b, p) { FreeIs(b, p, |b| - 1); }
    }
  }

  /** On the same blocks the two allocators answer a call alike, and leave the same blocks, exactly if it
      is a common one. */
  lemma SameStep(b: seq<Slot>, op: Op, size: nat)
    requires InRegion(b, size)
    ensures DoApart(b, op, size) == Do(b, op, size) <==> Common(b, op, size)
  {
    match op
    case MallocOp(bytes) => SameMalloc(b, Words(bytes), size / WORD);
    case FreeOp(p) => SameFree(b, p, size);
    case ResetOp =>
  }

  // ---- whole runs ----

  function Before(outcomes: seq<Outcome>, i: nat): seq<Slot>
    requires i <= |outcomes|
  {
    if i == 0 then [] else outcomes[i - 1].blocks
  }

  /** What one allocator makes of a run of calls: all outcomes, one after the other. The plain one trusts its
      callers to free payloads, or addresses out of range. */
  ghost predicate Run(apart: bool, ops: seq<Op>, outcomes: seq<Outcome>, size: nat) {
    && |outcomes| == |ops|
    && forall i {:trigger StepAt(apart, ops, outcomes, size, i)} :: 0 <= i < |ops| ==> StepAt(apart, ops, outcomes, size, i)
  }

  ghost predicate StepAt(apart: bool, ops: seq<Op>, outcomes: seq<Outcome>, size: nat, i: int) {
    0 <= i < |ops| && i < |outcomes| && Step(apart, Before(outcomes, i), ops[i], outcomes[i], size)
  }

  ghost predicate Step(apart: bool, b: seq<Slot>, op: Op, r: Outcome, size: nat) {
    if apart then r == DoApart(b, op, size)
    else r == Do(b, op, size) && (op.FreeOp? ==> Freeable(b, op.p))
  }

  /** Blocks of `c` are those of `b`, with the same sizes, and possibly one more with the given size. */
  ghost predicate Grown(b: seq<Slot>, c: seq<Slot>, n: nat) {
    && (|c| == |b| || (|c| == |b| + 1 && c[|b|].size == n))
    && forall i :: 0 <= i < |b| ==> c[i].size == b[i].size
  }

  lemma StepGrows(apart: bool, b: seq<Slot>, op: Op, r: Outcome, size: nat)
    requires Step(apart, b, op, r, size)
    ensures if op.ResetOp? then r.blocks == [] else Grown(b, r.blocks, if op.MallocOp? then Words(op.bytes) else 0)
    ensures !op.MallocOp? ==> |r.blocks| <= |b|
  {
  }

  lemma StaysInRegion(b: seq<Slot>, op: Op, r: Outcome, size: nat)
    requires Step(false, b, op, r, size) && InRegion(b, size)
    ensures InRegion(r.blocks, size)
  {
    StepGrows(false, b, op, r, size);
    if !op.ResetOp? { SameStart(b, r.blocks, |b|); }
  }

  lemma RunStep(apart: bool, ops: seq<Op>, outcomes: seq<Outcome>, size: nat, i: nat)
    requires Run(apart, ops, outcomes, size) && i < |ops|
    ensures |outcomes| == |ops| && Step(apart, Before(outcomes, i), ops[i], outcomes[i], size)
  {
    assert StepAt(apart, ops, outcomes, size, i);
  }

  lemma {:induction false} RunInRegion(ops: seq<Op>, a: seq<Outcome>, size: nat, k: nat)
    requires Run(false, ops, a, size) && k <= |ops|
    ensures InRegion(Before(a, k), size)
    decreases k
  {
    if k > 0 {
      hide Step, Start;
      RunInRegion(ops, a, size, k - 1);
      RunStep(false, ops, a, size, k - 1);
      StaysInRegion(Before(a, k - 1), ops[k - 1], a[k - 1], size);
    }
  }

  ghost predicate AllCommon(ops: seq<Op>, a: seq<Outcome>, size: nat, k: nat) {
    k <= |ops| && k <= |a| && forall i :: 0 <= i < k ==> Common(Before(a, i), ops[i], size)
  }

  lemma AgreeStep(ops: seq<Op>, a: seq<Outcome>, b: seq<Outcome>, size: nat, i: nat)
    requires Run(false, ops, a, size) && Run(true, ops, b, size) && i < |ops|
    requires Before(a, i) == Before(b, i)
    ensures a[i] == b[i] <==> Common(Before(a, i), ops[i], size)
  {
    hide Common, Do, DoApart, Freeable;
    RunInRegion(ops, a, size, i);
    RunStep(false, ops, a, size, i);
    RunStep(true, ops, b, size, i);
    SameStep(Before(a, i), ops[i], size);
  }

  /** The first `k` outcomes, the blocks left and the answers, are the same. */
  ghost predicate Alike(a: seq<Outcome>, b: seq<Outcome>, k: nat) {
    k <= |a| && k <= |b| && forall i :: 0 <= i < k ==> a[i] == b[i]
  }

  /** Along any run the two allocators give the same addresses, refuse the same requests and answer frees
      alike exactly as long as all calls are common ones. */
  lemma {:induction false} RunsAgree(ops: seq<Op>, a: seq<Outcome>, b: seq<Outcome>, size: nat, k: nat)
    requires Run(false, ops, a, size) && Run(true, ops, b, size) && k <= |ops|
    ensures Alike(a, b, k) <==> AllCommon(ops, a, size, k)
    decreases k
  {
    hide Common, Step;
    if k > 0 {
      RunsAgree(ops, a, b, size, k - 1);
      if Alike(a, b, k - 1) { AgreeStep(ops, a, b, size, k - 1); }
    }
  }

  // ---- requests of at least one byte ----

  /** Requests of at least one byte get at least two words. */
  ghost predicate NoneEmpty(b: seq<Slot>) {
    forall i :: 0 <= i < |b| ==> b[i].size >= 2
  }

  ghost predicate AtLeastOneByte(ops: seq<Op>) {
    forall i :: 0 <= i < |ops| && ops[i].MallocOp? ==> ops[i].bytes > 0
  }

  /** `i` blocks take at least four words of data each, and three words of headers each. */
  lemma {:induction false} StartAtLeast(b: seq<Slot>, i: nat)
    requires i <= |b| && NoneEmpty(b)
    ensures Start(b, i) >= 4 * i
  {
    if i > 0 { StartAtLeast(b, i - 1); }
  }

  /** Without empty blocks, the headers never run out of room before the data does. */
  lemma NeverShortOfHeaders(b: seq<Slot>, op: Op, size: nat)
    requires NoneEmpty(b) && (op.MallocOp? ==> op.bytes > 0)
    ensures Common(b, op, size)
  {
    StartAtLeast(b, |b|);
  }

  lemma StaysNoneEmpty(b: seq<Slot>, op: Op, r: Outcome, size: nat)
    requires Step(false, b, op, r, size) && NoneEmpty(b) && (op.MallocOp? ==> op.bytes > 0)
    ensures NoneEmpty(r.blocks)
  {
    StepGrows(false, b, op, r, size);
    hide Step;
  }

  lemma {:induction false} RunNoneEmpty(ops: seq<Op>, a: seq<Outcome>, size: nat, k: nat)
    requires Run(false, ops, a, size) && k <= |ops| && AtLeastOneByte(ops)
    ensures NoneEmpty(Before(a, k)) && AllCommon(ops, a, size, k)
    decreases k
  {
    if k > 0 {
      hide Step, Common;
      RunNoneEmpty(ops, a, size, k - 1);
      RunStep(false, ops, a, size, k - 1);
      NeverShortOfHeaders(Before(a, k - 1), ops[k - 1], size);
      StaysNoneEmpty(Before(a, k - 1), ops[k - 1], a[k - 1], size);
    }
  }

  /** So the two agree on every run with requests of at least one byte. */
  lemma NonEmptyRunsAgree(ops: seq<Op>, a: seq<Outcome>, b: seq<Outcome>, size: nat, k: nat)
    requires Run(false, ops, a, size) && Run(true, ops, b, size) && k <= |ops| && AtLeastOneByte(ops)
    ensures Alike(a, b, k)
  {
    RunNoneEmpty(ops, a, size, k);
    RunsAgree(ops, a, b, size, k);
  }

  lemma GrantsNothing(apart: bool, b: seq<Slot>, size: nat)
    requires FirstFit(b, 0, 0) == |b| && Payload(b, |b|) <= size / WORD
    requires apart ==> ENTRY * (|b| + 1) <= size / WORD
    ensures Step(apart, b, MallocOp(0), Outcome(b + [Slot(0, true)], Payload(b, |b|)), size)
  {
  }

  lemma RefusesNothing(b: seq<Slot>, size: nat)
    requires FirstFit(b, 0, 0) == |b| && ENTRY * (|b| + 1) > size / WORD
    ensures Step(true, b, MallocOp(0), Outcome(b, NULL), size)
  {
  }

  /** Requests for nothing tell the two apart. In 48 bytes, three blocks without payload find room with their
      headers in front of them, but only two find room for separate headers. */
  lemma EmptyRequestsDiffer()
    ensures var ops, one, two := [MallocOp(0), MallocOp(0), MallocOp(0)], [Slot(0, true)], [Slot(0, true), Slot(0, true)];
      && Run(false, ops, [Outcome(one, 2), Outcome(two, 4), Outcome(two + one, 6)], 48)
      && Run(true, ops, [Outcome(one, 2), Outcome(two, 4), Outcome(two, NULL)], 48)
  {
    var one, two := [Slot(0, true)], [Slot(0, true), Slot(0, true)];
    assert [] + one == one && one + one == two;
    assert Start([], 0) == 0 && Start(one, 1) == 2 && Start(two, 1) == 2 && Start(two, 2) == 4;
    assert FirstFit([], 0, 0) == 0 && FirstFit(one, 0, 0) == 1 && FirstFit(two, 0, 0) == 2;
    hide Step, FirstFit, Start;
    GrantsNothing(false, [], 48);
    GrantsNothing(true, [], 48);
    GrantsNothing(false, one, 48);
    GrantsNothing(true, one, 48);
    GrantsNothing(false, two, 48);
    RefusesNothing(two, 48);
  }

  /** So do frees of what they return: the payload of an empty last block is not below `last_ptr`. */
  lemma EmptyFreesDiffer(size: nat)
    requires size / WORD >= ENTRY
    ensures var ops, used := [MallocOp(0), FreeOp(2)], [Slot(0, true)];
      && Run(false, ops, [Outcome(used, 2), Outcome(used, 1)], size)
      && Run(true, ops, [Outcome(used, 2), Outcome([Slot(0, false)], 0)], size)
  {
    var used := [Slot(0, true)];
    assert [] + used == used && Start(used, 0) == 0 && Start(used, 1) == 2;
    assert FirstFit([], 0, 0) == 0;
    FreeIs(used, 2, 0);
  }

  /** The last bytes of a region count, even if they are no whole word: with an empty block behind 192 bytes, the
      two agree on a free of it only if the region ends there. */
  lemma LastBytesCount(size: nat)
    requires size / WORD == 24
    ensures var b := [Slot(20, true), Slot(0, true)];
      && Do(b, FreeOp(24), size) == Outcome(b, 1)
      && (DoApart(b, FreeOp(24), size) == Outcome(b, 1) <==> size == 192)
  {
    var b := [Slot(20, true), Slot(0, true)];
    assert Start(b, 0) == 0 && Start(b, 1) == 22 && Start(b, 2) == 24;
    SameFree(b, 24, size);
  }

  // ---- alignment ----

  ghost predicate AllEven(b: seq<Slot>) {
    forall i :: 0 <= i < |b| ==> b[i].size % 2 == 0
  }

  lemma {:induction false} PayloadsAligned(b: seq<Slot>, i: nat)
    requires i <= |b| && AllEven(b)
    ensures Payload(b, i) % 2 == 0
  {
    if i > 0 { PayloadsAligned(b, i - 1); }
  }

  lemma StepEven(apart: bool, b: seq<Slot>, op: Op, r: Outcome, size: nat)
    requires Step(apart, b, op, r, size) && AllEven(b)
    ensures AllEven(r.blocks)
  {
    StepGrows(apart, b, op, r, size);
    hide Step;
  }

  lemma {:induction false} RunEven(apart: bool, ops: seq<Op>, outcomes: seq<Outcome>, size: nat, k: nat)
    requires Run(apart, ops, outcomes, size) && k <= |ops|
    ensures AllEven(Before(outcomes, k))
    decreases k
  {
    if k > 0 {
      hide Step;
      RunEven(apart, ops, outcomes, size, k - 1);
      RunStep(apart, ops, outcomes, size, k - 1);
      StepEven(apart, Before(outcomes, k - 1), ops[k - 1], outcomes[k - 1], size);
    }
  }

  /** On every run, with headers in front of payloads or apart from them, every payload handed out is 16-byte
      aligned. */
  lemma RunAligned(apart: bool, ops: seq<Op>, outcomes: seq<Outcome>, size: nat, k: nat)
    requires Run(apart, ops, outcomes, size) && k < |ops| && ops[k].MallocOp?
    ensures outcomes[k].result == NULL || outcomes[k].result % 2 == 0
  {
    var b := Before(outcomes, k);
    RunEven(apart, ops, outcomes, size, k);
    RunStep(apart, ops, outcomes, size, k);
    PayloadsAligned(b, FirstFit(b, Words(ops[k].bytes), 0));
    PayloadsAligned(b, |b|);
  }
}
