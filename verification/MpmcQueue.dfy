/**
 The bounded multi-producer multi-consumer queue, `2_cpp_basics/3_lock_free/2_mpmc_queue/mpmc.cpp`.

 Any number of threads run at once. Every load, store and compare-exchange of the source is one step of
 one thread, and a schedule, any sequence of steps, says who moves when. `pos & buffer_mask` is the
 remainder by the size, which is a power of two.
 */
module MpmcQueue {
  import opened Remainders

  /** A cell; what is in `data` counts only while `sequence` says so. */
  datatype Cell = Cell(sequence: int, data: int)

  /** Where a thread is: what it does next. */
  datatype Pc =
    | Idle
    | Returned(ok: bool)
    // enqueue
    | EnqLoad(value: int)                  // load the enqueue pointer
    | EnqSequence(value: int, pos: nat)    // load the sequence of the cell and compare
    | EnqClaim(value: int, pos: nat)       // compare-exchange of the enqueue pointer
    | EnqWrite(value: int, pos: nat)       // write the data
    | EnqPublish(value: int, pos: nat)     // store the sequence
    // dequeue
    | DeqLoad
    | DeqSequence(pos: nat)
    | DeqClaim(pos: nat)
    | DeqRead(pos: nat)
    | DeqRelease(pos: nat, value: int)

  /** What the scheduler decides: the calls, and whether a weak compare-exchange fails for no reason. */
  datatype Choice = CallEnqueue(value: int) | CallDequeue | Go | FailSpuriously

  /** Who enqueued a ticket, and what. */
  datatype Claim = Claim(thread: nat, value: int)

  /** `claims`, `takers` and `got` record the past: ticket `p` was claimed for enqueueing as `claims[p]`
      says and for dequeueing by thread `takers[p]`, which read `got[p]`. */
  datatype State = State(cells: seq<Cell>, enqueuePtr: nat, dequeuePtr: nat, pcs: seq<Pc>,
                         claims: seq<Claim>, takers: seq<nat>, got: map<nat, int>)

  function CellOf(s: State, p: nat): Cell
    requires |s.cells| > 0
  {
    s.cells[p % |s.cells|]
  }

  function Initial(size: nat, threads: nat): State {
    State(seq(size, i => Cell(i, 0)), 0, 0, seq(threads, _ => Idle), [], [], map[])
  }

  function At(s: State, t: nat, pc: Pc): State
    requires t < |s.pcs|
  {
    s.(pcs := s.pcs[t := pc])
  }

  function Store(s: State, p: nat, c: Cell): State
    requires |s.cells| > 0
  {
    s.(cells := s.cells[p % |s.cells| := c])
  }

  /** The next step of thread `t`. */
  function Next(s: State, t: nat, c: Choice): State
    requires |s.cells| > 0 && t < |s.pcs|
  {
    match s.pcs[t]
    case Idle | Returned(_) =>
      (match c
       case CallEnqueue(value) => At(s, t, EnqLoad(value))
       case CallDequeue => At(s, t, DeqLoad)
       case Go | FailSpuriously => s)
    case EnqLoad(value) => At(s, t, EnqSequence(value, s.enqueuePtr))
    case EnqSequence(value, pos) =>
      var diff := CellOf(s, pos).sequence - pos;
      At(s, t, if diff == 0 then EnqClaim(value, pos) else if diff < 0 then Returned(false) else EnqLoad(value))
    case EnqClaim(value, pos) =>
      if s.enqueuePtr == pos && c != FailSpuriously then
        At(s, t, EnqWrite(value, pos)).(enqueuePtr := pos + 1, claims := s.claims + [Claim(t, value)])
      else At(s, t, EnqSequence(value, s.enqueuePtr))
    case EnqWrite(value, pos) =>
      At(Store(s, pos, CellOf(s, pos).(data := value)), t, EnqPublish(value, pos))
    case EnqPublish(value, pos) =>
      At(Store(s, pos, CellOf(s, pos).(sequence := pos + 1)), t, Returned(true))
    case DeqLoad => At(s, t, DeqSequence(s.dequeuePtr))
    case DeqSequence(pos) =>
      var diff := CellOf(s, pos).sequence - (pos + 1);
      At(s, t, if diff == 0 then DeqClaim(pos) else if diff < 0 then Returned(false) else DeqLoad)
    case DeqClaim(pos) =>
      if s.dequeuePtr == pos && c != FailSpuriously then
        At(s, t, DeqRead(pos)).(dequeuePtr := pos + 1, takers := s.takers + [t])
      else At(s, t, DeqSequence(s.dequeuePtr))
    case DeqRead(pos) =>
      At(s, t, DeqRelease(pos, CellOf(s, pos).data)).(got := s.got[pos := CellOf(s, pos).data])
    case DeqRelease(pos, _) =>
      At(Store(s, pos, CellOf(s, pos).(sequence := pos + |s.cells|)), t, Returned(true))
  }

  datatype Move = Move(thread: nat, choice: Choice)

  /** The state after the moves of a schedule, one after the other. */
  function Exec(s: State, schedule: seq<Move>): (r: State)
    requires |s.cells| > 0 && forall i :: 0 <= i < |schedule| ==> schedule[i].thread < |s.pcs|
    ensures |r.cells| == |s.cells| && |r.pcs| == |s.pcs|
  {
    if schedule == [] then s
    else Next(Exec(s, schedule[..|schedule| - 1]), schedule[|schedule| - 1].thread, schedule[|schedule| - 1].choice)
  }

  // ---- the invariant ----

  /** The producer of ticket `p` has claimed it and not yet published it. */
  predicate Producing(s: State, p: nat) {
    && p < |s.claims| && s.claims[p].thread < |s.pcs|
    && s.pcs[s.claims[p].thread] in {EnqWrite(s.claims[p].value, p), EnqPublish(s.claims[p].value, p)}
  }

  /** The consumer of ticket `p` has claimed it and not yet released its cell. */
  predicate Consuming(s: State, p: nat) {
    && p < |s.takers| && p < |s.claims| && s.takers[p] < |s.pcs|
    && s.pcs[s.takers[p]] in {DeqRead(p), DeqRelease(p, s.claims[p].value)}
  }

  /** The cell of ticket `p`, from the moment the previous ticket of that cell is claimed by a consumer
      until `p` itself is. */
  ghost predicate CellOk(s: State, p: nat)
    requires |s.cells| > 0
  {
    var n, c := |s.cells|, CellOf(s, p);
    if p < |s.claims| then
      || (c.sequence == p && Producing(s, p))
      || (c.sequence == p + 1 && c.data == s.claims[p].value)
    else
      || c.sequence == p
      || (p >= n && c.sequence == p - n + 1 && Consuming(s, p - n))
  }

  ghost predicate ThreadOk(s: State, t: nat)
    requires |s.cells| > 0 && t < |s.pcs|
  {
    match s.pcs[t]
    case EnqSequence(_, pos) => pos <= s.enqueuePtr
    case EnqClaim(_, pos) => pos <= s.enqueuePtr && (pos == s.enqueuePtr ==> CellOf(s, pos).sequence == pos)
    case EnqWrite(value, pos) => Holds(s, pos) && s.claims[pos] == Claim(t, value)
    case EnqPublish(value, pos) => Holds(s, pos) && s.claims[pos] == Claim(t, value) && CellOf(s, pos).data == value
    case DeqSequence(pos) => pos <= s.dequeuePtr
    case DeqClaim(pos) => pos <= s.dequeuePtr && (pos == s.dequeuePtr ==> CellOf(s, pos).sequence == pos + 1)
    case DeqRead(pos) => Reads(s, pos) && s.takers[pos] == t
    case DeqRelease(pos, value) => Reads(s, pos) && s.takers[pos] == t && value == s.claims[pos].value
    case _ => true
  }

  /** What holds of the ticket of a producer between claim and release. */
  ghost predicate Holds(s: State, p: nat)
    requires |s.cells| > 0
  {
    s.dequeuePtr <= p < |s.claims| && CellOf(s, p).sequence == p
  }

  /** What holds of the ticket of a consumer between claim and release. */
  ghost predicate Reads(s: State, p: nat)
    requires |s.cells| > 0
  {
    && p < |s.takers| && |s.claims| <= p + |s.cells| && p < |s.claims|
    && CellOf(s, p) == Cell(p + 1, s.claims[p].value)
  }

  ghost predicate GotOk(s: State, p: nat) {
    && (p in s.got ==> p < |s.takers| && p < |s.claims| && s.got[p] == s.claims[p].value)
    && (p < |s.takers| && p !in s.got ==> s.takers[p] < |s.pcs| && s.pcs[s.takers[p]] == DeqRead(p))
  }

  ghost predicate Inv(s: State) {
    && |s.cells| >= 2
    && |s.claims| == s.enqueuePtr && |s.takers| == s.dequeuePtr
    && s.dequeuePtr <= s.enqueuePtr <= s.dequeuePtr + |s.cells|
    && (forall p: nat {:trigger CellOk(s, p)} :: s.dequeuePtr <= p < s.dequeuePtr + |s.cells| ==> CellOk(s, p))
    && (forall t: nat {:trigger ThreadOk(s, t)} :: t < |s.pcs| ==> ThreadOk(s, t))
    && (forall p: nat {:trigger GotOk(s, p)} :: GotOk(s, p))
  }

  // ---- every step keeps the invariant ----

  /** The thread works on a cell that it has claimed. */
  predicate InCell(pc: Pc) {
    pc.EnqWrite? || pc.EnqPublish? || pc.DeqRead? || pc.DeqRelease?
  }

  /** The thread will claim a ticket if it moves now. */
  predicate AboutToClaim(s: State, u: nat)
    requires u < |s.pcs|
  {
    (s.pcs[u].EnqClaim? && s.pcs[u].pos == s.enqueuePtr) || (s.pcs[u].DeqClaim? && s.pcs[u].pos == s.dequeuePtr)
  }

  /** A step that only moves a thread that works on no cell. */
  lemma KeepsLocal(s: State, t: nat, pc: Pc)
    requires Inv(s) && t < |s.pcs| && !InCell(s.pcs[t]) && !InCell(pc)
    requires ThreadOk(At(s, t, pc), t)
    ensures Inv(At(s, t, pc))
  {
    var s' := At(s, t, pc);
    forall p: nat | s'.dequeuePtr <= p < s'.dequeuePtr + |s'.cells| ensures CellOk(s', p) {
      assert CellOk(s, p);
    }
    forall u: nat | u < |s'.pcs| ensures ThreadOk(s', u) {
      assert ThreadOk(s, u);
    }
    forall p: nat ensures GotOk(s', p) {
      assert GotOk(s, p);
    }
  }

  lemma KeepsEnqClaim(s: State, t: nat, c: Choice)
    requires Inv(s) && t < |s.pcs| && s.pcs[t].EnqClaim? && AboutToClaim(s, t) && c != FailSpuriously
    ensures Inv(Next(s, t, c))
  {
    var s', n, pos := Next(s, t, c), |s.cells|, s.enqueuePtr;
    assert ThreadOk(s, t);
    // the cell is free, so there is room
    if pos == s.dequeuePtr + n {
      assert CellOk(s, pos - n);
      NextLap(pos - n, n);
      assert false;
    }
    forall p: nat | s'.dequeuePtr <= p < s'.dequeuePtr + n ensures CellOk(s', p) {
      assert CellOk(s, p);
    }
    forall u: nat | u < |s'.pcs| ensures ThreadOk(s', u) {
      assert ThreadOk(s, u);
      if u != t && InCell(s.pcs[u]) && s.pcs[u].pos + n == pos { NextLap(s.pcs[u].pos, n); }
    }
    forall p: nat ensures GotOk(s', p) {
      assert GotOk(s, p);
    }
  }

  /** Two threads that work on cells work on different ones. */
  lemma OtherCell(s: State, t: nat, u: nat)
    requires Inv(s) && t < |s.pcs| && u < |s.pcs| && t != u && InCell(s.pcs[t]) && InCell(s.pcs[u])
    ensures s.pcs[t].pos % |s.cells| != s.pcs[u].pos % |s.cells|
  {
    var n, p, q := |s.cells|, s.pcs[t].pos, s.pcs[u].pos;
    assert ThreadOk(s, t) && ThreadOk(s, u);
    NextLap(p, n);
    NextLap(q, n);
    var p' := if s.pcs[t].DeqRead? || s.pcs[t].DeqRelease? then p + n else p;
    var q' := if s.pcs[u].DeqRead? || s.pcs[u].DeqRelease? then q + n else q;
    Apart(p', q', n);
  }

  /** The cell that a thread is about to claim is not one that another thread works on. */
  lemma ClaimApart(s: State, t: nat, u: nat)
    requires Inv(s) && t < |s.pcs| && u < |s.pcs| && InCell(s.pcs[t])
    requires AboutToClaim(s, u)
    ensures s.pcs[t].pos % |s.cells| != s.pcs[u].pos % |s.cells|
  {
    var n, p, q := |s.cells|, s.pcs[t].pos, s.pcs[u].pos;
    assert ThreadOk(s, t) && ThreadOk(s, u);
    if CellOf(s, p).sequence == CellOf(s, q).sequence {
      assert p != q && p <= q + 1 && q <= p + 1;
      Apart(p, q, n);
    }
  }

  lemma KeepsEnqWrite(s: State, t: nat, c: Choice)
    requires Inv(s) && t < |s.pcs| && s.pcs[t].EnqWrite?
    ensures Inv(Next(s, t, c))
  {
    var s', n, pos := Next(s, t, c), |s.cells|, s.pcs[t].pos;
    assert ThreadOk(s, t);
    forall p: nat | s'.dequeuePtr <= p < s'.dequeuePtr + n ensures CellOk(s', p) {
      assert CellOk(s, p);
      if p != pos { Apart(p, pos, n); }
    }
    forall u: nat | u < |s'.pcs| ensures ThreadOk(s', u) {
      assert ThreadOk(s, u);
      if u != t && InCell(s.pcs[u]) { OtherCell(s, t, u); }
    }
    forall p: nat ensures GotOk(s', p) {
      assert GotOk(s, p);
    }
  }

  lemma KeepsEnqPublish(s: State, t: nat, c: Choice)
    requires Inv(s) && t < |s.pcs| && s.pcs[t].EnqPublish?
    ensures Inv(Next(s, t, c))
  {
    var s', n, pos := Next(s, t, c), |s.cells|, s.pcs[t].pos;
    assert ThreadOk(s, t);
    forall p: nat | s'.dequeuePtr <= p < s'.dequeuePtr + n ensures CellOk(s', p) {
      assert CellOk(s, p);
      if p != pos { Apart(p, pos, n); }
    }
    forall u: nat | u < |s'.pcs| ensures ThreadOk(s', u) {
      assert ThreadOk(s, u);
      if u != t && InCell(s.pcs[u]) { OtherCell(s, t, u); }
      if u != t && AboutToClaim(s, u) { ClaimApart(s, t, u); }
    }
    forall p: nat ensures GotOk(s', p) {
      assert GotOk(s, p);
    }
  }

  lemma KeepsDeqClaim(s: State, t: nat, c: Choice)
    requires Inv(s) && t < |s.pcs| && s.pcs[t].DeqClaim? && AboutToClaim(s, t) && c != FailSpuriously
    ensures Inv(Next(s, t, c))
  {
    var s', n, pos := Next(s, t, c), |s.cells|, s.dequeuePtr;
    assert ThreadOk(s, t) && CellOk(s, pos);
    NextLap(pos, n);
    forall p: nat | s'.dequeuePtr <= p < s'.dequeuePtr + n ensures CellOk(s', p) {
      if p < pos + n { assert CellOk(s, p); }
    }
    forall u: nat | u < |s'.pcs| ensures ThreadOk(s', u) {
      assert ThreadOk(s, u);
    }
    forall p: nat ensures GotOk(s', p) {
      assert GotOk(s, p);
    }
  }

  lemma KeepsDeqRead(s: State, t: nat, c: Choice)
    requires Inv(s) && t < |s.pcs| && s.pcs[t].DeqRead?
    ensures Inv(Next(s, t, c))
  {
    var s', n, pos := Next(s, t, c), |s.cells|, s.pcs[t].pos;
    assert ThreadOk(s, t);
    forall p: nat | s'.dequeuePtr <= p < s'.dequeuePtr + n ensures CellOk(s', p) {
      assert CellOk(s, p);
    }
    forall u: nat | u < |s'.pcs| ensures ThreadOk(s', u) {
      assert ThreadOk(s, u);
    }
    forall p: nat ensures GotOk(s', p) {
      assert GotOk(s, p);
    }
  }

  lemma KeepsDeqRelease(s: State, t: nat, c: Choice)
    requires Inv(s) && t < |s.pcs| && s.pcs[t].DeqRelease?
    ensures Inv(Next(s, t, c))
  {
    var s', n, pos := Next(s, t, c), |s.cells|, s.pcs[t].pos;
    assert ThreadOk(s, t);
    NextLap(pos, n);
    forall p: nat | s'.dequeuePtr <= p < s'.dequeuePtr + n ensures CellOk(s', p) {
      assert CellOk(s, p);
      if p != pos + n { Apart(p, pos + n, n); }
    }
    forall u: nat | u < |s'.pcs| ensures ThreadOk(s', u) {
      assert ThreadOk(s, u);
      if u != t && InCell(s.pcs[u]) { OtherCell(s, t, u); }
      if u != t && AboutToClaim(s, u) { ClaimApart(s, t, u); }
    }
    forall p: nat ensures GotOk(s', p) {
      assert GotOk(s, p);
    }
  }

  lemma KeepsQuiet(s: State, t: nat, c: Choice)
    requires Inv(s) && t < |s.pcs| && !InCell(s.pcs[t]) && !s.pcs[t].EnqClaim? && !s.pcs[t].DeqClaim?
    ensures Inv(Next(s, t, c))
  {
    assert ThreadOk(s, t);
    if Next(s, t, c) != s { KeepsLocal(s, t, Next(s, t, c).pcs[t]); }
  }

  lemma KeepsRetry(s: State, t: nat, c: Choice)
    requires Inv(s) && t < |s.pcs| && (s.pcs[t].EnqClaim? || s.pcs[t].DeqClaim?)
    requires !AboutToClaim(s, t) || c == FailSpuriously
    ensures Inv(Next(s, t, c))
  {
    KeepsLocal(s, t, Next(s, t, c).pcs[t]);
  }

  lemma StepKeeps(s: State, t: nat, c: Choice)
    requires Inv(s) && t < |s.pcs|
    ensures Inv(Next(s, t, c))
  {
    match s.pcs[t]
    case EnqClaim(_, _) => if AboutToClaim(s, t) && c != FailSpuriously { KeepsEnqClaim(s, t, c); } else { KeepsRetry(s, t, c); }
    case EnqWrite(_, _) => KeepsEnqWrite(s, t, c);
    case EnqPublish(_, _) => KeepsEnqPublish(s, t, c);
    case DeqClaim(_) => if AboutToClaim(s, t) && c != FailSpuriously { KeepsDeqClaim(s, t, c); } else { KeepsRetry(s, t, c); }
    case DeqRead(_) => KeepsDeqRead(s, t, c);
    case DeqRelease(_, _) => KeepsDeqRelease(s, t, c);
    case _ => KeepsQuiet(s, t, c);
  }

  predicate MovesOf(schedule: seq<Move>, threads: nat) {
    forall i :: 0 <= i < |schedule| ==> schedule[i].thread < threads
  }

  lemma InitialInv(size: nat, threads: nat)
    requires size >= 2
    ensures Inv(Initial(size, threads))
  {
    var s := Initial(size, threads);
    forall p: nat | p < size ensures CellOk(s, p) {
      RemainderIs(p, 0, p, size);
    }
  }

  /** Whatever the schedule, the invariant holds. */
  lemma {:induction false} EveryRun(size: nat, threads: nat, schedule: seq<Move>)
    requires size >= 2 && MovesOf(schedule, threads)
    ensures Inv(Exec(Initial(size, threads), schedule))
  {
    InitialInv(size, threads);
    if schedule != [] {
      var k := |schedule| - 1;
      EveryRun(size, threads, schedule[..k]);
      StepKeeps(Exec(Initial(size, threads), schedule[..k]), schedule[k].thread, schedule[k].choice);
    }
  }
}
