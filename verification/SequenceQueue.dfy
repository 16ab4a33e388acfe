/**
 The two spinning queues of the engine, `4_order_book_proj/src/queues_impl.hpp`: many producers or a single
 one, and one consumer, on cells with sequence numbers.

 Every access to a sequence number, the data of a cell or the shared enqueue pointer is one step of one
 thread, and a schedule, any sequence of steps, says who moves when. A thread that spins takes steps that
 change nothing.
 */
module SequenceQueue {
  import opened Remainders

  datatype Cell = Cell(sequence: int, data: int)

  /** Where a producer is in `enqueue`. */
  datatype Producer =
    | Idle
    | LoadPtr(value: int)
    | LoadSequence(value: int, pos: nat)
    | TryClaim(value: int, pos: nat)     // compare-exchange of the pointer, by many producers only
    | Write(value: int, pos: nat)
    | Publish(value: int, pos: nat)
    | StorePtr(pos: nat)                 // plain store of the pointer, by a single producer only

  /** Where the consumer is in `dequeue`. */
  datatype Consumer =
    | Ready
    | Wait(pos: nat)
    | Read(pos: nat)
    | Release(pos: nat, value: int)
    | Advance(pos: nat)

  /** Who enqueued a ticket, and what. */
  datatype Claim = Claim(thread: nat, value: int)

  /** `claims` and `delivered` record the past: the values enqueued, by ticket, and the values dequeued. */
  datatype State = State(single: bool, cells: seq<Cell>, enqueuePtr: nat, dequeuePtr: nat, producers: seq<Producer>,
                         consumer: Consumer, claims: seq<Claim>, delivered: seq<int>)

  /** Who moves; a weak compare-exchange may fail for no reason. */
  datatype Move = Produce(thread: nat, value: int, spurious: bool) | Consume

  function CellOf(s: State, p: nat): Cell
    requires |s.cells| > 0
  {
    s.cells[p % |s.cells|]
  }

  function Initial(single: bool, size: nat, producers: nat): State {
    State(single, seq(size, i => Cell(i, 0)), 0, 0, seq(if single then 1 else producers, _ => Idle), Ready, [], [])
  }

  function At(s: State, t: nat, pc: Producer): State
    requires t < |s.producers|
  {
    s.(producers := s.producers[t := pc])
  }

  function Store(s: State, p: nat, c: Cell): (r: State)
    requires |s.cells| > 0
    ensures r == s.(cells := r.cells)
  {
    s.(cells := s.cells[p % |s.cells| := c])
  }

  function Produced(s: State, t: nat, value: int, spurious: bool): State
    requires |s.cells| > 0 && t < |s.producers|
  {
    match s.producers[t]
    case Idle => At(s, t, LoadPtr(value))
    case LoadPtr(v) => At(s, t, LoadSequence(v, s.enqueuePtr))
    case LoadSequence(v, pos) =>
      var diff := CellOf(s, pos).sequence - pos;
      if diff == 0 then
        if s.single then At(s, t, Write(v, pos)).(claims := s.claims + [Claim(t, v)]) else At(s, t, TryClaim(v, pos))
      else if diff > 0 && !s.single then At(s, t, LoadPtr(v))
      else s
    case TryClaim(v, pos) =>
      if s.enqueuePtr == pos && !spurious then
        At(s, t, Write(v, pos)).(enqueuePtr := pos + 1, claims := s.claims + [Claim(t, v)])
      else At(s, t, LoadSequence(v, s.enqueuePtr))
    case Write(v, pos) => At(Store(s, pos, CellOf(s, pos).(data := v)), t, Publish(v, pos))
    case Publish(v, pos) =>
      At(Store(s, pos, CellOf(s, pos).(sequence := pos + 1)), t, if s.single then StorePtr(pos) else Idle)
    case StorePtr(pos) => At(s, t, Idle).(enqueuePtr := pos + 1)
  }

  function Consumed(s: State): State
    requires |s.cells| > 0
  {
    match s.consumer
    case Ready => s.(consumer := Wait(s.dequeuePtr))
    case Wait(pos) => if CellOf(s, pos).sequence == pos + 1 then s.(consumer := Read(pos)) else s
    case Read(pos) => s.(consumer := Release(pos, CellOf(s, pos).data))
    case Release(pos, v) =>
      Store(s, pos, CellOf(s, pos).(sequence := pos + |s.cells|)).(consumer := Advance(pos), delivered := s.delivered + [v])
    case Advance(pos) => s.(dequeuePtr := pos + 1, consumer := Ready)
  }

  predicate MayMove(s: State, m: Move) {
    |s.cells| > 0 && (m.Produce? ==> m.thread < |s.producers|)
  }

  function Next(s: State, m: Move): (r: State)
    requires MayMove(s, m)
    ensures |r.cells| == |s.cells| && |r.producers| == |s.producers|
  {
    match m
    case Produce(t, value, spurious) => Produced(s, t, value, spurious)
    case Consume => Consumed(s)
  }

  predicate MovesOf(schedule: seq<Move>, producers: nat) {
    forall i :: 0 <= i < |schedule| && schedule[i].Produce? ==> schedule[i].thread < producers
  }

  /** The state after the moves of a schedule, one after the other. */
  function Exec(s: State, schedule: seq<Move>): (r: State)
    requires |s.cells| > 0 && MovesOf(schedule, |s.producers|)
    ensures |r.cells| == |s.cells| && |r.producers| == |s.producers|
  {
    if schedule == [] then s else Next(Exec(s, schedule[..|schedule| - 1]), schedule[|schedule| - 1])
  }

  // ---- the invariant ----

  /** The producer of ticket `p` has it and has not yet published it. */
  predicate Producing(s: State, p: nat) {
    && p < |s.claims| && s.claims[p].thread < |s.producers|
    && s.producers[s.claims[p].thread] in {Write(s.claims[p].value, p), Publish(s.claims[p].value, p)}
  }

  /** The cell of ticket `p`, from the release of the ticket one lap before until its own. */
  ghost predicate CellOk(s: State, p: nat)
    requires |s.cells| > 0
  {
    var c := CellOf(s, p);
    if p < |s.claims| then
      || (c.sequence == p && Producing(s, p))
      || c == Cell(p + 1, s.claims[p].value)
    else c.sequence == p
  }

  predicate Busy(pc: Producer) {
    pc.Write? || pc.Publish? || pc.StorePtr?
  }

  /** A single producer moves the pointer last, many producers first. */
  ghost predicate PtrOk(s: State) {
    if s.single then |s.producers| == 1 && s.enqueuePtr + (if Busy(s.producers[0]) then 1 else 0) == |s.claims|
    else s.enqueuePtr == |s.claims|
  }

  ghost predicate HasTicket(s: State, t: nat, p: nat) {
    && |s.delivered| <= p < |s.claims| && s.claims[p].thread == t
    && (s.single ==> p == |s.claims| - 1)
  }

  ghost predicate ProducerOk(s: State, t: nat)
    requires |s.cells| > 0 && t < |s.producers|
  {
    match s.producers[t]
    case LoadSequence(_, pos) => pos <= s.enqueuePtr && (s.single ==> pos == s.enqueuePtr)
    case TryClaim(_, pos) => !s.single && pos <= s.enqueuePtr && (pos == s.enqueuePtr ==> CellOf(s, pos).sequence == pos)
    case Write(v, pos) => HasTicket(s, t, pos) && s.claims[pos].value == v && CellOf(s, pos).sequence == pos
    case Publish(v, pos) => HasTicket(s, t, pos) && s.claims[pos].value == v && CellOf(s, pos) == Cell(pos, v)
    case StorePtr(pos) => s.single && pos + 1 == |s.claims|
    case _ => true
  }

  ghost predicate ConsumerOk(s: State)
    requires |s.cells| > 0
  {
    var n := |s.delivered|;
    match s.consumer
    case Ready => s.dequeuePtr == n
    case Wait(pos) => pos == s.dequeuePtr == n
    case Read(pos) => pos == s.dequeuePtr == n < |s.claims| && CellOf(s, n) == Cell(n + 1, s.claims[n].value)
    case Release(pos, v) =>
      pos == s.dequeuePtr == n < |s.claims| && v == s.claims[n].value && CellOf(s, n) == Cell(n + 1, v)
    case Advance(pos) => pos == s.dequeuePtr && pos + 1 == n
  }

  ghost predicate Prefix(delivered: seq<int>, claims: seq<Claim>) {
    |delivered| <= |claims| && forall i :: 0 <= i < |delivered| ==> delivered[i] == claims[i].value
  }

  ghost predicate Inv(s: State) {
    && |s.cells| >= 2
    && Prefix(s.delivered, s.claims) && |s.claims| <= |s.delivered| + |s.cells|
    && PtrOk(s) && ConsumerOk(s)
    && (forall p: nat {:trigger CellOk(s, p)} :: |s.delivered| <= p < |s.delivered| + |s.cells| ==> CellOk(s, p))
    && (forall t: nat {:trigger ProducerOk(s, t)} :: t < |s.producers| ==> ProducerOk(s, t))
  }

  // ---- every step keeps the invariant ----

  predicate InCell(pc: Producer) {
    pc.Write? || pc.Publish?
  }

  lemma KeepsLocal(s: State, t: nat, pc: Producer)
    requires Inv(s) && t < |s.producers| && !Busy(s.producers[t]) && !Busy(pc)
    requires ProducerOk(At(s, t, pc), t)
    ensures Inv(At(s, t, pc))
  {
    var s' := At(s, t, pc);
    forall p: nat | |s'.delivered| <= p < |s'.delivered| + |s'.cells| ensures CellOk(s', p) {
      assert CellOk(s, p);
    }
    forall u: nat | u < |s'.producers| ensures ProducerOk(s', u) {
      assert ProducerOk(s, u);
    }
  }

  /** There is room for the next ticket if its cell is free. */
  lemma RoomForNext(s: State)
    requires Inv(s) && CellOf(s, |s.claims|).sequence == |s.claims|
    ensures |s.claims| < |s.delivered| + |s.cells|
  {
    if |s.claims| == |s.delivered| + |s.cells| {
      assert CellOk(s, |s.delivered|);
      NextLap(|s.delivered|, |s.cells|);
    }
  }

  lemma KeepsClaim(s: State, t: nat, v: int, s': State)
    requires Inv(s) && t < |s.producers| && CellOf(s, |s.claims|).sequence == |s.claims|
    requires s.producers[t] == (if s.single then LoadSequence(v, |s.claims|) else TryClaim(v, |s.claims|))
    requires s' == At(s, t, Write(v, |s.claims|)).(claims := s.claims + [Claim(t, v)],
                                                   enqueuePtr := if s.single then s.enqueuePtr else s.enqueuePtr + 1)
    ensures Inv(s')
  {
    RoomForNext(s);
    forall p: nat | |s'.delivered| <= p < |s'.delivered| + |s'.cells| ensures CellOk(s', p) {
      assert CellOk(s, p);
    }
    forall u: nat | u < |s'.producers| ensures ProducerOk(s', u) {
      assert ProducerOk(s, u);
    }
  }

  /** Two producers with tickets have different cells, and neither has the next one. */
  lemma OtherCell(s: State, t: nat, u: nat)
    requires Inv(s) && t < |s.producers| && u < |s.producers| && t != u && InCell(s.producers[t])
    ensures InCell(s.producers[u]) ==> s.producers[t].pos % |s.cells| != s.producers[u].pos % |s.cells|
    ensures s.producers[u].TryClaim? && s.producers[u].pos == s.enqueuePtr ==>
      s.producers[t].pos % |s.cells| != s.producers[u].pos % |s.cells|
  {
    assert ProducerOk(s, t) && ProducerOk(s, u);
    if InCell(s.producers[u]) { Apart(s.producers[t].pos, s.producers[u].pos, |s.cells|); }
    if s.producers[u].TryClaim? && s.producers[u].pos == s.enqueuePtr {
      RoomForNext(s);
      Apart(s.producers[t].pos, s.producers[u].pos, |s.cells|);
    }
  }

  lemma KeepsStore(s: State, t: nat, value: int, spurious: bool)
    requires Inv(s) && t < |s.producers| && InCell(s.producers[t])
    ensures Inv(Produced(s, t, value, spurious))
  {
    var s', n, pos := Produced(s, t, value, spurious), |s.cells|, s.producers[t].pos;
    assert ProducerOk(s, t) && CellOk(s, pos);
    forall p: nat | |s'.delivered| <= p < |s'.delivered| + n ensures CellOk(s', p) {
      assert CellOk(s, p);
      if p != pos { Apart(p, pos, n); }
    }
    forall u: nat | u < |s'.producers| ensures ProducerOk(s', u) {
      assert ProducerOk(s, u);
      if u != t { OtherCell(s, t, u); }
    }
    if pos != |s.delivered| { Apart(pos, |s.delivered|, n); }
  }

  lemma KeepsStorePtr(s: State, t: nat, value: int, spurious: bool)
    requires Inv(s) && t < |s.producers| && s.producers[t].StorePtr?
    ensures Inv(Produced(s, t, value, spurious))
  {
    var s' := Produced(s, t, value, spurious);
    assert ProducerOk(s, t);
    forall p: nat | |s'.delivered| <= p < |s'.delivered| + |s'.cells| ensures CellOk(s', p) {
      assert CellOk(s, p);
    }
    forall u: nat | u < |s'.producers| ensures ProducerOk(s', u) {
      assert ProducerOk(s, u);
    }
  }

  lemma ProducerKeeps(s: State, t: nat, value: int, spurious: bool)
    requires Inv(s) && t < |s.producers|
    ensures Inv(Produced(s, t, value, spurious))
  {
    var s' := Produced(s, t, value, spurious);
    assert ProducerOk(s, t);
    match s.producers[t]
    case LoadSequence(v, pos) =>
      if s.single && CellOf(s, pos).sequence == pos {
        KeepsClaim(s, t, v, s');
      } else if s' != s {
        KeepsLocal(s, t, s'.producers[t]);
      }
    case TryClaim(v, pos) =>
      if s.enqueuePtr == pos && !spurious { KeepsClaim(s, t, v, s'); } else { KeepsLocal(s, t, s'.producers[t]); }
    case Write(_, _) => KeepsStore(s, t, value, spurious);
    case Publish(_, _) => KeepsStore(s, t, value, spurious);
    case StorePtr(_) => KeepsStorePtr(s, t, value, spurious);
    case _ => KeepsLocal(s, t, s'.producers[t]);
  }

  /** The cell that the consumer releases is not one that a producer is about to claim or works on. */
  lemma NotReleased(s: State, u: nat)
    requires Inv(s) && s.consumer.Release? && u < |s.producers|
    ensures InCell(s.producers[u]) ==> s.producers[u].pos % |s.cells| != |s.delivered| % |s.cells| && s.producers[u].pos != |s.delivered|
    ensures s.producers[u].TryClaim? && s.producers[u].pos == s.enqueuePtr ==>
      s.producers[u].pos % |s.cells| != |s.delivered| % |s.cells|
  {
    assert ProducerOk(s, u);
    if InCell(s.producers[u]) && s.producers[u].pos != |s.delivered| { Apart(s.producers[u].pos, |s.delivered|, |s.cells|); }
    if s.producers[u].TryClaim? && s.producers[u].pos == s.enqueuePtr {
      RoomForNext(s);
      Apart(s.producers[u].pos, |s.delivered|, |s.cells|);
    }
  }

  lemma KeepsRelease(s: State)
    requires Inv(s) && s.consumer.Release?
    ensures Inv(Consumed(s))
  {
    var s', n, r := Consumed(s), |s.cells|, |s.delivered|;
    NextLap(r, n);
    forall p: nat | r + 1 <= p < r + 1 + n ensures CellOk(s', p) {
      if p < r + n {
        assert CellOk(s, p);
        Apart(p, r, n);
      }
    }
    forall u: nat | u < |s'.producers| ensures ProducerOk(s', u) {
      assert ProducerOk(s, u);
      NotReleased(s, u);
    }
  }

  lemma ConsumerKeeps(s: State)
    requires Inv(s)
    ensures Inv(Consumed(s))
  {
    if s.consumer.Release? {
      KeepsRelease(s);
    } else {
      var s' := Consumed(s);
      assert CellOk(s, |s.delivered|);
      forall p: nat | |s'.delivered| <= p < |s'.delivered| + |s'.cells| ensures CellOk(s', p) {
        assert CellOk(s, p);
      }
      forall u: nat | u < |s'.producers| ensures ProducerOk(s', u) {
        assert ProducerOk(s, u);
      }
    }
  }

  lemma {:induction false} EveryRun(single: bool, size: nat, producers: nat, schedule: seq<Move>)
    requires size >= 2 && MovesOf(schedule, if single then 1 else producers)
    ensures Inv(Exec(Initial(single, size, producers), schedule))
  {
    var s0 := Initial(single, size, producers);
    if schedule == [] {
      forall p: nat | p < size ensures CellOk(s0, p) {
        RemainderIs(p, 0, p, size);
      }
    } else {
      var k := |schedule| - 1;
      EveryRun(single, size, producers, schedule[..k]);
      var s := Exec(s0, schedule[..k]);
      match schedule[k]
      case Produce(t, value, spurious) => ProducerKeeps(s, t, value, spurious);
      case Consume => ConsumerKeeps(s);
    }
  }
}
