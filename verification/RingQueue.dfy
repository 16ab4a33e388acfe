/**
 The single-producer single-consumer queue on a ring, `2_cpp_basics/3_lock_free/1_spsc_queue/spsc_ring.cpp`.

 One thread enqueues and one dequeues. Every access to `head`, `tail` or a slot is one step; a schedule, any
 sequence of steps, says who moves when.
 */
module RingQueue {
  import opened Remainders

  /** Where the producer is in `enqueue`. */
  datatype Producer =
    | Idle(ok: bool)
    | LoadTail(value: int)
    | LoadHead(value: int, t: nat)     // load the head and compare
    | WriteSlot(value: int, t: nat)
    | StoreTail(value: int, t: nat)

  /** Where the consumer is in `deque`. */
  datatype Consumer =
    | Ready(found: bool)
    | OwnHead
    | CompareTail(h: nat)              // load the tail and compare
    | ReadSlot(h: nat)
    | StoreHead(h: nat, value: int)

  /** `sent` and `received` record the past: the values enqueued and the values dequeued. */
  datatype State = State(data: seq<int>, head: nat, tail: nat, producer: Producer, consumer: Consumer,
                         sent: seq<int>, received: seq<int>)

  datatype Move = Produce(value: int) | Consume

  function Initial(size: nat): State {
    State(seq(size, _ => 0), 0, 0, Idle(true), Ready(true), [], [])
  }

  function Produced(s: State, value: int): State
    requires |s.data| > 0
  {
    match s.producer
    case Idle(_) => s.(producer := LoadTail(value))
    case LoadTail(v) => s.(producer := LoadHead(v, s.tail))
    case LoadHead(v, t) => s.(producer := if (t + 1) % |s.data| == s.head then Idle(false) else WriteSlot(v, t))
    case WriteSlot(v, t) =>
      s.(data := if t < |s.data| then s.data[t := v] else s.data, producer := StoreTail(v, t))
    case StoreTail(v, t) => s.(tail := (t + 1) % |s.data|, producer := Idle(true), sent := s.sent + [v])
  }

  function Consumed(s: State): State
    requires |s.data| > 0
  {
    match s.consumer
    case Ready(_) => s.(consumer := OwnHead)
    case OwnHead => s.(consumer := CompareTail(s.head))
    case CompareTail(h) => s.(consumer := if h == s.tail then Ready(false) else ReadSlot(h))
    case ReadSlot(h) => s.(consumer := StoreHead(h, if h < |s.data| then s.data[h] else 0))
    case StoreHead(h, v) => s.(head := (h + 1) % |s.data|, consumer := Ready(true), received := s.received + [v])
  }

  function Next(s: State, m: Move): (r: State)
    requires |s.data| > 0
    ensures |r.data| == |s.data|
  {
    match m
    case Produce(value) => Produced(s, value)
    case Consume => Consumed(s)
  }

  /** The state after the moves of a schedule, one after the other. */
  function Exec(s: State, schedule: seq<Move>): (r: State)
    requires |s.data| > 0
    ensures |r.data| == |s.data|
  {
    if schedule == [] then s else Next(Exec(s, schedule[..|schedule| - 1]), schedule[|schedule| - 1])
  }

  // ---- the invariant ----

  /** Value `i`, enqueued and not yet dequeued, is in its slot. */
  ghost predicate SlotAt(s: State, i: nat)
    requires |s.data| > 0
  {
    |s.received| <= i < |s.sent| ==> s.data[i % |s.data|] == s.sent[i]
  }

  ghost predicate ProducerOk(s: State)
    requires |s.data| > 0
  {
    match s.producer
    case LoadHead(_, t) => t == s.tail
    case WriteSlot(_, t) => t == s.tail && |s.sent| - |s.received| < |s.data| - 1
    case StoreTail(v, t) => t == s.tail && |s.sent| - |s.received| < |s.data| - 1 && s.data[|s.sent| % |s.data|] == v
    case _ => true
  }

  ghost predicate ConsumerOk(s: State) {
    match s.consumer
    case CompareTail(h) => h == s.head
    case ReadSlot(h) => h == s.head && |s.received| < |s.sent|
    case StoreHead(h, v) => h == s.head && |s.received| < |s.sent| && v == s.sent[|s.received|]
    case _ => true
  }

  ghost predicate Inv(s: State) {
    && |s.data| > 0
    && s.head == |s.received| % |s.data| && s.tail == |s.sent| % |s.data|
    && s.received <= s.sent && |s.sent| - |s.received| < |s.data|
    && (forall i: nat {:trigger SlotAt(s, i)} :: SlotAt(s, i))
    && ProducerOk(s) && ConsumerOk(s)
  }

  /** The index after the tail is the head exactly if one slot is left, and head and tail meet exactly if
      the queue is empty. */
  lemma FullAndEmpty(s: State)
    requires Inv(s)
    ensures (s.tail + 1) % |s.data| == s.head <==> |s.sent| - |s.received| == |s.data| - 1
    ensures s.head == s.tail <==> |s.sent| == |s.received|
  {
    var n := |s.data|;
    NextIndex(|s.sent|, n);
    NextLap(|s.received|, n);
    if (s.tail + 1) % n == s.head && |s.sent| + 1 != |s.received| + n { Apart(|s.sent| + 1, |s.received|, n); }
    if s.head == s.tail && |s.sent| != |s.received| { Apart(|s.sent|, |s.received|, n); }
  }

  lemma ProducerKeeps(s: State, value: int)
    requires Inv(s)
    ensures Inv(Produced(s, value))
  {
    var s', n := Produced(s, value), |s.data|;
    FullAndEmpty(s);
    NextIndex(|s.sent|, n);
    forall i: nat ensures SlotAt(s', i) {
      assert SlotAt(s, i);
      if |s.received| <= i < |s.sent| { Apart(i, |s.sent|, n); }
    }
  }

  lemma ConsumerKeeps(s: State)
    requires Inv(s)
    ensures Inv(Consumed(s))
  {
    var s' := Consumed(s);
    FullAndEmpty(s);
    NextIndex(|s.received|, |s.data|);
    assert SlotAt(s, |s.received|);
    forall i: nat ensures SlotAt(s', i) {
      assert SlotAt(s, i);
    }
  }

  lemma {:induction false} EveryRun(size: nat, schedule: seq<Move>)
    requires size > 0
    ensures Inv(Exec(Initial(size), schedule))
  {
    if schedule != [] {
      var k := |schedule| - 1;
      EveryRun(size, schedule[..k]);
      var s := Exec(Initial(size), schedule[..k]);
      match schedule[k]
      case Produce(value) => ProducerKeeps(s, value);
      case Consume => ConsumerKeeps(s);
    }
  }
}
