/**
 The linked single-producer single-consumer queue, `2_cpp_basics/3_lock_free/1_spsc_queue/spsc_linked.cpp`.

 One thread enqueues and one dequeues. Every access to `head`, `tail` or a field of a node is one step; a
 schedule, any sequence of steps, says who moves when. New nodes may reuse the addresses of deleted ones.
 */
module LinkedQueue {
  import opened Memory

  datatype Option<T> = None | Some(value: T)

  datatype Node = Node(data: Option<int>, next: int)

  /** Where the producer is in `enqueue`. */
  datatype Producer =
    | Idle
    | LoadTail(value: int)
    | NewNode(value: int, t: int)
    | SetData(value: int, t: int, node: int)
    | SetNext(value: int, t: int, node: int)
    | StoreTail(value: int, t: int, node: int)

  /** Where the consumer is in `deque`. */
  datatype Consumer =
    | Ready(result: Option<int>)
    | LoadHead
    | CompareTail(h: int)
    | TakeData(h: int)
    | LoadNext(h: int, value: Option<int>)
    | CutNext(h: int, value: Option<int>, next: int)
    | StoreHead(h: int, value: Option<int>, next: int)
    | Delete(h: int, value: Option<int>)

  /** `chain`, `sent` and `received` record the past: the nodes from `head` to `tail`, the values enqueued, and
      the values dequeued. `fault` is set by an access to a node that is not allocated. */
  datatype State = State(nodes: map<int, Node>, head: int, tail: int, producer: Producer, consumer: Consumer,
                         chain: seq<int>, sent: seq<int>, received: seq<Option<int>>, fault: bool)

  /** Who moves: the producer starts a call with a value and allocates at an address of the system's choice. */
  datatype Move = Produce(value: int, address: int) | Consume

  function Initial(address: int): State {
    State(map[address := Node(None, NULL)], address, address, Idle, Ready(None), [address], [], [], false)
  }

  function Faulty(s: State): State {
    s.(fault := true)
  }

  function Produced(s: State, value: int, address: int): State {
    match s.producer
    case Idle => s.(producer := LoadTail(value))
    case LoadTail(v) => s.(producer := NewNode(v, s.tail))
    case NewNode(v, t) =>
      if address in s.nodes || address == NULL then s
      else s.(nodes := s.nodes[address := Node(None, NULL)], producer := SetData(v, t, address))
    case SetData(v, t, node) =>
      if t !in s.nodes then Faulty(s)
      else s.(nodes := s.nodes[t := s.nodes[t].(data := Some(v))], producer := SetNext(v, t, node))
    case SetNext(v, t, node) =>
      if t !in s.nodes then Faulty(s)
      else s.(nodes := s.nodes[t := s.nodes[t].(next := node)], producer := StoreTail(v, t, node))
    case StoreTail(v, t, node) =>
      s.(tail := node, producer := Idle, chain := s.chain + [node], sent := s.sent + [v])
  }

  function Consumed(s: State): State {
    match s.consumer
    case Ready(_) => s.(consumer := LoadHead)
    case LoadHead => s.(consumer := CompareTail(s.head))
    case CompareTail(h) => s.(consumer := if h == s.tail then Ready(None) else TakeData(h))
    case TakeData(h) =>
      if h !in s.nodes then Faulty(s)
      else s.(nodes := s.nodes[h := s.nodes[h].(data := None)], consumer := LoadNext(h, s.nodes[h].data))
    case LoadNext(h, v) =>
      if h !in s.nodes then Faulty(s) else s.(consumer := CutNext(h, v, s.nodes[h].next))
    case CutNext(h, v, next) =>
      if h !in s.nodes then Faulty(s)
      else s.(nodes := s.nodes[h := s.nodes[h].(next := NULL)], consumer := StoreHead(h, v, next))
    case StoreHead(h, v, next) =>
      s.(head := next, consumer := Delete(h, v), chain := if s.chain == [] then [] else s.chain[1..],
         received := s.received + [v])
    case Delete(h, v) =>
      if h !in s.nodes then Faulty(s) else s.(nodes := s.nodes - {h}, consumer := Ready(v))
  }

  function Next(s: State, m: Move): State {
    match m
    case Produce(value, address) => Produced(s, value, address)
    case Consume => Consumed(s)
  }

  /** The state after the moves of a schedule, one after the other. */
  function Exec(s: State, schedule: seq<Move>): State {
    if schedule == [] then s else Next(Exec(s, schedule[..|schedule| - 1]), schedule[|schedule| - 1])
  }

  // ---- the invariant ----

  /** The consumer has taken the data of the head. */
  predicate DataTaken(c: Consumer) {
    c.LoadNext? || c.CutNext? || c.StoreHead?
  }

  /** Node `i` of the chain is followed by the next one and holds the next value; the consumer empties the
      head, and the producer fills the tail. */
  ghost predicate LinkAt(s: State, i: nat)
    requires i < |s.chain|
  {
    var n := s.chain[i];
    n in s.nodes &&
    if i == |s.chain| - 1 then
      match s.producer
      case SetNext(v, _, _) => s.nodes[n].data == Some(v)
      case StoreTail(v, _, node) => s.nodes[n] == Node(Some(v), node)
      case _ => true
    else
      && ((i == 0 && s.consumer.StoreHead?) || s.nodes[n].next == s.chain[i + 1])
      && |s.received| + i < |s.sent|
      && ((i == 0 && DataTaken(s.consumer)) || s.nodes[n].data == Some(s.sent[|s.received| + i]))
  }

  /** The node that the producer has allocated and not yet linked, and the one that the consumer has
      unlinked and not yet deleted. */
  function Loose(s: State): set<int> {
    (match s.producer
     case SetData(_, _, node) => {node}
     case SetNext(_, _, node) => {node}
     case StoreTail(_, _, node) => {node}
     case _ => {})
    + (match s.consumer case Delete(h, _) => {h} case _ => {})
  }

  ghost predicate ProducerOk(s: State) {
    match s.producer
    case NewNode(_, t) => t == s.tail
    case SetData(_, t, node) => t == s.tail && node !in s.chain
    case SetNext(_, t, node) => t == s.tail && node !in s.chain
    case StoreTail(_, t, node) => t == s.tail && node !in s.chain
    case _ => true
  }

  ghost predicate ConsumerOk(s: State) {
    match s.consumer
    case CompareTail(h) => h == s.head
    case TakeData(h) => h == s.head && |s.chain| >= 2
    case LoadNext(h, v) => h == s.head && |s.chain| >= 2 && |s.received| < |s.sent| && v == Some(s.sent[|s.received|])
    case CutNext(h, v, next) =>
      h == s.head && |s.chain| >= 2 && |s.received| < |s.sent| && v == Some(s.sent[|s.received|]) && next == s.chain[1]
    case StoreHead(h, v, next) =>
      h == s.head && |s.chain| >= 2 && |s.received| < |s.sent| && v == Some(s.sent[|s.received|]) && next == s.chain[1]
    case Delete(h, v) => h !in s.chain && v != None
    case _ => true
  }

  ghost predicate Distinct(chain: seq<int>) {
    forall i, j :: 0 <= i < j < |chain| ==> chain[i] != chain[j]
  }

  ghost predicate Prefix(received: seq<Option<int>>, sent: seq<int>) {
    |received| <= |sent| && forall i :: 0 <= i < |received| ==> received[i] == Some(sent[i])
  }

  /** The allocated nodes are those of the chain and the loose ones; nothing leaks. */
  ghost predicate Owned(s: State, n: int) {
    n in s.nodes <==> n in s.chain || n in Loose(s)
  }

  ghost predicate Inv(s: State) {
    && !s.fault
    && s.chain != [] && s.head == s.chain[0] && s.tail == s.chain[|s.chain| - 1] && Distinct(s.chain)
    && |s.sent| == |s.received| + |s.chain| - 1 && Prefix(s.received, s.sent)
    && (forall i: nat {:trigger LinkAt(s, i)} :: i < |s.chain| ==> LinkAt(s, i))
    && ProducerOk(s) && ConsumerOk(s)
    && (forall n {:trigger Owned(s, n)} :: Owned(s, n))
    && (s.consumer.Delete? && HasNode(s.producer) ==> s.consumer.h != s.producer.node)
  }

  predicate HasNode(p: Producer) {
    p.SetData? || p.SetNext? || p.StoreTail?
  }

  // ---- every step keeps the invariant ----

  lemma KeepsNewNode(s: State, value: int, address: int)
    requires Inv(s) && s.producer.NewNode?
    ensures Inv(Produced(s, value, address))
  {
    var s', last := Produced(s, value, address), |s.chain| - 1;
    assert Owned(s, address);
    forall i: nat | i < |s'.chain| ensures LinkAt(s', i) {
      assert LinkAt(s, i);
    }
    forall n ensures Owned(s', n) {
      assert Owned(s, n);
    }
  }

  lemma KeepsSetData(s: State, value: int, address: int)
    requires Inv(s) && s.producer.SetData?
    ensures Inv(Produced(s, value, address))
  {
    var s', last := Produced(s, value, address), |s.chain| - 1;
    assert LinkAt(s, last);
    forall i: nat | i < |s'.chain| ensures LinkAt(s', i) {
      assert LinkAt(s, i);
    }
    forall n ensures Owned(s', n) {
      assert Owned(s, n);
    }
  }

  lemma KeepsSetNext(s: State, value: int, address: int)
    requires Inv(s) && s.producer.SetNext?
    ensures Inv(Produced(s, value, address))
  {
    var s', last := Produced(s, value, address), |s.chain| - 1;
    assert LinkAt(s, last);
    forall i: nat | i < |s'.chain| ensures LinkAt(s', i) {
      assert LinkAt(s, i);
    }
    forall n ensures Owned(s', n) {
      assert Owned(s, n);
    }
  }

  lemma KeepsStoreTail(s: State, value: int, address: int)
    requires Inv(s) && s.producer.StoreTail?
    ensures Inv(Produced(s, value, address))
  {
    var s', last := Produced(s, value, address), |s.chain| - 1;
    var node := s.producer.node;
    assert Owned(s, node) && s'.chain[|s.chain|] == node;
    forall i: nat | i < |s'.chain| ensures LinkAt(s', i) {
      if i < |s.chain| { assert LinkAt(s, i); }
    }
    forall n ensures Owned(s', n) {
      assert Owned(s, n);
      if n in s.chain { assert n in s'.chain; }
    }
  }

  lemma KeepsProducerQuiet(s: State, value: int, address: int)
    requires Inv(s) && (s.producer.Idle? || s.producer.LoadTail?)
    ensures Inv(Produced(s, value, address))
  {
    var s', last := Produced(s, value, address), |s.chain| - 1;
    forall i: nat | i < |s'.chain| ensures LinkAt(s', i) {
      assert LinkAt(s, i);
    }
    forall n ensures Owned(s', n) {
      assert Owned(s, n);
    }
  }

  lemma KeepsTakeData(s: State)
    requires Inv(s) && s.consumer.TakeData?
    ensures Inv(Consumed(s))
  {
    var s', last := Consumed(s), |s.chain| - 1;
    assert LinkAt(s, 0);
    forall i: nat | i < |s'.chain| ensures LinkAt(s', i) {
      assert LinkAt(s, i);
    }
    forall n ensures Owned(s', n) {
      assert Owned(s, n);
    }
  }

  lemma KeepsLoadNext(s: State)
    requires Inv(s) && s.consumer.LoadNext?
    ensures Inv(Consumed(s))
  {
    var s', last := Consumed(s), |s.chain| - 1;
    assert LinkAt(s, 0);
    forall i: nat | i < |s'.chain| ensures LinkAt(s', i) {
      assert LinkAt(s, i);
    }
    forall n ensures Owned(s', n) {
      assert Owned(s, n);
    }
  }

  lemma KeepsCutNext(s: State)
    requires Inv(s) && s.consumer.CutNext?
    ensures Inv(Consumed(s))
  {
    var s', last := Consumed(s), |s.chain| - 1;
    assert LinkAt(s, 0);
    forall i: nat | i < |s'.chain| ensures LinkAt(s', i) {
      assert LinkAt(s, i);
    }
    forall n ensures Owned(s', n) {
      assert Owned(s, n);
    }
  }

  lemma KeepsStoreHead(s: State)
    requires Inv(s) && s.consumer.StoreHead?
    ensures Inv(Consumed(s))
  {
    var s', last := Consumed(s), |s.chain| - 1;
    assert LinkAt(s, 0);
    forall i: nat | i < |s'.chain| ensures LinkAt(s', i) {
      assert LinkAt(s, i + 1) && s'.chain[i] == s.chain[i + 1];
    }
    forall n ensures Owned(s', n) {
      assert Owned(s, n);
      if n in s.chain && n != s.head {
        var i :| 0 <= i < |s.chain| && s.chain[i] == n;
        assert s'.chain[i - 1] == n;
      }
    }
  }

  lemma KeepsDelete(s: State)
    requires Inv(s) && s.consumer.Delete?
    ensures Inv(Consumed(s))
  {
    var s', last := Consumed(s), |s.chain| - 1;
    assert Owned(s, s.consumer.h);
    forall i: nat | i < |s'.chain| ensures LinkAt(s', i) {
      assert LinkAt(s, i);
    }
    forall n ensures Owned(s', n) {
      assert Owned(s, n);
    }
  }

  lemma KeepsConsumerQuiet(s: State)
    requires Inv(s) && (s.consumer.Ready? || s.consumer.LoadHead? || s.consumer.CompareTail?)
    ensures Inv(Consumed(s))
  {
    var s', last := Consumed(s), |s.chain| - 1;
    forall i: nat | i < |s'.chain| ensures LinkAt(s', i) {
      assert LinkAt(s, i);
    }
    forall n ensures Owned(s', n) {
      assert Owned(s, n);
    }
  }

  lemma StepKeeps(s: State, m: Move)
    requires Inv(s)
    ensures Inv(Next(s, m))
  {
    match m
    case Produce(value, address) => ProducerKeeps(s, value, address);
    case Consume => ConsumerKeeps(s);
  }

  lemma ProducerKeeps(s: State, value: int, address: int)
    requires Inv(s)
    ensures Inv(Produced(s, value, address))
  {
    match s.producer
    case NewNode(_, _) => KeepsNewNode(s, value, address);
    case SetData(_, _, _) => KeepsSetData(s, value, address);
    case SetNext(_, _, _) => KeepsSetNext(s, value, address);
    case StoreTail(_, _, _) => KeepsStoreTail(s, value, address);
    case _ => KeepsProducerQuiet(s, value, address);
  }

  lemma ConsumerKeeps(s: State)
    requires Inv(s)
    ensures Inv(Consumed(s))
  {
    match s.consumer
    case TakeData(_) => KeepsTakeData(s);
    case LoadNext(_, _) => KeepsLoadNext(s);
    case CutNext(_, _, _) => KeepsCutNext(s);
    case StoreHead(_, _, _) => KeepsStoreHead(s);
    case Delete(_, _) => KeepsDelete(s);
    case _ => KeepsConsumerQuiet(s);
  }

  lemma {:induction false} EveryRun(address: int, schedule: seq<Move>)
    requires address != NULL
    ensures Inv(Exec(Initial(address), schedule))
  {
    if schedule == [] {
      forall n ensures Owned(Initial(address), n) {
        assert [address][0] == address;
      }
    } else {
      EveryRun(address, schedule[..|schedule| - 1]);
      StepKeeps(Exec(Initial(address), schedule[..|schedule| - 1]), schedule[|schedule| - 1]);
    }
  }
}
