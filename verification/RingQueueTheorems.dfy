/**
 What the queue on a ring guarantees under every schedule.
 */
module RingQueueTheorems {
  import opened RingQueue

  /** The values dequeued are the first values enqueued, in order; the ring holds the others, and at most one
      value less than it has slots. */
  lemma Fifo(size: nat, schedule: seq<Move>, i: nat)
    requires size > 0
    ensures var s := Exec(Initial(size), schedule);
      && s.received <= s.sent && |s.sent| - |s.received| <= size - 1
      && (|s.received| <= i < |s.sent| ==> s.data[i % size] == s.sent[i])
  {
    EveryRun(size, schedule);
    assert SlotAt(Exec(Initial(size), schedule), i);
  }

  /** Enqueue returns false exactly if, when it loads the head, the ring holds as much as it can. */
  lemma EnqueueRefuses(s: State, value: int)
    requires Inv(s) && s.producer.LoadHead?
    ensures Produced(s, value).producer == Idle(false) <==> |s.sent| - |s.received| == |s.data| - 1
  {
    FullAndEmpty(s);
  }

  /** Dequeue finds nothing exactly if, when it loads the tail, everything enqueued has been dequeued. */
  lemma DequeueRefuses(s: State)
    requires Inv(s) && s.consumer.CompareTail?
    ensures Consumed(s).consumer == Ready(false) <==> |s.sent| == |s.received|
  {
    FullAndEmpty(s);
  }

  /** No other step of a call answers that it failed. */
  lemma RefusedOnlyThen(s: State, value: int)
    requires Inv(s)
    ensures Produced(s, value).producer == Idle(false) != s.producer ==>
      s.producer.LoadHead? && |s.sent| - |s.received| == |s.data| - 1
    ensures Consumed(s).consumer == Ready(false) != s.consumer ==> s.consumer.CompareTail? && |s.sent| == |s.received|
  {
    FullAndEmpty(s);
  }

  // ---- whole calls ----

  /** How far an enqueue of `v` is, before which the values `before` had been enqueued. */
  ghost predicate Enqueueing(s: State, v: int, before: seq<int>) {
    match s.producer
    case LoadTail(x) => x == v && s.sent == before
    case LoadHead(x, _) => x == v && s.sent == before
    case WriteSlot(x, _) => x == v && s.sent == before
    case StoreTail(x, _) => x == v && s.sent == before
    case Idle(ok) => s.sent == before + (if ok then [v] else [])
  }

  ghost predicate Dequeueing(s: State, before: seq<int>) {
    match s.consumer
    case Ready(found) => if found then |s.received| == |before| + 1 && before <= s.received else s.received == before
    case _ => s.received == before
  }

  /** The steps that a call has left; there are no more than four after the first. */
  function StepsLeft(p: Producer): nat {
    match p
    case Idle(_) => 0
    case LoadTail(_) => 4
    case LoadHead(_, _) => 3
    case WriteSlot(_, _) => 2
    case StoreTail(_, _) => 1
  }

  function ConsumerStepsLeft(c: Consumer): nat {
    match c
    case Ready(_) => 0
    case OwnHead => 4
    case CompareTail(_) => 3
    case ReadSlot(_) => 2
    case StoreHead(_, _) => 1
  }

  /** The number of steps of the producer in a schedule. */
  function Produces(schedule: seq<Move>): nat {
    if schedule == [] then 0
    else Produces(schedule[..|schedule| - 1]) + (if schedule[|schedule| - 1].Produce? then 1 else 0)
  }

  function Consumes(schedule: seq<Move>): nat {
    if schedule == [] then 0
    else Consumes(schedule[..|schedule| - 1]) + (if schedule[|schedule| - 1].Consume? then 1 else 0)
  }

  ghost predicate StillEnqueueing(s: State, more: seq<Move>) {
    |s.data| > 0 && forall k :: 0 <= k < |more| ==> !Exec(s, more[..k]).producer.Idle?
  }

  ghost predicate StillDequeueing(s: State, more: seq<Move>) {
    |s.data| > 0 && forall k :: 0 <= k < |more| ==> !Exec(s, more[..k]).consumer.Ready?
  }

  lemma {:induction false} EnqueueGoesOn(s: State, v: int, before: seq<int>, more: seq<Move>)
    requires StillEnqueueing(s, more) && Enqueueing(s, v, before)
    ensures Enqueueing(Exec(s, more), v, before)
    ensures StepsLeft(Exec(s, more).producer) + Produces(more) <= StepsLeft(s.producer)
    decreases |more|
  {
    if more != [] {
      var less := more[..|more| - 1];
      assert forall k :: 0 <= k < |less| ==> less[..k] == more[..k];
      EnqueueGoesOn(s, v, before, less);
    }
  }

  lemma {:induction false} DequeueGoesOn(s: State, before: seq<int>, more: seq<Move>)
    requires StillDequeueing(s, more) && Dequeueing(s, before)
    ensures Dequeueing(Exec(s, more), before)
    ensures ConsumerStepsLeft(Exec(s, more).consumer) + Consumes(more) <= ConsumerStepsLeft(s.consumer)
    decreases |more|
  {
    if more != [] {
      var less := more[..|more| - 1];
      assert forall k :: 0 <= k < |less| ==> less[..k] == more[..k];
      DequeueGoesOn(s, before, less);
    }
  }

  /** Whatever the consumer does meanwhile: an enqueue of `v` ends after five steps at most; if it has returned true it
      has enqueued `v`, and nothing if it has returned false. */
  lemma EnqueueCall(s: State, v: int, more: seq<Move>)
    requires |s.data| > 0 && s.producer.Idle? && StillEnqueueing(Next(s, Produce(v)), more)
    ensures var r := Exec(Next(s, Produce(v)), more);
      && Produces(more) <= 4 && (Produces(more) == 4 ==> r.producer.Idle?)
      && (r.producer == Idle(true) ==> r.sent == s.sent + [v]) && (r.producer == Idle(false) ==> r.sent == s.sent)
  {
    EnqueueGoesOn(Next(s, Produce(v)), v, s.sent, more);
  }

  /** Whatever the producer does meanwhile: a dequeue ends after five steps at most; if it has found something it has
      dequeued the oldest value, and nothing otherwise. */
  lemma DequeueCall(s: State, more: seq<Move>)
    requires Inv(s) && s.consumer.Ready? && StillDequeueing(Next(s, Consume), more)
    ensures var r := Exec(Next(s, Consume), more);
      && Consumes(more) <= 4 && (Consumes(more) == 4 ==> r.consumer.Ready?)
      && (r.consumer == Ready(true) ==> |s.received| < |r.sent| && r.received == s.received + [r.sent[|s.received|]])
      && (r.consumer == Ready(false) ==> r.received == s.received)
  {
    DequeueGoesOn(Next(s, Consume), s.received, more);
    ConsumerKeeps(s);
    RunKeeps(Next(s, Consume), more);
  }

  lemma {:induction false} RunKeeps(s: State, more: seq<Move>)
    requires Inv(s)
    ensures Inv(Exec(s, more))
    decreases |more|
  {
    if more != [] {
      var k := |more| - 1;
      RunKeeps(s, more[..k]);
      match more[k]
      case Produce(value) => ProducerKeeps(Exec(s, more[..k]), value);
      case Consume => ConsumerKeeps(Exec(s, more[..k]));
    }
  }
}
