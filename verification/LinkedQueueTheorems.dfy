/**
 What the linked single-producer single-consumer queue guarantees under every schedule.
 */
module LinkedQueueTheorems {
  import opened Memory
  import opened LinkedQueue

  /** Whatever the schedule, no step touches a node that is not allocated: the producer never writes to a
      node that the consumer has deleted. Every allocated node is on the chain, or in the hands of the one
      who is about to link or delete it. */
  lemma NoUseAfterDelete(address: int, schedule: seq<Move>)
    requires address != NULL
    ensures var s := Exec(Initial(address), schedule);
      && !s.fault
      && s.nodes.Keys == (set i | 0 <= i < |s.chain| :: s.chain[i]) + Loose(s)
  {
    EveryRun(address, schedule);
    var s := Exec(Initial(address), schedule);
    forall n ensures n in s.nodes.Keys <==> n in (set i | 0 <= i < |s.chain| :: s.chain[i]) + Loose(s) {
      assert Owned(s, n);
    }
  }

  /** Whatever the schedule, the values dequeued are the first values enqueued, in order, and between two
      calls the nodes from `head` to `tail` hold the others. */
  lemma Fifo(address: int, schedule: seq<Move>, i: nat)
    requires address != NULL
    ensures var s := Exec(Initial(address), schedule);
      && Prefix(s.received, s.sent)
      && |s.sent| == |s.received| + |s.chain| - 1
      && (!DataTaken(s.consumer) && i < |s.chain| - 1 ==>
           s.chain[i] in s.nodes && s.nodes[s.chain[i]] == Node(Some(s.sent[|s.received| + i]), s.chain[i + 1]))
  {
    EveryRun(address, schedule);
    var s := Exec(Initial(address), schedule);
    if i < |s.chain| { assert LinkAt(s, i); }
  }

  /** Dequeue finds nothing exactly if, when it looks at `tail`, every value enqueued has been dequeued. */
  lemma EmptyMeansEmpty(s: State)
    requires Inv(s) && s.consumer.CompareTail?
    ensures Consumed(s).consumer == Ready(None) <==> |s.sent| == |s.received|
  {
  }

  // ---- whole calls ----

  /** No other step of a dequeue answers that there is nothing. */
  lemma EmptyOnlyThen(s: State)
    requires Inv(s) && Consumed(s).consumer == Ready(None) != s.consumer
    ensures s.consumer.CompareTail? && |s.sent| == |s.received|
  {
  }

  /** The steps that a call has left. */
  function StepsLeft(p: Producer): nat {
    match p
    case Idle => 0
    case LoadTail(_) => 5
    case NewNode(_, _) => 4
    case SetData(_, _, _) => 3
    case SetNext(_, _, _) => 2
    case StoreTail(_, _, _) => 1
  }

  function ConsumerStepsLeft(c: Consumer): nat {
    match c
    case Ready(_) => 0
    case LoadHead => 7
    case CompareTail(_) => 6
    case TakeData(_) => 5
    case LoadNext(_, _) => 4
    case CutNext(_, _, _) => 3
    case StoreHead(_, _, _) => 2
    case Delete(_, _) => 1
  }

  /** No step of a call is in vain, whatever the other side has done: an enqueue takes at most six steps, given a new
      address for its node, and a dequeue at most eight. */
  lemma EveryStepCounts(s: State, value: int, address: int)
    requires Inv(s)
    ensures !s.producer.Idle? && (s.producer.NewNode? ==> address !in s.nodes && address != NULL) ==>
      StepsLeft(Produced(s, value, address).producer) == StepsLeft(s.producer) - 1
    ensures !s.consumer.Ready? ==> ConsumerStepsLeft(Consumed(s).consumer) < ConsumerStepsLeft(s.consumer)
  {
    assert LinkAt(s, 0) && LinkAt(s, |s.chain| - 1);
    if s.consumer.Delete? { assert Owned(s, s.consumer.h); }
  }

  /** How far an enqueue of `v` is, before which the values `before` had been enqueued. */
  ghost predicate Enqueueing(s: State, v: int, before: seq<int>) {
    match s.producer
    case LoadTail(x) => x == v && s.sent == before
    case NewNode(x, _) => x == v && s.sent == before
    case SetData(x, _, _) => x == v && s.sent == before
    case SetNext(x, _, _) => x == v && s.sent == before
    case StoreTail(x, _, _) => x == v && s.sent == before
    case Idle => s.sent == before + [v]
  }

  /** How far a dequeue is, before which the values `before` had been dequeued. */
  ghost predicate Dequeueing(s: State, before: seq<Option<int>>) {
    match s.consumer
    case Delete(_, x) => s.received == before + [x] && x != None
    case Ready(x) => s.received == if x == None then before else before + [x]
    case _ => s.received == before
  }

  ghost predicate StillEnqueueing(s: State, more: seq<Move>) {
    forall k :: 0 <= k < |more| ==> Exec(s, more[..k]).producer != Idle
  }

  ghost predicate StillDequeueing(s: State, more: seq<Move>) {
    forall k :: 0 <= k < |more| ==> !Exec(s, more[..k]).consumer.Ready?
  }

  lemma {:induction false} EnqueueGoesOn(s: State, v: int, before: seq<int>, more: seq<Move>)
    requires Inv(s) && StillEnqueueing(s, more) && Enqueueing(s, v, before)
    ensures Inv(Exec(s, more)) && Enqueueing(Exec(s, more), v, before)
    decreases |more|
  {
    if more != [] {
      var less := more[..|more| - 1];
      assert forall k :: 0 <= k < |less| ==> less[..k] == more[..k];
      EnqueueGoesOn(s, v, before, less);
      StepKeeps(Exec(s, less), more[|more| - 1]);
      hide Inv;
    }
  }

  lemma {:induction false} DequeueGoesOn(s: State, before: seq<Option<int>>, more: seq<Move>)
    requires Inv(s) && StillDequeueing(s, more) && Dequeueing(s, before)
    ensures Inv(Exec(s, more)) && Dequeueing(Exec(s, more), before)
    decreases |more|
  {
    if more != [] {
      var less := more[..|more| - 1];
      assert forall k :: 0 <= k < |less| ==> less[..k] == more[..k];
      DequeueGoesOn(s, before, less);
      StepKeeps(Exec(s, less), more[|more| - 1]);
    }
  }

  /** Whatever the consumer does meanwhile: a call of enqueue with `v` comes to its end only with `v` enqueued. */
  lemma EnqueueCall(s: State, v: int, address: int, more: seq<Move>)
    requires Inv(s) && s.producer.Idle? && StillEnqueueing(Next(s, Produce(v, address)), more)
    ensures var r := Exec(Next(s, Produce(v, address)), more); r.producer.Idle? ==> r.sent == s.sent + [v]
  {
    StepKeeps(s, Produce(v, address));
    EnqueueGoesOn(Next(s, Produce(v, address)), v, s.sent, more);
  }

  /** Whatever the producer does meanwhile: a dequeue that returns a value has dequeued the oldest one, and returns it;
      one that returns nothing has dequeued nothing. */
  lemma DequeueCall(s: State, more: seq<Move>)
    requires Inv(s) && s.consumer.Ready? && StillDequeueing(Next(s, Consume), more)
    ensures var r := Exec(Next(s, Consume), more);
      && (r.consumer == Ready(None) ==> r.received == s.received)
      && (r.consumer.Ready? && r.consumer.result != None ==>
           |s.received| < |r.sent| && r.consumer.result == Some(r.sent[|s.received|]) && r.received == s.received + [r.consumer.result])
  {
    StepKeeps(s, Consume);
    DequeueGoesOn(Next(s, Consume), s.received, more);
  }
}
