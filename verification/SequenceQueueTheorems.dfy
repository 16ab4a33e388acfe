/**
 What the two spinning queues of the engine guarantee under every schedule.
 */
module SequenceQueueTheorems {
  import Remainders
  import opened SequenceQueue

  /** The values dequeued are the values of the first tickets, in order: none lost, doubled or overtaken. No
      producer is more than one lap ahead of the consumer. */
  lemma InOrder(single: bool, size: nat, producers: nat, schedule: seq<Move>)
    requires size >= 2 && MovesOf(schedule, if single then 1 else producers)
    ensures var s := Exec(Initial(single, size, producers), schedule);
      Prefix(s.delivered, s.claims) && |s.claims| <= |s.delivered| + size
  {
    EveryRun(single, size, producers, schedule);
  }

  /** With no producer at work on a cell, the cells hold the values not yet dequeued, oldest first. */
  lemma AtRest(single: bool, size: nat, producers: nat, schedule: seq<Move>, p: nat)
    requires size >= 2 && MovesOf(schedule, if single then 1 else producers)
    ensures var s := Exec(Initial(single, size, producers), schedule);
      (forall t :: 0 <= t < |s.producers| ==> !InCell(s.producers[t])) && |s.delivered| <= p < |s.claims| ==>
        CellOf(s, p) == Cell(p + 1, s.claims[p].value)
  {
    EveryRun(single, size, producers, schedule);
    var s := Exec(Initial(single, size, producers), schedule);
    if |s.delivered| <= p < |s.claims| { assert CellOk(s, p); }
  }

  /** No two producers work on one cell, and the consumer reads no cell that a producer works on. */
  lemma Exclusive(single: bool, size: nat, producers: nat, schedule: seq<Move>, t: nat, u: nat)
    requires size >= 2 && MovesOf(schedule, if single then 1 else producers)
    ensures var s := Exec(Initial(single, size, producers), schedule);
      t < |s.producers| && InCell(s.producers[t]) ==>
        && (u < |s.producers| && u != t && InCell(s.producers[u]) ==> s.producers[t].pos % size != s.producers[u].pos % size)
        && (s.consumer.Read? || s.consumer.Release? ==> s.producers[t].pos % size != s.consumer.pos % size)
  {
    EveryRun(single, size, producers, schedule);
    var s := Exec(Initial(single, size, producers), schedule);
    if t < |s.producers| && InCell(s.producers[t]) {
      assert ProducerOk(s, t);
      if u < |s.producers| && u != t { OtherCell(s, t, u); }
      if s.consumer.Read? || s.consumer.Release? { Remainders.Apart(s.producers[t].pos, s.consumer.pos, size); }
    }
  }

  /** The producer of a ticket waits exactly as long as the ticket one lap before is not released. */
  lemma WaitsForRoom(s: State, t: nat)
    requires Inv(s) && t < |s.producers| && s.producers[t].LoadSequence? && s.producers[t].pos == |s.claims|
    ensures CellOf(s, s.producers[t].pos).sequence == s.producers[t].pos <==> |s.claims| < |s.delivered| + |s.cells|
  {
    var pos := s.producers[t].pos;
    if pos < |s.delivered| + |s.cells| { assert CellOk(s, pos); }
    if CellOf(s, pos).sequence == pos { RoomForNext(s); }
  }

  /** The consumer waits exactly as long as its ticket is not claimed or still being written. */
  lemma WaitsForValue(s: State)
    requires Inv(s) && s.consumer.Wait?
    ensures Consumed(s) == s <==> |s.claims| == |s.delivered| || Producing(s, |s.delivered|)
  {
    assert CellOk(s, |s.delivered|);
    if Producing(s, |s.delivered|) { assert ProducerOk(s, s.claims[|s.delivered|].thread); }
  }
}
