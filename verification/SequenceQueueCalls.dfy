/**
 Whole calls on the two spinning queues of the engine: no call gives up, and each does its work exactly once, under
 every schedule.
 */
module SequenceQueueCalls {
  import opened Remainders
  import opened SequenceQueue

  /** The values that thread `t` has enqueued, in order. */
  function Enqueued(claims: seq<Claim>, t: nat): seq<int> {
    if claims == [] then []
    else
      var k := |claims| - 1;
      Enqueued(claims[..k], t) + (if claims[k].thread == t then [claims[k].value] else [])
  }

  lemma OneMore(claims: seq<Claim>, claim: Claim, t: nat)
    ensures Enqueued(claims + [claim], t) == Enqueued(claims, t) + (if claim.thread == t then [claim.value] else [])
  {
    assert (claims + [claim])[..|claims|] == claims;
  }

  /** How far an enqueue of `v` by thread `t` is, which had enqueued the values `before`. */
  ghost predicate Enqueueing(s: State, t: nat, v: int, before: seq<int>)
    requires t < |s.producers|
  {
    match s.producers[t]
    case LoadPtr(x) => x == v && Enqueued(s.claims, t) == before
    case LoadSequence(x, _) => x == v && Enqueued(s.claims, t) == before
    case TryClaim(x, _) => x == v && Enqueued(s.claims, t) == before
    case Write(x, _) => x == v && Enqueued(s.claims, t) == before + [v]
    case Publish(x, _) => x == v && Enqueued(s.claims, t) == before + [v]
    case StorePtr(_) => Enqueued(s.claims, t) == before + [v]
    case Idle => Enqueued(s.claims, t) == before + [v]
  }

  /** How far a dequeue is, before which the values `before` had been dequeued. */
  ghost predicate Dequeueing(s: State, before: seq<int>) {
    match s.consumer
    case Wait(_) => s.delivered == before
    case Read(_) => s.delivered == before
    case Release(_, _) => s.delivered == before
    case Advance(_) => |s.delivered| == |before| + 1 && before <= s.delivered
    case Ready => |s.delivered| == |before| + 1 && before <= s.delivered
  }

  lemma OwnStep(s: State, t: nat, v: int, before: seq<int>, value: int, spurious: bool)
    requires |s.cells| > 0 && t < |s.producers| && Enqueueing(s, t, v, before) && !s.producers[t].Idle?
    ensures Enqueueing(Produced(s, t, value, spurious), t, v, before)
  {
    hide CellOf, Store, Enqueued;
    var pc := s.producers[t];
    if pc.LoadSequence? || pc.TryClaim? { OneMore(s.claims, Claim(t, pc.value), t); }
  }

  lemma OthersStep(s: State, t: nat, m: Move)
    requires t < |s.producers| && MayMove(s, m) && (m.Produce? ==> m.thread != t)
    ensures Next(s, m).producers[t] == s.producers[t] && Enqueued(Next(s, m).claims, t) == Enqueued(s.claims, t)
  {
    hide CellOf, Store, Enqueued;
    if m.Produce? {
      var pc := s.producers[m.thread];
      if pc.LoadSequence? || pc.TryClaim? { OneMore(s.claims, Claim(m.thread, pc.value), t); }
    }
  }

  lemma EnqueueStep(s: State, t: nat, v: int, before: seq<int>, m: Move)
    requires t < |s.producers| && MayMove(s, m) && Enqueueing(s, t, v, before) && !s.producers[t].Idle?
    ensures Enqueueing(Next(s, m), t, v, before)
  {
    hide Produced, Consumed, Enqueued;
    if m.Produce? && m.thread == t {
      OwnStep(s, t, v, before, m.value, m.spurious);
    } else {
      OthersStep(s, t, m);
      hide Next;
    }
  }

  lemma DequeueStep(s: State, before: seq<int>, m: Move)
    requires MayMove(s, m) && Dequeueing(s, before) && !s.consumer.Ready?
    ensures Dequeueing(Next(s, m), before)
  {
  }

  /** Thread `t` is still in its call in `s` and while the moves of `more` but the last are made. */
  ghost predicate StillEnqueueing(s: State, t: nat, more: seq<Move>) {
    && |s.cells| > 0 && t < |s.producers| && MovesOf(more, |s.producers|)
    && forall k :: 0 <= k < |more| ==> !Exec(s, more[..k]).producers[t].Idle?
  }

  ghost predicate StillDequeueing(s: State, more: seq<Move>) {
    && |s.cells| > 0 && MovesOf(more, |s.producers|)
    && forall k :: 0 <= k < |more| ==> !Exec(s, more[..k]).consumer.Ready?
  }

  lemma {:induction false} EnqueueGoesOn(s: State, t: nat, v: int, before: seq<int>, more: seq<Move>)
    requires StillEnqueueing(s, t, more) && Enqueueing(s, t, v, before)
    ensures Enqueueing(Exec(s, more), t, v, before)
    decreases |more|
  {
    if more != [] {
      hide Enqueueing;
      var less := more[..|more| - 1];
      assert forall k :: 0 <= k < |less| ==> less[..k] == more[..k];
      EnqueueGoesOn(s, t, v, before, less);
      EnqueueStep(Exec(s, less), t, v, before, more[|more| - 1]);
    }
  }

  lemma {:induction false} DequeueGoesOn(s: State, before: seq<int>, more: seq<Move>)
    requires StillDequeueing(s, more) && Dequeueing(s, before)
    ensures Dequeueing(Exec(s, more), before)
    decreases |more|
  {
    if more != [] {
      hide Dequeueing;
      var less := more[..|more| - 1];
      assert forall k :: 0 <= k < |less| ==> less[..k] == more[..k];
      DequeueGoesOn(s, before, less);
      DequeueStep(Exec(s, less), before, more[|more| - 1]);
    }
  }

  /** Whatever the others do meanwhile: a call of enqueue with `v` comes to its end only with `v` enqueued, once. */
  lemma EnqueueCall(s: State, t: nat, v: int, spurious: bool, more: seq<Move>)
    requires MayMove(s, Produce(t, v, spurious)) && s.producers[t].Idle?
    requires StillEnqueueing(Next(s, Produce(t, v, spurious)), t, more)
    ensures var r := Exec(Next(s, Produce(t, v, spurious)), more);
      r.producers[t].Idle? ==> Enqueued(r.claims, t) == Enqueued(s.claims, t) + [v]
  {
    EnqueueGoesOn(Next(s, Produce(t, v, spurious)), t, v, Enqueued(s.claims, t), more);
  }

  /** A call of dequeue comes to its end only with one value more dequeued: that of the next ticket. */
  lemma DequeueCall(s: State, more: seq<Move>)
    requires Inv(s) && s.consumer.Ready? && StillDequeueing(Next(s, Consume), more)
    ensures var r := Exec(Next(s, Consume), more);
      r.consumer.Ready? ==> |s.delivered| < |r.claims| && r.delivered == s.delivered + [r.claims[|s.delivered|].value]
  {
    NextKeeps(s, Consume);
    DequeueGoesOn(Next(s, Consume), s.delivered, more);
    RunKeeps(Next(s, Consume), more);
  }

  lemma {:induction false} RunKeeps(s: State, more: seq<Move>)
    requires Inv(s) && MovesOf(more, |s.producers|)
    ensures Inv(Exec(s, more))
    decreases |more|
  {
    if more != [] {
      var k := |more| - 1;
      RunKeeps(s, more[..k]);
      NextKeeps(Exec(s, more[..k]), more[k]);
    }
  }

  lemma NextKeeps(s: State, m: Move)
    requires Inv(s) && MayMove(s, m)
    ensures Inv(Next(s, m))
  {
    match m
    case Produce(t, value, spurious) => ProducerKeeps(s, t, value, spurious);
    case Consume => ConsumerKeeps(s);
  }

  // ---- a call that nobody disturbs ----

  /** Thread `t` makes `k` steps, without spurious failures, while nobody else moves. */
  function Alone(s: State, t: nat, k: nat): (r: State)
    requires |s.cells| > 0 && t < |s.producers|
    ensures |r.cells| == |s.cells| && |r.producers| == |s.producers|
    decreases k
  {
    if k == 0 then s else Alone(Next(s, Produce(t, 0, false)), t, k - 1)
  }

  /** With the sequence of a free cell loaded or about to be, the call ends with the value in the cell. */
  lemma EnqueueFinishes(s: State, t: nat, v: int) returns (k: nat)
    requires Inv(s) && t < |s.producers| && CellOf(s, s.enqueuePtr).sequence == s.enqueuePtr
    requires s.producers[t] == (if s.single then LoadSequence(v, s.enqueuePtr) else TryClaim(v, s.enqueuePtr))
    ensures k <= 4
    ensures var r := Alone(s, t, k);
      && r.producers[t] == Idle && r.claims == s.claims + [Claim(t, v)] && r.delivered == s.delivered
      && CellOf(r, s.enqueuePtr) == Cell(s.enqueuePtr + 1, v)
  {
    var p, go := s.enqueuePtr, Produce(t, 0, false);
    var s1 := Next(s, go);
    var s2 := Next(s1, go);
    var s3 := Next(s2, go);
    assert s1.producers[t] == Write(v, p) && s2.producers[t] == Publish(v, p);
    assert Alone(s, t, 3) == Alone(s1, t, 2) == Alone(s2, t, 1) == Alone(s3, t, 0) == s3;
    k := 3;
    if s.single {
      assert s3.producers[t] == StorePtr(p);
      var s4 := Next(s3, go);
      assert Alone(s, t, 4) == Alone(s1, t, 3) == Alone(s2, t, 2) == Alone(s3, t, 1) == Alone(s4, t, 0) == s4;
      k := 4;
    }
  }

  /** A producer that holds the number of a ticket already claimed finds that out. */
  lemma SeesClaimed(s: State, t: nat)
    requires Inv(s) && t < |s.producers| && s.producers[t].LoadSequence? && s.producers[t].pos < |s.claims|
    requires !s.single
    ensures CellOf(s, s.producers[t].pos).sequence >= s.producers[t].pos
  {
    var n, pos := |s.cells|, s.producers[t].pos;
    var q := OnThisLap(pos, |s.delivered|, n);
    assert CellOk(s, q);
  }

  /** Wherever an enqueue is that has no ticket: if the cell of the next one is free and the thread now runs alone, the
      call ends after at most six steps, with the value in that cell. */
  lemma EnqueueAlone(s: State, t: nat) returns (k: nat)
    requires Inv(s) && t < |s.producers| && |s.claims| < |s.delivered| + |s.cells|
    requires s.producers[t].LoadPtr? || s.producers[t].LoadSequence? || s.producers[t].TryClaim?
    ensures k <= (if s.producers[t].LoadSequence? && s.producers[t].pos < s.enqueuePtr then 6 else 5)
    ensures s.producers[t].LoadSequence? && s.producers[t].pos == s.enqueuePtr ==> k <= 4
    ensures var r, v := Alone(s, t, k), s.producers[t].value;
      && r.producers[t] == Idle && r.claims == s.claims + [Claim(t, v)] && r.delivered == s.delivered
      && CellOf(r, |s.claims|) == Cell(|s.claims| + 1, v)
    decreases if s.producers[t].LoadSequence? then (if s.producers[t].pos == s.enqueuePtr then 0 else 2) else 1
  {
    var v, go := s.producers[t].value, Produce(t, 0, false);
    assert ProducerOk(s, t) && CellOk(s, |s.claims|) && s.enqueuePtr == |s.claims|;
    if s.producers[t] == (if s.single then LoadSequence(v, s.enqueuePtr) else TryClaim(v, s.enqueuePtr)) {
      k := EnqueueFinishes(s, t, v);
    } else {
      NextKeeps(s, go);
      if s.producers[t].LoadSequence? && s.producers[t].pos < s.enqueuePtr { SeesClaimed(s, t); }
      if s.producers[t] == LoadSequence(v, s.enqueuePtr) {
        k := EnqueueFinishes(Next(s, go), t, v);
      } else {
        k := EnqueueAlone(Next(s, go), t);
      }
      k := k + 1;
    }
  }

  /** The consumer makes `k` steps while nobody else moves. */
  function ConsumerAlone(s: State, k: nat): (r: State)
    requires |s.cells| > 0
    decreases k
  {
    if k == 0 then s else ConsumerAlone(Next(s, Consume), k - 1)
  }

  /** A dequeue that runs alone ends after five steps if the next ticket is published. */
  lemma DequeueAlone(s: State)
    requires Inv(s) && s.consumer.Ready? && |s.delivered| < |s.claims| && !Producing(s, |s.delivered|)
    ensures var r := ConsumerAlone(s, 5);
      r.consumer.Ready? && r.delivered == s.delivered + [s.claims[|s.delivered|].value] && r.claims == s.claims
  {
    assert CellOk(s, |s.delivered|);
    var s1 := Next(s, Consume);
    var s2 := Next(s1, Consume);
    var s3 := Next(s2, Consume);
    var s4 := Next(s3, Consume);
    var s5 := Next(s4, Consume);
    assert ConsumerAlone(s, 5) == ConsumerAlone(s1, 4) == ConsumerAlone(s2, 3) == ConsumerAlone(s3, 2)
           == ConsumerAlone(s4, 1) == ConsumerAlone(s5, 0) == s5;
  }
}
