/**
 Whole calls on the bounded multi-producer multi-consumer queue: what a call that has returned true or false has done,
 under every schedule, and that a call which nobody disturbs comes to its end.
 */
module MpmcCalls {
  import opened MpmcQueue
  import opened MpmcTheorems
  import opened Remainders

  // ---- when a call is refused ----

  /** No step makes an enqueue return false but the load of the sequence, and only for the next ticket while the queue
      is full or the consumer of the ticket one lap before is at work; likewise for a dequeue. */
  lemma RefusedOnlyThen(s: State, t: nat, c: Choice)
    requires Inv(s) && t < |s.pcs| && Next(s, t, c).pcs[t] == Returned(false) != s.pcs[t]
    ensures s.pcs[t].EnqSequence? || s.pcs[t].DeqSequence?
    ensures var n := |s.cells|; s.pcs[t].EnqSequence? ==>
      s.pcs[t].pos == s.enqueuePtr
      && (s.enqueuePtr == s.dequeuePtr + n || (s.enqueuePtr >= n && Consuming(s, s.enqueuePtr - n)))
    ensures s.pcs[t].DeqSequence? ==>
      s.pcs[t].pos == s.dequeuePtr && (s.enqueuePtr == s.dequeuePtr || Producing(s, s.dequeuePtr))
  {
    if s.pcs[t].EnqSequence? { EnqueueRefuses(s, t); }
    if s.pcs[t].DeqSequence? { DequeueRefuses(s, t); }
  }

  // ---- what a call has done when it returns ----

  /** The values that thread `t` has enqueued, in order. */
  function Enqueued(claims: seq<Claim>, t: nat): seq<int> {
    if claims == [] then []
    else
      var k := |claims| - 1;
      Enqueued(claims[..k], t) + (if claims[k].thread == t then [claims[k].value] else [])
  }

  /** The tickets that thread `t` has dequeued, in order. */
  function Dequeued(takers: seq<nat>, t: nat): seq<nat> {
    if takers == [] then []
    else
      var k := |takers| - 1;
      Dequeued(takers[..k], t) + (if takers[k] == t then [k] else [])
  }

  lemma OneMore(s: State, claim: Claim, u: nat, t: nat)
    ensures Enqueued(s.claims + [claim], t) == Enqueued(s.claims, t) + (if claim.thread == t then [claim.value] else [])
    ensures Dequeued(s.takers + [u], t) == Dequeued(s.takers, t) + (if u == t then [|s.takers|] else [])
  {
    assert (s.claims + [claim])[..|s.claims|] == s.claims;
    assert (s.takers + [u])[..|s.takers|] == s.takers;
  }

  /** How far an enqueue of `v` by thread `t` is, which had enqueued the values `before`. */
  ghost predicate Enqueueing(s: State, t: nat, v: int, before: seq<int>)
    requires t < |s.pcs|
  {
    match s.pcs[t]
    case EnqLoad(x) => x == v && Enqueued(s.claims, t) == before
    case EnqSequence(x, _) => x == v && Enqueued(s.claims, t) == before
    case EnqClaim(x, _) => x == v && Enqueued(s.claims, t) == before
    case EnqWrite(x, _) => x == v && Enqueued(s.claims, t) == before + [v]
    case EnqPublish(x, _) => x == v && Enqueued(s.claims, t) == before + [v]
    case Returned(ok) => Enqueued(s.claims, t) == before + (if ok then [v] else [])
    case _ => false
  }

  /** How far a dequeue by thread `t` is, which had dequeued the tickets `before`. */
  ghost predicate Dequeueing(s: State, t: nat, before: seq<nat>)
    requires t < |s.pcs|
  {
    match s.pcs[t]
    case DeqLoad => Dequeued(s.takers, t) == before
    case DeqSequence(_) => Dequeued(s.takers, t) == before
    case DeqClaim(_) => Dequeued(s.takers, t) == before
    case DeqRead(p) => Dequeued(s.takers, t) == before + [p]
    case DeqRelease(p, v) => Dequeued(s.takers, t) == before + [p] && p in s.got && s.got[p] == v
    case Returned(ok) =>
      if ok then exists p :: Dequeued(s.takers, t) == before + [p] && p in s.got else Dequeued(s.takers, t) == before
    case _ => false
  }

  lemma EnqueueOwnStep(s: State, t: nat, v: int, before: seq<int>, c: Choice)
    requires |s.cells| > 0 && t < |s.pcs| && Enqueueing(s, t, v, before) && !s.pcs[t].Returned?
    ensures Enqueueing(Next(s, t, c), t, v, before)
  {
    if s.pcs[t].EnqClaim? { OneMore(s, Claim(t, s.pcs[t].value), 0, t); }
  }

  /** What a step of another thread leaves of what thread `t` has done. */
  lemma OthersStep(s: State, t: nat, m: Move)
    requires |s.cells| > 0 && t < |s.pcs| && m.thread < |s.pcs| && m.thread != t
    ensures var r := Next(s, m.thread, m.choice);
      && r.pcs[t] == s.pcs[t]
      && Enqueued(r.claims, t) == Enqueued(s.claims, t) && Dequeued(r.takers, t) == Dequeued(s.takers, t)
      && forall p :: p in s.got && s.pcs[m.thread] != DeqRead(p) ==> p in r.got && r.got[p] == s.got[p]
  {
    hide Enqueued, Dequeued;
    match s.pcs[m.thread] {
      case EnqClaim(value, _) => OneMore(s, Claim(m.thread, value), 0, t);
      case DeqClaim(_) => OneMore(s, Claim(0, 0), m.thread, t);
      case _ =>
    }
  }

  lemma EnqueueStep(s: State, t: nat, v: int, before: seq<int>, m: Move)
    requires |s.cells| > 0 && t < |s.pcs| && m.thread < |s.pcs| && Enqueueing(s, t, v, before) && !s.pcs[t].Returned?
    ensures Enqueueing(Next(s, m.thread, m.choice), t, v, before)
  {
    if m.thread == t {
      EnqueueOwnStep(s, t, v, before, m.choice);
    } else {
      OthersStep(s, t, m);
      hide Next, Enqueued;
    }
  }

  lemma DequeueOwnStep(s: State, t: nat, before: seq<nat>, c: Choice)
    requires Inv(s) && t < |s.pcs| && Dequeueing(s, t, before) && !s.pcs[t].Returned?
    ensures Dequeueing(Next(s, t, c), t, before)
  {
    assert |s.takers| == s.dequeuePtr && ThreadOk(s, t);
    hide Inv;
    if s.pcs[t].DeqClaim? { OneMore(s, Claim(0, 0), t, t); }
    hide Dequeued;
  }

  lemma DequeueStep(s: State, t: nat, before: seq<nat>, m: Move)
    requires Inv(s) && t < |s.pcs| && m.thread < |s.pcs| && Dequeueing(s, t, before) && !s.pcs[t].Returned?
    ensures Dequeueing(Next(s, m.thread, m.choice), t, before)
  {
    if m.thread == t {
      DequeueOwnStep(s, t, before, m.choice);
    } else {
      OthersStep(s, t, m);
      OtherTicket(s, t, m.thread);
      hide Next, Dequeued, Inv;
    }
  }

  lemma OtherTicket(s: State, t: nat, u: nat)
    requires Inv(s) && t < |s.pcs| && u < |s.pcs| && t != u
    ensures s.pcs[t].DeqRelease? && s.pcs[u].DeqRead? ==> s.pcs[t].pos != s.pcs[u].pos
  {
    assert ThreadOk(s, t) && ThreadOk(s, u);
  }

  /** Thread `t` has not returned in `s` nor while the moves of `more` but the last are made. */
  ghost predicate StillCalling(s: State, t: nat, more: seq<Move>) {
    && |s.cells| > 0 && t < |s.pcs| && MovesOf(more, |s.pcs|)
    && forall k :: 0 <= k < |more| ==> !Exec(s, more[..k]).pcs[t].Returned?
  }

  lemma StillCallingBefore(s: State, t: nat, more: seq<Move>)
    requires StillCalling(s, t, more) && more != []
    ensures var k := |more| - 1; StillCalling(s, t, more[..k]) && !Exec(s, more[..k]).pcs[t].Returned?
  {
    var less := more[..|more| - 1];
    forall k | 0 <= k < |less| ensures less[..k] == more[..k] { }
  }

  lemma {:induction false} EnqueueGoesOn(s: State, t: nat, v: int, before: seq<int>, more: seq<Move>)
    requires Inv(s) && StillCalling(s, t, more) && Enqueueing(s, t, v, before)
    ensures Inv(Exec(s, more)) && Enqueueing(Exec(s, more), t, v, before)
    decreases |more|
  {
    if more != [] {
      hide Inv, Enqueueing;
      var k := |more| - 1;
      StillCallingBefore(s, t, more);
      EnqueueGoesOn(s, t, v, before, more[..k]);
      EnqueueStep(Exec(s, more[..k]), t, v, before, more[k]);
      StepKeeps(Exec(s, more[..k]), more[k].thread, more[k].choice);
    }
  }

  lemma {:induction false} DequeueGoesOn(s: State, t: nat, before: seq<nat>, more: seq<Move>)
    requires Inv(s) && StillCalling(s, t, more) && Dequeueing(s, t, before)
    ensures Inv(Exec(s, more)) && Dequeueing(Exec(s, more), t, before)
    decreases |more|
  {
    if more != [] {
      hide Inv, Dequeueing;
      var k := |more| - 1;
      StillCallingBefore(s, t, more);
      DequeueGoesOn(s, t, before, more[..k]);
      DequeueStep(Exec(s, more[..k]), t, before, more[k]);
      StepKeeps(Exec(s, more[..k]), more[k].thread, more[k].choice);
    }
  }

  /** Whatever the others do meanwhile: once a call of enqueue with `v` has returned true, the thread has enqueued `v`,
      once; if it has returned false, it has enqueued nothing. */
  lemma EnqueueCall(s: State, t: nat, v: int, more: seq<Move>)
    requires Inv(s) && t < |s.pcs| && (s.pcs[t].Idle? || s.pcs[t].Returned?)
    requires StillCalling(Next(s, t, CallEnqueue(v)), t, more)
    ensures var r := Exec(Next(s, t, CallEnqueue(v)), more);
      && (r.pcs[t] == Returned(true) ==> Enqueued(r.claims, t) == Enqueued(s.claims, t) + [v])
      && (r.pcs[t] == Returned(false) ==> Enqueued(r.claims, t) == Enqueued(s.claims, t))
  {
    StepKeeps(s, t, CallEnqueue(v));
    EnqueueGoesOn(Next(s, t, CallEnqueue(v)), t, v, Enqueued(s.claims, t), more);
  }

  /** Once a call of dequeue has returned true, the thread has dequeued one ticket more and has read the value enqueued
      under it; if it has returned false, it has dequeued nothing. */
  lemma DequeueCall(s: State, t: nat, more: seq<Move>)
    requires Inv(s) && t < |s.pcs| && (s.pcs[t].Idle? || s.pcs[t].Returned?)
    requires StillCalling(Next(s, t, CallDequeue), t, more)
    ensures var r := Exec(Next(s, t, CallDequeue), more);
      && (r.pcs[t] == Returned(true) ==>
           exists p: nat :: Dequeued(r.takers, t) == Dequeued(s.takers, t) + [p] && p in r.got && p < |r.claims|
             && r.got[p] == r.claims[p].value)
      && (r.pcs[t] == Returned(false) ==> Dequeued(r.takers, t) == Dequeued(s.takers, t))
  {
    StepKeeps(s, t, CallDequeue);
    DequeueGoesOn(Next(s, t, CallDequeue), t, Dequeued(s.takers, t), more);
    var r := Exec(Next(s, t, CallDequeue), more);
    if r.pcs[t] == Returned(true) {
      var p: nat :| Dequeued(r.takers, t) == Dequeued(s.takers, t) + [p] && p in r.got;
      assert GotOk(r, p);
    }
  }

  // ---- a call that nobody disturbs ----

  /** Thread `t` makes `k` steps, without spurious failures, while nobody else moves. */
  function Alone(s: State, t: nat, k: nat): (r: State)
    requires |s.cells| > 0 && t < |s.pcs|
    ensures |r.cells| == |s.cells| && |r.pcs| == |s.pcs|
    decreases k
  {
    if k == 0 then s else Alone(Next(s, t, Go), t, k - 1)
  }

  /** The cell of the next ticket is free. */
  ghost predicate Room(s: State)
    requires |s.cells| > 0
  {
    var n := |s.cells|;
    s.enqueuePtr != s.dequeuePtr + n && !(s.enqueuePtr >= n && Consuming(s, s.enqueuePtr - n))
  }

  /** The next ticket to be dequeued is published. */
  ghost predicate Ready(s: State) {
    s.enqueuePtr != s.dequeuePtr && !Producing(s, s.dequeuePtr)
  }

  lemma RoomMeansFree(s: State)
    requires Inv(s) && Room(s)
    ensures CellOf(s, s.enqueuePtr).sequence == s.enqueuePtr
  {
    assert CellOk(s, s.enqueuePtr);
  }

  lemma ReadyMeansPublished(s: State)
    requires Inv(s) && Ready(s)
    ensures s.dequeuePtr < |s.claims| && CellOf(s, s.dequeuePtr) == Cell(s.dequeuePtr + 1, s.claims[s.dequeuePtr].value)
  {
    assert CellOk(s, s.dequeuePtr);
  }

  /** About to claim the next ticket, an enqueue has three steps left. */
  lemma EnqueueFinishes(s: State, t: nat, v: int)
    requires Inv(s) && t < |s.pcs| && s.pcs[t] == EnqClaim(v, s.enqueuePtr)
    ensures var r := Alone(s, t, 3);
      && r.pcs[t] == Returned(true) && r.claims == s.claims + [Claim(t, v)] && r.takers == s.takers && r.got == s.got
      && CellOf(r, s.enqueuePtr) == Cell(s.enqueuePtr + 1, v)
  {
    var p := s.enqueuePtr;
    var s1 := Next(s, t, Go);
    var s2 := Next(s1, t, Go);
    var s3 := Next(s2, t, Go);
    assert s1.pcs[t] == EnqWrite(v, p) && s2.pcs[t] == EnqPublish(v, p);
    assert Alone(s, t, 3) == Alone(s1, t, 2) == Alone(s2, t, 1) == Alone(s3, t, 0) == s3;
  }

  lemma NotRefused(s: State, t: nat)
    requires Inv(s) && t < |s.pcs| && s.pcs[t].EnqSequence? && Room(s)
    ensures var s', pos := Next(s, t, Go), s.pcs[t].pos;
      s' == At(s, t, EnqLoad(s.pcs[t].value)) || s' == At(s, t, EnqClaim(s.pcs[t].value, pos))
    ensures s.pcs[t].pos == s.enqueuePtr ==> Next(s, t, Go) == At(s, t, EnqClaim(s.pcs[t].value, s.enqueuePtr))
  {
    EnqueueRefuses(s, t);
    RoomMeansFree(s);
  }

  /** Wherever an enqueue is that has not claimed a ticket: if there is room and the thread now runs alone, it returns
      true after at most six steps, and has enqueued its value under the next ticket. */
  lemma EnqueueAlone(s: State, t: nat) returns (k: nat)
    requires Inv(s) && t < |s.pcs| && Room(s)
    requires s.pcs[t].EnqLoad? || s.pcs[t].EnqSequence? || s.pcs[t].EnqClaim?
    ensures k <= (if s.pcs[t].EnqSequence? && s.pcs[t].pos < s.enqueuePtr then 6 else 5)
    ensures s.pcs[t].EnqSequence? && s.pcs[t].pos == s.enqueuePtr ==> k == 4
    ensures var r, v := Alone(s, t, k), s.pcs[t].value;
      && r.pcs[t] == Returned(true) && r.claims == s.claims + [Claim(t, v)] && r.takers == s.takers && r.got == s.got
      && CellOf(r, s.enqueuePtr) == Cell(s.enqueuePtr + 1, v)
    decreases if s.pcs[t].EnqSequence? then (if s.pcs[t].pos == s.enqueuePtr then 0 else 2) else 1
  {
    assert |s.cells| > 0 && ThreadOk(s, t);
    hide Inv, Room, CellOf;
    var v, s' := s.pcs[t].value, Next(s, t, Go);
    if s.pcs[t] == EnqClaim(v, s.enqueuePtr) {
      EnqueueFinishes(s, t, v);
      k := 3;
    } else {
      StepKeeps(s, t, Go);
      RoomStays(s, t);
      if s.pcs[t].EnqSequence? { NotRefused(s, t); }
      if s.pcs[t] == EnqSequence(v, s.enqueuePtr) {
        EnqueueFinishes(s', t, v);
        k := 3;
      } else {
        k := EnqueueAlone(s', t);
      }
      k := k + 1;
    }
  }

  /** A step before the claim takes no room. */
  lemma RoomStays(s: State, t: nat)
    requires Inv(s) && t < |s.pcs| && Room(s)
    requires s.pcs[t].EnqLoad? || s.pcs[t].EnqSequence? || (s.pcs[t].EnqClaim? && s.pcs[t].pos != s.enqueuePtr)
    ensures Room(Next(s, t, Go))
  {
    var s', n := Next(s, t, Go), |s.cells|;
    assert ThreadOk(s, t);
  }

  /** About to claim the next ticket, a dequeue has three steps left. */
  lemma DequeueFinishes(s: State, t: nat)
    requires Inv(s) && t < |s.pcs| && s.pcs[t] == DeqClaim(s.dequeuePtr)
    ensures var r, p := Alone(s, t, 3), s.dequeuePtr;
      && r.pcs[t] == Returned(true) && r.takers == s.takers + [t] && r.claims == s.claims
      && p < |s.claims| && r.got == s.got[p := s.claims[p].value]
  {
    assert ThreadOk(s, t) && CellOk(s, s.dequeuePtr);
    var p := s.dequeuePtr;
    var s1 := Next(s, t, Go);
    var s2 := Next(s1, t, Go);
    var s3 := Next(s2, t, Go);
    assert s1.pcs[t] == DeqRead(p) && s2.pcs[t] == DeqRelease(p, CellOf(s, p).data);
    assert Alone(s, t, 3) == Alone(s1, t, 2) == Alone(s2, t, 1) == Alone(s3, t, 0) == s3;
  }

  lemma NotEmpty(s: State, t: nat)
    requires Inv(s) && t < |s.pcs| && s.pcs[t].DeqSequence? && Ready(s)
    ensures var s' := Next(s, t, Go); s' == At(s, t, DeqLoad) || s' == At(s, t, DeqClaim(s.pcs[t].pos))
    ensures s.pcs[t].pos == s.dequeuePtr ==> Next(s, t, Go) == At(s, t, DeqClaim(s.dequeuePtr))
  {
    DequeueRefuses(s, t);
    ReadyMeansPublished(s);
  }

  /** Wherever a dequeue is that has not claimed a ticket: if the next one is published and the thread now runs alone, it
      returns true after at most six steps, and has read the value enqueued under that ticket. */
  lemma DequeueAlone(s: State, t: nat) returns (k: nat)
    requires Inv(s) && t < |s.pcs| && Ready(s)
    requires s.pcs[t].DeqLoad? || s.pcs[t].DeqSequence? || s.pcs[t].DeqClaim?
    ensures k <= (if s.pcs[t].DeqSequence? && s.pcs[t].pos < s.dequeuePtr then 6 else 5)
    ensures s.pcs[t].DeqSequence? && s.pcs[t].pos == s.dequeuePtr ==> k == 4
    ensures var r, p := Alone(s, t, k), s.dequeuePtr;
      && r.pcs[t] == Returned(true) && r.takers == s.takers + [t] && r.claims == s.claims
      && p < |s.claims| && r.got == s.got[p := s.claims[p].value]
    decreases if s.pcs[t].DeqSequence? then (if s.pcs[t].pos == s.dequeuePtr then 0 else 2) else 1
  {
    assert |s.cells| > 0 && ThreadOk(s, t);
    hide Inv, Ready, CellOf;
    var s' := Next(s, t, Go);
    if s.pcs[t] == DeqClaim(s.dequeuePtr) {
      DequeueFinishes(s, t);
      k := 3;
    } else {
      StepKeeps(s, t, Go);
      ReadyStays(s, t);
      if s.pcs[t].DeqSequence? { NotEmpty(s, t); }
      if s.pcs[t] == DeqSequence(s.dequeuePtr) {
        DequeueFinishes(s', t);
        k := 3;
      } else {
        k := DequeueAlone(s', t);
      }
      k := k + 1;
    }
  }

  lemma ReadyStays(s: State, t: nat)
    requires Inv(s) && t < |s.pcs| && Ready(s)
    requires s.pcs[t].DeqLoad? || s.pcs[t].DeqSequence? || (s.pcs[t].DeqClaim? && s.pcs[t].pos != s.dequeuePtr)
    ensures Ready(Next(s, t, Go))
  {
    assert ThreadOk(s, t);
  }
}
