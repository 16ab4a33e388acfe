/**
 What the bounded multi-producer multi-consumer queue guarantees under every schedule.
 */
module MpmcTheorems {
  import opened MpmcQueue
  import opened Remainders

  /** In every reachable state: the consumer of a ticket has read what the producer of that ticket
      wrote; consumers are never ahead of producers, nor producers more than one lap ahead. */
  lemma Delivery(size: nat, threads: nat, schedule: seq<Move>, p: nat)
    requires size >= 2 && MovesOf(schedule, threads)
    ensures var s := Exec(Initial(size, threads), schedule);
      && 0 <= s.enqueuePtr - s.dequeuePtr <= size
      && (p in s.got ==> p < s.dequeuePtr && p < |s.claims| && s.got[p] == s.claims[p].value)
  {
    EveryRun(size, threads, schedule);
    assert GotOk(Exec(Initial(size, threads), schedule), p);
  }

  /** In every reachable state: threads between claim and release have different tickets, and no two of
      them, producers or consumers, work on one cell. */
  lemma Exclusive(size: nat, threads: nat, schedule: seq<Move>, t: nat, u: nat)
    requires size >= 2 && MovesOf(schedule, threads) && t < threads && u < threads && t != u
    ensures var s := Exec(Initial(size, threads), schedule);
      InCell(s.pcs[t]) && InCell(s.pcs[u]) ==> s.pcs[t].pos % size != s.pcs[u].pos % size
  {
    EveryRun(size, threads, schedule);
    var s := Exec(Initial(size, threads), schedule);
    if InCell(s.pcs[t]) && InCell(s.pcs[u]) { OtherCell(s, t, u); }
  }

  /** Enqueue returns false exactly if, when it loads the sequence, its ticket is the next one and the
      cell of that ticket is not free: the queue is full, or the consumer of the ticket one lap before
      has not released it. */
  lemma EnqueueRefuses(s: State, t: nat)
    requires Inv(s) && t < |s.pcs| && s.pcs[t].EnqSequence?
    ensures var pos, n := s.pcs[t].pos, |s.cells|;
      Next(s, t, Go).pcs[t] == Returned(false) <==>
        pos == s.enqueuePtr && (pos == s.dequeuePtr + n || (pos >= n && Consuming(s, pos - n)))
  {
    var pos, n := s.pcs[t].pos, |s.cells|;
    assert ThreadOk(s, t);
    if pos == s.dequeuePtr + n {
      NextLap(pos - n, n);
      assert CellOk(s, pos - n);
    } else {
      var q := OnThisLap(pos, s.dequeuePtr, n);
      assert CellOk(s, q);
      if pos >= n && Consuming(s, pos - n) {
        NextLap(pos - n, n);
        assert ThreadOk(s, s.takers[pos - n]);
      }
    }
  }

  /** Dequeue returns false exactly if, when it loads the sequence, its ticket is the next one and is not
      yet published: the queue is empty, or the producer of the ticket is still at work. */
  lemma DequeueRefuses(s: State, t: nat)
    requires Inv(s) && t < |s.pcs| && s.pcs[t].DeqSequence?
    ensures var pos := s.pcs[t].pos;
      Next(s, t, Go).pcs[t] == Returned(false) <==>
        pos == s.dequeuePtr && (s.enqueuePtr == s.dequeuePtr || Producing(s, pos))
  {
    var pos, n := s.pcs[t].pos, |s.cells|;
    assert ThreadOk(s, t);
    var q := OnThisLap(pos, s.dequeuePtr, n);
    assert CellOk(s, q);
    if Producing(s, pos) { assert ThreadOk(s, s.claims[pos].thread); }
  }

  /** With no call at work on a cell, nothing is lost, duplicated or reordered: consumers have read the
      first values enqueued, one each, and the cells hold the others, oldest first. */
  lemma AtRest(size: nat, threads: nat, schedule: seq<Move>)
    requires size >= 2 && MovesOf(schedule, threads)
    ensures var s := Exec(Initial(size, threads), schedule);
      (forall t :: 0 <= t < threads ==> !InCell(s.pcs[t])) ==>
        && (forall p: nat :: p < s.dequeuePtr ==> p in s.got && p < |s.claims| && s.got[p] == s.claims[p].value)
        && (forall p: nat :: s.dequeuePtr <= p < |s.claims| ==> CellOf(s, p) == Cell(p + 1, s.claims[p].value))
  {
    EveryRun(size, threads, schedule);
    var s := Exec(Initial(size, threads), schedule);
    if forall t :: 0 <= t < threads ==> !InCell(s.pcs[t]) {
      forall p: nat | p < s.dequeuePtr ensures p in s.got && p < |s.claims| && s.got[p] == s.claims[p].value {
        assert GotOk(s, p);
      }
      forall p: nat | s.dequeuePtr <= p < |s.claims| ensures CellOf(s, p) == Cell(p + 1, s.claims[p].value) {
        assert CellOk(s, p);
      }
    }
  }

  /** What a call has to show for its ticket: an enqueue that has published left its value under its
      ticket, a dequeue returns the value under its own. */
  lemma Returns(s: State, t: nat, c: Choice)
    requires Inv(s) && t < |s.pcs| && Next(s, t, c).pcs[t] == Returned(true) != s.pcs[t]
    ensures s.pcs[t].EnqPublish? || s.pcs[t].DeqRelease?
    ensures s.pcs[t].EnqPublish? ==> s.pcs[t].pos < |s.claims| && s.claims[s.pcs[t].pos] == Claim(t, s.pcs[t].value)
    ensures s.pcs[t].DeqRelease? ==>
      && s.pcs[t].pos < |s.takers| <= |s.claims| && s.takers[s.pcs[t].pos] == t
      && s.pcs[t].value == s.claims[s.pcs[t].pos].value
  {
    assert ThreadOk(s, t);
  }
}
