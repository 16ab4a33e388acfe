/**
 How many cells the two spinning queues of the engine need: the source accepts a single one, but then
 values are lost.
 */
module SequenceQueueSize {
  import opened SequenceQueue
  import opened SequenceQueueTheorems

  const FIRST := Produce(0, 7, false)
  const SECOND := Produce(0, 8, false)

  /** With one cell, publishing ticket 0 stores the sequence number that ticket 1 waits for: the second value
      overwrites the first after the consumer has found it published, and before it reads it. */
  function Overwriting(): seq<Move> {
    [FIRST, FIRST, FIRST, FIRST, FIRST, FIRST, Consume, Consume, SECOND, SECOND, SECOND, SECOND, SECOND, Consume, Consume]
  }

  /** The first `k` moves lead from `s` to `t`. */
  ghost predicate Leads(s: State, k: nat, t: State)
    requires |s.cells| > 0 && |s.producers| > 0
  {
    k <= |Overwriting()| && Exec(s, Overwriting()[..k]) == t
  }

  lemma Starts(s: State)
    requires |s.cells| > 0 && |s.producers| > 0
    ensures Leads(s, 0, s)
  {
    assert Overwriting()[..0] == [];
  }

  lemma Moves(s: State, k: nat, t: State) returns (u: State)
    requires |s.cells| > 0 && |s.producers| > 0 && k < |Overwriting()|
    requires Leads(s, k, t)
    ensures MayMove(t, Overwriting()[k]) && u == Next(t, Overwriting()[k]) && Leads(s, k + 1, u)
  {
    var q := Overwriting()[..k + 1];
    assert q[..|q| - 1] == Overwriting()[..k] && q[|q| - 1] == Overwriting()[k];
    u := Next(t, Overwriting()[k]);
  }

  /** Thread 0 is at `pc`, all others are idle. */
  function One(idle: seq<Producer>, single: bool, cell: Cell, ptr: nat, pc: Producer, consumer: Consumer,
               claims: seq<Claim>, delivered: seq<int>): State
    requires |idle| > 0
  {
    SequenceQueue.State(single, [cell], ptr, 0, idle[0 := pc], consumer, claims, delivered)
  }

  /** Thread 0 has claimed the only cell for the first value, and a single producer has already written it. */
  function Claimed(idle: seq<Producer>, single: bool): State
    requires |idle| > 0
  {
    if single then One(idle, single, Cell(0, 7), 0, Publish(7, 0), Ready, [Claim(0, 7)], [])
    else One(idle, single, Cell(0, 0), 1, Write(7, 0), Ready, [Claim(0, 7)], [])
  }

  lemma FirstClaim(s: State)
    requires |s.producers| > 0
    requires s == One(s.producers, s.single, Cell(0, 0), 0, Idle, Ready, [], [])
    ensures Leads(s, 4, Claimed(s.producers, s.single))
  {
    hide Leads;
    Starts(s);
    var t := Moves(s, 0, s);
    t := Moves(s, 1, t);
    assert t == One(s.producers, s.single, Cell(0, 0), 0, LoadSequence(7, 0), Ready, [], []);
    t := Moves(s, 2, t);
    assert t == if s.single then One(s.producers, s.single, Cell(0, 0), 0, Write(7, 0), Ready, [Claim(0, 7)], [])
                else One(s.producers, s.single, Cell(0, 0), 0, TryClaim(7, 0), Ready, [], []);
    t := Moves(s, 3, t);
    assert t == Claimed(s.producers, s.single);
  }

  /** The first value is published and the consumer is about to read it. */
  function Published(idle: seq<Producer>, single: bool): State
    requires |idle| > 0
  {
    One(idle, single, Cell(1, 7), 1, Idle, Read(0), [Claim(0, 7)], [])
  }

  lemma FirstCall(s: State)
    requires |s.producers| > 0 && |s.cells| > 0 && Leads(s, 4, Claimed(s.producers, s.single))
    ensures Leads(s, 8, Published(s.producers, s.single))
  {
    hide Leads;
    var t := Claimed(s.producers, s.single);
    t := Moves(s, 4, t);
    t := Moves(s, 5, t);
    assert t == One(s.producers, s.single, Cell(1, 7), 1, Idle, Ready, [Claim(0, 7)], []);
    t := Moves(s, 6, t);
    t := Moves(s, 7, t);
  }

  lemma SecondCall(s: State) returns (t: State)
    requires |s.producers| > 0 && |s.cells| > 0 && Leads(s, 8, Published(s.producers, s.single))
    ensures Leads(s, 15, t) && t.claims == [Claim(0, 7), Claim(0, 8)] && t.delivered == [8]
  {
    hide Leads;
    t := Published(s.producers, s.single);
    t := Moves(s, 8, t);
    t := Moves(s, 9, t);
    assert t == One(s.producers, s.single, Cell(1, 7), 1, LoadSequence(8, 1), Read(0), [Claim(0, 7)], []);
    t := Moves(s, 10, t);
    t := Moves(s, 11, t);
    t := Moves(s, 12, t);
    assert t.cells[0].data == 8 && t.consumer == Read(0) && |t.cells| == 1 && t.delivered == [];
    t := Moves(s, 13, t);
    t := Moves(s, 14, t);
  }

  predicate Threads(single: bool, producers: nat) {
    single || producers > 0
  }

  /** One cell, a single producer or any number of them: the first value enqueued is never dequeued. */
  lemma OneCellLoses(single: bool, producers: nat)
    requires Threads(single, producers)
    ensures MovesOf(Overwriting(), if single then 1 else producers)
    ensures var s := Exec(Initial(single, 1, producers), Overwriting());
      s.claims == [Claim(0, 7), Claim(0, 8)] && s.delivered == [8] && !Prefix(s.delivered, s.claims)
  {
    var s := Initial(single, 1, producers);
    assert s == One(s.producers, s.single, Cell(0, 0), 0, Idle, Ready, [], []);
    FirstClaim(s);
    FirstCall(s);
    var t := SecondCall(s);
    assert Overwriting()[..15] == Overwriting();
    assert t.delivered[0] != t.claims[0].value;
  }

  ghost predicate AlwaysInOrder(single: bool, size: nat, producers: nat)
    requires size > 0
  {
    forall schedule {:trigger MovesOf(schedule, if single then 1 else producers)} :: MovesOf(schedule, if single then 1 else producers) ==>
      var s := Exec(Initial(single, size, producers), schedule); Prefix(s.delivered, s.claims)
  }

  /** The queues deliver in order and without loss under every schedule exactly if they have at least two
      cells. The source asks for a power of two only, and one is a power of two. */
  lemma TwoCellsNeeded(single: bool, size: nat, producers: nat)
    requires size > 0 && Threads(single, producers)
    ensures AlwaysInOrder(single, size, producers) <==> size >= 2
  {
    if size == 1 {
      OneCellLoses(single, producers);
    } else {
      forall schedule | MovesOf(schedule, if single then 1 else producers)
        ensures var s := Exec(Initial(single, size, producers), schedule); Prefix(s.delivered, s.claims)
      {
        InOrder(single, size, producers, schedule);
      }
    }
  }
}
