/**
 The thread pool gets its work done: whoever moves, after finitely many steps every job has been run.
 */
module ThreadPoolProgress {
  import opened Collections
  import opened ThreadPool
  import opened ThreadPoolTheorems

  // ---- the effort that is left ----

  /** The steps that a call has still to take, and those it leads to on the job. */
  function CallLeft(c: Caller): nat {
    match c
    case Outside => 0
    case Leave => 1
    case Notify(_) => 2
    case Announce(_) => 3
    case Enqueue(_) => 6
  }

  function RunLeft(pc: Worker): nat {
    if pc.Run? then 1 else 0
  }

  /** What is left to do of jobs and calls. */
  function Work(s: State): nat {
    Sum(s.callers, CallLeft) + Sum(s.workers, RunLeft) + 2 * Sum(s.queues, (q: seq<nat>) => |q|)
  }

  /** The first queue that has a job; their number if none has. */
  function FirstJob(queues: seq<seq<nat>>): (q: nat)
    ensures q <= |queues| && (q < |queues| ==> queues[q] != []) && forall i :: 0 <= i < q ==> queues[i] == []
  {
    if queues == [] || queues[0] != [] then 0 else 1 + FirstJob(queues[1..])
  }

  function Left(n: nat, i: nat): nat {
    if i < n then n - i else 0
  }

  /** The steps that a worker can take, at most, before it takes a job or falls asleep, while `q` is the first of `n`
      queues to have a job. */
  function Search(pc: Worker, q: nat, n: nat): nat {
    match pc
    case Run(_) => 0
    case Asleep => 0
    case TakeOwn => if q < n then q + 2 else 2 * n + 4
    case Unlock => if q < n then q + 3 else 2 * n + 5
    case Scan(i) => if q >= n then 1 + Left(n, i) else if i <= q then 2 * q + 4 - i else q + 4 + Left(n, i)
    case Lock => if q < n then 2 * q + 5 else n + 2
    case Steal(i) => if q >= n then n + 3 + Left(n, i) else if i <= q then q + 1 - i else 2 * q + 6 + Left(n, i)
  }

  function SearchOf(q: nat, n: nat): Worker -> nat {
    pc => Search(pc, q, n)
  }

  function Searching(s: State): nat {
    Sum(s.workers, SearchOf(FirstJob(s.queues), |s.queues|))
  }

  /** No state has workers searching longer. */
  function Longest(s: State): nat {
    |s.workers| * (3 * |s.queues| + 6)
  }

  function Effort(s: State): nat {
    Work(s) * (Longest(s) + 1) + Searching(s)
  }

  lemma SearchingAtMost(s: State)
    ensures Searching(s) <= Longest(s)
  {
    SumAtMost(s.workers, SearchOf(FirstJob(s.queues), |s.queues|), 3 * |s.queues| + 6);
  }

  // ---- every step takes some of it ----

  lemma LessWork(s: State, t: State)
    requires Work(t) < Work(s) && |t.workers| == |s.workers| && |t.queues| == |s.queues|
    ensures Effort(t) < Effort(s)
  {
    hide Work, Searching;
    SearchingAtMost(t);
    assert Longest(t) == Longest(s);
    Lexicographic(Work(t), Searching(t), Work(s), Searching(s), Longest(s));
  }

  lemma Lexicographic(w: nat, x: nat, w': nat, x': nat, most: nat)
    requires w < w' && x <= most
    ensures w * (most + 1) + x < w' * (most + 1) + x'
  {
    assert (w + 1) * (most + 1) <= w' * (most + 1);
  }

  lemma CallerWorks(s: State, u: nat)
    requires Advances(s, CallerMoves(u))
    ensures Work(MoveCaller(s, u)) < Work(s)
  {
    var t := MoveCaller(s, u);
    SumUpdate(s.callers, CallLeft, u, t.callers[u]);
    match s.callers[u]
    case Enqueue(job) =>
      var q := QueueOf(s, job);
      SumUpdate(s.queues, (q: seq<nat>) => |q|, q, s.queues[q] + [job]);
    case Notify(_) => SumSame(s.workers, t.workers, RunLeft);
    case _ =>
  }

  lemma TakerWorks(s: State, w: nat, q: nat, otherwise: Worker)
    requires |s.workers| == |s.queues| > 0 && w < |s.workers| && q < |s.queues| && s.queues[q] != [] && !s.workers[w].Run?
    ensures Work(TakeFrom(s, w, q, otherwise)) < Work(s)
  {
    SumUpdate(s.workers, RunLeft, w, Run(s.queues[q][0]));
    SumUpdate(s.queues, (q: seq<nat>) => |q|, q, s.queues[q][1..]);
  }

  lemma RunnerWorks(s: State, w: nat)
    requires |s.workers| == |s.queues| > 0 && w < |s.workers| && s.workers[w].Run?
    ensures Work(MoveWorker(s, w)) < Work(s)
  {
    SumUpdate(s.workers, RunLeft, w, TakeOwn);
  }

  /** Worker `w` goes on to `pc` without taking or ending a job. */
  ghost predicate GoesOn(s: State, w: nat, pc: Worker) {
    && |s.workers| == |s.queues| > 0 && w < |s.workers| && !s.workers[w].Run? && !pc.Run? && pc != s.workers[w]
    && MoveWorker(s, w).workers == s.workers[w := pc]
    && MoveWorker(s, w).queues == s.queues && MoveWorker(s, w).callers == s.callers
  }

  /** It gets nearer to a job, or to sleep. */
  lemma SearcherNears(s: State, w: nat, pc: Worker)
    requires GoesOn(s, w, pc)
    ensures var q, n := FirstJob(s.queues), |s.queues|; Search(pc, q, n) < Search(s.workers[w], q, n)
  {
    assert MoveWorker(s, w).workers[w] == pc;
  }

  lemma SearcherWorks(s: State, w: nat, pc: Worker)
    requires GoesOn(s, w, pc)
    ensures Effort(MoveWorker(s, w)) < Effort(s)
  {
    var t, q, n := MoveWorker(s, w), FirstJob(s.queues), |s.queues|;
    SumUpdate(s.workers, RunLeft, w, pc);
    assert Work(t) == Work(s);
    SumUpdate(s.workers, SearchOf(q, n), w, pc);
    SearcherNears(s, w, pc);
    hide MoveWorker, Work, Search;
  }

  /** Whoever moves, without being woken for no reason and without a new call, takes some of the effort. */
  lemma EveryStepWorks(s: State, m: Move)
    requires Advances(s, m)
    ensures Effort(Next(s, m)) < Effort(s)
  {
    match m
    case CallerMoves(u) =>
      CallerWorks(s, u);
      LessWork(s, Next(s, m));
    case WorkerMoves(w) =>
      var t := MoveWorker(s, w);
      if s.workers[w].Run? {
        RunnerWorks(s, w);
        LessWork(s, t);
      } else if s.workers[w].TakeOwn? && s.queues[w] != [] {
        TakerWorks(s, w, w, Steal(0));
        LessWork(s, t);
      } else if s.workers[w].Steal? && s.workers[w].i < |s.queues| && s.queues[s.workers[w].i] != [] {
        TakerWorks(s, w, s.workers[w].i, Steal(s.workers[w].i + 1));
        LessWork(s, t);
      } else {
        SearcherWorks(s, w, t.workers[w]);
      }
  }

  // ---- all jobs get run ----

  /** The moves of `more`, one after the other from `s` on, are all steps that somebody takes without being woken for
      no reason and without a new call. */
  ghost predicate Continues(s: State, more: seq<Move>) {
    |s.workers| == |s.queues| > 0 && MovesOf(more, |s.workers|, |s.callers|) &&
    (more == [] ||
      var k := |more| - 1;
      Continues(s, more[..k]) && Advances(Exec(s, more[..k]), more[k]))
  }

  lemma {:induction false} ExecConcat(s: State, x: seq<Move>, y: seq<Move>)
    requires |s.workers| == |s.queues| > 0 && MovesOf(x, |s.workers|, |s.callers|) && MovesOf(y, |s.workers|, |s.callers|)
    ensures MovesOf(x + y, |s.workers|, |s.callers|) && Exec(s, x + y) == Exec(Exec(s, x), y)
    decreases |y|
  {
    if y == [] {
      assert x + y == x;
    } else {
      var k := |y| - 1;
      ExecConcat(s, x, y[..k]);
      assert (x + y)[..|x + y| - 1] == x + y[..k];
    }
  }

  /** Every job drawn up to number `next` has been run. */
  ghost predicate AllRun(s: State, next: nat) {
    forall job: nat :: job < next ==> job in s.finished
  }

  lemma {:induction false} ContinuationShrinks(s: State, more: seq<Move>)
    requires Continues(s, more)
    ensures |more| + Effort(Exec(s, more)) <= Effort(s) && Exec(s, more).next == s.next
    decreases |more|
  {
    if more != [] {
      var k := |more| - 1;
      ContinuationShrinks(s, more[..k]);
      EveryStepWorks(Exec(s, more[..k]), more[k]);
    }
  }

  /** From every reachable state: however the threads go on, they can do so for a bounded number of steps only, and
      somebody can go on as long as some job has not been run. */
  lemma EveryWayEnds(workers: nat, callers: nat, schedule: seq<Move>, more: seq<Move>)
    requires workers > 0 && MovesOf(schedule, workers, callers)
    requires Continues(Exec(Initial(workers, callers), schedule), more)
    ensures var s := Exec(Initial(workers, callers), schedule);
      && |more| <= Effort(s)
      && (AllRun(Exec(s, more), s.next) || exists m :: Advances(Exec(s, more), m))
  {
    var start := Initial(workers, callers);
    var s := Exec(start, schedule);
    ContinuationShrinks(s, more);
    ExecConcat(start, schedule, more);
    if job: nat :| job < s.next && job !in Exec(s, more).finished {
      NeverStuck(workers, callers, schedule + more, job);
    }
  }

  lemma OneStepMore(s: State, sofar: seq<Move>, m: Move)
    requires Continues(s, sofar) && Advances(Exec(s, sofar), m)
    ensures Continues(s, sofar + [m]) && Effort(Exec(s, sofar + [m])) < Effort(Exec(s, sofar))
  {
    hide Effort;
    assert (sofar + [m])[..|sofar|] == sofar;
    EveryStepWorks(Exec(s, sofar), m);
  }

  /** So there is a way on which every job is run, and it needs neither new calls nor spurious wakeups. */
  lemma {:induction false} EveryJobGetsRun(workers: nat, callers: nat, schedule: seq<Move>, sofar: seq<Move>) returns (more: seq<Move>)
    requires workers > 0 && MovesOf(schedule, workers, callers)
    requires Continues(Exec(Initial(workers, callers), schedule), sofar)
    ensures sofar <= more
    ensures var s := Exec(Initial(workers, callers), schedule);
      Continues(s, more) && AllRun(Exec(s, more), s.next)
    decreases Effort(Exec(Exec(Initial(workers, callers), schedule), sofar))
  {
    var s := Exec(Initial(workers, callers), schedule);
    assert MovesOf(sofar, workers, callers);
    hide Effort, Continues, Advances, AllRun, MovesOf;
    EveryWayEnds(workers, callers, schedule, sofar);
    if AllRun(Exec(s, sofar), s.next) {
      more := sofar;
    } else {
      var m :| Advances(Exec(s, sofar), m);
      OneStepMore(s, sofar, m);
      more := EveryJobGetsRun(workers, callers, schedule, sofar + [m]);
    }
  }
}
