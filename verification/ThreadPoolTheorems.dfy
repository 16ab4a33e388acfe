/**
 What the work-stealing thread pool guarantees under every schedule.
 */
module ThreadPoolTheorems {
  import opened ThreadPool

  /** In every reachable state, whatever the schedule: if a worker is asleep although some queue holds a
      job, then a caller has put a job on that queue and has still to notify the workers. */
  lemma NoLostWakeup(workers: nat, callers: nat, schedule: seq<Move>, w: nat, q: nat)
    requires workers > 0 && MovesOf(schedule, workers, callers) && w < workers && q < workers
    ensures var s := Exec(Initial(workers, callers), schedule);
      s.workers[w].Asleep? && s.queues[q] != [] ==> exists u: nat :: u < callers && Announces(s, u, q)
  {
    EveryRun(workers, callers, schedule);
    assert WillHear(Exec(Initial(workers, callers), schedule), w, q);
  }

  ghost predicate WithSomeone(s: State, job: nat)
    requires |s.queues| > 0
  {
    || (exists u :: 0 <= u < |s.callers| && s.callers[u] == Enqueue(job))
    || job in s.queues[QueueOf(s, job)]
    || (exists w :: 0 <= w < |s.workers| && s.workers[w] == Run(job))
  }

  lemma NotLost(s: State, job: nat)
    requires Tidy(s)
    ensures WithSomeone(s, job) ==> job < s.next && job !in s.finished
    ensures job < s.next ==> WithSomeone(s, job) || job in s.finished
  {
    assert JobOk(s, job);
    if u :| 0 <= u < |s.callers| && s.callers[u] == Enqueue(job) {
      assert CallerOk(s, u);
    } else if job in s.queues[QueueOf(s, job)] {
      assert QueueOk(s, QueueOf(s, job));
    } else if w :| 0 <= w < |s.workers| && s.workers[w] == Run(job) {
      assert WorkerOk(s, w);
    }
  }

  /** In every reachable state, every job drawn so far is either still with someone, a caller, a queue or
      a worker, or it has been run: never both, and never run twice. */
  lemma EachJobOnce(workers: nat, callers: nat, schedule: seq<Move>, job: nat)
    requires workers > 0 && MovesOf(schedule, workers, callers)
    ensures var s := Exec(Initial(workers, callers), schedule);
      && (WithSomeone(s, job) <==> job < s.next && job !in s.finished)
      && (forall i, j :: 0 <= i < j < |s.finished| ==> s.finished[i] != s.finished[j])
  {
    EveryRun(workers, callers, schedule);
    NotLost(Exec(Initial(workers, callers), schedule), job);
  }

  /** No call of `schedule_job` is under way and every worker is asleep. */
  ghost predicate AtRest(s: State) {
    (forall u :: 0 <= u < |s.callers| ==> s.callers[u].Outside?) && (forall w :: 0 <= w < |s.workers| ==> s.workers[w].Asleep?)
  }

  /** Once the pool is at rest, every job has been run. */
  lemma AtRestMeansDone(workers: nat, callers: nat, schedule: seq<Move>, job: nat)
    requires workers > 0 && MovesOf(schedule, workers, callers)
    ensures var s := Exec(Initial(workers, callers), schedule);
      AtRest(s) && job < s.next ==> job in s.finished
  {
    EveryRun(workers, callers, schedule);
    var s := Exec(Initial(workers, callers), schedule);
    assert JobOk(s, job) && WillHear(s, 0, QueueOf(s, job));
  }

  /** A step that somebody takes without being woken for no reason, and without a new call. */
  ghost predicate Advances(s: State, m: Move) {
    && MayMove(s, m) && Next(s, m) != s
    && !m.WakesUp? && (m.CallerMoves? ==> !s.callers[m.u].Outside?)
  }

  lemma OwnerAdvances(s: State)
    requires Wakeful(s) && s.mutex != Nobody
    ensures exists m :: Advances(s, m)
  {
    match s.mutex
    case WorkerHas(w) =>
      assert WorkerMutex(s, w);
      assert MoveWorker(s, w).workers[w] != s.workers[w];
      assert Advances(s, WorkerMoves(w));
    case CallerHas(u) =>
      assert CallerMutex(s, u);
      assert MoveCaller(s, u).callers[u] != s.callers[u];
      assert Advances(s, CallerMoves(u));
  }

  /** The pool is never stuck: as long as a job has not been run, some thread can go on by itself. */
  lemma NeverStuck(workers: nat, callers: nat, schedule: seq<Move>, job: nat)
    requires workers > 0 && MovesOf(schedule, workers, callers)
    ensures var s := Exec(Initial(workers, callers), schedule);
      job < s.next && job !in s.finished ==> exists m :: Advances(s, m)
  {
    EveryRun(workers, callers, schedule);
    var s := Exec(Initial(workers, callers), schedule);
    AtRestMeansDone(workers, callers, schedule, job);
    if s.mutex != Nobody {
      OwnerAdvances(s);
    } else if u: nat :| u < |s.callers| && !s.callers[u].Outside? {
      assert CallerMutex(s, u);
      assert MoveCaller(s, u).callers[u] != s.callers[u];
      assert Advances(s, CallerMoves(u));
    } else if w: nat :| w < |s.workers| && !s.workers[w].Asleep? {
      assert WorkerMutex(s, w);
      assert MoveWorker(s, w).workers[w] != s.workers[w];
      assert Advances(s, WorkerMoves(w));
    }
  }

  // ---- the order of jobs ----

  /** The job that a move puts on queue `q`: number `job` goes to queue `job % n`. */
  function Put(s: State, m: Move, q: nat): seq<nat>
    requires MayMove(s, m)
  {
    if m.CallerMoves? && s.callers[m.u].Enqueue? && s.callers[m.u].job % |s.queues| == q then [s.callers[m.u].job] else []
  }

  /** The job that a move takes from queue `q`: the mover looks there, and runs a job afterwards. */
  function Taken(s: State, m: Move, q: nat): seq<nat>
    requires MayMove(s, m)
  {
    if m.WorkerMoves? && (s.workers[m.w] == Steal(q) || (s.workers[m.w].TakeOwn? && m.w == q)) && Next(s, m).workers[m.w].Run?
    then [Next(s, m).workers[m.w].job] else []
  }

  function AllPut(s: State, schedule: seq<Move>, q: nat): seq<nat>
    requires |s.workers| == |s.queues| > 0 && MovesOf(schedule, |s.workers|, |s.callers|)
  {
    if schedule == [] then []
    else var k := |schedule| - 1; AllPut(s, schedule[..k], q) + Put(Exec(s, schedule[..k]), schedule[k], q)
  }

  function AllTaken(s: State, schedule: seq<Move>, q: nat): seq<nat>
    requires |s.workers| == |s.queues| > 0 && MovesOf(schedule, |s.workers|, |s.callers|)
  {
    if schedule == [] then []
    else var k := |schedule| - 1; AllTaken(s, schedule[..k], q) + Taken(Exec(s, schedule[..k]), schedule[k], q)
  }

  lemma StepFifo(s: State, m: Move, q: nat)
    requires MayMove(s, m) && q < |s.queues|
    ensures s.queues[q] + Put(s, m, q) == Taken(s, m, q) + Next(s, m).queues[q]
  {
  }

  lemma Append(a: seq<nat>, b: seq<nat>, taken: seq<nat>, put: seq<nat>, c: seq<nat>, puts: seq<nat>)
    requires puts == a + b && b + put == taken + c
    ensures puts + put == a + taken + c
  {
    assert a + b + put == a + (b + put);
  }

  /** Every queue hands out its jobs in the order in which they were put on it, to whomever: after any schedule, those
      put on it are those taken from it, followed by those still there. */
  lemma {:induction false} QueuesAreFifo(workers: nat, callers: nat, schedule: seq<Move>, q: nat)
    requires workers > 0 && MovesOf(schedule, workers, callers) && q < workers
    ensures var s := Initial(workers, callers); AllPut(s, schedule, q) == AllTaken(s, schedule, q) + Exec(s, schedule).queues[q]
  {
    hide Next, Put, Taken;
    var s := Initial(workers, callers);
    if schedule != [] {
      var k := |schedule| - 1;
      var t, u := Exec(s, schedule[..k]), Exec(s, schedule);
      QueuesAreFifo(workers, callers, schedule[..k], q);
      StepFifo(t, schedule[k], q);
      Append(AllTaken(s, schedule[..k], q), t.queues[q], Taken(t, schedule[k], q), Put(t, schedule[k], q), u.queues[q],
             AllPut(s, schedule[..k], q));
    }
  }

  /** A worker takes the oldest job of its own queue if there is one, and otherwise asks all queues in turn. */
  lemma OwnQueueFirst(s: State, w: nat)
    requires MayMove(s, WorkerMoves(w))
    ensures var pc := MoveWorker(s, w).workers[w];
      && (s.workers[w].TakeOwn? ==> pc == if s.queues[w] != [] then Run(s.queues[w][0]) else Steal(0))
      && (s.workers[w].Steal? && s.workers[w].i < |s.queues| ==>
           var q := s.queues[s.workers[w].i]; pc == if q != [] then Run(q[0]) else Steal(s.workers[w].i + 1))
  {
  }
}
