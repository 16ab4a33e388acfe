/**
 The work-stealing thread pool, `2_cpp_basics/4_thread_pool/th_pool.cpp`.

 Each worker has a queue of its own and steals from the others. Every operation on a queue, on the shared
 counter, and on the mutex and condition variable is one step; a schedule, any sequence of steps, says
 who moves when. A step of a thread that waits for the mutex changes nothing.
 */
module ThreadPool {

  /** Where a worker is in `thread_handler`. */
  datatype Worker =
    | TakeOwn              // dequeue from its own queue
    | Steal(i: nat)        // dequeue from queue `i`
    | Run(job: nat)        // run the job
    | Lock                 // lock the mutex, for the first time or to return from the wait
    | Scan(i: nat)         // look at the length of queue `i`, with the mutex locked
    | Asleep               // wait, with the mutex unlocked
    | Unlock

  /** Where a thread is in `schedule_job`. */
  datatype Caller =
    | Outside              // draw the next number, which is that of the job
    | Enqueue(job: nat)    // put the job on its queue
    | Announce(job: nat)   // lock the mutex
    | Notify(job: nat)     // notify all, with the mutex locked
    | Leave                // unlock the mutex

  datatype Owner = Nobody | WorkerHas(w: nat) | CallerHas(u: nat)

  /** Who has a job. */
  datatype Place = WithCaller(u: nat) | Queued | WithWorker(w: nat) | Done

  /** `places` and `finished` record the past: where each job is, and the jobs run so far, in order. */
  datatype State = State(queues: seq<seq<nat>>, next: nat, mutex: Owner, workers: seq<Worker>, callers: seq<Caller>,
                         places: map<nat, Place>, finished: seq<nat>)

  /** Who moves; a condition variable may also wake a waiting thread for no reason. */
  datatype Move = WorkerMoves(w: nat) | WakesUp(w: nat) | CallerMoves(u: nat)

  function QueueOf(s: State, job: nat): (q: nat)
    requires |s.queues| > 0
    ensures q < |s.queues|
  {
    job % |s.queues|
  }

  function Initial(workers: nat, callers: nat): State {
    State(seq(workers, _ => []), 0, Nobody, seq(workers, _ => TakeOwn), seq(callers, _ => Outside), map[], [])
  }

  predicate MoveOf(m: Move, workers: nat, callers: nat) {
    match m
    case WorkerMoves(w) => w < workers
    case WakesUp(w) => w < workers
    case CallerMoves(u) => u < callers
  }

  predicate MayMove(s: State, m: Move) {
    |s.workers| == |s.queues| > 0 && MoveOf(m, |s.workers|, |s.callers|)
  }

  function To(s: State, w: nat, pc: Worker): State
    requires w < |s.workers|
  {
    s.(workers := s.workers[w := pc])
  }

  function CallerTo(s: State, u: nat, pc: Caller): State
    requires u < |s.callers|
  {
    s.(callers := s.callers[u := pc])
  }

  /** `dequeue`: takes the oldest job of queue `q`, if there is one; otherwise goes on. */
  function TakeFrom(s: State, w: nat, q: nat, otherwise: Worker): State
    requires w < |s.workers| && q < |s.queues|
  {
    if s.queues[q] == [] then To(s, w, otherwise)
    else
      var job := s.queues[q][0];
      To(s, w, Run(job)).(
        queues := s.queues[q := s.queues[q][1..]],
        places := s.places[job := WithWorker(w)])
  }

  function MoveWorker(s: State, w: nat): State
    requires |s.workers| == |s.queues| > 0 && w < |s.workers|
  {
    match s.workers[w]
    case TakeOwn => TakeFrom(s, w, w, Steal(0))
    case Steal(i) => if i < |s.queues| then TakeFrom(s, w, i, Steal(i + 1)) else To(s, w, Lock)
    case Run(job) =>
      To(s, w, TakeOwn).(
        places := s.places[job := Done],
        finished := s.finished + [job])
    case Lock => if s.mutex == Nobody then To(s, w, Scan(0)).(mutex := WorkerHas(w)) else s
    case Scan(i) =>
      if i < |s.queues| then To(s, w, if s.queues[i] != [] then Unlock else Scan(i + 1))
      else To(s, w, Asleep).(mutex := Nobody)
    case Asleep => s
    case Unlock => To(s, w, TakeOwn).(mutex := Nobody)
  }

  /** `notify_all`: the waiting workers go for the mutex. */
  function WakeAll(workers: seq<Worker>): seq<Worker> {
    seq(|workers|, i requires 0 <= i < |workers| => if workers[i] == Asleep then Lock else workers[i])
  }

  function MoveCaller(s: State, u: nat): State
    requires |s.workers| == |s.queues| > 0 && u < |s.callers|
  {
    match s.callers[u]
    case Outside => CallerTo(s, u, Enqueue(s.next)).(next := s.next + 1, places := s.places[s.next := WithCaller(u)])
    case Enqueue(job) =>
      var q := QueueOf(s, job);
      CallerTo(s, u, Announce(job)).(
        queues := s.queues[q := s.queues[q] + [job]],
        places := s.places[job := Queued])
    case Announce(job) => if s.mutex == Nobody then CallerTo(s, u, Notify(job)).(mutex := CallerHas(u)) else s
    case Notify(job) => CallerTo(s, u, Leave).(workers := WakeAll(s.workers))
    case Leave => CallerTo(s, u, Outside).(mutex := Nobody)
  }

  function Next(s: State, m: Move): State
    requires MayMove(s, m)
  {
    match m
    case WorkerMoves(w) => MoveWorker(s, w)
    case WakesUp(w) => if s.workers[w] == Asleep then To(s, w, Lock) else s
    case CallerMoves(u) => MoveCaller(s, u)
  }

  predicate MovesOf(schedule: seq<Move>, workers: nat, callers: nat) {
    forall i :: 0 <= i < |schedule| ==> MoveOf(schedule[i], workers, callers)
  }

  /** The state after the moves of a schedule, one after the other. */
  function Exec(s: State, schedule: seq<Move>): (r: State)
    requires |s.workers| == |s.queues| > 0 && MovesOf(schedule, |s.workers|, |s.callers|)
    ensures |r.workers| == |r.queues| == |s.workers| && |r.callers| == |s.callers|
  {
    if schedule == [] then s
    else
      var k := |schedule| - 1;
      Next(Exec(s, schedule[..k]), schedule[k])
  }

  // ---- no wakeup is lost ----

  ghost predicate WorkerMutex(s: State, w: nat)
    requires w < |s.workers|
  {
    s.mutex == WorkerHas(w) <==> s.workers[w].Scan? || s.workers[w].Unlock?
  }

  ghost predicate CallerMutex(s: State, u: nat)
    requires u < |s.callers|
  {
    s.mutex == CallerHas(u) <==> s.callers[u].Notify? || s.callers[u].Leave?
  }

  /** The caller has put a job on queue `q` and not yet notified the workers. */
  predicate Announces(s: State, u: nat, q: nat)
    requires |s.queues| > 0 && u < |s.callers|
  {
    (s.callers[u].Announce? || s.callers[u].Notify?) && QueueOf(s, s.callers[u].job) == q
  }

  ghost predicate Announced(s: State, q: nat)
    requires |s.queues| > 0
  {
    exists u: nat :: u < |s.callers| && Announces(s, u, q)
  }

  /** The worker has found queue `q` empty and relies on being notified of a job there. */
  predicate Relies(s: State, w: nat, q: nat)
    requires w < |s.workers|
  {
    q < |s.queues| && (s.workers[w].Asleep? || (s.workers[w].Scan? && q < s.workers[w].i))
  }

  /** A worker that relies on a queue with a job in it is about to be notified. */
  ghost predicate WillHear(s: State, w: nat, q: nat)
    requires |s.queues| > 0 && w < |s.workers|
  {
    Relies(s, w, q) && s.queues[q] != [] ==> Announced(s, q)
  }

  ghost predicate Wakeful(s: State) {
    && |s.workers| == |s.queues| > 0
    && (s.mutex.WorkerHas? ==> s.mutex.w < |s.workers|) && (s.mutex.CallerHas? ==> s.mutex.u < |s.callers|)
    && (forall w: nat {:trigger WorkerMutex(s, w)} :: w < |s.workers| ==> WorkerMutex(s, w))
    && (forall u: nat {:trigger CallerMutex(s, u)} :: u < |s.callers| ==> CallerMutex(s, u))
    && (forall w: nat, q: nat {:trigger WillHear(s, w, q)} :: w < |s.workers| ==> WillHear(s, w, q))
  }

  lemma WorkerKeepsWakeful(s: State, w: nat)
    requires Wakeful(s) && w < |s.workers|
    ensures Wakeful(MoveWorker(s, w))
  {
    var s' := MoveWorker(s, w);
    assert WorkerMutex(s, w);
    forall v: nat | v < |s'.workers| ensures WorkerMutex(s', v) {
      assert WorkerMutex(s, v);
    }
    forall u: nat | u < |s'.callers| ensures CallerMutex(s', u) {
      assert CallerMutex(s, u);
    }
    forall v: nat, q: nat | v < |s'.workers| ensures WillHear(s', v, q) {
      assert WillHear(s, v, q);
      if Relies(s', v, q) && s'.queues[q] != [] && Relies(s, v, q) {
        var u: nat :| u < |s.callers| && Announces(s, u, q);
        assert Announces(s', u, q);
      }
    }
  }

  lemma WakeKeepsWakeful(s: State, w: nat)
    requires Wakeful(s) && w < |s.workers| && MayMove(s, WakesUp(w))
    ensures Wakeful(Next(s, WakesUp(w)))
  {
    var s' := Next(s, WakesUp(w));
    forall v: nat | v < |s'.workers| ensures WorkerMutex(s', v) {
      assert WorkerMutex(s, v);
    }
    forall u: nat | u < |s'.callers| ensures CallerMutex(s', u) {
      assert CallerMutex(s, u);
    }
    forall v: nat, q: nat | v < |s'.workers| ensures WillHear(s', v, q) {
      assert WillHear(s, v, q);
      if Relies(s', v, q) && s'.queues[q] != [] {
        var u: nat :| u < |s.callers| && Announces(s, u, q);
        assert Announces(s', u, q);
      }
    }
  }

  lemma CallerKeepsWakeful(s: State, u: nat)
    requires Wakeful(s) && u < |s.callers|
    ensures Wakeful(MoveCaller(s, u))
  {
    var s' := MoveCaller(s, u);
    assert CallerMutex(s, u);
    forall v: nat | v < |s'.workers| ensures WorkerMutex(s', v) {
      assert WorkerMutex(s, v);
    }
    forall v: nat | v < |s'.callers| ensures CallerMutex(s', v) {
      assert CallerMutex(s, v);
    }
    forall v: nat, q: nat | v < |s'.workers| ensures WillHear(s', v, q) {
      assert WillHear(s, v, q) && WorkerMutex(s, v);
      if Relies(s', v, q) && s'.queues[q] != [] {
        if s.callers[u].Enqueue? && QueueOf(s, s.callers[u].job) == q {
          assert Announces(s', u, q);
        } else {
          var x: nat :| x < |s.callers| && Announces(s, x, q);
          assert Announces(s', x, q);
        }
      }
    }
  }

  // ---- every job runs once ----

  /** Where a job is, is where its record says. */
  ghost predicate JobOk(s: State, job: nat)
    requires |s.queues| > 0
  {
    && (job in s.places <==> job < s.next)
    && (job in s.places ==>
         match s.places[job]
         case WithCaller(u) => u < |s.callers| && s.callers[u] == Enqueue(job)
         case Queued => job in s.queues[QueueOf(s, job)]
         case WithWorker(w) => w < |s.workers| && s.workers[w] == Run(job)
         case Done => job in s.finished)
  }

  predicate Recorded(s: State, job: nat, place: Place) {
    job in s.places && s.places[job] == place
  }

  ghost predicate QueueOk(s: State, q: nat)
    requires |s.queues| > 0 && q < |s.queues|
  {
    && (forall i :: 0 <= i < |s.queues[q]| ==> Recorded(s, s.queues[q][i], Queued) && QueueOf(s, s.queues[q][i]) == q)
    && (forall i, j :: 0 <= i < j < |s.queues[q]| ==> s.queues[q][i] != s.queues[q][j])
  }

  ghost predicate WorkerOk(s: State, w: nat)
    requires w < |s.workers|
  {
    s.workers[w].Run? ==> Recorded(s, s.workers[w].job, WithWorker(w))
  }

  ghost predicate CallerOk(s: State, u: nat)
    requires u < |s.callers|
  {
    s.callers[u].Enqueue? ==> Recorded(s, s.callers[u].job, WithCaller(u))
  }

  ghost predicate FinishedOk(s: State) {
    && (forall i :: 0 <= i < |s.finished| ==> Recorded(s, s.finished[i], Done))
    && (forall i, j :: 0 <= i < j < |s.finished| ==> s.finished[i] != s.finished[j])
  }

  ghost predicate Tidy(s: State) {
    && |s.workers| == |s.queues| > 0
    && (forall job: nat {:trigger JobOk(s, job)} :: JobOk(s, job))
    && (forall q: nat {:trigger QueueOk(s, q)} :: q < |s.queues| ==> QueueOk(s, q))
    && (forall w: nat {:trigger WorkerOk(s, w)} :: w < |s.workers| ==> WorkerOk(s, w))
    && (forall u: nat {:trigger CallerOk(s, u)} :: u < |s.callers| ==> CallerOk(s, u))
    && FinishedOk(s)
  }

  lemma TakeKeepsTidy(s: State, w: nat, q: nat, otherwise: Worker)
    requires Tidy(s) && w < |s.workers| && q < |s.queues| && !s.workers[w].Run? && !otherwise.Run?
    ensures Tidy(TakeFrom(s, w, q, otherwise))
  {
    var s' := TakeFrom(s, w, q, otherwise);
    assert QueueOk(s, q);
    forall job: nat ensures JobOk(s', job) {
      assert JobOk(s, job);
    }
    forall r: nat | r < |s'.queues| ensures QueueOk(s', r) {
      assert QueueOk(s, r);
    }
    forall v: nat | v < |s'.workers| ensures WorkerOk(s', v) {
      assert WorkerOk(s, v);
    }
    forall u: nat | u < |s'.callers| ensures CallerOk(s', u) {
      assert CallerOk(s, u);
    }
  }

  lemma FinishKeepsTidy(s: State, w: nat)
    requires Tidy(s) && w < |s.workers| && s.workers[w].Run?
    ensures Tidy(MoveWorker(s, w))
  {
    var s' := MoveWorker(s, w);
    assert WorkerOk(s, w);
    forall job: nat ensures JobOk(s', job) {
      assert JobOk(s, job);
      assert s'.finished[|s.finished|] == s.workers[w].job;
      if job in s.finished {
        var i :| 0 <= i < |s.finished| && s.finished[i] == job;
        assert s'.finished[i] == job;
      }
    }
    forall r: nat | r < |s'.queues| ensures QueueOk(s', r) {
      assert QueueOk(s, r);
    }
    forall v: nat | v < |s'.workers| ensures WorkerOk(s', v) {
      assert WorkerOk(s, v);
    }
    forall u: nat | u < |s'.callers| ensures CallerOk(s', u) {
      assert CallerOk(s, u);
    }
  }

  /** A step that neither moves a job nor a thread that has one. */
  ghost predicate NoJobMoves(s: State, s': State) {
    && s'.queues == s.queues && s'.next == s.next && s'.places == s.places && s'.finished == s.finished
    && |s'.workers| == |s.workers| && |s'.callers| == |s.callers|
    && (forall w :: 0 <= w < |s.workers| ==> s'.workers[w] == s.workers[w] || (!s.workers[w].Run? && !s'.workers[w].Run?))
    && (forall u :: 0 <= u < |s.callers| ==>
         s'.callers[u] == s.callers[u] || (!s.callers[u].Enqueue? && !s'.callers[u].Enqueue?))
  }

  lemma QuietKeepsTidy(s: State, s': State)
    requires Tidy(s) && NoJobMoves(s, s')
    ensures Tidy(s')
  {
    forall job: nat ensures JobOk(s', job) {
      assert JobOk(s, job);
    }
    forall r: nat | r < |s'.queues| ensures QueueOk(s', r) {
      assert QueueOk(s, r);
    }
    forall v: nat | v < |s'.workers| ensures WorkerOk(s', v) {
      assert WorkerOk(s, v);
    }
    forall u: nat | u < |s'.callers| ensures CallerOk(s', u) {
      assert CallerOk(s, u);
    }
  }

  lemma DrawKeepsTidy(s: State, u: nat)
    requires Tidy(s) && u < |s.callers| && s.callers[u].Outside?
    ensures Tidy(MoveCaller(s, u))
  {
    var s' := MoveCaller(s, u);
    assert JobOk(s, s.next);
    forall job: nat ensures JobOk(s', job) {
      assert JobOk(s, job);
    }
    forall r: nat | r < |s'.queues| ensures QueueOk(s', r) {
      assert QueueOk(s, r);
    }
    forall v: nat | v < |s'.workers| ensures WorkerOk(s', v) {
      assert WorkerOk(s, v);
    }
    forall v: nat | v < |s'.callers| ensures CallerOk(s', v) {
      assert CallerOk(s, v);
    }
  }

  lemma EnqueueKeepsTidy(s: State, u: nat)
    requires Tidy(s) && u < |s.callers| && s.callers[u].Enqueue?
    ensures Tidy(MoveCaller(s, u))
  {
    var s', job := MoveCaller(s, u), s.callers[u].job;
    var q := QueueOf(s, job);
    assert CallerOk(s, u) && QueueOk(s, q);
    forall k: nat ensures JobOk(s', k) {
      assert JobOk(s, k);
      assert s'.queues[q][|s.queues[q]|] == job;
      if k in s.queues[q] {
        var i :| 0 <= i < |s.queues[q]| && s.queues[q][i] == k;
        assert s'.queues[q][i] == k;
      }
    }
    forall r: nat | r < |s'.queues| ensures QueueOk(s', r) {
      assert QueueOk(s, r);
    }
    forall v: nat | v < |s'.workers| ensures WorkerOk(s', v) {
      assert WorkerOk(s, v);
    }
    forall v: nat | v < |s'.callers| ensures CallerOk(s', v) {
      assert CallerOk(s, v);
    }
  }

  lemma WorkerKeepsTidy(s: State, w: nat)
    requires Tidy(s) && w < |s.workers|
    ensures Tidy(MoveWorker(s, w))
  {
    match s.workers[w]
    case TakeOwn => TakeKeepsTidy(s, w, w, Steal(0));
    case Steal(i) => if i < |s.queues| { TakeKeepsTidy(s, w, i, Steal(i + 1)); } else { QuietKeepsTidy(s, MoveWorker(s, w)); }
    case Run(_) => FinishKeepsTidy(s, w);
    case _ => QuietKeepsTidy(s, MoveWorker(s, w));
  }

  lemma CallerKeepsTidy(s: State, u: nat)
    requires Tidy(s) && u < |s.callers|
    ensures Tidy(MoveCaller(s, u))
  {
    match s.callers[u]
    case Outside => DrawKeepsTidy(s, u);
    case Enqueue(_) => EnqueueKeepsTidy(s, u);
    case _ => QuietKeepsTidy(s, MoveCaller(s, u));
  }

  lemma MoveKeepsTidy(s: State, m: Move)
    requires Tidy(s) && MayMove(s, m)
    ensures Tidy(Next(s, m))
  {
    match m
    case WorkerMoves(w) => WorkerKeepsTidy(s, w);
    case WakesUp(_) => QuietKeepsTidy(s, Next(s, m));
    case CallerMoves(u) => CallerKeepsTidy(s, u);
  }

  // ---- every run ----

  lemma MoveKeepsWakeful(s: State, m: Move)
    requires Wakeful(s) && MayMove(s, m)
    ensures Wakeful(Next(s, m))
  {
    match m
    case WorkerMoves(w) => WorkerKeepsWakeful(s, w);
    case WakesUp(w) => WakeKeepsWakeful(s, w);
    case CallerMoves(u) => CallerKeepsWakeful(s, u);
  }

  lemma {:induction false} EveryRun(workers: nat, callers: nat, schedule: seq<Move>)
    requires workers > 0 && MovesOf(schedule, workers, callers)
    ensures var s := Exec(Initial(workers, callers), schedule); Wakeful(s) && Tidy(s)
  {
    if schedule == [] {
      FreshPool(workers, callers);
    } else {
      var k := |schedule| - 1;
      EveryRun(workers, callers, schedule[..k]);
      var s := Exec(Initial(workers, callers), schedule[..k]);
      MoveKeepsWakeful(s, schedule[k]);
      MoveKeepsTidy(s, schedule[k]);
    }
  }

  lemma FreshPool(workers: nat, callers: nat)
    requires workers > 0
    ensures Wakeful(Initial(workers, callers)) && Tidy(Initial(workers, callers))
  {
    var s := Initial(workers, callers);
    forall w: nat, q: nat | w < workers ensures WillHear(s, w, q) {
    }
    forall job: nat ensures JobOk(s, job) {
    }
  }
}
