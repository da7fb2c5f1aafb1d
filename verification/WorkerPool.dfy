/** The fail-stop worker pool: what one atomic section of a worker task does, and the object whose
    methods are those sections (apps/orchestrator/src/worker.mjs). JavaScript runs a task without
    interruption between two `await`s, so a run of the pool is a sequence of sections in any order. */
module WorkerPool {
  import opened Wrappers

  type JobId = int

  /** Where one task stands. A rejected `workerLoop` reaches the `catch` one microtask later: until
      then the task is `Failed`. A `workerLoop` that returned is `Leaving` until the `finally` runs. */
  datatype Phase =
    | Starting
    | Loop
    | Sleeping
    | Running(job: JobId, leaseLost: bool)
    | Acking(job: JobId, leaseLost: bool, engineThrew: bool)
    | Failed
    | Leaving
    | Exited(rejected: bool)

  /** The answer of `claimNext`; the queue may also throw. */
  datatype ClaimAnswer = NoJob | Got(job: JobId) | ClaimThrew

  datatype Event =
    | Start(w: nat)
    | Claim(w: nat, answer: ClaimAnswer)
    | EndLoop(w: nat)
    | Wake(w: nat, threw: bool)
    | Heartbeat(w: nat, kept: bool)
    | IdleHeartbeat(w: nat)
    | Settle(w: nat, threw: bool)
    | Refuse(w: nat)
    | Complete(w: nat, job: JobId, accepted: bool)
    | Fail(w: nat, job: JobId, accepted: bool)
    | Catch(w: nat)
    | Finish(w: nat)
    | ExternalAbort
    | Stop

  /** Everything the pool's closures share, and the phase of each task. `callbacks` counts the calls
      of the caller's `onFatal`. */
  datatype Pool = Pool(
    workers: seq<Phase>,
    active: int,
    failed: bool,
    externalAbort: bool,
    controllerAbort: bool,
    callbacks: nat)
  {
    predicate Aborted() {
      externalAbort || controllerAbort
    }

    predicate Healthy() {
      !Aborted() && !failed && active == |workers|
    }

    /** `Promise.allSettled(tasks)` settles. */
    predicate Settled() {
      forall w :: 0 <= w < |workers| ==> workers[w].Exited?
    }

    function With(w: nat, phase: Phase): Pool
      requires w < |workers|
    {
      this.(workers := workers[w := phase])
    }
  }

  function Initial(expected: nat): Pool {
    Pool(seq(expected, _ => Starting), 0, false, false, false, 0)
  }

  function OnFatal(p: Pool): Pool {
    if p.failed then p else p.(failed := true, controllerAbort := true, callbacks := p.callbacks + 1)
  }

  /** The next phase of the one task a section belongs to, or nothing when the section is not its
      next one. The task sees the rest of the pool through the abort signal only. */
  function TaskStep(phase: Phase, aborted: bool, e: Event): Option<Phase>
    requires !e.ExternalAbort? && !e.Stop?
  {
    match (phase, e)
    case (Starting, Start(_)) => Some(if aborted then Exited(false) else Loop)
    case (Loop, Claim(_, answer)) =>
      if aborted then None
      else Some(match answer
                case NoJob => Sleeping
                case Got(job) => Running(job, false)
                case ClaimThrew => Failed)
    case (Loop, EndLoop(_)) => if aborted then Some(Leaving) else None
    case (Sleeping, Wake(_, threw)) => Some(if threw && !aborted then Failed else Loop)
    case (Running(job, lost), Heartbeat(_, kept)) => if lost then None else Some(Running(job, !kept))
    case (Running(job, lost), IdleHeartbeat(_)) => if lost then Some(phase) else None
    case (Running(job, lost), Settle(_, threw)) => Some(Acking(job, lost, threw))
    case (Acking(job, lost, threw), Refuse(_)) => if lost then Some(Failed) else None
    case (Acking(job, lost, threw), Complete(_, acked, accepted)) =>
      if lost || threw || acked != job then None else Some(if accepted then Loop else Failed)
    case (Acking(job, lost, threw), Fail(_, acked, accepted)) =>
      if lost || !threw || acked != job then None else Some(if accepted then Loop else Failed)
    case (Failed, Catch(_)) => Some(Exited(true))
    case (Leaving, Finish(_)) => Some(Exited(false))
    case _ => None
  }

  /** What a section does to the variables the tasks share. */
  function SharedStep(p: Pool, e: Event): Pool {
    match e
    case Start(_) => if p.Aborted() then p else p.(active := p.active + 1)
    case Heartbeat(_, kept) => if kept then p else OnFatal(p)
    case Catch(_) => OnFatal(p).(active := p.active - 1)
    case Finish(_) => p.(active := p.active - 1)
    case ExternalAbort => p.(externalAbort := true)
    case Stop => p.(controllerAbort := true)
    case _ => p
  }

  /** The pool after one section, or nothing when that section is not the next one of its task. */
  function Next(p: Pool, e: Event): Option<Pool> {
    if e.ExternalAbort? || e.Stop? then Some(SharedStep(p, e))
    else if e.w >= |p.workers| then None
    else
      var phase := TaskStep(p.workers[e.w], p.Aborted(), e);
      if phase.None? then None else Some(SharedStep(p, e).With(e.w, phase.value))
  }

  /** The pool after a whole run of sections. */
  function Run(p: Pool, es: seq<Event>): Option<Pool>
    decreases |es|
  {
    if es == [] then Some(p)
    else
      var before := Run(p, es[..|es| - 1]);
      if before.None? then None else Next(before.value, es[|es| - 1])
  }

  datatype PoolError = InvalidConcurrency

  /** The running pool: the variables `createWorkerPool` and its tasks close over. */
  class Supervisor {
    var phases: seq<Phase>
    var active: int
    var fatal: bool
    var externallyAborted: bool
    var controllerAborted: bool
    var callbacks: nat

    function View(): Pool
      reads this
    {
      Pool(phases, active, fatal, externallyAborted, controllerAborted, callbacks)
    }

    constructor (expected: nat)
      ensures View() == Initial(expected)
    {
      phases := seq(expected, _ => Starting);
      active, fatal, externallyAborted, controllerAborted, callbacks := 0, false, false, false, 0;
    }

    method SignalAborted() returns (aborted: bool)
      ensures aborted == View().Aborted()
    {
      aborted := externallyAborted || controllerAborted;
    }

    method ReportFatal()
      modifies this
      ensures View() == OnFatal(old(View()))
    {
      if fatal {
        return;
      }
      fatal := true;
      controllerAborted := true;
      callbacks := callbacks + 1;
    }

    /** The deferred start of a task. */
    method StartTask(w: nat)
      requires w < |phases| && phases[w] == Starting
      modifies this
      ensures Next(old(View()), Start(w)) == Some(View())
    {
      var aborted := SignalAborted();
      if aborted {
        phases := phases[w := Exited(false)];
        return;
      }
      active := active + 1;
      phases := phases[w := Loop];
    }

    /** The head of the claim loop: test the signal, and otherwise ask the queue. */
    method ClaimLoop(w: nat, answer: ClaimAnswer)
      requires w < |phases| && phases[w] == Loop
      modifies this
      ensures Next(old(View()), if old(View()).Aborted() then EndLoop(w) else Claim(w, answer)) == Some(View())
    {
      var aborted := SignalAborted();
      if aborted {
        phases := phases[w := Leaving];
        return;
      }
      match answer {
        case ClaimThrew => phases := phases[w := Failed];
        case NoJob => phases := phases[w := Sleeping];
        case Got(job) => phases := phases[w := Running(job, false)];
      }
    }

    /** The poll sleep ends, by time or by rejection. */
    method WakeUp(w: nat, threw: bool)
      requires w < |phases| && phases[w] == Sleeping
      modifies this
      ensures Next(old(View()), Wake(w, threw)) == Some(View())
    {
      var aborted := SignalAborted();
      phases := phases[w := if threw && !aborted then Failed else Loop];
    }

    /** The interval callback of a running job. */
    method BeatHeart(w: nat, kept: bool)
      requires w < |phases| && phases[w].Running?
      modifies this
      ensures Next(old(View()), if old(phases[w].leaseLost) then IdleHeartbeat(w) else Heartbeat(w, kept)) == Some(View())
    {
      assert phases[w := phases[w]] == phases;
      if phases[w].leaseLost {
        return;
      }
      if !kept {
        phases := phases[w := Running(phases[w].job, true)];
        ReportFatal();
      }
    }

    /** `engine.process` settles and the interval is cleared. */
    method EngineSettles(w: nat, threw: bool)
      requires w < |phases| && phases[w].Running?
      modifies this
      ensures Next(old(View()), Settle(w, threw)) == Some(View())
    {
      phases := phases[w := Acking(phases[w].job, phases[w].leaseLost, threw)];
    }

    /** The acknowledgement after an engine call: none at all once the lease was lost, `fail` for a
        thrown engine error, `complete` otherwise. */
    method Acknowledge(w: nat, accepted: bool) returns (e: Event)
      requires w < |phases| && phases[w].Acking?
      modifies this
      ensures e == (if old(phases[w].leaseLost) then Refuse(w)
                    else if old(phases[w].engineThrew) then Fail(w, old(phases[w].job), accepted)
                    else Complete(w, old(phases[w].job), accepted))
      ensures Next(old(View()), e) == Some(View())
    {
      var Acking(job, leaseLost, engineThrew) := phases[w];
      if leaseLost {
        phases := phases[w := Failed];
        return Refuse(w);
      }
      e := if engineThrew then Fail(w, job, accepted) else Complete(w, job, accepted);
      phases := phases[w := if accepted then Loop else Failed];
    }

    /** The task's `catch` and `finally` after a rejected loop. */
    method CatchFailure(w: nat)
      requires w < |phases| && phases[w] == Failed
      modifies this
      ensures Next(old(View()), Catch(w)) == Some(View())
    {
      ReportFatal();
      active := active - 1;
      phases := phases[w := Exited(true)];
    }

    /** The task's `finally` after a loop that ended. */
    method FinishTask(w: nat)
      requires w < |phases| && phases[w] == Leaving
      modifies this
      ensures Next(old(View()), Finish(w)) == Some(View())
    {
      active := active - 1;
      phases := phases[w := Exited(false)];
    }

    method StopPool()
      modifies this
      ensures Next(old(View()), Event.Stop) == Some(View())
    {
      controllerAborted := true;
    }

    method AbortExternally()
      modifies this
      ensures Next(old(View()), ExternalAbort) == Some(View())
    {
      externallyAborted := true;
    }

    method IsHealthy() returns (healthy: bool)
      ensures healthy == View().Healthy()
    {
      var aborted := SignalAborted();
      healthy := !aborted && !fatal && active == |phases|;
    }
  }

  /** `createWorkerPool` refuses a concurrency outside 1 to 64. */
  method CreateWorkerPool(concurrency: int) returns (r: Result<Supervisor, PoolError>)
    ensures r.Ok? <==> 1 <= concurrency <= 64
    ensures r.Ok? ==> fresh(r.value) && r.value.View() == Initial(concurrency)
  {
    if concurrency < 1 || concurrency > 64 {
      return Err(InvalidConcurrency);
    }
    var pool := new Supervisor(concurrency);
    r := Ok(pool);
  }
}
