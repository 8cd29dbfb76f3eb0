/**
 * The scheduler's single-flight guard around one orchestrator run. The lock
 * file is a field holding the pid written into it (None when the file is
 * absent), and everything the scheduler does to the outside world is
 * appended to a trace, so that the order of lock creation, the orchestrator
 * launch, lock removal and the cleanup launch can be stated. The model is
 * sequential: nothing else touches the lock between the existence test and
 * the write.
 */
module Scheduler {
  import opened Wrappers

  /** How the orchestrator subprocess ended, as seen by the scheduler. */
  datatype OrchestratorOutcome =
    | Exited(returnCode: int, stderr: string)
    | Raised(message: string)

  datatype Event =
    | SkippedAlreadyRunning
    | LockCreated(pid: int)
    | OrchestratorLaunched
    | OrchestratorSucceeded
    | OrchestratorFailed(stderr: string)
    | OrchestratorError(message: string)
    | LockRemoved
    | CleanupLaunched
    | Stopped

  /** The log line the scheduler writes for an orchestrator outcome. */
  function OutcomeEvent(o: OrchestratorOutcome): (e: Event)
    ensures e.OrchestratorSucceeded? <==> o.Exited? && o.returnCode == 0
    ensures e.OrchestratorSucceeded? || e.OrchestratorFailed? || e.OrchestratorError?
  {
    match o
    case Exited(code, err) => if code == 0 then OrchestratorSucceeded else OrchestratorFailed(err)
    case Raised(msg) => OrchestratorError(msg)
  }

  /** The run that `run_pipeline` performs once it has the lock:
      launch, report, remove the lock, launch cleanup. */
  function GuardedRun(pid: int, o: OrchestratorOutcome): seq<Event> {
    [LockCreated(pid), OrchestratorLaunched, OutcomeEvent(o), LockRemoved, CleanupLaunched]
  }

  class PipelineScheduler {
    /** The lock file: Some(pid) while it exists. */
    var lock: Option<int>
    /** What the scheduler has done, in order. */
    var trace: seq<Event>

    constructor ()
      ensures lock == None && trace == []
    {
      lock := None;
      trace := [];
    }

    /** `is_pipeline_running`: the lock file exists. */
    function IsPipelineRunning(): (b: bool)
      reads this
      ensures b <==> lock.Some?
    {
      lock.Some?
    }

    /** `create_lock`: write the pid into the lock file (overwriting it). */
    method CreateLock(pid: int)
      modifies this
      ensures lock == Some(pid) && trace == old(trace) + [LockCreated(pid)]
    {
      lock := Some(pid);
      trace := trace + [LockCreated(pid)];
    }

    /** `remove_lock`: delete the lock file if it exists; otherwise nothing. */
    method RemoveLock()
      modifies this
      ensures lock == None
      ensures trace == old(trace) + (if old(lock).Some? then [LockRemoved] else [])
    {
      if lock.Some? {
        lock := None;
        trace := trace + [LockRemoved];
      }
    }

    /** `run_pipeline`: skip when the lock is held; otherwise take the lock,
        run the orchestrator, and on every outcome remove the lock and then
        launch cleanup. */
    method RunPipeline(pid: int, outcome: OrchestratorOutcome)
      modifies this
      ensures old(lock).Some? ==> lock == old(lock) && trace == old(trace) + [SkippedAlreadyRunning]
      ensures old(lock).None? ==> lock == None && trace == old(trace) + GuardedRun(pid, outcome)
    {
      if IsPipelineRunning() {
        trace := trace + [SkippedAlreadyRunning];
        return;
      }
      CreateLock(pid);
      trace := trace + [OrchestratorLaunched];
      // try / except: every outcome is only logged
      trace := trace + [OutcomeEvent(outcome)];
      // finally
      RemoveLock();
      trace := trace + [CleanupLaunched];
    }

    /** `shutdown_handler`: log the stop, remove the lock and exit with
        status 0. */
    method Shutdown() returns (exitCode: int)
      modifies this
      ensures lock == None && exitCode == 0
      ensures trace == old(trace) + [Stopped] + (if old(lock).Some? then [LockRemoved] else [])
    {
      trace := trace + [Stopped];
      RemoveLock();
      exitCode := 0;
    }
  }

  // -----------------------------------------------------------------------
  // Properties of the trace of a guarded run

  /** In a guarded run the lock is created first and the orchestrator is
      launched right after it; the orchestrator is launched once and the lock
      removed once; cleanup is launched once, last, right after the removal,
      whatever the outcome. */
  lemma GuardedRunOrder(pid: int, o: OrchestratorOutcome)
    ensures var t := GuardedRun(pid, o);
      t[0] == LockCreated(pid) && t[1] == OrchestratorLaunched
      && t[|t| - 2] == LockRemoved && t[|t| - 1] == CleanupLaunched
      && (forall i :: 0 <= i < |t| - 1 ==> t[i] != CleanupLaunched)
      && (forall i :: 0 <= i < |t| && i != 1 ==> t[i] != OrchestratorLaunched)
      && (forall i :: 0 <= i < |t| && i != |t| - 2 ==> t[i] != LockRemoved)
  {
  }

  /** Two ticks in a row on a free lock: the second is not skipped, because
      the first released the lock even though the orchestrator failed. */
  method ConsecutiveTicks(pid: int, first: OrchestratorOutcome, second: OrchestratorOutcome)
    returns (trace: seq<Event>, lockAfter: Option<int>)
    ensures trace == GuardedRun(pid, first) + GuardedRun(pid, second)
    ensures lockAfter == None
    ensures SkippedAlreadyRunning !in trace
  {
    var s := new PipelineScheduler();
    s.RunPipeline(pid, first);
    s.RunPipeline(pid, second);
    trace, lockAfter := s.trace, s.lock;
  }

  /** A tick while a run holds the lock: the holder is unchanged and nothing
      is launched. */
  method TickWhileHeld(holder: int, pid: int, o: OrchestratorOutcome)
    returns (trace: seq<Event>, lockAfter: Option<int>)
    ensures lockAfter == Some(holder)
    ensures trace == [LockCreated(holder), SkippedAlreadyRunning]
    ensures OrchestratorLaunched !in trace && CleanupLaunched !in trace
  {
    var s := new PipelineScheduler();
    s.CreateLock(holder);
    s.RunPipeline(pid, o);
    trace, lockAfter := s.trace, s.lock;
  }
}
