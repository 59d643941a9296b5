/**
 * `ActivatorWorker`: the background job that calls the external activation
 * procedure once and reports its outcome through the emitter, unless its
 * `_stopped` flag says it was cancelled.
 *
 * `run` reads `_stopped` at three checkpoints: on entry, after the procedure
 * (the `if` after the call and the one in the `except` branch), and in the
 * `finally` block. `stop()` may be called from the other thread between any
 * two of them; a run is therefore described by the outcome of the procedure and
 * by the checkpoint before which a concurrent `stop()` lands, if any.
 */
module Worker {

  import opened Wrappers
  import opened Events

  /**
   * What `original_run` did: returned, raised an `Exception` (carrying `str(e)`),
   * or raised something `except Exception` does not catch (a `BaseException`
   * such as `SystemExit`), which still runs the `finally` block.
   */
  datatype Outcome = Returned | Raised(description: string) | Escaped

  /** The three places where `run` reads `_stopped`, in program order. */
  datatype Checkpoint = Entry | Verdict | Final

  function Rank(c: Checkpoint): nat {
    match c
    case Entry => 0
    case Verdict => 1
    case Final => 2
  }

  /** The rank of the first checkpoint that reads `_stopped` as true; 3 when none does. */
  function FirstStopped(stoppedAtEntry: bool, stopAt: Option<Checkpoint>): (n: nat)
    ensures n <= 3
    ensures stoppedAtEntry ==> n == 0
    ensures !stoppedAtEntry && stopAt.None? ==> n == 3
  {
    if stoppedAtEntry then 0
    else match stopAt
      case None => 3
      case Some(c) => Rank(c)
  }

  /** The events emitted when the verdict checkpoint passes. */
  function VerdictEvents(outcome: Outcome): seq<Event> {
    match outcome
    case Returned => [StageChanged("done"), Succeeded]
    case Raised(d) => [Failed(d)]
    case Escaped => []
  }

  /** The checkpoint guarding each event `run` emits. */
  function GuardOf(e: Event): nat {
    if e.Progress? then Rank(Final) else Rank(Verdict)
  }

  /**
   * The trace one `run` emits: the verdict events if the verdict checkpoint passed,
   * then the final progress of 100 if the final one did.
   */
  function RunTrace(stoppedAtEntry: bool, outcome: Outcome, stopAt: Option<Checkpoint>): (t: seq<Event>)
    ensures Progress(100) in t <==> FirstStopped(stoppedAtEntry, stopAt) > Rank(Final)
    ensures forall e | e in t && e.Progress? :: e == Progress(100)
  {
    var first := FirstStopped(stoppedAtEntry, stopAt);
    (if first > Rank(Verdict) then VerdictEvents(outcome) else [])
    + (if first > Rank(Final) then [Progress(100)] else [])
  }

  /** A worker stopped before `run` starts emits nothing at all. */
  lemma StoppedAtEntryIsSilent(outcome: Outcome, stopAt: Option<Checkpoint>)
    ensures RunTrace(true, outcome, stopAt) == []
    ensures RunTrace(false, outcome, Some(Entry)) == []
  {
  }

  /** With no stop, a procedure that returns gives exactly stage "done", success, progress 100. */
  lemma CompletedRunTrace()
    ensures RunTrace(false, Returned, None) == [StageChanged("done"), Succeeded, Progress(100)]
  {
  }

  /** With no stop, a procedure that raises gives exactly the error with `str(e)`, then progress 100. */
  lemma FailedRunTrace(description: string)
    ensures RunTrace(false, Raised(description), None) == [Failed(description), Progress(100)]
  {
  }

  /** An exception that escapes `except Exception` still yields the final progress of 100. */
  lemma EscapedRunTrace()
    ensures RunTrace(false, Escaped, None) == [Progress(100)]
  {
  }

  /**
   * Nothing is emitted from the checkpoint at which `_stopped` is first seen
   * true onwards: every event of the trace is guarded by an earlier checkpoint.
   */
  lemma NoEventAfterStop(stoppedAtEntry: bool, outcome: Outcome, stopAt: Option<Checkpoint>)
    ensures forall e | e in RunTrace(stoppedAtEntry, outcome, stopAt) ::
      GuardOf(e) < FirstStopped(stoppedAtEntry, stopAt)
  {
  }

  /** A stop that lands before the verdict checkpoint suppresses success, error and progress alike. */
  lemma StopBeforeVerdictIsSilent(outcome: Outcome)
    ensures RunTrace(false, outcome, Some(Verdict)) == []
  {
  }

  /**
   * A stop that lands after the verdict checkpoint but before the `finally` block
   * does not take back a success already emitted: only the progress is suppressed.
   */
  lemma StopAfterVerdictKeepsSuccess()
    ensures RunTrace(false, Returned, Some(Final)) == [StageChanged("done"), Succeeded]
    ensures Succeeded in RunTrace(false, Returned, Some(Final))
  {
  }

  /** Every trace holds at most one terminal event, and progress 100 only as its last event. */
  lemma {:induction false} AtMostOneVerdict(stoppedAtEntry: bool, outcome: Outcome, stopAt: Option<Checkpoint>)
    ensures var t := RunTrace(stoppedAtEntry, outcome, stopAt);
      && |t| <= 3
      && (forall i, j | 0 <= i < j < |t| :: !(t[i].Succeeded? || t[i].Failed?) || !(t[j].Succeeded? || t[j].Failed?))
      && (forall i | 0 <= i < |t| && t[i].Progress? :: i == |t| - 1)
  {
  }

  class ActivatorWorker {
    const auto: bool
    const guid: Option<string>
    const bus: EventBus
    /** `_stopped` */
    var stopped: bool
    /** QThread's interruption request, set by `requestInterruption()` */
    var interruptionRequested: bool
    /** QThread's `isRunning()` */
    var running: bool

    constructor (auto: bool, guid: Option<string>, bus: EventBus)
      ensures this.auto == auto && this.guid == guid && this.bus == bus
      ensures !stopped && !interruptionRequested && !running
    {
      this.auto := auto;
      this.guid := guid;
      this.bus := bus;
      stopped := false;
      interruptionRequested := false;
      running := false;
    }

    /** `stop()`: raise the flag and ask QThread to interrupt; the thread keeps running. */
    method Stop()
      modifies this
      ensures stopped && interruptionRequested && running == old(running)
    {
      stopped := true;
      interruptionRequested := true;
    }

    /** `QThread.start()`: from here on the thread counts as running. */
    method Start()
      modifies this
      ensures running
      ensures stopped == old(stopped) && interruptionRequested == old(interruptionRequested)
    {
      running := true;
    }

    /** The thread is no longer running: `run` returned, or `terminate()` ended it. */
    method Exit()
      modifies this
      ensures !running
      ensures stopped == old(stopped) && interruptionRequested == old(interruptionRequested)
    {
      running := false;
    }

    /**
     * `run()`: the procedure has the given outcome, and a concurrent `stop()`
     * lands just before checkpoint `stopAt` (never, when `None`).
     */
    method Run(outcome: Outcome, stopAt: Option<Checkpoint>)
      modifies this, bus
      ensures bus.emitted == old(bus.emitted) + RunTrace(old(stopped), outcome, stopAt)
      ensures stopped == (old(stopped) || stopAt.Some?)
      ensures interruptionRequested == (old(interruptionRequested) || stopAt.Some?)
      ensures running == old(running)
    {
      if stopAt == Some(Entry) { Stop(); }
      if !stopped {
        // the stage announcements and the call to `original_run` happen here
        if stopAt == Some(Verdict) { Stop(); }
        match outcome
        case Returned =>
          if !stopped {
            bus.Emit(StageChanged("done"));
            bus.Emit(Succeeded);
          }
        case Raised(description) =>
          if !stopped {
            bus.Emit(Failed(description));
          }
        case Escaped =>
      } else if stopAt == Some(Verdict) {
        Stop();
      }
      if stopAt == Some(Final) { Stop(); }
      assert stopAt.Some? ==> stopAt.value == Entry || stopAt.value == Verdict || stopAt.value == Final;
      if !stopped {
        bus.Emit(Progress(100));
      }
    }
  }
}
