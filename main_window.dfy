/**
 * The decision logic of `MainWindow`: the gate that starts at most one worker
 * and checks the GUID in manual mode, the stop path that always hands the
 * buttons back, the dependency check, the stage labels, the device poll, the
 * handlers the emitter's signals are connected to, and the last-GUID setting.
 */
module Controller {

  import opened Wrappers
  import opened Text
  import opened Events
  import opened Worker
  import DeviceInfo
  import InfoPanel

  /** One line of the log view, without its timestamp and colour. */
  datatype LogEntry = LogEntry(message: string, level: string)

  /** The external tools `_check_dependencies` looks for, in this order. */
  const RequiredTools: seq<string> := ["ideviceinfo", "idevice_id", "pymobiledevice3", "curl"]

  const StartMessage: string := "\U{1f680} Starting activation process..."
  const StopMessage: string := "\U{23f9} Stop requested..."
  const TerminatedMessage: string := "\U{26a0} Thread forcibly terminated."
  const SuccessMessage: string := "\U{1f389} ACTIVATION SUCCESSFUL!"
  const FatalPrefix: string := "\U{274c} Fatal: "
  /** The progress bar's text while a job initialises, and QProgressBar's own default. */
  const InitialFormat: string := "Initializing..."
  const DefaultFormat: string := "%p%"

  /** The progress-bar text for each stage the worker announces. */
  const StageLabels: map<string, string> := map[
    "detect" := "\U{1f50d} Detecting device...",
    "guid" := "\U{1f4e1} Extracting GUID...",
    "download" := "\U{1f4e5} Downloading payload...",
    "upload" := "\U{1f4e4} Uploading to /Downloads/...",
    "reboot" := "\U{1f504} Rebooting (\U{d7}3)...",
    "done" := "\U{2705} Done!"
  ]

  /** `xs` is `ys` with some elements left out and the rest in their order. */
  predicate IsSubsequence<T(==)>(xs: seq<T>, ys: seq<T>)
    decreases |ys|
  {
    if xs == [] then true
    else if ys == [] then false
    else (xs[0] == ys[0] && IsSubsequence(xs[1..], ys[1..])) || IsSubsequence(xs, ys[1..])
  }

  /**
   * The comprehension `[b for b in names if not find_binary(b)]`: exactly the
   * names not present, each in its place in `names`.
   */
  function Missing(names: seq<string>, present: string -> bool): (missing: seq<string>)
    ensures |missing| <= |names|
  {
    if names == [] then []
    else if present(names[0]) then Missing(names[1..], present)
    else [names[0]] + Missing(names[1..], present)
  }

  /**
   * The comprehension keeps exactly the names that are not present, and keeps
   * them in their order.
   */
  lemma {:induction false} MissingSpec(names: seq<string>, present: string -> bool)
    ensures forall x :: x in Missing(names, present) <==> x in names && !present(x)
    ensures IsSubsequence(Missing(names, present), names)
  {
    if names != [] {
      MissingSpec(names[1..], present);
      assert names == [names[0]] + names[1..];
      if !present(names[0]) {
        assert Missing(names, present)[1..] == Missing(names[1..], present);
      }
    }
  }

  /** The missing tools that `_check_dependencies` reports. */
  function MissingTools(present: string -> bool): (missing: seq<string>)
    ensures forall t :: t in missing <==> t in RequiredTools && !present(t)
  {
    MissingSpec(RequiredTools, present);
    Missing(RequiredTools, present)
  }

  /** Start stays available exactly when every required tool is found. */
  lemma NothingMissing(present: string -> bool)
    ensures MissingTools(present) == [] <==> forall t | t in RequiredTools :: present(t)
  {
    MissingSpec(RequiredTools, present);
  }

  /** The label `_on_stage_change` shows: `labels.get(stage, stage)`. */
  function StageLabel(stage: string): (shown: string)
    ensures shown in StageLabels.Values || shown == stage
  {
    if stage in StageLabels then StageLabels[stage] else stage
  }

  /**
   * A known stage shows its label, which differs from the stage name; a stage
   * is shown as itself exactly when it is unknown.
   */
  lemma StageLabelCases(stage: string)
    ensures stage in StageLabels ==> StageLabel(stage) == StageLabels[stage]
    ensures StageLabel(stage) == stage <==> stage !in StageLabels
  {
  }

  /** No two known stages share a label, so the label shown tells which stage was announced last. */
  lemma StageLabelsDistinct(s1: string, s2: string)
    requires s1 in StageLabels && s2 in StageLabels
    requires StageLabel(s1) == StageLabel(s2)
    ensures s1 == s2
  {
  }

  /** The GUID a manual start reads from the field: stripped, then upper-cased. */
  function ManualGuid(text: string): (guid: string)
    ensures |guid| == |Strip(text)|
    ensures Upper(guid) == guid
  {
    UpperIdempotent(Strip(text));
    Upper(Strip(text))
  }

  /** What `start_activation` decides before it creates anything. */
  datatype Gate =
    | AlreadyRunning                          // a worker is running: silently nothing
    | EmptyGuid                               // the "Input Required" warning
    | InvalidGuid                             // the "Invalid GUID" warning
    | Launch(auto: bool, guid: Option<string>) // a worker is created with these arguments

  /**
   * The start gate: nothing while a worker runs; in auto mode the worker gets no
   * GUID; in manual mode only a non-empty GUID that `validate_guid` accepts gets
   * through, and it is passed on in canonical upper-case form.
   */
  function StartGate(running: bool, manual: bool, text: string, valid: string -> bool): (g: Gate)
    ensures running <==> g == AlreadyRunning
    ensures !running && !manual ==> g == Launch(true, None)
    ensures !running && manual ==> (g == EmptyGuid <==> Strip(text) == [])
    ensures !running && manual ==> (g.Launch? <==> Strip(text) != [] && valid(ManualGuid(text)))
    ensures g.Launch? && manual ==> g.guid == Some(ManualGuid(text))
    ensures g.Launch? ==> g.auto == !manual && (g.guid.Some? <==> manual)
    ensures g.Launch? && manual ==>
      g.guid.value != [] && valid(g.guid.value) && Upper(g.guid.value) == g.guid.value
  {
    if running then AlreadyRunning
    else if manual then
      var guid := ManualGuid(text);
      if guid == [] then EmptyGuid
      else if !valid(guid) then InvalidGuid
      else Launch(false, Some(guid))
    else Launch(true, None)
  }

  /** `_validate_guid`: the field turns red when its text is not a valid GUID and longer than 8. */
  function GuidHighlight(text: string, valid: string -> bool): (red: bool)
    ensures red <==> |Strip(text)| > 8 && !valid(ManualGuid(text))
  {
    var t := Strip(text);
    var ok := t != [] && valid(Upper(t));
    !ok && |t| > 8
  }

  /**
   * The highlight is a preview of the manual start gate: a red field is always
   * refused, an accepted GUID is never red, and a refused one is red exactly
   * when its stripped text is longer than 8.
   */
  lemma HighlightPreviewsGate(text: string, valid: string -> bool)
    ensures GuidHighlight(text, valid) ==> StartGate(false, true, text, valid) in {EmptyGuid, InvalidGuid}
    ensures StartGate(false, true, text, valid).Launch? ==> !GuidHighlight(text, valid)
    ensures !StartGate(false, true, text, valid).Launch? ==> (GuidHighlight(text, valid) <==> |Strip(text)| > 8)
  {
  }

  /**
   * What `on_success` saves under `last_guid`: the GUID a manual start with the
   * same field text would be launched with, and nothing when it would be refused.
   */
  function SavedGuid(text: string, valid: string -> bool): (saved: Option<string>)
    ensures saved.Some? <==> StartGate(false, true, text, valid).Launch?
    ensures saved.Some? ==> StartGate(false, true, text, valid).guid == saved
  {
    var guid := ManualGuid(text);
    if guid != [] && valid(guid) then Some(guid) else None
  }

  /** What the window puts into the GUID field on start-up from the stored `last_guid`. */
  function RestoredGuid(stored: string, valid: string -> bool): (restored: Option<string>)
    ensures restored.Some? <==> stored != [] && valid(stored)
    ensures restored.Some? ==> restored.value == Upper(stored) && |restored.value| == |stored|
  {
    if stored != [] && valid(stored) then Some(Upper(stored)) else None
  }

  /** A GUID saved on success is put back into the field, unchanged, on the next start-up. */
  lemma {:induction false} SavedGuidIsRestored(text: string, valid: string -> bool)
    requires SavedGuid(text, valid).Some?
    ensures RestoredGuid(SavedGuid(text, valid).value, valid) == SavedGuid(text, valid)
  {
    var g := SavedGuid(text, valid).value;
    assert g == ManualGuid(text);
    assert Upper(g) == g;
  }

  /** How a running worker ends after `stop_activation` asked it to stop. */
  datatype StopExit =
    /**
     * `run` ends inside `wait(2000)`. `stop()` lands just before checkpoint `at`,
     * or with `at == None` after the `finally` check, while `isRunning()` still holds.
     */
    | Graceful(outcome: Outcome, at: Option<Checkpoint>)
    /** The wait times out and `terminate()` ends the thread. */
    | Forced

  /** What the worker still emits after it was asked to stop. */
  function StopTrace(exit: StopExit): (t: seq<Event>)
    ensures Progress(100) in t <==> exit.Graceful? && exit.at.None?
    ensures forall e | e in t && e.Progress? :: e == Progress(100)
    ensures Succeeded in t ==> exit.Graceful? && exit.outcome == Returned && (exit.at.None? || exit.at == Some(Final))
    ensures forall e | e in t && e.Failed? :: exit.Graceful? && (exit.at.None? || exit.at == Some(Final))
  {
    match exit
    case Graceful(outcome, at) => RunTrace(false, outcome, at)
    case Forced => []
  }

  /**
   * A stop that lands after the `finally` check comes too late to suppress
   * anything: the trace is that of a run nobody stopped, progress 100 included.
   */
  lemma LateStopEmitsEverything(outcome: Outcome)
    ensures StopTrace(Graceful(outcome, None)) == RunTrace(false, outcome, None)
    ensures StopTrace(Graceful(Returned, None)) == [StageChanged("done"), Succeeded, Progress(100)]
  {
  }

  class MainWindow {
    /** The module-level `emitter`. */
    const bus: EventBus
    /** `validate_guid` from the activation module, which is not part of this model. */
    const validGuid: string -> bool
    /** `self.thread`: the last worker created, if any. */
    var thread: ActivatorWorker?
    /** Every worker this window created, oldest first. */
    ghost var workers: seq<ActivatorWorker>
    var startEnabled: bool
    var stopEnabled: bool
    var progress: int
    var progressFormat: string
    /** The "Manual input" radio button is checked (else "Auto-detect" is). */
    var manual: bool
    var guidText: string
    /** The GUID field has the red background `_validate_guid` gives it. */
    var guidHighlighted: bool
    /** The `last_guid` setting; the empty string when it is not set. */
    var lastGuid: string
    var log: seq<LogEntry>
    var panel: InfoPanel.PanelView

    /** `self.thread and self.thread.isRunning()` */
    predicate WorkerRunning()
      reads this`thread, thread
      ensures WorkerRunning() <==> thread != null && thread.running
    {
      thread != null && thread.running
    }

    /**
     * The window's invariant: only the current worker can be running, every
     * worker reports through the window's emitter, the Stop button is enabled
     * exactly while the current worker runs and Start is disabled then, and a
     * running worker has not been asked to stop.
     */
    ghost predicate Valid()
      reads this`thread, this`workers, this`startEnabled, this`stopEnabled, thread, workers
    {
      && (thread == null <==> workers == [])
      && (workers != [] ==> thread == workers[|workers| - 1])
      && (forall i | 0 <= i < |workers| - 1 :: !workers[i].running)
      && (forall w | w in workers :: w.bus == bus)
      && (stopEnabled <==> WorkerRunning())
      && (WorkerRunning() ==> !startEnabled && !thread.stopped)
    }

    /**
     * The GUID field's highlight reflects its text. Only `SetGuidText` changes the
     * text, and it re-establishes this; every other method leaves both fields alone.
     */
    predicate HighlightCurrent()
      reads this`guidText, this`guidHighlighted
    {
      guidHighlighted == GuidHighlight(guidText, validGuid)
    }

    /**
     * At most one worker runs at a time: any running worker is the current one,
     * so asking the current thread whether it runs asks whether any worker does.
     */
    lemma AtMostOneRunning()
      requires Valid()
      ensures forall i | 0 <= i < |workers| && workers[i].running :: workers[i] == thread
      ensures WorkerRunning() <==> exists i | 0 <= i < |workers| :: workers[i].running
    {
      if WorkerRunning() {
        assert workers[|workers| - 1].running;
      }
    }

    /**
     * `__init__`, for its state: no worker, Stop disabled, Start enabled unless a
     * tool is missing, the panel showing placeholders, the stored GUID restored
     * into the field when it is non-empty and valid, and one device poll emitted.
     */
    constructor (bus: EventBus, validGuid: string -> bool, storedGuid: string, present: string -> bool,
                 infoCmd: DeviceInfo.CmdResult, idCmd: DeviceInfo.CmdResult)
      modifies bus
      ensures Valid() && HighlightCurrent()
      ensures this.bus == bus && this.validGuid == validGuid
      ensures thread == null && workers == [] && !stopEnabled
      ensures startEnabled <==> MissingTools(present) == []
      ensures progress == 0 && progressFormat == DefaultFormat && !manual && log == []
      ensures panel == InfoPanel.Render(None) && lastGuid == storedGuid
      ensures guidText == match RestoredGuid(storedGuid, validGuid) case Some(g) => g case None => ""
      ensures bus.emitted == old(bus.emitted) + [DeviceUpdate(DeviceInfo.PolledSnapshot(infoCmd, idCmd))]
    {
      this.bus := bus;
      this.validGuid := validGuid;
      thread := null;
      workers := [];
      startEnabled := true;
      stopEnabled := false;
      progress := 0;
      progressFormat := DefaultFormat;
      manual := false;
      guidText := "";
      guidHighlighted := false;
      lastGuid := storedGuid;
      log := [];
      panel := InfoPanel.Render(None);
      new;
      var restored := RestoredGuid(lastGuid, validGuid);
      if restored.Some? {
        SetGuidText(restored.value);
      }
      var missing := CheckDependencies(present);
      DetectDevice(infoCmd, idCmd);
    }

    /** The user picks "Manual input" (`true`) or "Auto-detect" (`false`). */
    method SelectMode(manual: bool)
      requires Valid()
      modifies this
      ensures Valid() && this.manual == manual
      ensures unchanged(this`thread, this`workers, this`startEnabled, this`stopEnabled, this`progress,
                        this`progressFormat, this`guidText, this`guidHighlighted, this`lastGuid, this`log, this`panel)
    {
      this.manual := manual;
    }

    /** The GUID field's text becomes `text`; `textChanged` runs `_validate_guid`. */
    method SetGuidText(text: string)
      requires Valid()
      modifies this
      ensures Valid() && guidText == text && HighlightCurrent()
      ensures unchanged(this`thread, this`workers, this`startEnabled, this`stopEnabled, this`progress,
                        this`progressFormat, this`manual, this`lastGuid, this`log, this`panel)
    {
      guidText := text;
      ValidateGuid();
    }

    /** `_validate_guid` */
    method ValidateGuid()
      modifies this
      ensures HighlightCurrent()
      ensures unchanged(this`thread, this`workers, this`startEnabled, this`stopEnabled, this`progress,
                        this`progressFormat, this`manual, this`guidText, this`lastGuid, this`log, this`panel)
    {
      var text := Strip(guidText);
      var valid := text != [] && validGuid(Upper(text));
      guidHighlighted := !valid && |text| > 8;
    }

    /** `append_log`, without the timestamp and the HTML. */
    method AppendLog(message: string, level: string)
      modifies this
      ensures log == old(log) + [LogEntry(message, level)]
      ensures unchanged(this`thread, this`workers, this`startEnabled, this`stopEnabled, this`progress,
                        this`progressFormat, this`manual, this`guidText, this`guidHighlighted, this`lastGuid, this`panel)
    {
      log := log + [LogEntry(message, level)];
    }

    /** `_check_dependencies`: a missing tool disables Start; none missing leaves it as it was. */
    method CheckDependencies(present: string -> bool) returns (missing: seq<string>)
      requires Valid()
      modifies this
      ensures Valid()
      ensures missing == MissingTools(present)
      ensures startEnabled == (old(startEnabled) && missing == [])
      ensures unchanged(this`thread, this`workers, this`stopEnabled, this`progress, this`progressFormat,
                        this`manual, this`guidText, this`guidHighlighted, this`lastGuid, this`log, this`panel)
    {
      missing := CollectMissing(RequiredTools, present);
      if missing != [] {
        startEnabled := false;
      }
    }

    /**
     * `detect_device`: nothing while a worker runs; otherwise the two commands'
     * results are turned into one device-info event.
     */
    method DetectDevice(infoCmd: DeviceInfo.CmdResult, idCmd: DeviceInfo.CmdResult)
      modifies bus
      ensures bus.emitted == old(bus.emitted) +
        if WorkerRunning() then [] else [DeviceUpdate(DeviceInfo.PolledSnapshot(infoCmd, idCmd))]
    {
      if thread != null && thread.running {
        return;
      }
      match infoCmd
      case Raised =>
        bus.Emit(DeviceUpdate(map[]));
      case Exited(code, out) =>
        var info: map<string, string> := map[];
        if code == 0 {
          info := DeviceInfo.ParseDeviceInfo(out);
          match idCmd
          case Raised =>
            // the exception from the second command discards what was parsed
            bus.Emit(DeviceUpdate(map[]));
            return;
          case Exited(idCode, idOut) =>
            if idCode == 0 {
              var udid := Strip(idOut);
              info := info[DeviceInfo.UdidKey := if udid == [] then DeviceInfo.Placeholder else udid];
            }
        }
        bus.Emit(DeviceUpdate(info));
    }

    /** `_on_stage_change` */
    method OnStageChange(stage: string)
      modifies this
      ensures progressFormat == StageLabel(stage)
      ensures unchanged(this`thread, this`workers, this`startEnabled, this`stopEnabled, this`progress,
                        this`manual, this`guidText, this`guidHighlighted, this`lastGuid, this`log, this`panel)
    {
      progressFormat := StageLabel(stage);
    }

    /**
     * `start_activation`: returns the gate's decision; only a launch changes
     * anything, and it creates exactly one new, running worker.
     */
    method StartActivation() returns (gate: Gate)
      requires Valid()
      modifies this
      ensures Valid()
      ensures gate == StartGate(old(WorkerRunning()), manual, guidText, validGuid)
      ensures !gate.Launch? ==> unchanged(this)
      ensures gate.Launch? ==>
        && fresh(thread) && workers == old(workers) + [thread]
        && thread.auto == gate.auto && thread.guid == gate.guid
        && thread.running && !thread.stopped && !thread.interruptionRequested
        && !startEnabled && stopEnabled && progress == 0 && progressFormat == InitialFormat
        && log == [LogEntry(StartMessage, "info")]
      ensures unchanged(this`manual, this`guidText, this`guidHighlighted, this`lastGuid, this`panel)
    {
      if thread != null && thread.running {
        return AlreadyRunning;
      }
      var auto := !manual;
      var guid: Option<string> := if manual then Some(ManualGuid(guidText)) else None;
      if manual {
        if guid.value == [] {
          return EmptyGuid;
        }
        if !validGuid(guid.value) {
          return InvalidGuid;
        }
      }
      StartWorker(auto, guid);
      gate := Launch(auto, guid);
    }

    /** The part of `start_activation` after the gate: reset the view and start a new worker. */
    method StartWorker(auto: bool, guid: Option<string>)
      requires Valid() && !WorkerRunning()
      modifies this
      ensures Valid()
      ensures fresh(thread) && workers == old(workers) + [thread]
      ensures thread.auto == auto && thread.guid == guid && thread.bus == bus
      ensures thread.running && !thread.stopped && !thread.interruptionRequested
      ensures !startEnabled && stopEnabled && progress == 0 && progressFormat == InitialFormat
      ensures log == [LogEntry(StartMessage, "info")]
      ensures unchanged(this`manual, this`guidText, this`guidHighlighted, this`lastGuid, this`panel)
    {
      // no earlier worker is running, the current one included
      assert forall i | 0 <= i < |workers| :: !workers[i].running;
      log := [];
      AppendLog(StartMessage, "info");
      startEnabled := false;
      stopEnabled := true;
      progress := 0;
      progressFormat := InitialFormat;
      ghost var earlier := workers;
      var worker := new ActivatorWorker(auto, guid, bus);
      thread := worker;
      workers := workers + [worker];
      worker.Start();
      assert forall i | 0 <= i < |earlier| :: workers[i] == earlier[i] && !earlier[i].running;
    }

    /** `_on_thread_finished` */
    method OnThreadFinished()
      modifies this
      ensures startEnabled && !stopEnabled
      ensures unchanged(this`thread, this`workers, this`progress, this`progressFormat, this`manual,
                        this`guidText, this`guidHighlighted, this`lastGuid, this`log, this`panel)
    {
      startEnabled := true;
      stopEnabled := false;
    }

    /**
     * `stop_activation`: nothing without a running worker; otherwise the worker is
     * asked to stop, ends gracefully or is terminated, and the buttons are reset.
     */
    method StopActivation(exit: StopExit)
      requires Valid()
      modifies this, thread, bus
      ensures Valid()
      ensures !old(WorkerRunning()) ==> unchanged(this, bus) && (thread != null ==> unchanged(thread))
      ensures old(WorkerRunning()) ==>
        && thread == old(thread) && workers == old(workers)
        && thread.stopped && thread.interruptionRequested && !thread.running
        && startEnabled && !stopEnabled
        && log == old(log) + [LogEntry(StopMessage, "warn")]
                           + (if exit.Forced? then [LogEntry(TerminatedMessage, "error")] else [])
        && bus.emitted == old(bus.emitted) + StopTrace(exit)
      ensures unchanged(this`progress, this`progressFormat, this`manual, this`guidText, this`guidHighlighted,
                        this`lastGuid, this`panel)
    {
      if thread != null && thread.running {
        AppendLog(StopMessage, "warn");
        match exit {
          case Graceful(outcome, at) =>
            // `stop()` reaches the worker just before checkpoint `at`, and `run` then returns
            thread.Run(outcome, at);
            if at.None? {
              // `run` is past its last read of `_stopped` when `stop()` sets it
              thread.Stop();
            }
            thread.Exit();
          case Forced =>
            thread.Stop();
            // `wait(2000)` timed out with the worker still inside the procedure
            thread.Exit();
            AppendLog(TerminatedMessage, "error");
        }
        OnThreadFinished();
      }
    }

    /**
     * The running worker's `run` completes with no stop requested, and its
     * `finished` signal runs `_on_thread_finished`.
     */
    method CompleteWorker(outcome: Outcome)
      requires Valid()
      modifies this, thread, bus
      ensures Valid()
      ensures !old(WorkerRunning()) ==> unchanged(this, bus) && (thread != null ==> unchanged(thread))
      ensures old(WorkerRunning()) ==>
        && thread == old(thread) && workers == old(workers) && !thread.running && !thread.stopped
        && startEnabled && !stopEnabled
        && bus.emitted == old(bus.emitted) + RunTrace(false, outcome, None)
      ensures unchanged(this`progress, this`progressFormat, this`manual, this`guidText, this`guidHighlighted,
                        this`lastGuid, this`log, this`panel)
    {
      if thread != null && thread.running {
        thread.Run(outcome, None);
        thread.Exit();
        OnThreadFinished();
      }
    }

    /**
     * `on_success`: log it, save the field's GUID when it is non-empty and valid,
     * and poll the device again.
     */
    method OnSuccess(infoCmd: DeviceInfo.CmdResult, idCmd: DeviceInfo.CmdResult)
      modifies this, bus
      ensures log == old(log) + [LogEntry(SuccessMessage, "success")]
      ensures lastGuid == match SavedGuid(guidText, validGuid) case Some(g) => g case None => old(lastGuid)
      ensures bus.emitted == old(bus.emitted) +
        if WorkerRunning() then [] else [DeviceUpdate(DeviceInfo.PolledSnapshot(infoCmd, idCmd))]
      ensures unchanged(this`thread, this`workers, this`startEnabled, this`stopEnabled, this`progress,
                        this`progressFormat, this`manual, this`guidText, this`guidHighlighted, this`panel)
    {
      AppendLog(SuccessMessage, "success");
      var guid := Upper(Strip(guidText));
      if guid != [] && validGuid(guid) {
        lastGuid := guid;
      }
      DetectDevice(infoCmd, idCmd);
    }

    /** `on_error`: the description is logged verbatim after the "Fatal" prefix. */
    method OnError(description: string)
      modifies this
      ensures log == old(log) + [LogEntry(FatalPrefix + description, "error")]
      ensures unchanged(this`thread, this`workers, this`startEnabled, this`stopEnabled, this`progress,
                        this`progressFormat, this`manual, this`guidText, this`guidHighlighted, this`lastGuid, this`panel)
    {
      AppendLog(FatalPrefix + description, "error");
    }

    /**
     * One emitted event reaches the slot it is connected to. A success re-polls
     * the device with the given command results; a progress value outside
     * 0..100 is ignored, as QProgressBar ignores it.
     */
    method Deliver(e: Event, infoCmd: DeviceInfo.CmdResult, idCmd: DeviceInfo.CmdResult)
      modifies this, bus
      ensures unchanged(this`thread, this`workers, this`startEnabled, this`stopEnabled, this`manual,
                        this`guidText, this`guidHighlighted)
      ensures !e.Succeeded? ==> unchanged(bus)
      ensures e.Log? ==> log == old(log) + [LogEntry(e.message, e.level)]
      ensures e.Progress? ==> progress == if 0 <= e.percent <= 100 then e.percent else old(progress)
      ensures e.StageChanged? ==> progressFormat == StageLabel(e.stage)
      ensures e.DeviceUpdate? ==> panel == InfoPanel.Render(Some(e.info))
      ensures e.Failed? ==> log == old(log) + [LogEntry(FatalPrefix + e.description, "error")]
      ensures e.Succeeded? ==>
        && log == old(log) + [LogEntry(SuccessMessage, "success")]
        && lastGuid == (match SavedGuid(guidText, validGuid) case Some(g) => g case None => old(lastGuid))
        && bus.emitted == old(bus.emitted) +
             if WorkerRunning() then [] else [DeviceUpdate(DeviceInfo.PolledSnapshot(infoCmd, idCmd))]
      ensures !e.Progress? ==> progress == old(progress)
      ensures !e.StageChanged? ==> progressFormat == old(progressFormat)
      ensures !e.DeviceUpdate? ==> panel == old(panel)
      ensures !e.Succeeded? ==> lastGuid == old(lastGuid)
      ensures !(e.Log? || e.Failed? || e.Succeeded?) ==> log == old(log)
    {
      match e
      case Log(message, level) => AppendLog(message, level);
      case Progress(percent) =>
        if 0 <= percent <= 100 {
          progress := percent;
        }
      case Succeeded => OnSuccess(infoCmd, idCmd);
      case Failed(description) => OnError(description);
      case DeviceUpdate(info) => panel := InfoPanel.Render(Some(info));
      case StageChanged(stage) => OnStageChange(stage);
    }
  }

  /** The comprehension as the loop it stands for: the names not present, in order. */
  method CollectMissing(names: seq<string>, present: string -> bool) returns (missing: seq<string>)
    ensures missing == Missing(names, present)
  {
    missing := [];
    var i := 0;
    while i < |names|
      invariant 0 <= i <= |names|
      invariant missing == Missing(names[..i], present)
    {
      if !present(names[i]) {
        missing := missing + [names[i]];
      }
      MissingStep(names, i, present);
      i := i + 1;
    }
    assert names[..i] == names;
  }

  /** One more name extends the comprehension's result by that name exactly when it is missing. */
  lemma MissingStep(names: seq<string>, i: nat, present: string -> bool)
    requires i < |names|
    ensures Missing(names[..i + 1], present) ==
      Missing(names[..i], present) + (if present(names[i]) then [] else [names[i]])
  {
    MissingAppend(names[..i], names[i], present);
    assert names[..i + 1] == names[..i] + [names[i]];
  }

  lemma {:induction false} MissingAppend(names: seq<string>, name: string, present: string -> bool)
    ensures Missing(names + [name], present) == Missing(names, present) + (if present(name) then [] else [name])
  {
    if names != [] {
      assert (names + [name])[1..] == names[1..] + [name];
      MissingAppend(names[1..], name, present);
    }
  }
}
