# iOS activation GUI: the decision logic of `Mac_GUI/main.py`, modelled in Dafny

`Mac_GUI/main.py` is a PyQt front end for an external activation procedure.
This project models the part of it that makes decisions. It leaves out the
part that draws widgets. It has four pieces.

- **Device poll** (`detect_device`). The `key: value` output of `ideviceinfo`
  becomes a map. Each line is split at its first `": "` and both sides are
  stripped. A later duplicate key overwrites an earlier one. The second command,
  `idevice_id -l`, may override `UniqueDeviceID`. Any failure publishes the
  empty map, and a poll while a worker runs publishes nothing.
- **Device panel** (`DeviceInfoPanel.update_info`). A missing or empty
  snapshot is replaced by four placeholder fields. The stripped activation state
  picks one of three status colours. The product code is looked up in the
  marketing-name table.
- **Worker** (`ActivatorWorker.run`/`stop`). This decides which of stage
  "done", success, error and progress 100 are emitted, and in what order. It
  depends on what the external procedure did and on when a concurrent `stop()`
  sets `_stopped`.
- **Window controller** (`MainWindow`). This covers:
  - the start gate: one worker at a time, and GUID validation in manual mode;
  - the stop path, which always hands the buttons back;
  - the dependency check and the stage labels;
  - the GUID field highlight;
  - the `last_guid` setting, saved on success and restored on start-up;
  - the slots that the emitter's signals are connected to.

Modules:

| module | file | models |
|---|---|---|
| `Wrappers` | wrappers.dfy | `Option` |
| `Text` | text.dfy | Python `str.strip`, `str.splitlines`, `str.upper` (ASCII), and the search for `": "` |
| `DeviceInfo` | device_info.dfy | the line parser and the poll result of `detect_device` |
| `InfoPanel` | info_panel.dfy | `update_info` as a function from snapshot to what the panel shows |
| `Events` | events.dfy | `SignalEmitter`, as a class whose one field is the trace of emitted signals |
| `Worker` | worker.dfy | `ActivatorWorker`, as a class with the `_stopped` flag and the emitting `run` |
| `Controller` | main_window.dfy | `MainWindow`, as a class with the window state, plus the pure gate, label and filter functions |

External collaborators are parameters. There are no bodies that stand in for
them.

- `run_cmd` results are `DeviceInfo.CmdResult` values: an exit code with
  standard output, or `Raised` for an exception.
- `find_binary` is a `string -> bool` argument of `CheckDependencies`.
- `validate_guid` is the `string -> bool` field `MainWindow.validGuid`.
  `activator_macos.py`, where it is defined, is not part of this model.
- What `original_run` did is a `Worker.Outcome`:
  - it returned;
  - it raised an `Exception` carrying `str(e)`;
  - or it raised something that `except Exception` does not catch, which still
    runs the `finally` block.
- A concurrent `stop()` is a schedule: the checkpoint of `run` it lands before,
  if any. `run` reads `_stopped` at three checkpoints: on entry (line 80), after
  the procedure (lines 92 and 97), and in `finally` (line 100). A stop from
  `stop_activation` (`Controller.StopExit`) may also land after line 100, while
  the thread is still running; `run` then emits everything an unstopped run does.
- The `last_guid` setting read at start-up is a constructor argument.

## Model

| member | source | states |
|---|---|---|
| Text.Strip | Mac_GUI/main.py:364 | `strip()` never lengthens a text. What it removes is stated by StripSpec. |
| Text.StripSpec | Mac_GUI/main.py:364 | `strip()` removes exactly the leading and trailing whitespace. A non-empty result starts and ends with a non-space. The result is empty iff the text is all whitespace. |
| Text.StripUnchanged | Mac_GUI/main.py:169 | A text whose ends are not whitespace is left as it is by `strip()`. |
| Text.Upper | Mac_GUI/main.py:389 | `upper()` keeps the length and upper-cases each character in place. |
| Text.UpperIdempotent | Mac_GUI/main.py:331 | Upper-casing twice is the same as upper-casing once. |
| Text.FindSep | Mac_GUI/main.py:362-363 | Finds the first position of `": "`. Returns none iff the line has no `": "`. |
| Text.SplitLines | Mac_GUI/main.py:361 | `splitlines()`: no line contains a line break. Empty text gives no lines. Non-empty text without a break is one line. What the lines mean is stated by SplitLinesJoin, BoundariesShape and CrLfIsOneBoundary. |
| Text.BoundariesLength | Mac_GUI/main.py:361 | Every line produced by `splitlines()` has exactly one boundary after it. |
| Text.SplitLinesJoin | Mac_GUI/main.py:361 | Nothing is lost: joining each line with the boundary after it gives the text back. |
| Text.BoundariesShape | Mac_GUI/main.py:361 | Each boundary is `"\r\n"` or one break character. Only a non-empty last line may end without one, so there is no empty last line after a final boundary. |
| Text.CrLfIsOneBoundary | Mac_GUI/main.py:361 | `"\r\n"` is a single boundary. A `"\r"` boundary is never followed by an empty line ended by `"\n"`. |
| DeviceInfo.ParseLine | Mac_GUI/main.py:362-364 | A line contributes an entry iff it contains `": "`. |
| DeviceInfo.ParseLineSplitsAtFirst | Mac_GUI/main.py:363-364 | The key is the stripped text before the FIRST `": "`. The value is the stripped rest, so it may itself contain `": "`. |
| DeviceInfo.ParsedInfo | Mac_GUI/main.py:359-364 | Each line adds at most one entry, so the map has at most as many keys as there are lines. |
| DeviceInfo.ParsedKeys | Mac_GUI/main.py:360-364 | A key is in the parsed map iff some line contributes it. |
| DeviceInfo.ParsedLastWins | Mac_GUI/main.py:364 | A key's value comes from the last line that contributes that key. A later duplicate overwrites an earlier one. |
| DeviceInfo.ParsedStep | Mac_GUI/main.py:361-364 | One more line applies that line's entry, if it has one, to the map built so far. |
| DeviceInfo.ParsedSkipsPlainLines | Mac_GUI/main.py:362 | A line without `": "` never changes the map. |
| DeviceInfo.ParseDeviceInfo | Mac_GUI/main.py:359-364 | The loop that fills `info` builds exactly the parsed map of `out.splitlines()`. |
| DeviceInfo.UdidFrom | Mac_GUI/main.py:368 | The UDID is the stripped `idevice_id` output, or the placeholder when that output is empty. It is never empty. |
| DeviceInfo.PolledSnapshot | Mac_GUI/main.py:357-371 | A non-empty snapshot means that `ideviceinfo` exited 0 and `idevice_id` did not raise. When both exit 0, the snapshot always holds `UniqueDeviceID`. |
| DeviceInfo.PollFailureIsEmpty | Mac_GUI/main.py:357-371 | `ideviceinfo` raising, `ideviceinfo` exiting non-zero, and `idevice_id` raising all publish exactly `{}`. |
| DeviceInfo.PollWithUdid | Mac_GUI/main.py:365-369 | When both commands exit 0, `UniqueDeviceID` is the UDID from `idevice_id`, and every other key is the parsed `ideviceinfo` output. |
| DeviceInfo.PollWithoutUdid | Mac_GUI/main.py:366-369 | When `idevice_id` exits non-zero, the parsed map is published unchanged. |
| InfoPanel.Get | Mac_GUI/main.py:169 | `dict.get`: the value when the key is present, else the default. |
| InfoPanel.Normalize | Mac_GUI/main.py:165-166 | A missing or empty snapshot is replaced by the four-field placeholder map. A non-empty one is used as it is, not merged with the defaults. |
| InfoPanel.Classify | Mac_GUI/main.py:170-178 | Green iff "Activated". Orange iff "Unactivated" or the placeholder. Red otherwise. |
| InfoPanel.ModelName | Mac_GUI/main.py:191-193 | The model label is a marketing name from the table, or else the product code (`"Unknown"` when there is none). |
| InfoPanel.StatusTip | Mac_GUI/main.py:170-178 | Each colour has its own tooltip: "✅ Activated" iff green, "⚠ Not activated" iff orange, "❌ Unknown" iff red. |
| InfoPanel.Render | Mac_GUI/main.py:164-207 | The activation label is green iff the raw state is "Activated". The dot's tooltip matches its colour. The model label is `ModelName` of the normalised snapshot, and the iOS label its `ProductVersion` (the placeholder when absent). A `UniqueDeviceID` given in the snapshot is shown as it is. |
| InfoPanel.RenderNothing | Mac_GUI/main.py:164-207 | With no snapshot, every label shows the placeholder, and both the dot and the activation label are orange. |
| InfoPanel.RenderStatus | Mac_GUI/main.py:169-178 | The status dot is classified on the STRIPPED activation state of the normalised snapshot, with "" when that state is absent. |
| InfoPanel.ModelNameCases | Mac_GUI/main.py:181-193 | The model label shows the marketing name when the code has one, else the code itself, and "Unknown" when there is no code. |
| InfoPanel.GreenLabelMeansGreenDot | Mac_GUI/main.py:198-199 | A green activation label always comes with a green status dot. |
| InfoPanel.PaddedStateSplitsColours | Mac_GUI/main.py:169 | The converse fails. `" Activated"` gives a green dot beside an orange label, because the dot strips the state and the label does not. |
| InfoPanel.MissingStateIsRed | Mac_GUI/main.py:169 | A non-empty snapshot without an activation state gives a red dot, and a placeholder label in orange. |
| InfoPanel.FailedPollShowsPlaceholders | Mac_GUI/main.py:370-371 | A failed poll makes the panel show placeholders everywhere, never values left over from an earlier poll. |
| Worker.RunTrace | Mac_GUI/main.py:78-101 | Progress 100 is emitted iff no stop was seen before the `finally` check. It is the only progress value `run` emits. |
| Worker.StoppedAtEntryIsSilent | Mac_GUI/main.py:80-81 | A worker already stopped at entry emits nothing. |
| Worker.CompletedRunTrace | Mac_GUI/main.py:90-94 | With no stop, a procedure that returns emits exactly [stage "done", success, progress 100]. |
| Worker.FailedRunTrace | Mac_GUI/main.py:96-98 | With no stop, a procedure that raises emits exactly [error(`str(e)`), progress 100]. |
| Worker.EscapedRunTrace | Mac_GUI/main.py:99-101 | An exception not caught by `except Exception` still emits progress 100 from `finally`. |
| Worker.NoEventAfterStop | Mac_GUI/main.py:78-101 | Every event emitted is guarded by a checkpoint before the first one that reads `_stopped` as true. |
| Worker.StopBeforeVerdictIsSilent | Mac_GUI/main.py:92-101 | A stop that lands during the procedure suppresses success, error and progress. |
| Worker.StopAfterVerdictKeepsSuccess | Mac_GUI/main.py:92-100 | A stop that lands after the verdict checkpoint keeps a success that was already emitted, and suppresses only progress 100. |
| Worker.AtMostOneVerdict | Mac_GUI/main.py:78-101 | Every trace has at most three events and at most one success-or-error. Progress comes only last. |
| Events.EventBus.constructor | Mac_GUI/main.py:50 | The shared emitter starts with nothing emitted. |
| Events.EventBus.Emit | Mac_GUI/main.py:41-50 | Emitting a signal appends that one event to the trace, after everything emitted before it. |
| Worker.ActivatorWorker.constructor | Mac_GUI/main.py:65-69 | A new worker keeps its `auto` and `guid`, and is neither stopped nor running. |
| Worker.ActivatorWorker.Stop | Mac_GUI/main.py:71-73 | `stop()` sets `_stopped`, requests interruption, and leaves the thread running. |
| Worker.ActivatorWorker.Start | Mac_GUI/main.py:408 | `start()` makes the thread running and leaves the flags alone. |
| Worker.ActivatorWorker.Exit | Mac_GUI/main.py:414-416 | The thread stops running and the flags are left alone. |
| Worker.ActivatorWorker.Run | Mac_GUI/main.py:78-101 | `run` appends exactly `RunTrace(old _stopped, outcome, stop schedule)` to the emitter's trace. The flag is set iff it was set before or a stop landed. |
| Controller.Missing | Mac_GUI/main.py:338 | The filter never yields more names than it was given. Which names it keeps is stated by MissingSpec. |
| Controller.MissingSpec | Mac_GUI/main.py:338 | The filter keeps exactly the names that are not found, in their given order. |
| Controller.MissingTools | Mac_GUI/main.py:338 | A tool is reported missing iff it is one of the four required tools and is not found. |
| Controller.NothingMissing | Mac_GUI/main.py:338-347 | The missing list is empty iff every one of the four tools is found. |
| Controller.CollectMissing | Mac_GUI/main.py:338 | The loop form of the comprehension computes the same list. |
| Controller.MainWindow.CheckDependencies | Mac_GUI/main.py:337-347 | Reports the missing list, and disables Start iff that list is non-empty. Nothing else changes. |
| Controller.StageLabel | Mac_GUI/main.py:373-382 | The label shown is one of the known stage labels, or else the stage name itself. |
| Controller.StageLabelCases | Mac_GUI/main.py:374-382 | A known stage shows its label. A stage is shown as itself iff it is unknown. |
| Controller.StageLabelsDistinct | Mac_GUI/main.py:374-381 | No two known stages share a label. |
| Controller.ManualGuid | Mac_GUI/main.py:389 | The manual GUID is the stripped field text, upper-cased. It is already in canonical form. |
| Controller.StartGate | Mac_GUI/main.py:384-397 | Nothing happens while a worker runs. Auto mode launches with no GUID. Manual mode refuses an empty GUID or an invalid one, and launches iff the GUID is non-empty and valid. A manual launch passes exactly `ManualGuid(text)`, the stripped and upper-cased field text. |
| Controller.GuidHighlight | Mac_GUI/main.py:349-352 | The field is red iff its stripped text is longer than 8 and the upper-cased GUID is not valid. |
| Controller.HighlightPreviewsGate | Mac_GUI/main.py:349-352 | A red GUID field is always refused at start. An accepted GUID is never red. A refused one is red iff its stripped text is longer than 8. |
| Controller.SavedGuid | Mac_GUI/main.py:443-445 | The GUID saved on success is the one a manual start would launch with. Nothing is saved when such a start would be refused. |
| Controller.RestoredGuid | Mac_GUI/main.py:329-331 | The stored value is restored upper-cased, iff it is non-empty and valid. |
| Controller.SavedGuidIsRestored | Mac_GUI/main.py:329-331 | A GUID saved on success is restored unchanged on the next start-up. |
| Controller.StopTrace | Mac_GUI/main.py:410-418 | After a stop, progress 100 is emitted iff the stop lands after the `finally` check while the thread still runs, and it is the only progress value. A success or an error is emitted only when the stop lands after the verdict check; a success also needs the procedure to have returned. A forced exit emits nothing. |
| Controller.LateStopEmitsEverything | Mac_GUI/main.py:410-418 | A stop that lands after the `finally` check suppresses nothing: the trace is an unstopped run's, for a returned procedure exactly stage "done", success and progress 100. |
| Controller.MainWindow.AtMostOneRunning | Mac_GUI/main.py:385-386 | Any running worker is the current one, so the current thread runs iff some worker does. |
| Controller.MainWindow.WorkerRunning | Mac_GUI/main.py:385 | `self.thread and self.thread.isRunning()`: there is a current worker and its thread runs. |
| Controller.MainWindow.constructor | Mac_GUI/main.py:212-334 | The window starts with no worker, Stop disabled, and Start enabled iff no tool is missing. The panel shows placeholders. The stored GUID is restored into the field. One poll is emitted. |
| Controller.MainWindow.SelectMode | Mac_GUI/main.py:247-252 | The mode radio buttons change the mode and nothing else. |
| Controller.MainWindow.SetGuidText | Mac_GUI/main.py:263 | A text change re-runs the highlight check, so the highlight reflects the new text. |
| Controller.MainWindow.ValidateGuid | Mac_GUI/main.py:349-352 | Sets the highlight from the current text, and nothing else. |
| Controller.MainWindow.AppendLog | Mac_GUI/main.py:424-438 | Appends exactly one entry with the message and level. |
| Controller.MainWindow.DetectDevice | Mac_GUI/main.py:354-371 | Emits nothing while a worker runs. Otherwise it emits exactly one device update, carrying the poll result. |
| Controller.MainWindow.OnStageChange | Mac_GUI/main.py:373-382 | The progress text becomes the stage's label. |
| Controller.MainWindow.StartActivation | Mac_GUI/main.py:384-408 | The outcome is the start gate's decision. A refusal changes nothing. A launch creates exactly one fresh, running, unstopped worker with that gate's `auto` and `guid`. It also disables Start, enables Stop, and sets progress to 0 and the text to "Initializing...". The log is cleared and holds only the start message. |
| Controller.MainWindow.StartWorker | Mac_GUI/main.py:399-408 | The reset and the creation of the worker keep the window invariant. |
| Controller.MainWindow.OnThreadFinished | Mac_GUI/main.py:420-422 | Start is enabled and Stop is disabled. |
| Controller.MainWindow.StopActivation | Mac_GUI/main.py:410-418 | With no running worker, nothing changes. Otherwise the worker is stopped and no longer running, and Start and Stop are reset. The log gains the stop message, plus the termination message when the exit is forced. The trace gains exactly `StopTrace(exit)`, including the progress 100 of a stop that lands after the `finally` check. |
| Controller.MainWindow.CompleteWorker | Mac_GUI/main.py:406-408 | A worker run to completion emits its unstopped trace. Its `finished` signal resets the buttons. |
| Controller.MainWindow.OnSuccess | Mac_GUI/main.py:440-448 | Logs the success. Saves the GUID iff it is non-empty and valid. Polls again. |
| Controller.MainWindow.OnError | Mac_GUI/main.py:450-452 | Logs the error description verbatim after the "Fatal" prefix. |
| Controller.MainWindow.Deliver | Mac_GUI/main.py:321-326 | Each signal reaches its slot and changes only what that slot changes. A progress value outside 0..100 is ignored. |

## Left out

- Widgets, layouts, fonts, style sheets, dark mode, icons and `resource_path`
  are left out. They are presentation only. The panel's output is a
  `PanelView` value and the log is a sequence of (message, level) pairs.
- Real concurrency is left out. This covers `QThread`, the cross-thread queued
  signal dispatch and `wait(2000)`. A stop is modelled by where it lands
  relative to `run`'s checkpoints, and an emitted signal by its place in one
  trace.
- The five `QTimer.singleShot` stage announcements in `run` (lines 84-88) are
  left out. Whether they fire at all depends on an event loop in the worker
  thread, which `run` never starts; `_stopped` does not guard them.
- The 3-second poll timer (lines 222-224) is left out. It is a wall-clock
  trigger; each poll it causes is one `DetectDevice` call.
- Message boxes, the command timeouts, log timestamps, log HTML and the
  `QSettings` storage mechanics are left out. The setting is a single string
  field, with `""` when it is unset.
- The logger patch (lines 53-60) is left out. It is a side effect on another
  module.
- Controller.MainWindow.Deliver: delivery is a separate step on an event taken
  from the trace. The constructor's own poll therefore leaves the panel at its
  placeholders until that event is delivered. Qt would deliver this
  same-thread signal at once.
- Controller.MainWindow.StopActivation: `terminate()` is modelled as ending the
  thread at once. In Qt it is asynchronous, so `isRunning()` could still be
  true just after it.
- Controller.MainWindow.Valid: the highlight of the GUID field is kept in the
  separate `HighlightCurrent` predicate rather than in `Valid`.
  `SetGuidText`, `ValidateGuid` and the constructor establish it. Every other
  method leaves the text and the highlight unchanged.
- Text.Upper: upper-cases only the ASCII letters `a`-`z`. Python's `upper()`
  also maps other letters, for example `ß` to `SS`, which changes the length,
  and `ﬀ` to `FF`, which turns a non-ASCII text into an ASCII one. The field
  accepts any text, so `Controller.ManualGuid`, `Controller.StartGate`,
  `Controller.GuidHighlight`, `Controller.SavedGuid` and
  `Controller.RestoredGuid` can decide differently from the source on text with
  non-ASCII letters. For example, a field ending in `ﬀ` where a valid GUID
  ends in `FF` is launched by the source and refused by the model.
- Worker.ActivatorWorker.Run: a stop that lands after the verdict checkpoint
  (line 92) but before `finally` (line 100) does not take back a success
  already emitted. The code lets that success through, so a cancelled job can
  still report success. The model follows the code, and
  `StopAfterVerdictKeepsSuccess` exhibits it.
- Worker.Outcome: `Escaped` stands for a `BaseException` that `except Exception`
  does not catch. It still runs the `finally` block (line 101), but it then leaves
  `QThread.run`. What follows is up to PyQt's handling of an exception from a
  Python override, which can end the application, and a `SystemExit` ends the
  interpreter. `Controller.MainWindow.CompleteWorker` with `Escaped` instead lets
  `finished` reset the buttons and the window carry on. The model does not
  capture the end of the application in that case.
- InfoPanel.Normalize: `None` stands for every value that is not a dict as well
  as for `None`. The snapshot's values are taken to be strings.
- `str.splitlines()` is modelled with Python's full set of line boundaries.
  `str.strip()` is modelled with Python's `isspace` set.
