/**
 * The signals of the shared `SignalEmitter` object, one constructor per signal,
 * and the emitter itself reduced to what can be stated sequentially: the trace
 * of everything emitted, in emission order.
 */
module Events {

  /** One emitted signal with its arguments. */
  datatype Event =
    | Log(message: string, level: string)   // log_signal(str, str)
    | Progress(percent: int)                 // progress_signal(int)
    | Succeeded                              // success_signal()
    | Failed(description: string)            // error_signal(str)
    | DeviceUpdate(info: map<string, string>) // device_update_signal(dict)
    | StageChanged(stage: string)            // stage_signal(str)

  /** The module-level `emitter` shared by the worker, the poll and the window. */
  class EventBus {
    var emitted: seq<Event>

    constructor ()
      ensures emitted == []
    {
      emitted := [];
    }

    /** `signal.emit(...)`: the event is appended to the trace, after everything emitted before it. */
    method Emit(e: Event)
      modifies this
      ensures emitted == old(emitted) + [e]
    {
      emitted := emitted + [e];
    }
  }
}
