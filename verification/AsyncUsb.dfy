/** The executor of HWW api tasks (async_usb.rs). */
module AsyncUsb {
  import opened Types
  import opened Device

  /** What one poll of a task that is not waiting for the host can lead to. */
  datatype Poll = StillPending | AsksNextRequest(out: seq<byte>) | Finishes(result: seq<byte>)

  datatype Copied = Ack(out: seq<byte>) | NotReady | Nack

  /** A task that waits for the host (to fetch a response or to send the next request) makes no
      progress when polled. */
  function Spin(t: Task, poll: Poll): Task {
    if t == Running(NotWaiting) then
      match poll
      case StillPending => t
      case AsksNextRequest(out) => Running(SendingResponse(out))
      case Finishes(result) => ResultAvailable(result)
    else t
  }

  /** `rust_async_usb_on_request_hww`: resume a task awaiting a request, or spawn a new one. */
  function OnRequest(t: Task): Result<Task> {
    if t == Running(AwaitingRequest) then Ok(Running(NotWaiting))
    else if t == Nothing then Ok(Running(NotWaiting))
    else Abort(SpawnWrongState)
  }

  function CopyResponse(t: Task): (Task, Copied) {
    match t
    case Nothing => (t, Nack)
    case Running(SendingResponse(out)) => (Running(AwaitingRequest), Ack(out))
    case Running(_) => (t, NotReady)
    case ResultAvailable(result) => (Nothing, Ack(result))
  }

  /** Only a running task is dropped; an unread result stays. */
  function Cancel(t: Task): Task {
    if t.Running? then Nothing else t
  }

  /** The host still has a response to collect from this task. */
  predicate Busy(t: Task) {
    t.ResultAvailable? || (t.Running? && t.wait != AwaitingRequest)
  }
}
