/** The run-time state shared by usb_processing.c, hww.c, u2f.c, u2f_app.c and the two Rust
    executors (async_usb.rs, workflow.rs), and the terminal outcomes a step can have. */
module Device {
  import opened Types

  const USB_DATA_MAX_LEN := 7609

  /** `blocking_ctx`: which stack holds the USB lock. */
  datatype Owner = Free | HwwStack | U2fStack

  /** The four states of both `u2f_reg_state_t` and `u2f_auth_state_t`. */
  datatype Phase = Idle | Unlocking | WaitRefresh | Confirming

  datatype Confirm = NoConfirm | Register | Authenticate

  /** `UsbTaskState` of async_usb.rs with its `WaitingForNextRequestState`. */
  datatype Wait = NotWaiting | SendingResponse(out: seq<byte>) | AwaitingRequest
  datatype Task = Nothing | Running(wait: Wait) | ResultAvailable(result: seq<byte>)

  /** `TaskState` of workflow.rs, used for the unlock and the confirm workflow. */
  datatype Workflow = NoWorkflow | Pending | Done(ok: bool)

  type AppId = seq<byte>

  datatype U2f = U2f(cid: u32, lastCmd: byte, locked: bool, reg: Phase, auth: Phase, refreshTimeout: u16)

  datatype App = App(outstanding: Confirm, appId: AppId)

  /** What the user and the host observe of U2F confirmations. The identity of a confirmation is
      the position of its `Started` entry. */
  datatype Entry =
    | Started(kind: Confirm, appId: AppId)
    | Accepted(id: nat)
    | Signed(kind: Confirm, appId: AppId, id: nat)

  datatype Sys = Sys(
    owner: Owner,
    watchdog: u16,
    u2f: U2f,
    app: App,
    task: Task,
    unlock: Workflow,
    confirm: Workflow,
    confirmId: nat,
    log: seq<Entry>)

  const Boot := Sys(
    Free, 0, U2f(0, 0, false, Idle, Idle, 0), App(NoConfirm, Zeros(32)),
    Nothing, NoWorkflow, NoWorkflow, 0, [])

  /** A complete packet as the main loop sees it; bytes past the message are zero. */
  datatype Packet = Packet(cmd: byte, cid: u32, len: nat, data: seq<byte>) {
    function At(i: nat): byte {
      if i < |data| then data[i] else 0
    }
  }

  /** One constructor per `Abort` (or Rust `panic!`) on these paths. */
  datatype Reason =
    | LockWhileLocked
    | UnlockWhileFree
    | BusyButNot
    | AbortButNotBusy
    | RegisterArbitration
    | AuthenticateArbitration
    | BadAbortStatus
    | BadAbortCommand
    | BadProcessCommand
    | ConfirmKindUnknown
    | ConfirmArbitration
    | ConfirmAbortWithoutStart
    | UnlockFailed
    | LockedAfterRefresh
    | SpawnWrongState

  /** `Abort` never returns: it ends the run. */
  datatype Result<+T> = Ok(value: T) | Abort(reason: Reason) {
    predicate IsFailure() {
      Abort?
    }

    function PropagateFailure<U>(): Result<U>
      requires Abort?
    {
      Abort(reason)
    }

    function Extract(): T
      requires Ok?
    {
      value
    }
  }

  datatype Reply =
    | NoReply
    | HwwStatus(status: byte)
    | HwwAck(payload: seq<byte>)
    | HwwInfo
    | InvalidEndpoint(cid: u32)
    | StatusWord(sw: u16, cid: u32)
    | U2fVersion(cid: u32)
    | U2fSuccess(kind: Confirm, appId: AppId, cid: u32)
    | HidError(err: byte, cid: u32)
    | HidPing(echo: seq<byte>, len: nat, cid: u32)
    | HidWink(cid: u32)
    | HidInit(channel: u32, cid: u32)
    | EmptyReply(cid: u32)
}
