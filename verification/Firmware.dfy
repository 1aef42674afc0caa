/** The globals of usb_processing.c, hww.c, u2f.c and u2f_app.c with the functions that update them in
    place. Every method is proved to do what the function of the same step does on values. */
module Firmware {
  import opened Types
  import opened Device
  import opened AsyncUsb
  import opened U2fApp
  import Spec = U2fRequests
  import Hww
  import Loop = MainLoop
  import UsbLock
  import Locks = LockTheorems
  import Confirms = ConfirmTheorems

  /** A method that returns leaves the state that was asked for; one that aborts does so where it should. */
  ghost predicate Agrees(wanted: Result<Sys>, got: Result<()>, now: Sys) {
    match wanted
    case Ok(s) => got.Ok? && now == s
    case Abort(reason) => got == Abort(reason)
  }

  ghost predicate Answers(wanted: Result<(Sys, Reply)>, got: Result<Reply>, now: Sys) {
    match wanted
    case Ok(r) => got == Ok(r.1) && now == r.0
    case Abort(reason) => got == Abort(reason)
  }

  class Firmware {
    var owner: Owner
    var watchdog: u16
    var cid: u32
    var lastCmd: byte
    var locked: bool
    var reg: Phase
    var auth: Phase
    var refreshTimeout: u16
    var outstanding: Confirm
    var appId: AppId
    var task: Task
    var unlock: Workflow
    var confirm: Workflow
    ghost var confirmId: nat
    ghost var log: seq<Entry>

    ghost function View(): Sys
      reads this
    {
      Sys(owner, watchdog, U2f(cid, lastCmd, locked, reg, auth, refreshTimeout), App(outstanding, appId),
        task, unlock, confirm, confirmId, log)
    }

    /** What every round keeps: the lock and the confirmation invariant. */
    ghost predicate Valid()
      reads this
    {
      Locks.LockInv(View()) && Confirms.ConfirmInv(View())
    }

    constructor ()
      ensures View() == Boot && Valid()
    {
      owner, watchdog := Free, 0;
      cid, lastCmd, locked, reg, auth, refreshTimeout := 0, 0, false, Idle, Idle, 0;
      outstanding, appId := NoConfirm, Zeros(32);
      task, unlock, confirm := Nothing, NoWorkflow, NoWorkflow;
      confirmId, log := 0, [];
    }

    // usb_processing.c: the lock

    method LockUsb(ctx: Owner) returns (r: Result<()>)
      requires ctx != Free
      modifies this`owner
      ensures Agrees(UsbLock.Lock(old(View()), ctx), r, View())
    {
      if owner != Free {
        return Abort(LockWhileLocked);
      }
      owner := ctx;
      return Ok(());
    }

    method UnlockUsb() returns (r: Result<()>)
      modifies this`owner
      ensures Agrees(UsbLock.Unlock(old(View())), r, View())
    {
      if owner == Free {
        return Abort(UnlockWhileFree);
      }
      owner := Free;
      return Ok(());
    }

    // hww.c over async_usb.rs

    method CopyResponseTo() returns (copied: Copied)
      modifies this`task
      ensures (task, copied) == CopyResponse(old(task))
    {
      match task {
        case Nothing => return Nack;
        case Running(SendingResponse(out)) =>
          task := Running(AwaitingRequest);
          return Ack(out);
        case Running(_) => return NotReady;
        case ResultAvailable(result) =>
          task := Nothing;
          return Ack(result);
      }
    }

    method HwwMaybeWriteResponse() returns (r: Result<Reply>)
      modifies this`task, this`owner
      ensures Answers(Hww.MaybeWriteResponse(old(View())), r, View())
    {
      var copied := CopyResponseTo();
      match copied {
        case Ack(out) =>
          var _ :- UnlockUsb();
          return Ok(HwwAck(out));
        case NotReady => return Ok(HwwStatus(Hww.RSP_NOT_READY));
        case Nack => return Ok(HwwStatus(Hww.RSP_NACK));
      }
    }

    method HwwProcessPacket(poll: Poll) returns (r: Result<Reply>)
      modifies this`task, this`owner
      ensures Answers(Hww.ProcessPacket(old(View()), poll), r, View())
    {
      if task != Nothing && task != Running(AwaitingRequest) {
        return Abort(SpawnWrongState);
      }
      task := Running(NotWaiting);
      var _ :- LockUsb(HwwStack);
      task := Spin(task, poll);
      r := HwwMaybeWriteResponse();
    }

    method HwwExecute(p: Packet, poll: Poll) returns (r: Result<Reply>)
      modifies this`task, this`owner
      ensures Answers(Hww.Execute(old(View()), p, poll), r, View())
    {
      if p.cmd != Hww.HWW_MSG {
        return Ok(InvalidEndpoint(p.cid));
      }
      if p.len == 0 {
        return Ok(HwwStatus(Hww.RSP_NACK));
      }
      if p.At(0) == Hww.REQ_INFO {
        return Ok(HwwInfo);
      }
      if p.At(0) == Hww.REQ_NEW {
        r := HwwProcessPacket(poll);
      } else if p.At(0) == Hww.REQ_RETRY {
        r := HwwMaybeWriteResponse();
      } else {
        r := Ok(HwwStatus(Hww.RSP_NACK));
      }
    }

    method HwwAbortOutstanding()
      modifies this`task
      ensures View() == Hww.AbortOutstanding(old(View()))
    {
      if task.Running? {
        task := Nothing;
      }
    }

    // u2f_app.c

    method AppConfirmStart(kind: Confirm, id: AppId) returns (r: Result<()>)
      modifies this`outstanding, this`appId, this`confirm, this`confirmId, this`log
      ensures Agrees(ConfirmStart(old(View()), kind, id), r, View())
    {
      if kind == NoConfirm {
        return Abort(ConfirmKindUnknown);
      }
      outstanding := kind;
      appId := id;
      confirm := Pending;
      confirmId := |log|;
      log := log + [Started(kind, id)];
      return Ok(());
    }

    method AppConfirmRetry(kind: Confirm, id: AppId) returns (r: Result<AsyncResult>)
      modifies this`outstanding, this`confirm
      ensures
        match ConfirmRetry(old(View()), kind, id)
        case Ok(t) => r == Ok(t.1) && View() == t.0
        case Abort(reason) => r == Abort(reason)
    {
      if outstanding != kind || id != appId {
        return Abort(ConfirmArbitration);
      }
      if !confirm.Done? {
        return Ok(OpNotReady);
      }
      var accepted := confirm.ok;
      confirm := NoWorkflow;
      outstanding := NoConfirm;
      return Ok(if accepted then OpTrue else OpFalse);
    }

    method WorkflowAbortCurrent()
      modifies this`unlock, this`confirm
      ensures View() == AbortCurrent(old(View()))
    {
      unlock := NoWorkflow;
      confirm := NoWorkflow;
    }

    method AppConfirmAbort() returns (r: Result<()>)
      modifies this`outstanding, this`unlock, this`confirm
      ensures Agrees(ConfirmAbort(old(View())), r, View())
    {
      if outstanding == NoConfirm {
        return Abort(ConfirmAbortWithoutStart);
      }
      WorkflowAbortCurrent();
      outstanding := NoConfirm;
      return Ok(());
    }

    // u2f.c: the lock and the two requests

    method ClearState()
      modifies this`reg, this`auth, this`locked
      ensures View() == Spec.ClearState(old(View()))
    {
      reg := Idle;
      auth := Idle;
      locked := false;
    }

    method UnlockU2f() returns (r: Result<()>)
      modifies this`owner, this`reg, this`auth, this`locked
      ensures Agrees(Spec.UnlockU2f(old(View())), r, View())
    {
      var _ :- UnlockUsb();
      ClearState();
      return Ok(());
    }

    method LockU2f(ins: byte) returns (r: Result<()>)
      modifies this`owner, this`locked, this`lastCmd
      ensures Agrees(Spec.LockU2f(old(View()), ins), r, View())
    {
      var _ :- LockUsb(U2fStack);
      locked := true;
      lastCmd := ins;
      return Ok(());
    }

    method Fail(sw: u16) returns (r: Result<Reply>)
      modifies this`owner, this`reg, this`auth, this`locked
      ensures Answers(Spec.Fail(old(View()), sw), r, View())
    {
      var _ :- UnlockU2f();
      return Ok(StatusWord(sw, cid));
    }

    method RegisterStartConfirm(id: AppId)
      modifies this
      ensures Agrees(Spec.RegisterStartConfirm(old(View()), id), Ok(()), View())
    {
      reg := Confirming;
      var started := AppConfirmStart(Register, id);
    }

    method RegisterStart(p: Packet, env: Spec.Env) returns (r: Result<Reply>)
      modifies this
      ensures Answers(Spec.RegisterStart(old(View()), p, env), r, View())
    {
      var sw := Spec.SanityCheck(p, env);
      if sw != 0 {
        r := Fail(sw);
        return;
      }
      if env.keystoreLocked {
        unlock := Pending;
        reg := Unlocking;
      } else {
        RegisterStartConfirm(Spec.RequestAppId(p));
      }
      return Ok(StatusWord(Spec.SW_CONDITIONS_NOT_SATISFIED, cid));
    }

    method RegisterWaitRefresh(p: Packet, env: Spec.Env) returns (r: Result<Reply>)
      modifies this
      ensures Answers(Spec.RegisterWaitRefresh(old(View()), p, env), r, View())
    {
      if env.keystoreLocked {
        return Abort(LockedAfterRefresh);
      }
      RegisterStartConfirm(Spec.RequestAppId(p));
      return Ok(StatusWord(Spec.SW_CONDITIONS_NOT_SATISFIED, cid));
    }

    method RegisterContinue(p: Packet, env: Spec.Env) returns (r: Result<Reply>)
      modifies this
      ensures Answers(Spec.RegisterContinue(old(View()), p, env), r, View())
    {
      var id := Spec.RequestAppId(p);
      var answer :- AppConfirmRetry(Register, id);
      if answer == OpNotReady {
        return Ok(StatusWord(Spec.SW_CONDITIONS_NOT_SATISFIED, cid));
      }
      var _ :- UnlockU2f();
      if answer == OpFalse || !env.keyGenerated || !env.signOk {
        return Ok(StatusWord(Spec.SW_CONDITIONS_NOT_SATISFIED, cid));
      }
      log := log + [Signed(Register, id, confirmId)];
      return Ok(U2fSuccess(Register, id, cid));
    }

    method CmdRegister(p: Packet, env: Spec.Env) returns (r: Result<Reply>)
      modifies this
      ensures Answers(Spec.CmdRegister(old(View()), p, env), r, View())
    {
      if reg != Idle && (lastCmd != Spec.INS_REGISTER || cid != p.cid) {
        return Abort(RegisterArbitration);
      }
      match reg {
        case Idle =>
          var _ :- LockU2f(p.At(1));
          r := RegisterStart(p, env);
        case Unlocking => r := Ok(StatusWord(Spec.SW_CONDITIONS_NOT_SATISFIED, cid));
        case WaitRefresh => r := RegisterWaitRefresh(p, env);
        case Confirming => r := RegisterContinue(p, env);
      }
    }

    method AuthenticateStartConfirm(p: Packet, env: Spec.Env) returns (r: Result<Reply>)
      modifies this
      ensures Answers(Spec.AuthenticateStartConfirm(old(View()), p, env), r, View())
    {
      var sw := Spec.KeyError(p, env);
      if sw != 0 {
        r := Fail(sw);
        return;
      }
      auth := Confirming;
      var started := AppConfirmStart(Authenticate, Spec.RequestAppId(p));
      return Ok(StatusWord(Spec.SW_CONDITIONS_NOT_SATISFIED, cid));
    }

    method AuthenticateStart(p: Packet, env: Spec.Env) returns (r: Result<Reply>)
      modifies this
      ensures Answers(Spec.AuthenticateStart(old(View()), p, env), r, View())
    {
      var sw := Spec.SanityCheck(p, env);
      if sw != 0 {
        r := Fail(sw);
      } else if env.keystoreLocked {
        unlock := Pending;
        auth := Unlocking;
        r := Ok(StatusWord(Spec.SW_CONDITIONS_NOT_SATISFIED, cid));
      } else {
        r := AuthenticateStartConfirm(p, env);
      }
    }

    method AuthenticateWaitRefresh(p: Packet, env: Spec.Env) returns (r: Result<Reply>)
      modifies this
      ensures Answers(Spec.AuthenticateWaitRefresh(old(View()), p, env), r, View())
    {
      if env.keystoreLocked {
        return Abort(LockedAfterRefresh);
      }
      r := AuthenticateStartConfirm(p, env);
    }

    method AuthenticateContinue(p: Packet, env: Spec.Env) returns (r: Result<Reply>)
      modifies this
      ensures Answers(Spec.AuthenticateContinue(old(View()), p, env), r, View())
    {
      var sw := Spec.SanityCheck(p, env);
      if sw != 0 {
        return Ok(StatusWord(sw, cid));
      }
      var id := Spec.RequestAppId(p);
      var answer :- AppConfirmRetry(Authenticate, id);
      if answer == OpNotReady {
        return Ok(StatusWord(Spec.SW_CONDITIONS_NOT_SATISFIED, cid));
      }
      var _ :- UnlockU2f();
      if answer == OpFalse {
        return Ok(StatusWord(Spec.SW_CONDITIONS_NOT_SATISFIED, cid));
      }
      sw := Spec.KeyError(p, env);
      if sw != 0 {
        return Ok(StatusWord(sw, cid));
      }
      if !env.counterOk {
        return Ok(StatusWord(Spec.SW_CONDITIONS_NOT_SATISFIED, cid));
      }
      if !env.signOk {
        return Ok(StatusWord(Spec.SW_WRONG_DATA, cid));
      }
      log := log + [Signed(Authenticate, id, confirmId)];
      return Ok(U2fSuccess(Authenticate, id, cid));
    }

    method CmdAuthenticate(p: Packet, env: Spec.Env) returns (r: Result<Reply>)
      modifies this
      ensures Answers(Spec.CmdAuthenticate(old(View()), p, env), r, View())
    {
      if auth != Idle && (lastCmd != Spec.INS_AUTHENTICATE || cid != p.cid) {
        return Abort(AuthenticateArbitration);
      }
      match auth {
        case Idle =>
          var _ :- LockU2f(p.At(1));
          r := AuthenticateStart(p, env);
        case Unlocking => r := Ok(StatusWord(Spec.SW_CONDITIONS_NOT_SATISFIED, cid));
        case WaitRefresh => r := AuthenticateWaitRefresh(p, env);
        case Confirming => r := AuthenticateContinue(p, env);
      }
    }

    method CmdMsg(p: Packet, env: Spec.Env) returns (r: Result<Reply>)
      modifies this
      ensures Answers(Spec.CmdMsg(old(View()), p, env), r, View())
    {
      cid := p.cid;
      if Spec.ApduLen(p) + Spec.APDU_HEADER_LEN > p.len {
        return Ok(EmptyReply(p.cid));
      }
      if p.At(0) != 0 {
        return Ok(StatusWord(Spec.SW_CLA_NOT_SUPPORTED, cid));
      }
      if p.At(1) == Spec.INS_REGISTER {
        r := CmdRegister(p, env);
      } else if p.At(1) == Spec.INS_AUTHENTICATE {
        r := CmdAuthenticate(p, env);
      } else if p.At(1) == Spec.INS_VERSION {
        r := Ok(if Spec.ApduLen(p) != 0 then StatusWord(Spec.SW_WRONG_LENGTH, cid) else U2fVersion(p.cid));
      } else {
        r := Ok(StatusWord(Spec.SW_INS_NOT_SUPPORTED, cid));
      }
    }

    method CmdInit(p: Packet, env: Spec.Env) returns (r: Result<Reply>)
      modifies this`cid
      ensures Answers(Spec.CmdInit(old(View()), p, env), r, View())
    {
      if p.cid == 0 {
        return Ok(HidError(Spec.ERR_INVALID_CID, p.cid));
      }
      if p.cid == Spec.CID_BROADCAST {
        cid := env.randomCid;
        return Ok(HidInit(cid, p.cid));
      }
      return Ok(HidInit(p.cid, p.cid));
    }

    method U2fExecute(p: Packet, env: Spec.Env) returns (r: Result<Reply>)
      modifies this
      ensures Answers(Spec.Execute(old(View()), p, env), r, View())
    {
      if p.cmd == Spec.HID_MSG {
        r := CmdMsg(p, env);
      } else if p.cmd == Spec.HID_INIT {
        r := CmdInit(p, env);
      } else if p.cmd == Spec.HID_PING || p.cmd == Spec.HID_WINK {
        if p.cid == Spec.CID_BROADCAST || p.cid == 0 {
          return Ok(HidError(Spec.ERR_INVALID_CID, p.cid));
        }
        if p.cmd == Spec.HID_PING {
          return Ok(HidPing(p.data[..Min(Min(p.len, USB_DATA_MAX_LEN), |p.data|)], p.len, p.cid));
        }
        return Ok(if p.len > 0 then HidError(Spec.ERR_INVALID_LEN, p.cid) else HidWink(p.cid));
      } else {
        r := Ok(InvalidEndpoint(p.cid));
      }
    }

    // u2f.c: background processing and forced abort

    method U2fAbortOutstanding() returns (r: Result<()>)
      modifies this
      ensures Agrees(Spec.AbortOutstanding(old(View())), r, View())
    {
      if !locked {
        return Abort(AbortButNotBusy);
      }
      if lastCmd != Spec.INS_REGISTER && lastCmd != Spec.INS_AUTHENTICATE {
        return Abort(BadAbortCommand);
      }
      match if lastCmd == Spec.INS_REGISTER then reg else auth {
        case Unlocking => WorkflowAbortCurrent();
        case Confirming => var _ :- AppConfirmAbort();
        case WaitRefresh =>
        case Idle => return Abort(BadAbortStatus);
      }
      ClearState();
      return Ok(());
    }

    method ProcessWaitRefresh() returns (r: Result<()>)
      modifies this
      ensures Agrees(Spec.ProcessWaitRefresh(old(View())), r, View())
    {
      if refreshTimeout == Spec.REFRESH_TIMEOUT {
        r := UnlockU2f();
        return;
      }
      refreshTimeout := (refreshTimeout + 1) % 0x1_0000;
      watchdog := 0;
      return Ok(());
    }

    method U2fProcess() returns (r: Result<()>)
      requires Valid()
      modifies this
      ensures Agrees(Spec.Process(old(View())), r, View())
      ensures r.Ok? ==> Valid()
      ensures Locks.ReasonOf(r) == Locks.AbortCause(old(View()), Loop.U2fProcess)
    {
      StepValid(View(), Loop.U2fProcess);
      if !locked {
        return Ok(());
      }
      if lastCmd != Spec.INS_REGISTER && lastCmd != Spec.INS_AUTHENTICATE {
        return Abort(BadProcessCommand);
      }
      var phase := if lastCmd == Spec.INS_REGISTER then reg else auth;
      if phase == WaitRefresh {
        r := ProcessWaitRefresh();
        return;
      }
      if phase == Unlocking && unlock.Done? {
        if !unlock.ok {
          return Abort(UnlockFailed);
        }
        unlock := NoWorkflow;
        if lastCmd == Spec.INS_REGISTER {
          reg := WaitRefresh;
        } else {
          auth := WaitRefresh;
        }
        refreshTimeout := 0;
      }
      return Ok(());
    }

    // usb_processing.c: arbitration and watchdog

    method ArbitrateHww(p: Packet, poll: Poll) returns (r: Result<Reply>)
      requires Valid()
      modifies this
      ensures Answers(Loop.ArbitrateHww(old(View()), p, poll), r, View())
      ensures r.Ok? ==> Valid()
      ensures Locks.ReasonOf(r) == Locks.AbortCause(old(View()), Loop.HwwPacket(p, poll))
    {
      StepValid(View(), Loop.HwwPacket(p, poll));
      var canGoThrough := true;
      if owner != Free {
        canGoThrough := owner == HwwStack && Hww.CanGoThrough(p);
      }
      if !canGoThrough {
        return Ok(HwwStatus(Hww.RSP_BUSY));
      }
      var reply :- HwwExecute(p, poll);
      watchdog := 0;
      return Ok(reply);
    }

    method ArbitrateU2f(p: Packet, env: Spec.Env) returns (r: Result<Reply>)
      requires Valid()
      modifies this
      ensures Answers(Loop.ArbitrateU2f(old(View()), p, env), r, View())
      ensures r.Ok? ==> Valid()
      ensures Locks.ReasonOf(r) == Locks.AbortCause(old(View()), Loop.U2fPacket(p, env))
    {
      StepValid(View(), Loop.U2fPacket(p, env));
      var canGoThrough := true;
      if owner != Free {
        if owner == U2fStack {
          if !locked {
            return Abort(BusyButNot);
          }
          canGoThrough := p.At(1) == lastCmd && p.cid == cid;
        } else {
          canGoThrough := false;
        }
      }
      if !canGoThrough {
        return Ok(StatusWord(Spec.SW_CONDITIONS_NOT_SATISFIED, cid));
      }
      var reply :- U2fExecute(p, env);
      watchdog := 0;
      return Ok(reply);
    }

    method CheckLockTimeout(ctx: Owner) returns (r: Result<()>)
      requires Valid() && ctx != Free
      modifies this
      ensures Agrees(Loop.CheckTimeout(old(View()), ctx), r, View())
      ensures r.Ok? ==> Valid()
      ensures Locks.ReasonOf(r) == Locks.AbortCause(old(View()), WatchdogOf(ctx))
    {
      StepValid(View(), WatchdogOf(ctx));
      if owner != ctx || watchdog <= Loop.OUTSTANDING_OP_TIMEOUT_TICKS {
        return Ok(());
      }
      if ctx == HwwStack {
        HwwAbortOutstanding();
      } else {
        var done := U2fAbortOutstanding();
      }
      r := UnlockUsb();
    }

    method SpinWorkflows(unlocked: Option<bool>, confirmed: Option<bool>)
      requires Valid()
      modifies this`unlock, this`confirm, this`log
      ensures Valid()
      ensures View() == Loop.SpinConfirm(Loop.SpinUnlock(old(View()), unlocked), confirmed)
    {
      StepValid(View(), Loop.WorkflowSpin(unlocked, confirmed));
      if unlock == Pending && unlocked.Some? {
        unlock := Done(unlocked.value);
      }
      if confirm == Pending && confirmed.Some? {
        confirm := Done(confirmed.value);
        if confirmed.value {
          log := log + [Accepted(confirmId)];
        }
      }
    }

    method TimerTick()
      requires Valid()
      modifies this`watchdog
      ensures Valid()
      ensures Answers(Loop.Step(old(View()), Loop.TimerTick), Ok(NoReply), View())
    {
      StepValid(View(), Loop.TimerTick);
      if watchdog != 0xFFFF {
        watchdog := watchdog + 1;
      }
    }

    /** The timer interrupt, some number of times. */
    method Ticks(n: nat)
      requires Valid()
      modifies this`watchdog
      ensures Valid() && Agrees(Loop.Run(old(View()), Loop.Ticks(n)), Ok(()), View())
    {
      for i := 0 to n
        invariant Valid() && Loop.Run(old(View()), Loop.Ticks(n)) == Loop.Run(View(), Loop.Ticks(n - i))
      {
        Unfold(View(), Loop.Ticks(n - i));
        assert Loop.Ticks(n - i)[1..] == Loop.Ticks(n - i - 1);
        TimerTick();
      }
    }

    /** `usb_processing_process` for either stack: the buffered packet, if any, then the watchdog, and
        timer interrupts before each. */
    method UsbProcessHww(p: Option<Packet>, poll: Poll, ticks: TickCounts) returns (r: Result<()>)
      requires Valid()
      modifies this
      ensures r.Ok? ==> Valid()
      ensures Agrees(Loop.Run(old(View()), HwwEvents(p, poll, ticks)), r, View())
    {
      Loop.RunConcat(View(), Loop.Ticks(ticks.packet), HwwPackets(p, poll) + Checks(ticks, Loop.HwwWatchdog));
      Ticks(ticks.packet);
      Loop.RunConcat(View(), HwwPackets(p, poll), Checks(ticks, Loop.HwwWatchdog));
      if p.Some? {
        Unfold(View(), HwwPackets(p, poll));
        var reply :- ArbitrateHww(p.value, poll);
      }
      r := Check(HwwStack, ticks);
    }

    method UsbProcessU2f(p: Option<Packet>, env: Spec.Env, ticks: TickCounts) returns (r: Result<()>)
      requires Valid()
      modifies this
      ensures r.Ok? ==> Valid()
      ensures Agrees(Loop.Run(old(View()), U2fEvents(p, env, ticks)), r, View())
    {
      Loop.RunConcat(View(), Loop.Ticks(ticks.packet), U2fPackets(p, env) + Checks(ticks, Loop.U2fWatchdog));
      Ticks(ticks.packet);
      Loop.RunConcat(View(), U2fPackets(p, env), Checks(ticks, Loop.U2fWatchdog));
      if p.Some? {
        Unfold(View(), U2fPackets(p, env));
        var reply :- ArbitrateU2f(p.value, env);
      }
      r := Check(U2fStack, ticks);
    }

    method Check(ctx: Owner, ticks: TickCounts) returns (r: Result<()>)
      requires Valid() && ctx != Free
      modifies this
      ensures r.Ok? ==> Valid()
      ensures Agrees(Loop.Run(old(View()), Checks(ticks, WatchdogOf(ctx))), r, View())
    {
      Loop.RunConcat(View(), Loop.Ticks(ticks.check), [WatchdogOf(ctx)]);
      Ticks(ticks.check);
      Unfold(View(), [WatchdogOf(ctx)]);
      r := CheckLockTimeout(ctx);
    }

    method SpinAll(unlocked: Option<bool>, confirmed: Option<bool>, poll: Poll)
      requires Valid()
      modifies this
      ensures Valid() && Agrees(Loop.Run(old(View()), SpinEvents(unlocked, confirmed, poll)), Ok(()), View())
    {
      Unfold(View(), SpinEvents(unlocked, confirmed, poll));
      SpinWorkflows(unlocked, confirmed);
      Unfold(View(), SpinEvents(unlocked, confirmed, poll)[1..]);
      StepValid(View(), Loop.UsbSpin(poll));
      task := Spin(task, poll);
    }

    method ProcessU2f(i: Inputs) returns (r: Result<()>)
      requires Valid()
      modifies this
      ensures r.Ok? ==> Valid()
      ensures Agrees(Loop.Run(old(View()), AfterHww(i)), r, View())
    {
      Loop.RunConcat(View(), U2fEvents(i.u2f, i.env, i.u2fTicks), Loop.Ticks(i.lastTicks) + [Loop.U2fProcess]);
      var _ :- UsbProcessU2f(i.u2f, i.env, i.u2fTicks);
      Loop.RunConcat(View(), Loop.Ticks(i.lastTicks), [Loop.U2fProcess]);
      Ticks(i.lastTicks);
      Unfold(View(), [Loop.U2fProcess]);
      r := U2fProcess();
    }

    method ProcessBoth(i: Inputs) returns (r: Result<()>)
      requires Valid()
      modifies this
      ensures r.Ok? ==> Valid()
      ensures Agrees(Loop.Run(old(View()), AfterSpins(i)), r, View())
    {
      Loop.RunConcat(View(), HwwEvents(i.hww, i.hwwPoll, i.hwwTicks), AfterHww(i));
      var _ :- UsbProcessHww(i.hww, i.hwwPoll, i.hwwTicks);
      r := ProcessU2f(i);
    }

    /** One round of the main loop, with timer interrupts between its parts, is the run of its events. It
        keeps the invariants and aborts exactly for the first cause among these events. */
    method LoopOnce(i: Inputs) returns (r: Result<()>)
      requires Valid()
      modifies this
      ensures r.Ok? ==> Valid()
      ensures Agrees(Loop.Run(old(View()), Round(i)), r, View())
      ensures Locks.ReasonOf(r) == Locks.FirstAbort(old(View()), Round(i))
    {
      Locks.RunKeepsLock(View(), Round(i));
      Loop.RunConcat(View(), SpinEvents(i.unlocked, i.confirmed, i.poll), AfterSpins(i));
      SpinAll(i.unlocked, i.confirmed, i.poll);
      r := ProcessBoth(i);
    }
  }

  lemma StepValid(s: Sys, e: Loop.Event)
    requires Locks.LockInv(s) && Confirms.ConfirmInv(s)
    ensures
      var r := Loop.Step(s, e);
      && (r.Ok? ==> Locks.LockInv(r.value.0) && Confirms.ConfirmInv(r.value.0))
      && Locks.ReasonOf(r) == Locks.AbortCause(s, e)
  {
    Locks.StepKeepsLock(s, e);
    if Loop.Step(s, e).Ok? {
      Confirms.StepKeepsConfirm(s, e);
    }
  }

  function WatchdogOf(ctx: Owner): Loop.Event {
    if ctx == HwwStack then Loop.HwwWatchdog else Loop.U2fWatchdog
  }

  /** The firmware from power on, for any number of rounds with any input and any ticks of the timer:
      while it lasts, the lock invariant holds and every signature in the log was confirmed; and it can
      only end in one of the aborts listed. */
  method Serve(rounds: seq<Inputs>) returns (f: Firmware, r: Result<()>)
    ensures fresh(f)
    ensures r.Ok? ==> f.Valid()
    ensures r.Abort? ==> r.reason in Locks.Excepted
  {
    f := new Firmware();
    r := Ok(());
    for i := 0 to |rounds|
      invariant fresh(f) && r.Ok? && f.Valid()
    {
      Locks.OnlyExcepted(f.View(), Round(rounds[i]));
      r := f.LoopOnce(rounds[i]);
      if r.Abort? {
        return;
      }
    }
  }

  /** How often the timer interrupts before a stack's packet and before its timeout test. */
  datatype TickCounts = TickCounts(packet: nat, check: nat)

  /** What comes in during one round: answers of the user and of the executor, at most one packet for
      each stack, and timer ticks. */
  datatype Inputs = Inputs(
    unlocked: Option<bool>, confirmed: Option<bool>, poll: Poll,
    hww: Option<Packet>, hwwPoll: Poll, hwwTicks: TickCounts,
    u2f: Option<Packet>, env: Spec.Env, u2fTicks: TickCounts, lastTicks: nat)

  function SpinEvents(unlocked: Option<bool>, confirmed: Option<bool>, poll: Poll): seq<Loop.Event> {
    [Loop.WorkflowSpin(unlocked, confirmed), Loop.UsbSpin(poll)]
  }

  function HwwPackets(p: Option<Packet>, poll: Poll): seq<Loop.Event> {
    if p.Some? then [Loop.HwwPacket(p.value, poll)] else []
  }

  function U2fPackets(p: Option<Packet>, env: Spec.Env): seq<Loop.Event> {
    if p.Some? then [Loop.U2fPacket(p.value, env)] else []
  }

  function Checks(ticks: TickCounts, watchdog: Loop.Event): seq<Loop.Event> {
    Loop.Ticks(ticks.check) + [watchdog]
  }

  function HwwEvents(p: Option<Packet>, poll: Poll, ticks: TickCounts): seq<Loop.Event> {
    Loop.Ticks(ticks.packet) + (HwwPackets(p, poll) + Checks(ticks, Loop.HwwWatchdog))
  }

  function U2fEvents(p: Option<Packet>, env: Spec.Env, ticks: TickCounts): seq<Loop.Event> {
    Loop.Ticks(ticks.packet) + (U2fPackets(p, env) + Checks(ticks, Loop.U2fWatchdog))
  }

  // The events of one round, in the order of firmware_main_loop.c

  function AfterHww(i: Inputs): seq<Loop.Event> {
    U2fEvents(i.u2f, i.env, i.u2fTicks) + (Loop.Ticks(i.lastTicks) + [Loop.U2fProcess])
  }

  function AfterSpins(i: Inputs): seq<Loop.Event> {
    HwwEvents(i.hww, i.hwwPoll, i.hwwTicks) + AfterHww(i)
  }

  function Round(i: Inputs): seq<Loop.Event> {
    SpinEvents(i.unlocked, i.confirmed, i.poll) + AfterSpins(i)
  }

  lemma Unfold(s: Sys, events: seq<Loop.Event>)
    requires events != []
    ensures Loop.Run(s, events) ==
      match Loop.Step(s, events[0])
      case Ok(r) => Loop.Run(r.0, events[1..])
      case Abort(reason) => Abort(reason)
  {
  }
}
