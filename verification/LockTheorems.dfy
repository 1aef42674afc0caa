/** What every run of the main loop keeps about the USB lock, and exactly which steps abort. */
module LockTheorems {
  import opened Types
  import opened Device
  import opened AsyncUsb
  import opened MainLoop
  import Hww
  import U2f = U2fRequests

  /** The U2F stack holds the lock exactly while one request is in progress, `last_cmd` names it,
      and the workflow it waits for is alive. */
  predicate U2fInv(s: Sys) {
    var u := s.u2f;
    && (s.owner == U2fStack <==> u.locked)
    && (u.locked <==> u.reg != Idle || u.auth != Idle)
    && (u.reg != Idle ==> u.auth == Idle && u.lastCmd == U2f.INS_REGISTER)
    && (u.auth != Idle ==> u.reg == Idle && u.lastCmd == U2f.INS_AUTHENTICATE)
    && (u.reg == Confirming <==> s.app.outstanding == Register)
    && (u.auth == Confirming <==> s.app.outstanding == Authenticate)
    && (s.app.outstanding != NoConfirm <==> s.confirm != NoWorkflow)
    && (u.reg == Unlocking || u.auth == Unlocking <==> s.unlock != NoWorkflow)
  }

  /** The HWW stack holds the lock exactly while a task owes the host a response. */
  predicate HwwExact(s: Sys) {
    s.owner == HwwStack <==> Busy(s.task)
  }

  /** What remains true of the HWW stack in every run: a response can be owed without the lock
      only if it is an unread result. */
  predicate HwwInv(s: Sys) {
    HwwExact(s) || (s.owner != HwwStack && s.task.ResultAvailable?)
  }

  predicate LockInv(s: Sys) {
    U2fInv(s) && HwwInv(s)
  }

  /** The request continues the U2F operation that holds the lock. */
  predicate Continues(s: Sys, p: Packet) {
    && s.owner == U2fStack
    && p.cmd == U2f.HID_MSG
    && p.cid == s.u2f.cid
    && p.At(1) == s.u2f.lastCmd
    && p.At(0) == 0
    && U2f.ApduLen(p) + U2f.APDU_HEADER_LEN <= p.len
  }

  function ActivePhase(s: Sys): Phase {
    if s.u2f.reg != Idle then s.u2f.reg else s.u2f.auth
  }

  /** The whole list of steps that abort, as conditions on the state before the step. */
  function AbortCause(s: Sys, e: Event): Option<Reason> {
    match e
    case HwwPacket(p, _) =>
      if s.owner == Free && s.task.ResultAvailable? && p.cmd == Hww.HWW_MSG && p.len > 0 then
        if p.At(0) == Hww.REQ_NEW then Some(SpawnWrongState)
        else if p.At(0) == Hww.REQ_RETRY then Some(UnlockWhileFree)
        else None
      else None
    case U2fPacket(p, env) =>
      if !Continues(s, p) then None
      else if ActivePhase(s) == WaitRefresh && env.keystoreLocked then Some(LockedAfterRefresh)
      else if
        && ActivePhase(s) == Confirming
        && (s.u2f.reg == Confirming || U2f.SanityCheck(p, env) == 0)
        && U2f.RequestAppId(p) != s.app.appId then Some(ConfirmArbitration)
      else None
    case U2fProcess => if s.unlock == Done(false) then Some(UnlockFailed) else None
    case _ => None
  }

  lemma RegisterStep(s: Sys, p: Packet, env: U2f.Env)
    requires LockInv(s) && s.u2f.auth == Idle && s.owner != HwwStack
    requires s.u2f.cid == p.cid && p.At(1) == U2f.INS_REGISTER
    ensures
      var r := U2f.CmdRegister(s, p, env);
      && (r.Ok? ==> LockInv(r.value.0) && r.value.0.task == s.task && r.value.0.owner != HwwStack)
      && (r.Abort? <==>
          || (s.u2f.reg == WaitRefresh && env.keystoreLocked)
          || (s.u2f.reg == Confirming && U2f.RequestAppId(p) != s.app.appId))
      && (r.Abort? ==> r.reason == if s.u2f.reg == WaitRefresh then LockedAfterRefresh else ConfirmArbitration)
  {
  }

  lemma AuthenticateStep(s: Sys, p: Packet, env: U2f.Env)
    requires LockInv(s) && s.u2f.reg == Idle && s.owner != HwwStack
    requires s.u2f.cid == p.cid && p.At(1) == U2f.INS_AUTHENTICATE
    ensures
      var r := U2f.CmdAuthenticate(s, p, env);
      && (r.Ok? ==> LockInv(r.value.0) && r.value.0.task == s.task && r.value.0.owner != HwwStack)
      && (r.Abort? <==>
          || (s.u2f.auth == WaitRefresh && env.keystoreLocked)
          || (s.u2f.auth == Confirming && U2f.SanityCheck(p, env) == 0 && U2f.RequestAppId(p) != s.app.appId))
      && (r.Abort? ==> r.reason == if s.u2f.auth == WaitRefresh then LockedAfterRefresh else ConfirmArbitration)
  {
  }

  /** A packet the arbitration lets through to the U2F stack. */
  predicate Through(s: Sys, p: Packet) {
    s.owner == Free || (s.owner == U2fStack && p.At(1) == s.u2f.lastCmd && p.cid == s.u2f.cid)
  }

  lemma U2fMsgStep(s: Sys, p: Packet, env: U2f.Env)
    requires LockInv(s) && Through(s, p) && p.cmd == U2f.HID_MSG
    ensures
      var r := U2f.CmdMsg(s, p, env);
      && (r.Ok? ==> LockInv(r.value.0) && r.value.0.task == s.task && r.value.0.owner != HwwStack)
      && AbortCause(s, U2fPacket(p, env)) == (if r.Abort? then Some(r.reason) else None)
  {
    var s1 := s.(u2f := s.u2f.(cid := p.cid));
    assert LockInv(s1);
    if p.At(1) == U2f.INS_REGISTER {
      RegisterStep(s1, p, env);
    } else if p.At(1) == U2f.INS_AUTHENTICATE {
      AuthenticateStep(s1, p, env);
    }
  }

  lemma U2fPacketStep(s: Sys, p: Packet, env: U2f.Env)
    requires LockInv(s)
    ensures
      var r := ArbitrateU2f(s, p, env);
      && (r.Ok? ==> LockInv(r.value.0) && r.value.0.task == s.task
                    && (r.value.0.owner == HwwStack <==> s.owner == HwwStack))
      && AbortCause(s, U2fPacket(p, env)) == (if r.Abort? then Some(r.reason) else None)
  {
    if Through(s, p) {
      assert ArbitrateU2f(s, p, env).Ok? <==> U2f.Execute(s, p, env).Ok?;
      if p.cmd == U2f.HID_MSG {
        U2fMsgStep(s, p, env);
      }
    }
  }

  lemma HwwPacketStep(s: Sys, p: Packet, poll: Poll)
    requires LockInv(s)
    ensures
      var r := ArbitrateHww(s, p, poll);
      && (r.Ok? ==> LockInv(r.value.0) && (HwwExact(s) ==> HwwExact(r.value.0)))
      && AbortCause(s, HwwPacket(p, poll)) == (if r.Abort? then Some(r.reason) else None)
  {
  }

  /** One step keeps the lock invariant, and it aborts exactly for the causes listed. */
  lemma StepKeepsLock(s: Sys, e: Event)
    requires LockInv(s)
    ensures
      var r := Step(s, e);
      && (r.Ok? ==> LockInv(r.value.0))
      && AbortCause(s, e) == (if r.Abort? then Some(r.reason) else None)
  {
    match e
    case HwwPacket(p, poll) => HwwPacketStep(s, p, poll);
    case U2fPacket(p, env) => U2fPacketStep(s, p, env);
    case _ =>
  }

  /** The watchdog gives up on a task whose result the host has not read. */
  predicate LosesResult(s: Sys, e: Event) {
    && e == HwwWatchdog
    && s.owner == HwwStack
    && s.watchdog > OUTSTANDING_OP_TIMEOUT_TICKS
    && s.task.ResultAvailable?
  }

  /** HWW exactness survives a step if and only if the watchdog does not lose a result. */
  lemma StepKeepsHwwExact(s: Sys, e: Event)
    requires LockInv(s) && HwwExact(s) && Step(s, e).Ok?
    ensures HwwExact(Step(s, e).value.0) <==> !LosesResult(s, e)
  {
    match e
    case HwwPacket(p, poll) => HwwPacketStep(s, p, poll);
    case U2fPacket(p, env) => U2fPacketStep(s, p, env);
    case _ =>
  }

  /** The first cause to abort that a run meets. */
  function FirstAbort(s: Sys, events: seq<Event>): Option<Reason>
    requires LockInv(s)
    decreases |events|
  {
    if events == [] then None
    else if AbortCause(s, events[0]).Some? then AbortCause(s, events[0])
    else
      StepKeepsLock(s, events[0]);
      FirstAbort(Step(s, events[0]).value.0, events[1..])
  }

  function ReasonOf<T>(r: Result<T>): Option<Reason> {
    match r
    case Ok(_) => None
    case Abort(reason) => Some(reason)
  }

  /** Every run keeps the invariant, and it ends in an abort exactly if it meets a listed cause, at the
      first one it meets. */
  lemma {:induction false} RunKeepsLock(s: Sys, events: seq<Event>)
    requires LockInv(s)
    ensures Run(s, events).Ok? ==> LockInv(Run(s, events).value)
    ensures FirstAbort(s, events) == ReasonOf(Run(s, events))
    decreases |events|
  {
    if events != [] {
      StepKeepsLock(s, events[0]);
      if Step(s, events[0]).Ok? {
        RunKeepsLock(Step(s, events[0]).value.0, events[1..]);
      }
    }
  }

  const Excepted := {UnlockWhileFree, SpawnWrongState, LockedAfterRefresh, ConfirmArbitration, UnlockFailed}

  /** The double lock, the busy-but-not, the arbitration and the bad-status aborts are not among them. */
  lemma {:induction false} OnlyExcepted(s: Sys, events: seq<Event>)
    requires LockInv(s)
    ensures FirstAbort(s, events).Some? ==> FirstAbort(s, events).value in Excepted
    decreases |events|
  {
    if events != [] && AbortCause(s, events[0]).None? {
      StepKeepsLock(s, events[0]);
      OnlyExcepted(Step(s, events[0]).value.0, events[1..]);
    }
  }

  /** No step of the run lets the watchdog lose a result. */
  predicate NeverLosesResult(s: Sys, events: seq<Event>)
    decreases |events|
  {
    events != [] ==>
      && !LosesResult(s, events[0])
      && (Step(s, events[0]).Ok? ==> NeverLosesResult(Step(s, events[0]).value.0, events[1..]))
  }

  /** Without a lost result the lock is exact for both stacks in every state of the run, and the
      only aborts left are the three U2F ones. */
  lemma {:induction false} RunExact(s: Sys, events: seq<Event>)
    requires LockInv(s) && HwwExact(s) && NeverLosesResult(s, events)
    ensures Run(s, events).Ok? ==> LockInv(Run(s, events).value) && HwwExact(Run(s, events).value)
    ensures Run(s, events).Abort? ==>
      Run(s, events).reason in {LockedAfterRefresh, ConfirmArbitration, UnlockFailed}
    decreases |events|
  {
    if events != [] {
      StepKeepsLock(s, events[0]);
      if Step(s, events[0]).Ok? {
        StepKeepsHwwExact(s, events[0]);
        RunExact(Step(s, events[0]).value.0, events[1..]);
      }
    }
  }

  lemma BootIsExact()
    ensures LockInv(Boot) && HwwExact(Boot)
  {
  }

  function Request(op: byte): Packet {
    Packet(Hww.HWW_MSG, 1, 1, [op])
  }

  lemma {:induction false} RunTicks(s: Sys, n: nat)
    requires s.watchdog + n <= 0xFFFF
    ensures Run(s, Ticks(n)) == Ok(s.(watchdog := s.watchdog + n))
    decreases n
  {
    if n > 0 {
      assert Ticks(n)[1..] == Ticks(n - 1);
      RunTicks(s.(watchdog := s.watchdog + 1), n - 1);
    }
  }

  /** A run in which the host goes silent just before its task finishes. */
  const SilentHost: seq<Event> := [HwwPacket(Request(Hww.REQ_NEW), StillPending), UsbSpin(Finishes([]))]
  const LostResult: seq<Event> := SilentHost + Ticks(6) + [HwwWatchdog]

  lemma LostResultState()
    ensures Run(Boot, LostResult) == Ok(Boot.(task := ResultAvailable([]), watchdog := 6))
  {
    var done := Boot.(owner := HwwStack, task := ResultAvailable([]));
    var started := Boot.(owner := HwwStack, task := Running(NotWaiting));
    assert Step(Boot, SilentHost[0]) == Ok((started, HwwStatus(Hww.RSP_NOT_READY)));
    assert SilentHost[1..] == [UsbSpin(Finishes([]))];
    assert Run(started, SilentHost[1..]) == Ok(done);
    RunConcat(Boot, SilentHost, Ticks(6));
    RunTicks(done, 6);
    RunConcat(Boot, SilentHost + Ticks(6), [HwwWatchdog]);
  }

  /** A lost result is real: the host goes silent, its request finishes, the watchdog frees the lock,
      and the next retry, or the next new request, ends the run. */
  lemma LostResultAborts()
    ensures Run(Boot, LostResult + [HwwPacket(Request(Hww.REQ_RETRY), StillPending)]) == Abort(UnlockWhileFree)
    ensures Run(Boot, LostResult + [HwwPacket(Request(Hww.REQ_NEW), StillPending)]) == Abort(SpawnWrongState)
  {
    LostResultState();
    RunConcat(Boot, LostResult, [HwwPacket(Request(Hww.REQ_RETRY), StillPending)]);
    RunConcat(Boot, LostResult, [HwwPacket(Request(Hww.REQ_NEW), StillPending)]);
  }

  lemma TimeoutFrees(s: Sys, ctx: Owner)
    requires LockInv(s) && s.watchdog > OUTSTANDING_OP_TIMEOUT_TICKS && ctx != Free
    ensures
      var r := CheckTimeout(s, ctx);
      && r.Ok? && LockInv(r.value) && r.value.watchdog == s.watchdog
      && if s.owner == ctx then
           r.value.owner == Free && r.value.app.outstanding == NoConfirm && r.value.unlock == NoWorkflow
         else r.value == s
  {
  }

  /** A silent host cannot keep the lock: more than five ticks without an accepted packet and the
      next check of both stacks frees it, whatever was in progress. */
  lemma WatchdogFrees(s: Sys)
    requires LockInv(s) && s.watchdog > OUTSTANDING_OP_TIMEOUT_TICKS
    ensures
      var r := Run(s, [HwwWatchdog, U2fWatchdog]);
      && r.Ok? && r.value.owner == Free && LockInv(r.value)
      && (s.owner != Free ==> r.value.app.outstanding == NoConfirm && r.value.unlock == NoWorkflow)
  {
    TimeoutFrees(s, HwwStack);
    var s1 := CheckTimeout(s, HwwStack).value;
    TimeoutFrees(s1, U2fStack);
    var s2 := CheckTimeout(s1, U2fStack).value;
    var events := [HwwWatchdog, U2fWatchdog];
    assert events[1..] == [U2fWatchdog] && events[1..][1..] == [];
    assert Step(s, HwwWatchdog) == Ok((s1, NoReply)) && Step(s1, U2fWatchdog) == Ok((s2, NoReply));
    assert Run(s1, events[1..]) == Ok(s2);
  }

  /** A packet that the arbitration stops changes nothing at all. */
  lemma BlockedChangesNothing(s: Sys, p: Packet, poll: Poll, env: U2f.Env)
    requires LockInv(s)
    ensures s.owner == U2fStack || (s.owner == HwwStack && !Hww.CanGoThrough(p)) ==>
      Step(s, HwwPacket(p, poll)) == Ok((s, HwwStatus(Hww.RSP_BUSY)))
    ensures s.owner == HwwStack || (s.owner == U2fStack && !Through(s, p)) ==>
      Step(s, U2fPacket(p, env)) == Ok((s, StatusWord(U2f.SW_CONDITIONS_NOT_SATISFIED, s.u2f.cid)))
  {
  }
}
