/** Arbitration and watchdog of usb_processing.c, and the events of firmware_main_loop.c. */
module MainLoop {
  import opened Types
  import opened Device
  import opened AsyncUsb
  import UsbLock
  import Hww
  import U2f = U2fRequests

  const OUTSTANDING_OP_TIMEOUT_TICKS := 5

  /** Everything that can happen between two points of the main loop, in any order. */
  datatype Event =
    | TimerTick
    | WorkflowSpin(unlocked: Option<bool>, confirmed: Option<bool>)
    | UsbSpin(poll: Poll)
    | HwwPacket(packet: Packet, poll: Poll)
    | U2fPacket(packet: Packet, env: U2f.Env)
    | HwwWatchdog
    | U2fWatchdog
    | U2fProcess

  function ArbitrateHww(s: Sys, p: Packet, poll: Poll): Result<(Sys, Reply)> {
    if s.owner == Free || (s.owner == HwwStack && Hww.CanGoThrough(p)) then
      var r :- Hww.Execute(s, p, poll);
      Ok((r.0.(watchdog := 0), r.1))
    else
      Ok((s, HwwStatus(Hww.RSP_BUSY)))
  }

  function ArbitrateU2f(s: Sys, p: Packet, env: U2f.Env): Result<(Sys, Reply)> {
    var through :-
      if s.owner == Free then Result.Ok(true)
      else if s.owner == U2fStack then U2f.CanGoThrough(s, p)
      else Result.Ok(false);
    if through then
      var r :- U2f.Execute(s, p, env);
      Ok((r.0.(watchdog := 0), r.1))
    else
      U2f.Error(s, U2f.SW_CONDITIONS_NOT_SATISFIED)
  }

  function CheckTimeout(s: Sys, ctx: Owner): Result<Sys>
    requires ctx != Free
  {
    if s.owner != ctx || s.watchdog <= OUTSTANDING_OP_TIMEOUT_TICKS then Ok(s)
    else
      var s1 :- if ctx == HwwStack then Result.Ok(Hww.AbortOutstanding(s)) else U2f.AbortOutstanding(s);
      UsbLock.Unlock(s1)
  }

  function SpinUnlock(s: Sys, unlocked: Option<bool>): Sys {
    if s.unlock == Pending && unlocked.Some? then s.(unlock := Done(unlocked.value)) else s
  }

  /** The user answering the confirmation on screen. */
  function SpinConfirm(s: Sys, confirmed: Option<bool>): Sys {
    if s.confirm == Pending && confirmed.Some? then
      s.(confirm := Done(confirmed.value),
         log := if confirmed.value then s.log + [Accepted(s.confirmId)] else s.log)
    else s
  }

  function Silent(r: Result<Sys>): Result<(Sys, Reply)> {
    match r
    case Ok(s) => Ok((s, NoReply))
    case Abort(reason) => Abort(reason)
  }

  function Step(s: Sys, e: Event): Result<(Sys, Reply)> {
    match e
    case TimerTick =>
      Ok((if s.watchdog == 0xFFFF then s else s.(watchdog := s.watchdog + 1), NoReply))
    case WorkflowSpin(unlocked, confirmed) =>
      Ok((SpinConfirm(SpinUnlock(s, unlocked), confirmed), NoReply))
    case UsbSpin(poll) => Ok((s.(task := Spin(s.task, poll)), NoReply))
    case HwwPacket(p, poll) => ArbitrateHww(s, p, poll)
    case U2fPacket(p, env) => ArbitrateU2f(s, p, env)
    case HwwWatchdog => Silent(CheckTimeout(s, HwwStack))
    case U2fWatchdog => Silent(CheckTimeout(s, U2fStack))
    case U2fProcess => Silent(U2f.Process(s))
  }

  /** The state after a run, or the abort that ended it. */
  function Run(s: Sys, events: seq<Event>): Result<Sys>
    decreases |events|
  {
    if events == [] then Ok(s)
    else
      var r :- Step(s, events[0]);
      Run(r.0, events[1..])
  }

  function Ticks(n: nat): seq<Event> {
    seq(n, i => TimerTick)
  }

  /** Runs compose. */
  lemma {:induction false} RunConcat(s: Sys, first: seq<Event>, second: seq<Event>)
    ensures Run(s, first + second) == match Run(s, first) case Ok(t) => Run(t, second) case Abort(r) => Abort(r)
    decreases |first|
  {
    if first == [] {
      assert first + second == second;
    } else {
      assert (first + second)[1..] == first[1..] + second;
      if Step(s, first[0]).Ok? {
        RunConcat(Step(s, first[0]).value.0, first[1..], second);
      }
    }
  }
}
