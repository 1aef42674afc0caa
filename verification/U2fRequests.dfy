/** Register and authenticate state machines of the U2F stack (u2f.c). */
module U2fRequests {
  import opened Types
  import opened Device
  import opened U2fApp
  import UsbLock

  const HID_PING: byte := 0x81
  const HID_MSG: byte := 0x83
  const HID_INIT: byte := 0x86
  const HID_WINK: byte := 0x88

  const INS_REGISTER: byte := 1
  const INS_AUTHENTICATE: byte := 2
  const INS_VERSION: byte := 3

  const CID_BROADCAST: u32 := 0xFFFF_FFFF
  const APDU_HEADER_LEN := 7
  const KEYHANDLE_LEN := 64
  const AUTH_ENFORCE: byte := 3
  const AUTH_CHECK_ONLY: byte := 7
  const REFRESH_TIMEOUT: u16 := 25000

  const SW_WRONG_LENGTH: u16 := 0x6700
  const SW_CONDITIONS_NOT_SATISFIED: u16 := 0x6985
  const SW_WRONG_DATA: u16 := 0x6a80
  const SW_INS_NOT_SUPPORTED: u16 := 0x6d00
  const SW_CLA_NOT_SUPPORTED: u16 := 0x6e00

  const ERR_INVALID_LEN: byte := 0x03
  const ERR_INVALID_CID: byte := 0x0b

  /** Answers of the keystore, the flash and the secure chip during one request. */
  datatype Env = Env(
    keystoreLocked: bool,
    initialized: bool,
    keyHandleMatches: bool,
    keyGenerated: bool,
    counterOk: bool,
    signOk: bool,
    randomCid: u32)

  function ApduLen(p: Packet): nat {
    p.At(4) * 0x1_0000 + p.At(5) * 0x100 + p.At(6)
  }

  /** Both request structs hold the 32-byte challenge first, then the app id. */
  function RequestAppId(p: Packet): AppId {
    seq<byte>(32, i requires 0 <= i < 32 => p.At(APDU_HEADER_LEN + 32 + i))
  }

  function ClearState(s: Sys): Sys {
    s.(u2f := s.u2f.(reg := Idle, auth := Idle, locked := false))
  }

  function UnlockU2f(s: Sys): Result<Sys> {
    var s1 :- UsbLock.Unlock(s);
    Ok(ClearState(s1))
  }

  function LockU2f(s: Sys, ins: byte): Result<Sys> {
    var s1 :- UsbLock.Lock(s, U2fStack);
    Ok(s1.(u2f := s1.u2f.(locked := true, lastCmd := ins)))
  }

  function Error(s: Sys, sw: u16): Result<(Sys, Reply)> {
    Ok((s, StatusWord(sw, s.u2f.cid)))
  }

  /** Release the lock and answer with an error. */
  function Fail(s: Sys, sw: u16): Result<(Sys, Reply)> {
    var s1 :- UnlockU2f(s);
    Error(s1, sw)
  }

  /** `_unlock_if_locked`: true if the keystore is usable right away. */
  function UnlockIfLocked(s: Sys, env: Env): (Sys, bool) {
    if env.keystoreLocked then (s.(unlock := Pending), false) else (s, true)
  }

  function AssertUnlocked(s: Sys, env: Env): Result<Sys> {
    if env.keystoreLocked then Abort(LockedAfterRefresh) else Ok(s)
  }

  function SanityCheck(p: Packet, env: Env): u16 {
    if ApduLen(p) < KEYHANDLE_LEN then SW_WRONG_LENGTH
    else if !env.initialized then SW_CONDITIONS_NOT_SATISFIED
    else 0
  }

  // Registration

  function RegisterStartConfirm(s: Sys, appId: AppId): Result<Sys> {
    ConfirmStart(s.(u2f := s.u2f.(reg := Confirming)), Register, appId)
  }

  function RegisterStart(s: Sys, p: Packet, env: Env): Result<(Sys, Reply)> {
    var sw := SanityCheck(p, env);
    if sw != 0 then Fail(s, sw)
    else
      var (s1, unlocked) := UnlockIfLocked(s, env);
      if !unlocked then Error(s1.(u2f := s1.u2f.(reg := Unlocking)), SW_CONDITIONS_NOT_SATISFIED)
      else
        var s2 :- RegisterStartConfirm(s1, RequestAppId(p));
        Error(s2, SW_CONDITIONS_NOT_SATISFIED)
  }

  function RegisterWaitRefresh(s: Sys, p: Packet, env: Env): Result<(Sys, Reply)> {
    var s1 :- AssertUnlocked(s, env);
    var s2 :- RegisterStartConfirm(s1, RequestAppId(p));
    Error(s2, SW_CONDITIONS_NOT_SATISFIED)
  }

  /** The response with the success bytes; it is what the confirmation was asked for. */
  function Success(s: Sys, kind: Confirm, appId: AppId): Result<(Sys, Reply)> {
    Ok((s.(log := s.log + [Signed(kind, appId, s.confirmId)]), U2fSuccess(kind, appId, s.u2f.cid)))
  }

  function RegisterContinue(s: Sys, p: Packet, env: Env): Result<(Sys, Reply)> {
    var r :- ConfirmRetry(s, Register, RequestAppId(p));
    if r.1 == OpNotReady then Error(r.0, SW_CONDITIONS_NOT_SATISFIED)
    else
      var s1 :- UnlockU2f(r.0);
      if r.1 == OpFalse || !env.keyGenerated || !env.signOk then Error(s1, SW_CONDITIONS_NOT_SATISFIED)
      else Success(s1, Register, RequestAppId(p))
  }

  function CmdRegister(s: Sys, p: Packet, env: Env): Result<(Sys, Reply)> {
    if s.u2f.reg != Idle && (s.u2f.lastCmd != INS_REGISTER || s.u2f.cid != p.cid) then
      Abort(RegisterArbitration)
    else
      match s.u2f.reg
      case Idle =>
        var s1 :- LockU2f(s, p.At(1));
        RegisterStart(s1, p, env)
      case Unlocking => Error(s, SW_CONDITIONS_NOT_SATISFIED)
      case WaitRefresh => RegisterWaitRefresh(s, p, env)
      case Confirming => RegisterContinue(s, p, env)
  }

  // Authentication

  /** `_authenticate_verify_key_valid`; zero when the request may be confirmed. */
  function KeyError(p: Packet, env: Env): u16 {
    if !env.keyHandleMatches then SW_WRONG_DATA
    else if p.At(2) == AUTH_CHECK_ONLY then SW_CONDITIONS_NOT_SATISFIED
    else if p.At(2) != AUTH_ENFORCE then SW_INS_NOT_SUPPORTED
    else 0
  }

  function AuthenticateStartConfirm(s: Sys, p: Packet, env: Env): Result<(Sys, Reply)> {
    var sw := KeyError(p, env);
    if sw != 0 then Fail(s, sw)
    else
      var s1 :- ConfirmStart(s.(u2f := s.u2f.(auth := Confirming)), Authenticate, RequestAppId(p));
      Error(s1, SW_CONDITIONS_NOT_SATISFIED)
  }

  function AuthenticateStart(s: Sys, p: Packet, env: Env): Result<(Sys, Reply)> {
    var sw := SanityCheck(p, env);
    if sw != 0 then Fail(s, sw)
    else
      var (s1, unlocked) := UnlockIfLocked(s, env);
      if !unlocked then Error(s1.(u2f := s1.u2f.(auth := Unlocking)), SW_CONDITIONS_NOT_SATISFIED)
      else AuthenticateStartConfirm(s1, p, env)
  }

  function AuthenticateWaitRefresh(s: Sys, p: Packet, env: Env): Result<(Sys, Reply)> {
    var s1 :- AssertUnlocked(s, env);
    AuthenticateStartConfirm(s1, p, env)
  }

  function AuthenticateContinue(s: Sys, p: Packet, env: Env): Result<(Sys, Reply)> {
    var sw := SanityCheck(p, env);
    if sw != 0 then Error(s, sw)
    else
      var r :- ConfirmRetry(s, Authenticate, RequestAppId(p));
      if r.1 == OpNotReady then Error(r.0, SW_CONDITIONS_NOT_SATISFIED)
      else
        var s1 :- UnlockU2f(r.0);
        if r.1 == OpFalse then Error(s1, SW_CONDITIONS_NOT_SATISFIED)
        else if KeyError(p, env) != 0 then Error(s1, KeyError(p, env))
        else if !env.counterOk then Error(s1, SW_CONDITIONS_NOT_SATISFIED)
        else if !env.signOk then Error(s1, SW_WRONG_DATA)
        else Success(s1, Authenticate, RequestAppId(p))
  }

  function CmdAuthenticate(s: Sys, p: Packet, env: Env): Result<(Sys, Reply)> {
    if s.u2f.auth != Idle && (s.u2f.lastCmd != INS_AUTHENTICATE || s.u2f.cid != p.cid) then
      Abort(AuthenticateArbitration)
    else
      match s.u2f.auth
      case Idle =>
        var s1 :- LockU2f(s, p.At(1));
        AuthenticateStart(s1, p, env)
      case Unlocking => Error(s, SW_CONDITIONS_NOT_SATISFIED)
      case WaitRefresh => AuthenticateWaitRefresh(s, p, env)
      case Confirming => AuthenticateContinue(s, p, env)
  }

  // HID commands

  function CmdMsg(s0: Sys, p: Packet, env: Env): Result<(Sys, Reply)> {
    var s := s0.(u2f := s0.u2f.(cid := p.cid));
    if ApduLen(p) + APDU_HEADER_LEN > p.len then Ok((s, EmptyReply(p.cid)))
    else if p.At(0) != 0 then Error(s, SW_CLA_NOT_SUPPORTED)
    else if p.At(1) == INS_REGISTER then CmdRegister(s, p, env)
    else if p.At(1) == INS_AUTHENTICATE then CmdAuthenticate(s, p, env)
    else if p.At(1) == INS_VERSION then
      if ApduLen(p) != 0 then Error(s, SW_WRONG_LENGTH) else Ok((s, U2fVersion(p.cid)))
    else Error(s, SW_INS_NOT_SUPPORTED)
  }

  function CmdPing(s: Sys, p: Packet): Result<(Sys, Reply)> {
    if p.cid == CID_BROADCAST || p.cid == 0 then Ok((s, HidError(ERR_INVALID_CID, p.cid)))
    else Ok((s, HidPing(p.data[..Min(Min(p.len, USB_DATA_MAX_LEN), |p.data|)], p.len, p.cid)))
  }

  function CmdWink(s: Sys, p: Packet): Result<(Sys, Reply)> {
    if p.cid == CID_BROADCAST || p.cid == 0 then Ok((s, HidError(ERR_INVALID_CID, p.cid)))
    else if p.len > 0 then Ok((s, HidError(ERR_INVALID_LEN, p.cid)))
    else Ok((s, HidWink(p.cid)))
  }

  /** A broadcast request is given a random channel, which also becomes the current one. */
  function CmdInit(s: Sys, p: Packet, env: Env): Result<(Sys, Reply)> {
    if p.cid == 0 then Ok((s, HidError(ERR_INVALID_CID, p.cid)))
    else if p.cid == CID_BROADCAST then
      Ok((s.(u2f := s.u2f.(cid := env.randomCid)), HidInit(env.randomCid, p.cid)))
    else Ok((s, HidInit(p.cid, p.cid)))
  }

  function Execute(s: Sys, p: Packet, env: Env): Result<(Sys, Reply)> {
    if p.cmd == HID_PING then CmdPing(s, p)
    else if p.cmd == HID_WINK then CmdWink(s, p)
    else if p.cmd == HID_INIT then CmdInit(s, p, env)
    else if p.cmd == HID_MSG then CmdMsg(s, p, env)
    else Ok((s, InvalidEndpoint(p.cid)))
  }

  function CanGoThrough(s: Sys, p: Packet): Result<bool> {
    if !s.u2f.locked then Abort(BusyButNot)
    else Ok(p.At(1) == s.u2f.lastCmd && p.cid == s.u2f.cid)
  }

  // Background processing and forced abort

  function AbortPhase(s: Sys, phase: Phase): Result<Sys> {
    match phase
    case Unlocking => Ok(ClearState(AbortCurrent(s)))
    case Confirming =>
      var s1 :- ConfirmAbort(s);
      Ok(ClearState(s1))
    case WaitRefresh => Ok(ClearState(s))
    case Idle => Abort(BadAbortStatus)
  }

  function AbortOutstanding(s: Sys): Result<Sys> {
    if !s.u2f.locked then Abort(AbortButNotBusy)
    else if s.u2f.lastCmd == INS_REGISTER then AbortPhase(s, s.u2f.reg)
    else if s.u2f.lastCmd == INS_AUTHENTICATE then AbortPhase(s, s.u2f.auth)
    else Abort(BadAbortCommand)
  }

  /** `rust_workflow_unlock_poll` and its two callers; `refreshed` is the state to enter. */
  function PollUnlock(s: Sys, refreshed: U2f): Result<Sys> {
    if !s.unlock.Done? then Ok(s)
    else if !s.unlock.ok then Abort(UnlockFailed)
    else Ok(s.(unlock := NoWorkflow, u2f := refreshed))
  }

  function ProcessWaitRefresh(s: Sys): Result<Sys> {
    if s.u2f.refreshTimeout == REFRESH_TIMEOUT then UnlockU2f(s)
    else
      Ok(s.(u2f := s.u2f.(refreshTimeout := (s.u2f.refreshTimeout + 1) % 0x1_0000), watchdog := 0))
  }

  function ProcessPhase(s: Sys, phase: Phase, refreshed: U2f): Result<Sys> {
    match phase
    case Unlocking => PollUnlock(s, refreshed)
    case WaitRefresh => ProcessWaitRefresh(s)
    case Idle => Ok(s)
    case Confirming => Ok(s)
  }

  function Process(s: Sys): Result<Sys> {
    if !s.u2f.locked then Ok(s)
    else if s.u2f.lastCmd == INS_REGISTER then
      ProcessPhase(s, s.u2f.reg, s.u2f.(reg := WaitRefresh, refreshTimeout := 0))
    else if s.u2f.lastCmd == INS_AUTHENTICATE then
      ProcessPhase(s, s.u2f.auth, s.u2f.(auth := WaitRefresh, refreshTimeout := 0))
    else Abort(BadProcessCommand)
  }
}
