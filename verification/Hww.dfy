/** Request handling of the HWW stack (hww.c). */
module Hww {
  import opened Types
  import opened Device
  import opened AsyncUsb
  import UsbLock

  const HWW_MSG: byte := 0xC1

  const REQ_NEW: byte := 0
  const REQ_RETRY: byte := 1
  const REQ_CANCEL: byte := 2
  const REQ_INFO: byte := 0x69

  const RSP_NOT_READY: byte := 1
  const RSP_BUSY: byte := 2
  const RSP_NACK: byte := 3

  function MaybeWriteResponse(s: Sys): Result<(Sys, Reply)> {
    var (t, copied) := CopyResponse(s.task);
    match copied
    case Ack(out) =>
      var s1 :- UsbLock.Unlock(s.(task := t));
      Ok((s1, HwwAck(out)))
    case NotReady => Ok((s.(task := t), HwwStatus(RSP_NOT_READY)))
    case Nack => Ok((s.(task := t), HwwStatus(RSP_NACK)))
  }

  function ProcessPacket(s: Sys, poll: Poll): Result<(Sys, Reply)> {
    var t :- OnRequest(s.task);
    var s1 :- UsbLock.Lock(s.(task := t), HwwStack);
    MaybeWriteResponse(s1.(task := Spin(s1.task, poll)))
  }

  function Msg(s: Sys, p: Packet, poll: Poll): Result<(Sys, Reply)> {
    if p.len == 0 then Ok((s, HwwStatus(RSP_NACK)))
    else if p.At(0) == REQ_INFO then Ok((s, HwwInfo))
    else if p.At(0) == REQ_NEW then ProcessPacket(s, poll)
    else if p.At(0) == REQ_RETRY then MaybeWriteResponse(s)
    else Ok((s, HwwStatus(RSP_NACK)))
  }

  predicate CanGoThrough(p: Packet) {
    p.len == 1 && (p.At(0) == REQ_CANCEL || p.At(0) == REQ_RETRY)
  }

  function Execute(s: Sys, p: Packet, poll: Poll): Result<(Sys, Reply)> {
    if p.cmd == HWW_MSG then Msg(s, p, poll) else Ok((s, InvalidEndpoint(p.cid)))
  }

  function AbortOutstanding(s: Sys): Sys {
    s.(task := Cancel(s.task))
  }
}
