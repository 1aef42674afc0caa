/** The whole way in: frames of both interfaces are put together in interrupts, complete messages go to the
    one shared packet buffer, and the main loop hands them to their stacks. */
module Delivery {
  import opened Types
  import opened UsbFrame
  import opened UsbPacket
  import Shared = SharedPacket

  /** A message that a frame handler has handed over, and the stack it is for. */
  datatype Message = Message(ctx: Shared.Ctx, cmd: byte, cid: u32, data: seq<byte>)

  datatype System = System(hww: Assembly, u2f: Assembly, shared: Shared.State, delivered: seq<Message>) {
    function Receiver(ctx: Shared.Ctx): Assembly {
      match ctx
      case HwwCtx => hww
      case U2fCtx => u2f
    }

    function SetReceiver(ctx: Shared.Ctx, s: Assembly): System {
      match ctx
      case HwwCtx => this.(hww := s)
      case U2fCtx => this.(u2f := s)
    }
  }

  const Idle := System(NoMessage, NoMessage, Shared.Start, [])

  /** A frame that arrives, or a statement of the main loop, in any order. */
  datatype Event = Frame(ctx: Shared.Ctx, f: Report) | Enter(ctx: Shared.Ctx) | Advance

  ghost predicate Inv(s: System) {
    && Shared.Inv(s.shared)
    && Reassembling(s.hww) && Reassembling(s.u2f)
    && |s.delivered| == |s.shared.accepted|
    && forall k :: 0 <= k < |s.delivered| ==> Carries(s.shared.accepted[k], s.delivered[k])
  }

  /** The packet is the message, for its stack, whole and followed by zeros. */
  predicate Carries(d: Shared.Delivery, m: Message) {
    && d.ctx == m.ctx && d.packet.cmd == m.cmd && d.packet.cid == m.cid && d.packet.len == |m.data|
    && |m.data| <= DATA_MAX && d.packet.data == m.data + Zeros(DATA_MAX - |m.data|)
  }

  /** The handlers' answer from `usb_processing_enqueue` is what the shared buffer says. */
  function FrameStep(s: System, ctx: Shared.Ctx, f: Report): System
    requires Shared.Inv(s.shared)
  {
    var (t, action) := HandleFrame(s.Receiver(ctx), f, !s.shared.queued);
    var r := s.SetReceiver(ctx, t);
    match action
    case Deliver(cmd, cid, data) =>
      r.(shared := Shared.EnqueueStep(s.shared, ctx, data, cmd, cid),
         delivered := s.delivered + [Message(ctx, cmd, cid, data)])
    case _ => r
  }

  function Step(s: System, e: Event): System
    requires Shared.Inv(s.shared)
  {
    match e
    case Frame(ctx, f) => FrameStep(s, ctx, f)
    case Enter(ctx) => s.(shared := Shared.Step(s.shared, Shared.Enter(ctx)))
    case Advance => s.(shared := Shared.Step(s.shared, Shared.Advance))
  }

  lemma HandOverKeepsInv(s: System, m: Message)
    requires Inv(s) && !s.shared.queued && |m.data| <= DATA_MAX
    ensures Inv(s.(shared := Shared.EnqueueStep(s.shared, m.ctx, m.data, m.cmd, m.cid), delivered := s.delivered + [m]))
  {
    Shared.StepKeepsInv(s.shared, Shared.Enqueue(m.ctx, m.data, m.cmd, m.cid));
  }

  lemma FrameKeepsInv(s: System, ctx: Shared.Ctx, f: Report)
    requires Inv(s)
    ensures Inv(FrameStep(s, ctx, f))
  {
    var receiver := s.Receiver(ctx);
    ProcessKeepsReassembling(f, receiver);
    var (t, action) := HandleFrame(receiver, f, !s.shared.queued);
    if action.Deliver? {
      HandOverKeepsInv(s.SetReceiver(ctx, t), Message(ctx, action.cmd, action.cid, action.data));
    }
  }

  lemma LoopKeepsInv(s: System, e: Event)
    requires Inv(s) && !e.Frame?
    ensures Inv(Step(s, e))
  {
    match e
    case Enter(ctx) => Shared.StepKeepsInv(s.shared, Shared.Enter(ctx));
    case Advance => Shared.StepKeepsInv(s.shared, Shared.Advance);
  }

  lemma StepKeepsInv(s: System, e: Event)
    requires Inv(s)
    ensures Inv(Step(s, e))
  {
    if e.Frame? {
      FrameKeepsInv(s, e.ctx, e.f);
    } else {
      LoopKeepsInv(s, e);
    }
  }

  ghost function Run(s: System, events: seq<Event>): (r: System)
    requires Inv(s)
    ensures Inv(r)
    decreases |events|
  {
    if events == [] then s
    else
      StepKeepsInv(s, events[0]);
      Run(Step(s, events[0]), events[1..])
  }

  /** For any frames on both interfaces and any interleaving with the main loop: every message that a frame
      handler hands over reaches the stack of its interface once, whole and in order, and at most the last
      is still on its way. */
  lemma EveryMessageArrives(events: seq<Event>)
    ensures
      Inv(Idle) &&
      var s := Run(Idle, events);
      && |s.shared.processed| <= |s.delivered| <= |s.shared.processed| + 1
      && forall k :: 0 <= k < |s.shared.processed| ==> Carries(s.shared.processed[k], s.delivered[k])
  {
    var s := Run(Idle, events);
    assert s.shared.processed <= s.shared.accepted;
  }

  /** A message that is complete is handed over if and only if no packet is waiting or being dropped;
      otherwise its host is told that the device is busy. */
  lemma CompleteIsHandedOver(s: System, ctx: Shared.Ctx, f: Report)
    requires Inv(s)
    requires
      var (t, err) := Process(f, s.Receiver(ctx));
      err == ERR_NONE && !NeedMore(t)
    ensures
      var t := Process(f, s.Receiver(ctx)).0;
      var after := FrameStep(s, ctx, f);
      && after.delivered ==
         (if s.shared.queued then s.delivered else s.delivered + [Message(ctx, t.cmd, t.cid, t.data)])
      && HandleFrame(s.Receiver(ctx), f, !s.shared.queued).1 ==
         (if s.shared.queued then Answer(ERR_CHANNEL_BUSY, Cid(f), true) else Deliver(t.cmd, t.cid, t.data))
  {
  }
}
