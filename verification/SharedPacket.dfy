/** The one incoming packet buffer that the interrupt handlers of both stacks fill and the main loop
    empties (usb_processing.c). An interrupt may run between any two statements of the main loop. */
module SharedPacket {
  import opened Types
  import opened Device

  datatype Ctx = HwwCtx | U2fCtx

  /** The statement of `usb_processing_process` the main loop is about to run. */
  datatype Pc =
    | Outside
    | Arbitrate(ctx: Ctx)
    | Arbitrating(ctx: Ctx)
    | ClearFlag(ctx: Ctx)
    | ZeroPacket(ctx: Ctx)
    | Release(ctx: Ctx)

  datatype Delivery = Delivery(ctx: Ctx, packet: Packet)

  datatype State = State(
    queued: bool,
    hwwHasPacket: bool,
    u2fHasPacket: bool,
    packet: Packet,
    pc: Pc,
    accepted: seq<Delivery>,
    processed: seq<Delivery>)
  {
    predicate Has(ctx: Ctx) {
      match ctx case HwwCtx => hwwHasPacket case U2fCtx => u2fHasPacket
    }

    function SetHas(ctx: Ctx, value: bool): State {
      match ctx
      case HwwCtx => this.(hwwHasPacket := value)
      case U2fCtx => this.(u2fHasPacket := value)
    }
  }

  const Blank := Packet(0, 0, 0, Zeros(USB_DATA_MAX_LEN))
  const Start := State(false, false, false, Blank, Outside, [], [])

  /** `_build_packet` overwrites the front of whatever the buffer holds. */
  function BuildPacket(old_: Packet, buf: seq<byte>, cmd: byte, cid: u32): Packet
    requires |old_.data| == USB_DATA_MAX_LEN
  {
    var n := Min(USB_DATA_MAX_LEN, |buf|);
    Packet(cmd, cid, |buf|, buf[..n] + old_.data[n..])
  }

  /** The packet the sender meant: its bytes, then zeros. */
  function Meant(buf: seq<byte>, cmd: byte, cid: u32): Packet {
    var n := Min(USB_DATA_MAX_LEN, |buf|);
    Packet(cmd, cid, |buf|, buf[..n] + Zeros(USB_DATA_MAX_LEN - n))
  }

  datatype Event =
    | Enqueue(ctx: Ctx, buf: seq<byte>, cmd: byte, cid: u32)
    | Enter(ctx: Ctx)
    | Advance

  function EnqueueStep(s: State, ctx: Ctx, buf: seq<byte>, cmd: byte, cid: u32): State
    requires |s.packet.data| == USB_DATA_MAX_LEN
  {
    if s.queued then s
    else
      s.SetHas(ctx, true).(packet := BuildPacket(s.packet, buf, cmd, cid), queued := true,
        accepted := s.accepted + [Delivery(ctx, Meant(buf, cmd, cid))])
  }

  function AdvanceStep(s: State): State {
    match s.pc
    case Outside => s
    case Arbitrate(ctx) =>
      s.(processed := s.processed + [Delivery(ctx, s.packet)], pc := Arbitrating(ctx))
    case Arbitrating(ctx) => s.(pc := ClearFlag(ctx))
    case ClearFlag(ctx) =>
      if s.Has(ctx) then s.SetHas(ctx, false).(pc := ZeroPacket(ctx)) else s.(pc := Release(ctx))
    case ZeroPacket(ctx) => s.(packet := Blank, pc := Release(ctx))
    case Release(ctx) => s.(queued := false, pc := Outside)
  }

  function Step(s: State, e: Event): State
    requires |s.packet.data| == USB_DATA_MAX_LEN
  {
    match e
    case Enqueue(ctx, buf, cmd, cid) => EnqueueStep(s, ctx, buf, cmd, cid)
    case Enter(ctx) => if s.pc == Outside && s.Has(ctx) then s.(pc := Arbitrate(ctx)) else s
    case Advance => AdvanceStep(s)
  }

  /** The buffer still holds the packet that was handed over last. */
  predicate StillThere(s: State) {
    s.processed != [] && s.processed[|s.processed| - 1].packet == s.packet
  }

  /** Which packets are still to be processed at each point, and what the buffer holds meanwhile. */
  predicate Inv(s: State) {
    && |s.packet.data| == USB_DATA_MAX_LEN
    && !(s.hwwHasPacket && s.u2fHasPacket)
    && (s.hwwHasPacket || s.u2fHasPacket ==> s.queued)
    && (!s.queued ==> s.packet == Blank)
    && match s.pc
       case Outside =>
         && (s.queued <==> s.hwwHasPacket || s.u2fHasPacket)
         && (s.queued ==> s.accepted == s.processed + [Delivery(if s.hwwHasPacket then HwwCtx else U2fCtx, s.packet)])
         && (!s.queued ==> s.accepted == s.processed)
       case Arbitrate(ctx) => s.Has(ctx) && s.accepted == s.processed + [Delivery(ctx, s.packet)]
       case Arbitrating(ctx) => s.Has(ctx) && s.accepted == s.processed && StillThere(s)
       case ClearFlag(ctx) => s.Has(ctx) && s.accepted == s.processed && StillThere(s)
       case ZeroPacket(ctx) =>
         !s.hwwHasPacket && !s.u2fHasPacket && s.queued && s.accepted == s.processed && StillThere(s)
       case Release(ctx) =>
         !s.hwwHasPacket && !s.u2fHasPacket && s.queued && s.accepted == s.processed && s.packet == Blank
  }

  lemma BlankGivesMeant(buf: seq<byte>, cmd: byte, cid: u32)
    ensures BuildPacket(Blank, buf, cmd, cid) == Meant(buf, cmd, cid)
  {
    var n := Min(USB_DATA_MAX_LEN, |buf|);
    assert Blank.data[n..] == Zeros(USB_DATA_MAX_LEN - n);
  }

  lemma StepKeepsInv(s: State, e: Event)
    requires Inv(s)
    ensures Inv(Step(s, e))
  {
    if e.Enqueue? {
      BlankGivesMeant(e.buf, e.cmd, e.cid);
    }
  }

  function Run(s: State, events: seq<Event>): (r: State)
    requires Inv(s)
    ensures Inv(r)
    decreases |events|
  {
    if events == [] then s
    else
      StepKeepsInv(s, events[0]);
      Run(Step(s, events[0]), events[1..])
  }

  /** For any interleaving of the two interrupt handlers with the main loop: every accepted packet
      is handed once, in order, unaltered and zero-padded to the stack that accepted it, at most one
      is in flight, and it stays in the buffer until it is dropped, all the time its stack works on it. */
  lemma ExactlyOnce(events: seq<Event>)
    ensures
      var s := Run(Start, events);
      && s.processed <= s.accepted
      && |s.accepted| <= |s.processed| + 1
      && (s.accepted != s.processed ==> s.queued && s.accepted[|s.processed|].packet == s.packet)
      && (s.pc.Arbitrating? || s.pc.ClearFlag? || s.pc.ZeroPacket? ==> StillThere(s))
      && !(s.hwwHasPacket && s.u2fHasPacket)
      && (s.pc == Outside ==> (s.queued <==> s.hwwHasPacket || s.u2fHasPacket))
  {
    assert Inv(Start);
  }

  /** What the host is told matches what is stored: an enqueue is refused exactly when a packet is
      in flight or still being dropped, and then it touches nothing. */
  lemma RefusedTouchesNothing(s: State, ctx: Ctx, buf: seq<byte>, cmd: byte, cid: u32)
    requires Inv(s)
    ensures
      var t := EnqueueStep(s, ctx, buf, cmd, cid);
      && (s.queued ==> t == s)
      && (!s.queued ==> t.packet == Meant(buf, cmd, cid) && t.Has(ctx) && t.pc == Outside)
  {
    BlankGivesMeant(buf, cmd, cid);
  }
}
