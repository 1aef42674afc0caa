/** The frame handler of the U2F stack and its per-channel timeouts (u2f_packet.c). */
module U2fPacket {
  import opened Types
  import opened Timeouts
  import opened UsbFrame
  import opened UsbPacket
  import Queue

  const ERR_MSG_TIMEOUT: byte := 0x05

  /** What `u2f_packet_process` does to the timeouts: beginning a message starts one, an accepted frame
      starts its channel's time again, and whenever the assembly is reset the channel in it stops being
      timed. */
  function SlotsAfter(slots: seq<Slot>, s: Assembly, f: Report, enqueued: bool): seq<Slot> {
    var (t, err) := Process(f, s);
    var started := Started(slots, f, s);
    if err == ERR_IGNORE || err == ERR_CHANNEL_BUSY then started
    else if err != ERR_NONE then Disabled(started, t.cid)
    else if NeedMore(t) then Restarted(started, Cid(f))
    else if enqueued then Disabled(Restarted(started, Cid(f)), t.cid)
    else Disabled(Disabled(Restarted(started, Cid(f)), Cid(f)), t.cid)
  }

  /** A frame that is accepted, or that resets the assembly, is of the channel being received or takes
      the receiver over: the timeouts of every third channel are left alone. Once a message is delivered,
      refused or dropped, its channel is no longer timed. */
  lemma FrameTouchesOwnSlots(slots: seq<Slot>, s: Assembly, f: Report, enqueued: bool)
    ensures
      var after := SlotsAfter(slots, s, f, enqueued);
      var (t, action) := HandleFrame(s, f, enqueued);
      && |after| == |slots|
      && (forall i | 0 <= i < |slots| && slots[i].cid !in {0, Cid(f), s.cid} :: after[i] == slots[i])
      && (action.Silent? || (action.Answer? && !action.clears) ==> after == slots)
      && (action.Deliver? || (action.Answer? && action.clears) ==>
          forall i | 0 <= i < |slots| :: after[i].cid == 0 || after[i].cid != Process(f, s).0.cid)
      && (action.WaitMore? ==> forall i | 0 <= i < |slots| && slots[i].cid == t.cid :: !Due(after[i]))
  {
  }

  /** The static state of u2f_packet.c. */
  class Handler {
    const timers: Timers
    const assembly: Assembler
    const queue: Queue.Ring

    ghost predicate Valid()
      reads this, assembly, assembly.data, queue, queue.items
    {
      && assembly.timers == timers
      && assembly.data != queue.items
      && assembly.Valid()
      && queue.Valid() && queue.itemSize == REPORT_SIZE
    }

    constructor (timers: Timers)
      requires timers.Valid()
      ensures Valid() && this.timers == timers && assembly.View() == NoMessage
      ensures fresh(assembly) && fresh(assembly.data) && fresh(queue) && fresh(queue.items)
    {
      this.timers := timers;
      assembly := new Assembler(timers);
      queue := new Queue.Ring(REPORT_SIZE);
    }

    method ResetState()
      requires Valid()
      modifies timers.slots, assembly, assembly.data, queue, queue.items
      ensures Valid() && queue.slots == old(queue.slots)
      ensures timers.slots[..] == Disabled(old(timers.slots[..]), old(assembly.cid))
      ensures assembly.View() == NoMessage && queue.Contents() == []
    {
      queue.Clear();
      timers.Disable(assembly.cid);
      assembly.Reset();
    }

    method QueueError(err: byte, cid: u32)
      requires Valid()
      modifies queue, queue.items
      ensures Valid() && queue.slots == old(queue.slots) && assembly.View() == old(assembly.View())
      ensures queue.Contents() == QueueAfter(old(queue.Contents()), Answer(err, cid, false), queue.slots - 1)
    {
      var _ := queue.Push(ErrorFrame(err, cid));
    }

    /** The message is complete: hand it over, or tell the host that the device is busy. */
    method Finish(cid: u32, enqueued: bool) returns (action: Action)
      requires Valid()
      modifies timers.slots, assembly, assembly.data, queue, queue.items
      ensures Valid() && queue.slots == old(queue.slots) && assembly.View() == NoMessage
      ensures action == if enqueued then Deliver(old(assembly.cmd), old(assembly.cid), old(assembly.View().data))
                        else Answer(ERR_CHANNEL_BUSY, cid, true)
      ensures timers.slots[..] ==
        Disabled(if enqueued then old(timers.slots[..]) else Disabled(old(timers.slots[..]), cid), old(assembly.cid))
      ensures queue.Contents() == QueueAfter(old(queue.Contents()), action, queue.slots - 1)
    {
      if enqueued {
        action := Deliver(assembly.cmd, assembly.cid, assembly.data[..assembly.pos]);
        ResetState();
      } else {
        timers.Disable(cid);
        ResetState();
        action := Answer(ERR_CHANNEL_BUSY, cid, true);
        QueueError(ERR_CHANNEL_BUSY, cid);
      }
    }

    /** `u2f_packet_process`. */
    method ProcessFrame(f: Report, enqueued: bool) returns (action: Action)
      requires Valid()
      modifies timers.slots, assembly, assembly.data, queue, queue.items
      ensures Valid() && queue.slots == old(queue.slots)
      ensures (assembly.View(), action) == HandleFrame(old(assembly.View()), f, enqueued)
      ensures timers.slots[..] == SlotsAfter(old(timers.slots[..]), old(assembly.View()), f, enqueued)
      ensures queue.Contents() == QueueAfter(old(queue.Contents()), action, queue.slots - 1)
    {
      var err := assembly.ProcessFrame(f);
      if err == ERR_IGNORE {
        return Silent;
      }
      if err == ERR_NONE {
        timers.Restart(Cid(f));
        if assembly.pos < assembly.len {
          return WaitMore;
        }
        action := Finish(Cid(f), enqueued);
      } else if err == ERR_CHANNEL_BUSY {
        action := Answer(err, Cid(f), false);
        QueueError(err, Cid(f));
      } else {
        ResetState();
        action := Answer(err, Cid(f), true);
        QueueError(err, Cid(f));
      }
    }

    /** `u2f_packet_timeout`: forget the channel, drop its unfinished message, tell the host. */
    method Timeout(cid: u32)
      requires Valid()
      modifies timers.slots, assembly, assembly.data, queue, queue.items
      ensures Valid() && timers.slots[..] == Disabled(old(timers.slots[..]), cid)
      ensures assembly.View() == if cid == old(assembly.cid) then NoMessage else old(assembly.View())
      ensures queue.slots == old(queue.slots)
      ensures queue.Contents() ==
        QueueAfter(old(queue.Contents()), Answer(ERR_MSG_TIMEOUT, cid, cid == old(assembly.cid)), queue.slots - 1)
    {
      timers.Disable(cid);
      if cid == assembly.cid {
        ResetState();
      }
      var _ := queue.Push(ErrorFrame(ERR_MSG_TIMEOUT, cid));
    }

    /** The host may or may not be ready to take the next report. */
    method Flush(ready: bool)
      requires Valid()
      modifies queue
      ensures Valid() && assembly.View() == old(assembly.View())
    {
      if ready {
        var _ := queue.Pull();
      }
    }

    /** The service loop with the flush after every answer. It ends after at most three rounds. */
    method ServiceTimeouts(hostReady: seq<bool>) returns (answered: seq<u32>)
      requires Valid()
      modifies timers.slots, assembly, assembly.data, queue, queue.items
      ensures Valid() && (timers.slots[..], answered) == Service(old(timers.slots[..]), [])
      ensures assembly.View() == if old(assembly.cid) in answered then NoMessage else old(assembly.View())
      ensures |answered| <= NUM_TIMEOUT_COUNTERS
    {
      answered := [];
      ActiveBound(timers.slots[..]);
      ServiceAnswersOnce(timers.slots[..], []);
      while true
        invariant Valid() && Service(timers.slots[..], answered) == Service(old(timers.slots[..]), [])
        invariant assembly.View() == if old(assembly.cid) in answered then NoMessage else old(assembly.View())
        decreases Active(timers.slots[..])
      {
        var cid := timers.Get();
        if cid.None? {
          return;
        }
        DisableFrees(timers.slots[..], cid.value, FirstDue(timers.slots[..]));
        Timeout(cid.value);
        answered := answered + [cid.value];
        Flush(|answered| <= |hostReady| && hostReady[|answered| - 1]);
      }
    }
  }
}
