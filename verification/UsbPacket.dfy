/** The frame handler of the HWW stack (usb_packet.c): reassembly, error replies, delivery. */
module UsbPacket {
  import opened Types
  import opened Timeouts
  import opened UsbFrame
  import Queue

  const FRAME_ERROR: byte := 0xBF

  /** What handling one frame does besides changing the assembly. */
  datatype Action =
    | Silent
    | WaitMore
    | Deliver(cmd: byte, cid: u32, data: seq<byte>)
    | Answer(err: byte, cid: u32, clears: bool)

  /** `enqueued` is the answer of `usb_processing_enqueue` to a complete message. */
  function HandleFrame(s: Assembly, f: Report, enqueued: bool): (Assembly, Action) {
    var (t, err) := Process(f, s);
    if err == ERR_IGNORE then (t, Silent)
    else if err == ERR_CHANNEL_BUSY then (t, Answer(ERR_CHANNEL_BUSY, Cid(f), false))
    else if err == ERR_NONE then
      if NeedMore(t) then (t, WaitMore)
      else if enqueued then (NoMessage, Deliver(t.cmd, t.cid, t.data))
      else (NoMessage, Answer(ERR_CHANNEL_BUSY, Cid(f), true))
    else (NoMessage, Answer(err, Cid(f), true))
  }

  /** The only foreign frame that takes the receiver over: a channel initialization, unless the
      message being received is one itself. */
  predicate Preempts(s: Assembly, f: Report) {
    f[4] == HID_INIT && s.cmd != HID_INIT
  }

  /** A frame of another channel is answered busy and changes nothing if and only if it does not
      preempt. */
  lemma ForeignFrame(s: Assembly, f: Report, enqueued: bool)
    requires s.initialized && Cid(f) != s.cid
    ensures HandleFrame(s, f, enqueued) == (s, Answer(ERR_CHANNEL_BUSY, Cid(f), false)) <==> !Preempts(s, f)
  {
  }

  /** The frames of channel c, in order. */
  function Own(c: u32, frames: seq<Report>): seq<Report> {
    if frames == [] then []
    else (if Cid(frames[0]) == c then [frames[0]] else []) + Own(c, frames[1..])
  }

  /** Handle frames one after the other, collecting the actions. */
  function HandleAll(s: Assembly, frames: seq<Report>, enqueued: bool): (Assembly, seq<Action>)
    decreases |frames|
  {
    if frames == [] then (s, [])
    else
      var (t, action) := HandleFrame(s, frames[0], enqueued);
      var (u, rest) := HandleAll(t, frames[1..], enqueued);
      (u, [action] + rest)
  }

  /** What each frame of the interleaving must be answered with: foreign frames busy, own frames
      nothing, the last frame delivery. */
  function Expected(c: u32, frames: seq<Report>, cmd: byte, data: seq<byte>): seq<Action> {
    if frames == [] then []
    else
      [if Cid(frames[0]) != c then Answer(ERR_CHANNEL_BUSY, Cid(frames[0]), false)
       else if |frames| == 1 then Deliver(cmd, c, data)
       else WaitMore] + Expected(c, frames[1..], cmd, data)
  }

  lemma FeedsKeepsMessage(s: Assembly, f: Report)
    requires s.initialized && Cid(f) == s.cid && f[4] < TYPE_INIT && Process(f, s).1 == ERR_NONE
    ensures Process(f, s).0.initialized && Process(f, s).0.cmd == s.cmd && Process(f, s).0.cid == s.cid
  {
  }

  lemma {:induction false} OwnLast(c: u32, frames: seq<Report>)
    requires frames != [] && Cid(frames[|frames| - 1]) == c
    ensures Own(c, frames) != []
    ensures |Own(c, frames)| == 1 && Cid(frames[0]) == c ==> |frames| == 1
    decreases |frames|
  {
    if |frames| > 1 {
      OwnLast(c, frames[1..]);
    }
  }

  /** Once a message has started on channel c, its remaining frames may
      be interleaved in any way with frames of other channels that do not preempt; the same message
      is delivered by its last frame, and every foreign frame is answered busy. */
  lemma {:induction false} RestNonInterference(s: Assembly, frames: seq<Report>, data: seq<byte>)
    requires s.initialized
    requires frames != [] && Cid(frames[|frames| - 1]) == s.cid
    requires forall f | f in frames && Cid(f) != s.cid :: !Preempts(s, f)
    requires forall f | f in Own(s.cid, frames) :: f[4] < TYPE_INIT
    requires Feeds(s, Own(s.cid, frames), s.cmd, s.cid, data)
    ensures HandleAll(s, frames, true) == (NoMessage, Expected(s.cid, frames, s.cmd, data))
    decreases |frames|
  {
    OwnLast(s.cid, frames);
    var rest := frames[1..];
    if Cid(frames[0]) == s.cid {
      FeedsKeepsMessage(s, frames[0]);
      assert Own(s.cid, frames)[1..] == Own(s.cid, rest);
      if |frames| > 1 {
        OwnLast(s.cid, rest);
        RestNonInterference(Process(frames[0], s).0, rest, data);
      }
    } else {
      ForeignFrame(s, frames[0], true);
      assert Own(s.cid, frames) == Own(s.cid, rest);
      RestNonInterference(s, rest, data);
    }
  }

  lemma {:induction false} ContsAreContinuations(cid: u32, rest: seq<byte>, seqNo: byte)
    requires |rest| + CONT_DATA * seqNo as int <= CONT_DATA * 128
    ensures forall f | f in Conts(cid, rest, seqNo) :: f[4] < TYPE_INIT
    decreases |rest|
  {
    if rest != [] {
      ContsAreContinuations(cid, rest[Min(CONT_DATA, |rest|)..], (seqNo + 1) % 0x100);
    }
  }

  /** Channels do not interfere. Whatever frames of other channels arrive between the first and the
      last frame of a message, as long as none of them preempts, the message is delivered unchanged
      by its last frame, every other own frame waits for more, and every foreign frame is answered
      busy. */
  lemma NonInterference(frames: seq<Report>, cmd: byte, cid: u32, data: seq<byte>)
    requires cmd >= TYPE_INIT && |data| <= DATA_MAX
    requires Own(cid, frames) == Frames(cmd, cid, data)
    requires frames != [] && Cid(frames[0]) == cid && Cid(frames[|frames| - 1]) == cid
    requires forall f | f in frames && Cid(f) != cid :: f[4] == HID_INIT ==> cmd == HID_INIT
    ensures HandleAll(NoMessage, frames, true) == (NoMessage, Expected(cid, frames, cmd, data))
  {
    RoundTrip(NoMessage, cmd, cid, data);
    OwnLast(cid, frames);
    var own := Frames(cmd, cid, data);
    var n := Min(INIT_DATA, |data|);
    InitStep(NoMessage, cmd, cid, data);
    assert own[0] == frames[0];
    assert own[1..] == Own(cid, frames[1..]);
    ContsAreContinuations(cid, data[n..], 0);
    if |frames| > 1 {
      OwnLast(cid, frames[1..]);
      RestNonInterference(Process(frames[0], NoMessage).0, frames[1..], data);
    }
  }

  function ErrorFrame(err: byte, cid: u32): Report {
    InitFrame(FRAME_ERROR, cid, 1, [err])
  }

  /** The outgoing queue after an action; an error that finds the queue full is lost. */
  function QueueAfter(before: seq<seq<byte>>, action: Action, capacity: nat): seq<seq<byte>> {
    match action
    case Silent => before
    case WaitMore => before
    case Deliver(_, _, _) => []
    case Answer(err, cid, clears) =>
      var kept := if clears then [] else before;
      if |kept| < capacity then kept + [ErrorFrame(err, cid)] else kept
  }

  /** The static state of usb_packet.c: the assembly and the outgoing queue. */
  class Handler {
    const assembly: Assembler
    const queue: Queue.Ring

    ghost predicate Valid()
      reads this, assembly, assembly.data, queue, queue.items
    {
      && assembly.data != queue.items
      && assembly.Valid()
      && queue.Valid() && queue.itemSize == REPORT_SIZE && queue.slots > 1
    }

    constructor (timers: Timers)
      requires timers.Valid()
      ensures Valid() && assembly.View() == NoMessage && queue.Contents() == [] && assembly.timers == timers
      ensures queue.slots == Queue.QUEUE_NUM_REPORTS
      ensures fresh(assembly) && fresh(assembly.data) && fresh(queue) && fresh(queue.items)
    {
      assembly := new Assembler(timers);
      queue := new Queue.Ring(REPORT_SIZE);
    }

    method ResetState()
      requires Valid()
      modifies assembly, assembly.data, queue, queue.items
      ensures Valid() && queue.slots == old(queue.slots)
      ensures assembly.View() == NoMessage && queue.Contents() == []
    {
      queue.Clear();
      assembly.Reset();
    }

    method QueueError(err: byte, cid: u32)
      requires Valid()
      modifies queue, queue.items
      ensures Valid() && queue.slots == old(queue.slots) && assembly.View() == old(assembly.View())
      ensures queue.Contents() == QueueAfter(old(queue.Contents()), Answer(err, cid, false), queue.slots - 1)
    {
      var _ := queue.Push(ErrorFrame(err, cid));
    }

    method ProcessFrame(f: Report, enqueued: bool) returns (action: Action)
      requires Valid()
      modifies assembly, assembly.data, assembly.timers.slots, queue, queue.items
      ensures Valid() && queue.slots == old(queue.slots)
      ensures (assembly.View(), action) == HandleFrame(old(assembly.View()), f, enqueued)
      ensures assembly.timers.slots[..] == Started(old(assembly.timers.slots[..]), f, old(assembly.View()))
      ensures queue.Contents() == QueueAfter(old(queue.Contents()), action, queue.slots - 1)
    {
      var err := assembly.ProcessFrame(f);
      if err == ERR_IGNORE {
        return Silent;
      } else if err == ERR_CHANNEL_BUSY {
        QueueError(ERR_CHANNEL_BUSY, Cid(f));
        return Answer(ERR_CHANNEL_BUSY, Cid(f), false);
      } else if err == ERR_NONE {
        if assembly.pos < assembly.len {
          return WaitMore;
        }
        action := Deliver(assembly.cmd, assembly.cid, assembly.data[..assembly.pos]);
        ResetState();
        if !enqueued {
          QueueError(ERR_CHANNEL_BUSY, Cid(f));
          action := Answer(ERR_CHANNEL_BUSY, Cid(f), true);
        }
      } else {
        ResetState();
        QueueError(err, Cid(f));
        return Answer(err, Cid(f), true);
      }
    }
  }

  /** Pull the oldest report, if there is one, and hand it to a receiver. */
  method PullInto(queue: Queue.Ring, receiver: Assembler) returns (pulled: bool)
    requires queue.Valid() && queue.itemSize == REPORT_SIZE && receiver.Valid() && receiver.data != queue.items
    requires forall f | f in queue.Contents() :: |f| == REPORT_SIZE
    modifies queue, receiver, receiver.data, receiver.timers.slots
    ensures queue.Valid() && queue.itemSize == REPORT_SIZE && receiver.Valid()
    ensures pulled <==> old(queue.Contents()) != []
    ensures queue.Contents() == if pulled then old(queue.Contents())[1..] else []
    ensures receiver.View() ==
      if pulled then Process(old(queue.Contents())[0], old(receiver.View())).0 else old(receiver.View())
  {
    var p := queue.Pull();
    if p.None? {
      return false;
    }
    queue.LoanIsIntact();
    var err := receiver.ProcessFrame(queue.items[p.value..p.value + REPORT_SIZE]);
    return true;
  }

  /** The far end of the cable: reports are pulled one by one and handed to a receiver. */
  method DeliverQueued(queue: Queue.Ring, receiver: Assembler, ghost cmd: byte, ghost cid: u32, ghost data: seq<byte>)
    requires queue.Valid() && queue.itemSize == REPORT_SIZE && receiver.Valid() && receiver.data != queue.items
    requires forall f | f in queue.Contents() :: |f| == REPORT_SIZE
    requires Feeds(receiver.View(), queue.Contents(), cmd, cid, data)
    modifies queue, receiver, receiver.data, receiver.timers.slots
    ensures queue.Valid() && queue.Contents() == []
    ensures receiver.Valid() && Holds(receiver.View(), cmd, cid, data)
  {
    ghost var frames: seq<Report> := queue.Contents();
    var more := true;
    while more
      invariant queue.Valid() && queue.itemSize == REPORT_SIZE && receiver.Valid()
      invariant queue.Contents() == frames && (more || frames == [])
      invariant if frames == [] then Holds(receiver.View(), cmd, cid, data)
                else Feeds(receiver.View(), frames, cmd, cid, data)
      decreases |frames|, more
    {
      more := PullInto(queue, receiver);
      frames := if more then frames[1..] else frames;
    }
  }

  /** A message through the ring, end to end: a reply on an empty queue succeeds exactly up to 6901
      bytes, and then the pulled reports give an idle receiver the message back. */
  method ThroughTheRing(cmd: byte, data: seq<byte>, cid: u32, queue: Queue.Ring, receiver: Assembler) returns (ok: bool)
    requires cmd >= TYPE_INIT
    requires queue.Valid() && queue.itemSize == REPORT_SIZE && queue.slots == Queue.QUEUE_NUM_REPORTS
    requires queue.Contents() == []
    requires receiver.Valid() && !receiver.initialized && receiver.data != queue.items
    modifies queue, queue.items, receiver, receiver.data, receiver.timers.slots
    ensures ok <==> |data| <= 6901
    ensures receiver.Valid() && (ok ==> Holds(receiver.View(), cmd, cid, data))
    ensures queue.Valid() && (ok ==> queue.Contents() == [])
  {
    FitsEmptyQueue(cmd, cid, data);
    ok := Reply(cmd, data, cid, queue);
    if ok {
      RoundTrip(receiver.View(), cmd, cid, data);
      assert queue.Contents() == Frames(cmd, cid, data);
      DeliverQueued(queue, receiver, cmd, cid, data);
    }
  }
}
