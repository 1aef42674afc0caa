/** Which channels are timed, over every run of frames on both interfaces, timer ticks and service
    rounds. */
module TimeoutTheorems {
  import opened Types
  import opened Timeouts
  import opened UsbFrame
  import opened UsbPacket
  import opened U2fPacket

  datatype Event =
    | Frame(f: Report, enqueued: bool)
    | HwwFrame(f: Report, enqueued: bool)
    | Tick
    | ServiceRound

  /** The timeouts and the two receivers. `began` records of the message being received on the U2F
      interface whether its channel was given a slot; `answered` collects the channels that were told
      of a timeout. */
  datatype Line = Line(slots: seq<Slot>, u2f: Assembly, hww: Assembly, began: bool, answered: seq<u32>)

  const Start := Line([Unused, Unused, Unused], NoMessage, NoMessage, false, [])

  function TickedAll(slots: seq<Slot>): (r: seq<Slot>)
    ensures |r| == |slots| && forall i | 0 <= i < |slots| :: r[i] == Ticked(slots[i])
  {
    seq(|slots|, i requires 0 <= i < |slots| => Ticked(slots[i]))
  }

  /** A slot is there for the channel: it holds one already, or one is free. */
  predicate SlotFor(slots: seq<Slot>, cid: u32) {
    Timed(slots, cid) || (cid != 0 && HasFree(slots))
  }

  function Step(l: Line, e: Event): Line {
    match e
    case Frame(f, enqueued) =>
      l.(slots := SlotsAfter(l.slots, l.u2f, f, enqueued), u2f := HandleFrame(l.u2f, f, enqueued).0,
         began := if Begins(f, l.u2f) then SlotFor(l.slots, Cid(f)) else l.began)
    case HwwFrame(f, enqueued) =>
      l.(slots := Started(l.slots, f, l.hww), hww := HandleFrame(l.hww, f, enqueued).0,
         began := l.began || (AsksTimeout(f, l.hww) && Cid(f) == l.u2f.cid != 0 && HasFree(l.slots)))
    case Tick => l.(slots := TickedAll(l.slots))
    case ServiceRound =>
      var (left, answered) := Service(l.slots, []);
      l.(slots := left, u2f := if l.u2f.cid in answered then NoMessage else l.u2f, answered := l.answered + answered)
  }

  function Run(l: Line, events: seq<Event>): Line
    decreases |events|
  {
    if events == [] then l else Run(Step(l, events[0]), events[1..])
  }

  /** A message that is not a vendor's is being received on the U2F interface. */
  predicate Receiving(l: Line) {
    l.u2f.initialized && l.u2f.cmd < HID_VENDOR_FIRST
  }

  predicate TimedExactly(l: Line) {
    Receiving(l) ==> (Timed(l.slots, l.u2f.cid) <==> l.began)
  }

  lemma RestartTimes(slots: seq<Slot>, cid: u32, other: u32)
    ensures Timed(Restarted(slots, cid), other) <==> Timed(slots, other)
  {
    var after := Restarted(slots, cid);
    assert forall i | 0 <= i < |slots| :: after[i].cid == slots[i].cid;
  }

  lemma TickTimes(slots: seq<Slot>, cid: u32)
    ensures Timed(TickedAll(slots), cid) <==> Timed(slots, cid)
  {
    var after := TickedAll(slots);
    assert forall i | 0 <= i < |slots| :: after[i].cid == slots[i].cid;
  }

  lemma FrameKeepsTimed(l: Line, f: Report, enqueued: bool)
    requires TimedExactly(l)
    ensures TimedExactly(Step(l, Frame(f, enqueued)))
  {
    EnabledTimes(l.slots, Cid(f), Cid(f));
    RestartTimes(Started(l.slots, f, l.u2f), Cid(f), Cid(f));
  }

  lemma HwwFrameKeepsTimed(l: Line, f: Report, enqueued: bool)
    requires TimedExactly(l)
    ensures TimedExactly(Step(l, HwwFrame(f, enqueued)))
  {
    EnabledTimes(l.slots, Cid(f), l.u2f.cid);
  }

  lemma ServiceKeepsTimed(l: Line)
    requires TimedExactly(l)
    ensures TimedExactly(Step(l, ServiceRound))
  {
    ServiceAnswersOnce(l.slots, []);
    var (left, answered) := Service(l.slots, []);
    if l.u2f.cid !in answered {
      assert forall i | 0 <= i < |left| :: left[i].cid == l.u2f.cid != 0 <==> l.slots[i].cid == l.u2f.cid != 0;
    }
  }

  lemma StepKeepsTimed(l: Line, e: Event)
    requires TimedExactly(l)
    ensures TimedExactly(Step(l, e))
  {
    match e
    case Frame(f, enqueued) => FrameKeepsTimed(l, f, enqueued);
    case HwwFrame(f, enqueued) => HwwFrameKeepsTimed(l, f, enqueued);
    case Tick => TickTimes(l.slots, l.u2f.cid);
    case ServiceRound => ServiceKeepsTimed(l);
  }

  /** Over every run: a message that is not a vendor's is timed while it is received exactly if its
      channel had a slot or one was free at its initial frame, or the HWW interface has since been sent
      an initial frame of the same channel and found a free slot. */
  lemma {:induction false} RunKeepsTimed(l: Line, events: seq<Event>)
    requires TimedExactly(l)
    ensures TimedExactly(Run(l, events))
    decreases |events|
  {
    if events != [] {
      StepKeepsTimed(l, events[0]);
      RunKeepsTimed(Step(l, events[0]), events[1..]);
    }
  }

  // A message that another channel cuts short

  /** A channel initialization that takes the receiver over leaves the slot of the channel it cuts short
      as it was. */
  lemma PreemptedKeepsSlot(l: Line, f: Report, enqueued: bool, i: nat)
    requires l.u2f.initialized && l.u2f.cid != 0 && Cid(f) != l.u2f.cid && Begins(f, l.u2f)
    requires i < |l.slots| && l.slots[i].cid == l.u2f.cid
    ensures
      var t := Step(l, Frame(f, enqueued));
      && |t.slots| == |l.slots| && t.slots[i] == l.slots[i] && t.u2f.cid != l.u2f.cid
      && Preempts(l.u2f, f)
  {
    FrameTouchesOwnSlots(l.slots, l.u2f, f, enqueued);
  }

  predicate Accepts(l: Line, e: Event, cid: u32) {
    e.Frame? && Cid(e.f) == cid && Process(e.f, l.u2f).1 == ERR_NONE
  }

  /** No frame of the channel is accepted on the U2F interface in the run. */
  predicate NoneAccepted(l: Line, events: seq<Event>, cid: u32)
    decreases |events|
  {
    events != [] ==> !Accepts(l, events[0], cid) && NoneAccepted(Step(l, events[0]), events[1..], cid)
  }

  function TicksIn(events: seq<Event>): nat {
    if events == [] then 0 else (if events[0].Tick? then 1 else 0) + TicksIn(events[1..])
  }

  /** What an eight-bit counter shows after n ticks. */
  function Wrapped(n: nat): byte {
    if n < 0x100 then n else Wrapped(n - 0x100)
  }

  lemma {:induction false} WrappedIsMod(n: nat)
    ensures Wrapped(n) == n % 0x100
  {
    if n >= 0x100 {
      WrappedIsMod(n - 0x100);
    }
  }

  lemma WrappedNext(n: nat)
    ensures Wrapped(n + 1) == (Wrapped(n) + 1) % 0x100
  {
    WrappedIsMod(n);
    WrappedIsMod(n + 1);
  }

  /** The slot of a channel that is not being received. */
  predicate Counts(l: Line, i: nat, cid: u32, n: nat) {
    i < |l.slots| && l.slots[i] == Slot(cid, Wrapped(n)) && cid != 0 && l.u2f.cid != cid
  }

  lemma StepCounts(l: Line, e: Event, i: nat, cid: u32, n: nat)
    requires Counts(l, i, cid, n) && !Accepts(l, e, cid)
    ensures
      var t := Step(l, e);
      Counts(t, i, cid, if e.Tick? then n + 1 else n) || (e.ServiceRound? && cid in t.answered)
    ensures e.ServiceRound? && Wrapped(n) >= TIMEOUT_TICKS ==> cid in Step(l, e).answered
    ensures l.answered <= Step(l, e).answered
  {
    match e
    case Tick => WrappedNext(n);
    case Frame(f, enqueued) =>
      if Cid(f) != cid {
        FrameTouchesOwnSlots(l.slots, l.u2f, f, enqueued);
      }
    case ServiceRound => ServiceAnswersOnce(l.slots, []);
    case _ =>
  }

  lemma {:induction false} AnsweredStays(l: Line, events: seq<Event>, cid: u32)
    requires cid in l.answered
    ensures cid in Run(l, events).answered
    decreases |events|
  {
    if events != [] {
      AnsweredStays(Step(l, events[0]), events[1..], cid);
    }
  }

  /** While nothing of the channel is accepted its slot counts the ticks modulo 256, whatever else
      arrives, until the channel is answered. */
  lemma {:induction false} RunCounts(l: Line, events: seq<Event>, i: nat, cid: u32, n: nat)
    requires Counts(l, i, cid, n) && NoneAccepted(l, events, cid)
    ensures
      var t := Run(l, events);
      cid in t.answered || Counts(t, i, cid, n + TicksIn(events))
    decreases |events|
  {
    if events != [] {
      StepCounts(l, events[0], i, cid, n);
      var t := Step(l, events[0]);
      if cid in t.answered {
        AnsweredStays(t, events[1..], cid);
      } else {
        RunCounts(t, events[1..], i, cid, if events[0].Tick? then n + 1 else n);
      }
    }
  }

  lemma CountedIsAnswered(t: Line, events: seq<Event>, i: nat, cid: u32, n: nat)
    requires Counts(t, i, cid, n) && NoneAccepted(t, events, cid)
    requires Wrapped(n + TicksIn(events)) >= TIMEOUT_TICKS
    ensures cid in Step(Run(t, events), ServiceRound).answered
  {
    RunCounts(t, events, i, cid, n);
    var u := Run(t, events);
    if cid !in u.answered {
      StepCounts(u, ServiceRound, i, cid, n + TicksIn(events));
    }
  }

  /** So a channel cut short is told, whatever frames of other channels arrive and whatever rounds of
      service there are: the service round after a run at the latest answers it, if the ticks of the run
      have brought the eight-bit counter to five or more. */
  lemma PreemptedIsAnswered(l: Line, f: Report, enqueued: bool, i: nat, events: seq<Event>)
    requires l.u2f.initialized && l.u2f.cid != 0 && Cid(f) != l.u2f.cid && Begins(f, l.u2f)
    requires i < |l.slots| && l.slots[i].cid == l.u2f.cid
    requires NoneAccepted(Step(l, Frame(f, enqueued)).(answered := []), events, l.u2f.cid)
    requires (l.slots[i].counter + TicksIn(events)) % 0x100 >= TIMEOUT_TICKS
    ensures
      var cut := Step(l, Frame(f, enqueued)).(answered := []);
      l.u2f.cid in Step(Run(cut, events), ServiceRound).answered
  {
    PreemptedKeepsSlot(l, f, enqueued, i);
    var cut, n := Step(l, Frame(f, enqueued)).(answered := []), l.slots[i].counter as nat;
    WrappedIsMod(n + TicksIn(events));
    CountedIsAnswered(cut, events, i, l.u2f.cid, n);
  }

  // Exactly then, when the ticks come without service

  function Ticks(k: nat): seq<Event> {
    seq(k, i => Tick)
  }

  /** One channel is timed. */
  function Lone(l: Line, cid: u32, n: nat): Line {
    l.(slots := [Slot(cid, Wrapped(n)), Unused, Unused])
  }

  lemma {:induction false} LoneCounts(l: Line, cid: u32, n: nat, k: nat)
    requires cid != 0
    ensures Run(Lone(l, cid, n), Ticks(k)) == Lone(l, cid, n + k)
    decreases k
  {
    if k > 0 {
      assert Ticks(k)[1..] == Ticks(k - 1);
      WrappedNext(n);
      assert Step(Lone(l, cid, n), Tick) == Lone(l, cid, n + 1);
      LoneCounts(l, cid, n + 1, k - 1);
    }
  }

  lemma LoneExpires(l: Line, cid: u32, n: nat)
    requires cid != 0 && l.answered == []
    ensures cid in Step(Lone(l, cid, n), ServiceRound).answered <==> Wrapped(n) >= TIMEOUT_TICKS
  {
    var slots := Lone(l, cid, n).slots;
    ServiceAnswersOnce(slots, []);
    assert slots[0].cid == cid && slots[1].cid == 0 && slots[2].cid == 0;
    assert Due(slots[0]) <==> Wrapped(n) >= TIMEOUT_TICKS;
  }

  /** After k ticks without service the channel is answered if and only if k modulo 256 is at least
      five. */
  lemma AnsweredExactly(l: Line, cid: u32, k: nat)
    requires cid != 0 && l.answered == []
    ensures cid in Step(Run(Lone(l, cid, 0), Ticks(k)), ServiceRound).answered <==> k % 0x100 >= TIMEOUT_TICKS
  {
    LoneCounts(l, cid, 0, k);
    LoneExpires(l, cid, k);
    WrappedIsMod(k);
  }

  /** A channel left alone for 256 ticks is not told. */
  lemma ComesRound(l: Line, cid: u32, k: nat)
    requires cid != 0 && l.answered == [] && k == 256
    ensures cid !in Step(Run(Lone(l, cid, 0), Ticks(k)), ServiceRound).answered
  {
    AnsweredExactly(l, cid, k);
  }
}
