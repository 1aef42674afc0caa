/** The timeouts of channels that owe continuation frames (u2f_packet.c). One table serves both stacks. */
module Timeouts {
  import opened Types

  const NUM_TIMEOUT_COUNTERS := 3
  const TIMEOUT_TICKS := 5

  /** A slot with channel 0 is unused. */
  datatype Slot = Slot(cid: u32, counter: byte)

  const Unused := Slot(0, 0)

  predicate Due(slot: Slot) {
    slot.cid != 0 && slot.counter >= TIMEOUT_TICKS
  }

  /** Some slot of this channel has run out. */
  predicate Expired(slots: seq<Slot>, cid: u32) {
    exists i | 0 <= i < |slots| :: slots[i].cid == cid && Due(slots[i])
  }

  function Disabled(slots: seq<Slot>, cid: u32): (r: seq<Slot>)
    ensures |r| == |slots|
    ensures forall i | 0 <= i < |slots| :: r[i] == if slots[i].cid == cid then Unused else slots[i]
  {
    seq(|slots|, i requires 0 <= i < |slots| => if slots[i].cid == cid then Unused else slots[i])
  }

  function Active(slots: seq<Slot>): nat {
    if slots == [] then 0 else (if slots[0].cid != 0 then 1 else 0) + Active(slots[1..])
  }

  /** Disabling a channel frees at least the slot that was due. */
  lemma {:induction false} DisableFrees(slots: seq<Slot>, cid: u32, i: nat)
    requires i < |slots| && slots[i].cid == cid != 0
    ensures Active(Disabled(slots, cid)) < Active(slots)
  {
    assert Disabled(slots, cid)[1..] == Disabled(slots[1..], cid);
    if i > 0 {
      DisableFrees(slots[1..], cid, i - 1);
    } else {
      DisableNeverAdds(slots[1..], cid);
    }
  }

  lemma {:induction false} DisableNeverAdds(slots: seq<Slot>, cid: u32)
    ensures Active(Disabled(slots, cid)) <= Active(slots)
  {
    if slots != [] {
      assert Disabled(slots, cid)[1..] == Disabled(slots[1..], cid);
      DisableNeverAdds(slots[1..], cid);
    }
  }

  lemma {:induction false} ActiveBound(slots: seq<Slot>)
    ensures Active(slots) <= |slots|
  {
    if slots != [] {
      ActiveBound(slots[1..]);
    }
  }

  /** The first slot that is due, as `u2f_packet_timeout_get` finds it; |slots| if there is none. */
  function FirstDue(slots: seq<Slot>): (k: nat)
    ensures k <= |slots|
    ensures k < |slots| ==> Due(slots[k])
    ensures forall i | 0 <= i < k :: !Due(slots[i])
  {
    if slots == [] || Due(slots[0]) then 0 else 1 + FirstDue(slots[1..])
  }

  /** The service loop of `usb_processing_process`: the slots it leaves and the channels it answers
      with a timeout, after those in `earlier`. */
  function Service(slots: seq<Slot>, earlier: seq<u32>): (seq<Slot>, seq<u32>)
    decreases Active(slots)
  {
    var k := FirstDue(slots);
    if k == |slots| then (slots, earlier)
    else
      DisableFrees(slots, slots[k].cid, k);
      Service(Disabled(slots, slots[k].cid), earlier + [slots[k].cid])
  }

  predicate Distinct(cids: seq<u32>) {
    forall i, j | 0 <= i < j < |cids| :: cids[i] != cids[j]
  }

  lemma DisableUnexpires(slots: seq<Slot>, cid: u32)
    ensures forall d :: Expired(Disabled(slots, cid), d) <==> (Expired(slots, d) && d != cid)
  {
    forall d | Expired(slots, d) && d != cid
      ensures Expired(Disabled(slots, cid), d)
    {
      var i :| 0 <= i < |slots| && slots[i].cid == d && Due(slots[i]);
      assert Disabled(slots, cid)[i] == slots[i];
    }
  }

  /** Each expired channel is answered once, however many slots it holds; afterwards its slots are
      free and every other slot is as it was. */
  lemma {:induction false} ServiceAnswersOnce(slots: seq<Slot>, earlier: seq<u32>)
    requires Distinct(earlier) && forall c | c in earlier :: !Expired(slots, c)
    ensures
      var (left, answered) := Service(slots, earlier);
      && |left| == |slots|
      && (forall i | 0 <= i < |slots| :: left[i] == if Expired(slots, slots[i].cid) then Unused else slots[i])
      && (forall c :: c in answered <==> c in earlier || Expired(slots, c))
      && Distinct(answered)
      && |answered| <= |earlier| + Active(slots)
    decreases Active(slots)
  {
    var k := FirstDue(slots);
    if k < |slots| {
      var c := slots[k].cid;
      assert Expired(slots, c);
      DisableFrees(slots, c, k);
      DisableUnexpires(slots, c);
      ServiceAnswersOnce(Disabled(slots, c), earlier + [c]);
    }
  }

  /** What a timer tick does to a slot; the counter is eight bits wide. */
  function Ticked(slot: Slot): Slot {
    if slot.cid != 0 then slot.(counter := (slot.counter + 1) % 0x100) else slot
  }

  function Restarted(slots: seq<Slot>, cid: u32): (r: seq<Slot>)
    ensures |r| == |slots|
    ensures forall i | 0 <= i < |slots| :: r[i] == if slots[i].cid == cid then Slot(cid, 0) else slots[i]
  {
    seq(|slots|, i requires 0 <= i < |slots| => if slots[i].cid == cid then Slot(cid, 0) else slots[i])
  }

  predicate HasFree(slots: seq<Slot>) {
    exists i | 0 <= i < |slots| :: slots[i].cid == 0
  }

  /** The channel is being timed. */
  predicate Timed(slots: seq<Slot>, cid: u32) {
    cid != 0 && exists i | 0 <= i < |slots| :: slots[i].cid == cid
  }

  /** The first unused slot; |slots| if there is none. */
  function FirstFree(slots: seq<Slot>): (k: nat)
    ensures k <= |slots|
    ensures k < |slots| ==> slots[k].cid == 0
    ensures forall i | 0 <= i < k :: slots[i].cid != 0
  {
    if slots == [] || slots[0].cid == 0 then 0 else 1 + FirstFree(slots[1..])
  }

  /** The first unused slot, if any, starts counting for the channel. */
  function Enabled(slots: seq<Slot>, cid: u32): seq<Slot> {
    var k := FirstFree(slots);
    if k < |slots| then slots[k := Slot(cid, 0)] else slots
  }

  /** A channel is timed after that exactly if it was timed before or a slot was free. */
  lemma EnabledTimes(slots: seq<Slot>, cid: u32, other: u32)
    ensures |Enabled(slots, cid)| == |slots|
    ensures Timed(Enabled(slots, cid), other) <==>
      Timed(slots, other) || (other == cid != 0 && HasFree(slots))
  {
    var k, after := FirstFree(slots), Enabled(slots, cid);
    if Timed(slots, other) {
      var i :| 0 <= i < |slots| && slots[i].cid == other;
      assert after[i].cid == other;
    }
    if k < |slots| {
      assert after[k].cid == cid;
    }
  }

  /** The static table of u2f_packet.c. */
  class Timers {
    const slots: array<Slot>

    predicate Valid() {
      slots.Length == NUM_TIMEOUT_COUNTERS
    }

    constructor ()
      ensures Valid() && fresh(slots) && slots[..] == [Unused, Unused, Unused]
    {
      slots := new Slot[NUM_TIMEOUT_COUNTERS](_ => Unused);
    }

    method Enable(cid: u32)
      requires Valid()
      modifies slots
      ensures slots[..] == Enabled(old(slots[..]), cid)
    {
      for i := 0 to NUM_TIMEOUT_COUNTERS
        invariant slots[..] == old(slots[..])
        invariant forall j | 0 <= j < i :: slots[j].cid != 0
      {
        if slots[i].cid == 0 {
          slots[i] := Slot(cid, 0);
          return;
        }
      }
    }

    method Disable(cid: u32)
      requires Valid()
      modifies slots
      ensures slots[..] == Disabled(old(slots[..]), cid)
    {
      for i := 0 to NUM_TIMEOUT_COUNTERS
        invariant forall j | 0 <= j < NUM_TIMEOUT_COUNTERS ::
          slots[j] == if j < i then Disabled(old(slots[..]), cid)[j] else old(slots[j])
      {
        if slots[i].cid == cid {
          slots[i] := Unused;
        }
      }
    }

    method Get() returns (cid: Option<u32>)
      requires Valid()
      ensures
        var k := FirstDue(slots[..]);
        cid == if k < slots.Length then Some(slots[k].cid) else None
    {
      for i := 0 to NUM_TIMEOUT_COUNTERS
        invariant forall j | 0 <= j < i :: !Due(slots[j])
      {
        if slots[i].cid != 0 && slots[i].counter >= TIMEOUT_TICKS {
          return Some(slots[i].cid);
        }
      }
      return None;
    }

    method Tick()
      requires Valid()
      modifies slots
      ensures forall j | 0 <= j < slots.Length :: slots[j] == Ticked(old(slots[j]))
    {
      for i := 0 to NUM_TIMEOUT_COUNTERS
        invariant forall j | 0 <= j < NUM_TIMEOUT_COUNTERS :: slots[j] == if j < i then Ticked(old(slots[j])) else old(slots[j])
      {
        if slots[i].cid != 0 {
          slots[i] := Slot(slots[i].cid, (slots[i].counter + 1) % 0x100);
        }
      }
    }

    method Restart(cid: u32)
      requires Valid()
      modifies slots
      ensures slots[..] == Restarted(old(slots[..]), cid)
    {
      for i := 0 to NUM_TIMEOUT_COUNTERS
        invariant forall j | 0 <= j < NUM_TIMEOUT_COUNTERS ::
          slots[j] == if j < i then Restarted(old(slots[..]), cid)[j] else old(slots[j])
      {
        if slots[i].cid == cid {
          slots[i] := Slot(cid, 0);
        }
      }
    }
  }
}
