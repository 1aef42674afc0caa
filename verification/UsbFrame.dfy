/** Splitting messages into 64-byte reports and putting them together again (usb_frame.c). */
module UsbFrame {
  import opened Types
  import opened Timeouts
  import Queue

  const REPORT_SIZE := 64
  const INIT_DATA := 57
  const CONT_DATA := 59
  const DATA_MAX := 7609

  const TYPE_INIT: byte := 0x80
  const HID_INIT: byte := 0x86
  const HID_VENDOR_FIRST: byte := 0xC0

  const ERR_NONE: byte := 0
  const ERR_INVALID_LEN: byte := 0x03
  const ERR_INVALID_SEQ: byte := 0x04
  const ERR_CHANNEL_BUSY: byte := 0x06
  const ERR_IGNORE: byte := 0x80

  type Report = f: seq<byte> | |f| == REPORT_SIZE witness Zeros(REPORT_SIZE)

  // Report layout: channel (little endian), type, then the two forms of the union

  function Cid(f: Report): u32 {
    f[0] as int + 0x100 * f[1] as int + 0x1_0000 * f[2] as int + 0x100_0000 * f[3] as int
  }

  function CidBytes(cid: u32): seq<byte> {
    [cid % 0x100, cid / 0x100 % 0x100, cid / 0x100 / 0x100 % 0x100, cid / 0x100 / 0x100 / 0x100]
  }

  function MsgLen(f: Report): nat {
    f[5] as int * 0x100 + f[6] as int
  }

  function Pad(s: seq<byte>, n: nat): seq<byte>
    requires |s| <= n
  {
    s + Zeros(n - |s|)
  }

  function InitFrame(cmd: byte, cid: u32, len: nat, payload: seq<byte>): Report
    requires |payload| <= INIT_DATA
  {
    CidBytes(cid) + [cmd, len / 0x100 % 0x100, len % 0x100] + Pad(payload, INIT_DATA)
  }

  function ContFrame(cid: u32, seqNo: byte, payload: seq<byte>): Report
    requires |payload| <= CONT_DATA
  {
    CidBytes(cid) + [seqNo] + Pad(payload, CONT_DATA)
  }

  // Receiving

  /** A message being received: the bytes so far, and what its initial frame announced. */
  datatype Assembly = Assembly(initialized: bool, data: seq<byte>, len: nat, seqNo: byte, cmd: byte, cid: u32)

  const NoMessage := Assembly(false, [], 0, 0, 0, 0)

  predicate NeedMore(s: Assembly) {
    |s.data| < s.len
  }

  function CmdInit(f: Report, s: Assembly): (Assembly, byte) {
    if s.initialized && Cid(f) != s.cid && s.cmd == HID_INIT then (s, ERR_CHANNEL_BUSY)
    else if s.initialized && Cid(f) != s.cid && f[4] != HID_INIT && s.cmd != HID_INIT then (s, ERR_CHANNEL_BUSY)
    else if s.initialized && Cid(f) == s.cid && f[4] != HID_INIT then (s, ERR_INVALID_SEQ)
    else if MsgLen(f) > DATA_MAX then (s, ERR_INVALID_LEN)
    else
      (Assembly(true, f[7..7 + Min(MsgLen(f), INIT_DATA)], MsgLen(f), 0, f[4], Cid(f)), ERR_NONE)
  }

  function CmdContinue(f: Report, s: Assembly): (Assembly, byte) {
    if !s.initialized then (s, ERR_IGNORE)
    else if s.cid != Cid(f) then (s, ERR_CHANNEL_BUSY)
    else if s.seqNo != f[4] % TYPE_INIT then (s, ERR_INVALID_SEQ)
    else if |s.data| >= s.len || |s.data| + CONT_DATA > DATA_MAX then (s, ERR_INVALID_LEN)
    else
      (s.(data := s.data + f[5..5 + Min(s.len - |s.data|, CONT_DATA)], seqNo := (s.seqNo + 1) % 0x100), ERR_NONE)
  }

  function Process(f: Report, s: Assembly): (Assembly, byte) {
    if f[4] >= TYPE_INIT then CmdInit(f, s) else CmdContinue(f, s)
  }

  /** An initial frame that is accepted begins a message. */
  predicate Begins(f: Report, s: Assembly) {
    f[4] >= TYPE_INIT && Process(f, s).1 == ERR_NONE
  }

  /** The frame asks for a timeout: the message it begins is not a vendor's. */
  predicate AsksTimeout(f: Report, s: Assembly) {
    Begins(f, s) && f[4] < HID_VENDOR_FIRST
  }

  /** The timeouts after a frame, on either interface. */
  function Started(slots: seq<Slot>, f: Report, s: Assembly): seq<Slot> {
    if AsksTimeout(f, s) then Enabled(slots, Cid(f)) else slots
  }

  /** The write offset is a function of the message length and the frame count, so it stays inside
      the buffer and the 8-bit sequence number never wraps. */
  predicate Reassembling(s: Assembly) {
    s.initialized ==>
      && s.len <= DATA_MAX
      && s.seqNo <= 128
      && |s.data| == Min(s.len, INIT_DATA + CONT_DATA * s.seqNo)
  }

  lemma ProcessKeepsReassembling(f: Report, s: Assembly)
    requires Reassembling(s)
    ensures Reassembling(Process(f, s).0)
    ensures s.initialized && NeedMore(s) ==> |s.data| + CONT_DATA <= DATA_MAX && s.seqNo < 128
  {
  }

  function Receive(s: Assembly, frames: seq<Report>): Assembly
    decreases |frames|
  {
    if frames == [] then s else Receive(Process(frames[0], s).0, frames[1..])
  }

  /** In every state any sequence of frames can lead to, the offset is exact, and the second bound
      test of a continuation frame never fires. */
  lemma {:induction false} ReceiveKeepsReassembling(s: Assembly, frames: seq<Report>)
    requires Reassembling(s)
    ensures Reassembling(Receive(s, frames))
    decreases |frames|
  {
    if frames != [] {
      ProcessKeepsReassembling(frames[0], s);
      ReceiveKeepsReassembling(Process(frames[0], s).0, frames[1..]);
    }
  }

  // Sending

  function Conts(cid: u32, rest: seq<byte>, seqNo: byte): seq<Report>
    decreases |rest|
  {
    if rest == [] then []
    else
      var n := Min(CONT_DATA, |rest|);
      [ContFrame(cid, seqNo, rest[..n])] + Conts(cid, rest[n..], (seqNo + 1) % 0x100)
  }

  function Frames(cmd: byte, cid: u32, data: seq<byte>): seq<Report> {
    var n := Min(INIT_DATA, |data|);
    [InitFrame(cmd, cid, |data|, data[..n])] + Conts(cid, data[n..], 0)
  }

  lemma {:induction false} ContsLength(cid: u32, rest: seq<byte>, seqNo: byte)
    ensures |Conts(cid, rest, seqNo)| == (|rest| + CONT_DATA - 1) / CONT_DATA
    decreases |rest|
  {
    if rest != [] {
      ContsLength(cid, rest[Min(CONT_DATA, |rest|)..], (seqNo + 1) % 0x100);
    }
  }

  /** An empty queue holds 117 reports, which is a message of 6901 bytes. */
  lemma FitsEmptyQueue(cmd: byte, cid: u32, data: seq<byte>)
    ensures |Frames(cmd, cid, data)| <= Queue.QUEUE_NUM_REPORTS - 1 <==> |data| <= 6901
  {
    ContsLength(cid, data[Min(INIT_DATA, |data|)..], 0);
  }

  // Round trip

  lemma CidRoundTrip(cid: u32, rest: seq<byte>)
    requires |rest| == REPORT_SIZE - 4
    ensures Cid(CidBytes(cid) + rest) == cid
  {
    var f: Report := CidBytes(cid) + rest;
    assert f[..4] == CidBytes(cid);
  }

  /** The assembly holds exactly this message. */
  predicate Holds(s: Assembly, cmd: byte, cid: u32, data: seq<byte>) {
    s.initialized && s.data == data && s.len == |data| && s.cmd == cmd && s.cid == cid
  }

  /** Each frame is accepted, more data is needed until exactly the last, and then the message is
      there. */
  predicate Feeds(s: Assembly, frames: seq<Report>, cmd: byte, cid: u32, data: seq<byte>)
    decreases |frames|
  {
    && frames != []
    && Process(frames[0], s).1 == ERR_NONE
    && var t := Process(frames[0], s).0;
       if |frames| == 1 then Holds(t, cmd, cid, data) else NeedMore(t) && Feeds(t, frames[1..], cmd, cid, data)
  }

  lemma ContStep(s: Assembly, data: seq<byte>)
    requires s.initialized && s.len == |data| <= DATA_MAX && NeedMore(s)
    requires s.seqNo <= 127 && |s.data| == INIT_DATA + CONT_DATA * s.seqNo && s.data == data[..|s.data|]
    ensures
      var n := Min(CONT_DATA, |data| - |s.data|);
      Process(ContFrame(s.cid, s.seqNo, data[|s.data|..][..n]), s) ==
      (s.(data := data[..|s.data| + n], seqNo := s.seqNo + 1), ERR_NONE)
    ensures |s.data| + CONT_DATA < |data| ==> s.seqNo < 127
  {
    var n := Min(CONT_DATA, |data| - |s.data|);
    var chunk := data[|s.data|..][..n];
    var f := ContFrame(s.cid, s.seqNo, chunk);
    CidRoundTrip(s.cid, [s.seqNo] + Pad(chunk, CONT_DATA));
    assert f == CidBytes(s.cid) + ([s.seqNo] + Pad(chunk, CONT_DATA));
    assert f[5..5 + n] == chunk;
    assert data[..|s.data|] + chunk == data[..|s.data| + n];
  }

  lemma {:induction false} ContsFeed(s: Assembly, data: seq<byte>)
    requires s.initialized && s.len == |data| <= DATA_MAX && NeedMore(s)
    requires s.seqNo <= 127 && |s.data| == INIT_DATA + CONT_DATA * s.seqNo && s.data == data[..|s.data|]
    ensures Feeds(s, Conts(s.cid, data[|s.data|..], s.seqNo), s.cmd, s.cid, data)
    decreases |data| - |s.data|
  {
    var n := Min(CONT_DATA, |data| - |s.data|);
    var rest := data[|s.data|..];
    var frames := Conts(s.cid, rest, s.seqNo);
    ContStep(s, data);
    var t := s.(data := data[..|s.data| + n], seqNo := s.seqNo + 1);
    assert rest[n..] == data[|t.data|..];
    assert frames[0] == ContFrame(s.cid, s.seqNo, rest[..n]);
    assert Process(frames[0], s) == (t, ERR_NONE);
    assert frames[1..] == Conts(t.cid, data[|t.data|..], t.seqNo);
    if NeedMore(t) {
      ContsFeed(t, data);
    } else {
      assert t.data == data;
    }
  }

  lemma InitStep(s: Assembly, cmd: byte, cid: u32, data: seq<byte>)
    requires !s.initialized && cmd >= TYPE_INIT && |data| <= DATA_MAX
    ensures
      var n := Min(INIT_DATA, |data|);
      Process(InitFrame(cmd, cid, |data|, data[..n]), s) == (Assembly(true, data[..n], |data|, 0, cmd, cid), ERR_NONE)
  {
    var n := Min(INIT_DATA, |data|);
    var tail := [cmd, |data| / 0x100 % 0x100, |data| % 0x100] + Pad(data[..n], INIT_DATA);
    var f := InitFrame(cmd, cid, |data|, data[..n]);
    CidRoundTrip(cid, tail);
    assert f == CidBytes(cid) + tail;
    assert f[7..7 + n] == data[..n];
  }

  /** A message cut into reports and fed to a receiver that is not busy comes back as it was sent. */
  lemma RoundTrip(s: Assembly, cmd: byte, cid: u32, data: seq<byte>)
    requires !s.initialized && cmd >= TYPE_INIT && |data| <= DATA_MAX
    ensures Feeds(s, Frames(cmd, cid, data), cmd, cid, data)
  {
    var n := Min(INIT_DATA, |data|);
    InitStep(s, cmd, cid, data);
    var t := Assembly(true, data[..n], |data|, 0, cmd, cid);
    if NeedMore(t) {
      ContsFeed(t, data);
    } else {
      assert data[..n] == data;
      assert data[n..] == [];
    }
  }

  // The C code

  /** `State`: the receive buffer, and how much of it is filled (`buf_ptr - data`). */
  class Assembler {
    const data: array<byte>
    var pos: nat
    var len: nat
    var seqNo: byte
    var cmd: byte
    var cid: u32
    var initialized: bool
    const timers: Timers

    ghost predicate Valid()
      reads this, data
    {
      data.Length == DATA_MAX && pos <= DATA_MAX && Reassembling(View()) && timers.Valid()
    }

    ghost function View(): Assembly
      reads this, data
      requires pos <= data.Length
    {
      Assembly(initialized, data[..pos], len, seqNo, cmd, cid)
    }

    constructor (timers: Timers)
      requires timers.Valid()
      ensures Valid() && View() == NoMessage && fresh(data) && this.timers == timers
    {
      this.timers := timers;
      data := new byte[DATA_MAX](_ => 0);
      pos, len, seqNo, cmd, cid, initialized := 0, 0, 0, 0, 0, false;
    }

    /** `memset` of the whole state. */
    method Reset()
      requires Valid()
      modifies this, data
      ensures Valid() && View() == NoMessage
    {
      forall i | 0 <= i < data.Length {
        data[i] := 0;
      }
      pos, len, seqNo, cmd, cid, initialized := 0, 0, 0, 0, 0, false;
    }

    /** `_read_data`: append to the buffer. */
    method ReadData(bytes: seq<byte>)
      requires data.Length == DATA_MAX && pos + |bytes| <= DATA_MAX
      modifies this`pos, data
      ensures pos == old(pos) + |bytes| && data[..pos] == old(data[..pos]) + bytes
    {
      forall i | 0 <= i < |bytes| {
        data[pos + i] := bytes[i];
      }
      pos := pos + |bytes|;
    }

    method Init(f: Report) returns (err: byte)
      requires Valid() && f[4] >= TYPE_INIT
      modifies this, data, timers.slots
      ensures Valid() && (View(), err) == CmdInit(f, old(View()))
      ensures timers.slots[..] == Started(old(timers.slots[..]), f, old(View()))
    {
      ProcessKeepsReassembling(f, View());
      if initialized && Cid(f) != cid && cmd == HID_INIT {
        return ERR_CHANNEL_BUSY;
      }
      if initialized && Cid(f) != cid && f[4] != HID_INIT && cmd != HID_INIT {
        return ERR_CHANNEL_BUSY;
      }
      if initialized && Cid(f) == cid && f[4] != HID_INIT {
        return ERR_INVALID_SEQ;
      }
      if MsgLen(f) > DATA_MAX {
        return ERR_INVALID_LEN;
      }
      if f[4] < HID_VENDOR_FIRST {
        timers.Enable(Cid(f));
      }
      Reset();
      len, cmd, cid, initialized := MsgLen(f), f[4], Cid(f), true;
      ReadData(f[7..7 + Min(len, INIT_DATA)]);
      assert data[..pos] == f[7..7 + Min(len, INIT_DATA)];
      return ERR_NONE;
    }

    method Continue(f: Report) returns (err: byte)
      requires Valid()
      modifies this, data
      ensures Valid() && (View(), err) == CmdContinue(f, old(View()))
    {
      if !initialized {
        return ERR_IGNORE;
      }
      if cid != Cid(f) {
        return ERR_CHANNEL_BUSY;
      }
      if seqNo != f[4] % TYPE_INIT {
        return ERR_INVALID_SEQ;
      }
      if pos >= len || pos + CONT_DATA > DATA_MAX {
        return ERR_INVALID_LEN;
      }
      seqNo := (seqNo + 1) % 0x100;
      ReadData(f[5..5 + Min(len - pos, CONT_DATA)]);
      return ERR_NONE;
    }

    method ProcessFrame(f: Report) returns (err: byte)
      requires Valid()
      modifies this, data, timers.slots
      ensures Valid() && (View(), err) == Process(f, old(View()))
      ensures timers.slots[..] == Started(old(timers.slots[..]), f, old(View()))
    {
      if f[4] >= TYPE_INIT {
        err := Init(f);
      } else {
        err := Continue(f);
      }
    }
  }

  /** The next continuation frame to send once `sent` frames of a message are out. */
  lemma NextCont(frames: seq<Report>, sent: nat, cid: u32, data: seq<byte>, cnt: nat, seqNo: byte)
    requires sent <= |frames| && cnt < |data| && frames[sent..] == Conts(cid, data[cnt..], seqNo)
    ensures
      var n := Min(CONT_DATA, |data| - cnt);
      && sent < |frames|
      && frames[sent] == ContFrame(cid, seqNo, data[cnt..cnt + n])
      && frames[sent + 1..] == Conts(cid, data[cnt + n..], (seqNo + 1) % 0x100)
      && frames[..sent + 1] == frames[..sent] + [frames[sent]]
  {
    var n := Min(CONT_DATA, |data| - cnt);
    assert data[cnt..][..n] == data[cnt..cnt + n];
    assert data[cnt..][n..] == data[cnt + n..];
    assert frames[sent] == frames[sent..][0];
    assert frames[sent + 1..] == frames[sent..][1..];
  }

  /** Push one more of the frames to send. */
  method PushNext(frame: Report, queue: Queue.Ring, ghost before: seq<seq<byte>>, ghost frames: seq<Report>, ghost sent: nat)
    returns (ok: bool)
    requires queue.Valid() && queue.itemSize == REPORT_SIZE
    requires sent < |frames| && frame == frames[sent] && queue.Contents() == before + frames[..sent]
    modifies queue, queue.items
    ensures queue.Valid() && queue.itemSize == REPORT_SIZE && queue.slots == old(queue.slots)
    ensures ok <==> sent < queue.slots - 1 - |before|
    ensures queue.Contents() == before + frames[..if ok then sent + 1 else sent]
  {
    ok := queue.Push(frame);
    assert before + frames[..sent] + [frame] == before + frames[..sent + 1];
  }

  /** Push the continuation frames of a message until the queue is full. */
  method PushConts(
    data: seq<byte>, first: nat, cid: u32, queue: Queue.Ring, ghost before: seq<seq<byte>>, ghost frames: seq<Report>)
    returns (ok: bool)
    requires queue.Valid() && queue.itemSize == REPORT_SIZE
    requires first <= |data| && frames != [] && frames[1..] == Conts(cid, data[first..], 0)
    requires queue.Contents() == before + frames[..1] && |before| < queue.slots - 1
    modifies queue, queue.items
    ensures queue.Valid() && queue.itemSize == REPORT_SIZE && queue.slots == old(queue.slots)
    ensures ok <==> |frames| <= queue.slots - 1 - |before|
    ensures queue.Contents() == before + frames[..Min(queue.slots - 1 - |before|, |frames|)]
  {
    ok := true;
    var cnt, seqNo: byte := first, 0;
    ghost var sent := 1;
    while cnt < |data|
      invariant ok && cnt <= |data| && sent <= |frames| && sent <= queue.slots - 1 - |before|
      invariant queue.Valid() && queue.itemSize == REPORT_SIZE && queue.slots == old(queue.slots)
      invariant frames[sent..] == Conts(cid, data[cnt..], seqNo)
      invariant queue.Contents() == before + frames[..sent]
      decreases |data| - cnt
    {
      NextCont(frames, sent, cid, data, cnt, seqNo);
      var psz := Min(CONT_DATA, |data| - cnt);
      ok := PushNext(ContFrame(cid, seqNo, data[cnt..cnt + psz]), queue, before, frames, sent);
      if !ok {
        return;
      }
      cnt, seqNo, sent := cnt + psz, (seqNo + 1) % 0x100, sent + 1;
    }
    assert frames[sent..] == [];
  }

  /** `usb_frame_reply`: pushes the frames of a message until the queue is full. */
  method Reply(cmd: byte, data: seq<byte>, cid: u32, queue: Queue.Ring) returns (ok: bool)
    requires queue.Valid() && queue.itemSize == REPORT_SIZE
    modifies queue, queue.items
    ensures queue.Valid() && queue.itemSize == REPORT_SIZE && queue.slots == old(queue.slots)
    ensures
      var frames, before := Frames(cmd, cid, data), old(queue.Contents());
      var room := queue.slots - 1 - |before|;
      && (ok <==> |frames| <= room)
      && queue.Contents() == before + frames[..Min(room, |frames|)]
  {
    ghost var frames, before := Frames(cmd, cid, data), queue.Contents();
    var psz := Min(INIT_DATA, |data|);
    ok := PushNext(InitFrame(cmd, cid, |data|, data[..psz]), queue, before, frames, 0);
    if ok {
      ok := PushConts(data, psz, cid, queue, before, frames);
    }
  }
}
