/** The ring buffer that carries outgoing reports (queue.c). */
module Queue {
  import opened Types

  const USB_DATA_MAX_LEN := 7609
  const USB_REPORT_SIZE := 64
  const QUEUE_NUM_REPORTS := USB_DATA_MAX_LEN / USB_REPORT_SIZE
  const QUEUE_SIZE := QUEUE_NUM_REPORTS * USB_REPORT_SIZE

  /** An address handed out by a pull, and the item found there. */
  datatype Loan = Loan(at: nat, bytes: seq<byte>)

  /** The offset of slot k. */
  ghost function Off(sz: nat, k: nat): nat {
    if k == 0 then 0 else Off(sz, k - 1) + sz
  }

  /** The slot with number k, counting on from the last slot to the first. */
  ghost function Wrap(n: nat, k: nat): nat
    requires k < 2 * n
  {
    if k < n then k else k - n
  }

  lemma {:induction false} OffIsProduct(sz: nat, k: nat)
    ensures Off(sz, k) == k * sz
  {
    if k > 0 {
      OffIsProduct(sz, k - 1);
    }
  }

  /** Slots do not overlap. */
  lemma {:induction false} SlotsApart(sz: nat, j: nat, k: nat)
    requires j < k
    ensures Off(sz, j) + sz <= Off(sz, k)
    decreases k
  {
    if j + 1 < k {
      SlotsApart(sz, j, k - 1);
    }
  }

  lemma SlotInjective(sz: nat, j: nat, k: nat)
    requires sz > 0 && Off(sz, j) == Off(sz, k)
    ensures j == k
  {
    if j < k {
      SlotsApart(sz, j, k);
    } else if k < j {
      SlotsApart(sz, k, j);
    }
  }

  lemma ModUpTo(x: nat, m: nat)
    requires 0 < m && x <= m
    ensures x % m == if x == m then 0 else x
  {
  }

  /** The C index arithmetic `(p + item_size) % QUEUE_SIZE` steps to the next slot. */
  method NextIndex(p: nat, sz: nat, ghost n: nat, ghost k: nat) returns (next: nat)
    requires sz > 0 && k < n && Off(sz, n) == QUEUE_SIZE && p == Off(sz, k)
    ensures next == Off(sz, Wrap(n, k + 1))
  {
    SlotsApart(sz, k, n);
    ModUpTo(p + sz, QUEUE_SIZE);
    next := (p + sz) % QUEUE_SIZE;
    if k + 1 < n {
      SlotsApart(sz, k + 1, n);
    }
  }

  /** The bytes of slot k. */
  ghost function Slot(a: seq<byte>, sz: nat, n: nat, k: nat): seq<byte>
    requires k < n && |a| == Off(sz, n)
  {
    SlotsApart(sz, k, n);
    a[Off(sz, k)..Off(sz, k) + sz]
  }

  /** The `count` items from slot `first` on, oldest first. */
  ghost function Items(a: seq<byte>, sz: nat, n: nat, first: nat, count: nat): (r: seq<seq<byte>>)
    requires |a| == Off(sz, n) && first < n && count < n
    ensures |r| == count
    ensures forall i :: 0 <= i < count ==> r[i] == Slot(a, sz, n, Wrap(n, first + i))
  {
    seq(count, i requires 0 <= i < count => Slot(a, sz, n, Wrap(n, first + i)))
  }

  /** Writing slot k changes no other slot. */
  lemma WriteSlot(a: seq<byte>, b: seq<byte>, sz: nat, n: nat, k: nat, data: seq<byte>)
    requires |a| == |b| == Off(sz, n) && k < n && |data| == sz
    requires Off(sz, k) + sz <= |a|
    requires b == a[..Off(sz, k)] + data + a[Off(sz, k) + sz..]
    ensures Slot(b, sz, n, k) == data
    ensures forall j | 0 <= j < n && j != k :: Slot(b, sz, n, j) == Slot(a, sz, n, j)
  {
    forall j | 0 <= j < n && j != k
      ensures Slot(b, sz, n, j) == Slot(a, sz, n, j)
    {
      SlotsApart(sz, j, n);
      if j < k {
        SlotsApart(sz, j, k);
      } else {
        SlotsApart(sz, k, j);
      }
    }
  }

  /** How the fields describe the buffer: `count` slots from `first` are in use, and the slot before
      `first` still holds the item last handed out. */
  ghost predicate Represents(a: seq<byte>, sz: nat, n: nat, first: nat, count: nat, start: nat, end: nat,
                             lent: Option<Loan>)
  {
    && |a| == QUEUE_SIZE == Off(sz, n)
    && sz > 0 && first < n && count < n
    && start == Off(sz, first)
    && end == Off(sz, Wrap(n, first + count))
    && (lent.Some? ==>
        && lent.value.at == Off(sz, Wrap(n, first + n - 1))
        && lent.value.bytes == Slot(a, sz, n, Wrap(n, first + n - 1)))
  }

  lemma PushRepresents(a: seq<byte>, b: seq<byte>, sz: nat, n: nat, first: nat, count: nat, start: nat, end: nat,
                       lent: Option<Loan>, data: seq<byte>, next: nat)
    requires Represents(a, sz, n, first, count, start, end, lent) && count + 1 < n && |data| == sz
    requires end + sz <= |a| && b == a[..end] + data + a[end + sz..]
    requires next == Off(sz, Wrap(n, Wrap(n, first + count) + 1))
    ensures Represents(b, sz, n, first, count + 1, start, next, lent)
    ensures Items(b, sz, n, first, count + 1) == Items(a, sz, n, first, count) + [data]
  {
    WriteSlot(a, b, sz, n, Wrap(n, first + count), data);
    assert Wrap(n, Wrap(n, first + count) + 1) == Wrap(n, first + (count + 1));
  }

  lemma ItemsTail(a: seq<byte>, sz: nat, n: nat, first: nat, count: nat)
    requires |a| == Off(sz, n) && first < n && 0 < count < n
    ensures Items(a, sz, n, Wrap(n, first + 1), count - 1) == Items(a, sz, n, first, count)[1..]
    ensures Items(a, sz, n, first, count)[0] == Slot(a, sz, n, first)
  {
    var all, rest := Items(a, sz, n, first, count), Items(a, sz, n, Wrap(n, first + 1), count - 1);
    forall i | 0 <= i < count - 1
      ensures all[i + 1] == rest[i]
    {
    }
  }

  lemma PullRepresents(a: seq<byte>, sz: nat, n: nat, first: nat, count: nat, start: nat, end: nat,
                       lent: Option<Loan>, next: nat)
    requires Represents(a, sz, n, first, count, start, end, lent) && 0 < count
    requires next == Off(sz, Wrap(n, first + 1))
    ensures Represents(a, sz, n, Wrap(n, first + 1), count - 1, next, end, Some(Loan(start, Slot(a, sz, n, first))))
  {
    assert Wrap(n, Wrap(n, first + 1) + n - 1) == first;
    assert Wrap(n, Wrap(n, first + 1) + (count - 1)) == Wrap(n, first + count);
  }

  class Ring {
    var start: nat
    var end: nat
    var itemSize: nat
    const items: array<byte>

    ghost var slots: nat  // how many items the buffer is divided into
    ghost var first: nat  // the slot `start` points at
    ghost var count: nat  // how many slots are in use
    ghost var lent: Option<Loan>  // what the last pull handed out

    ghost predicate Valid()
      reads this, items
    {
      Represents(items[..], itemSize, slots, first, count, start, end, lent)
    }

    /** The queued items, oldest first. */
    ghost function Contents(): seq<seq<byte>>
      reads this, items
      requires Valid()
    {
      Items(items[..], itemSize, slots, first, count)
    }

    /** `queue_init`: an item size that does not divide the buffer aborts. */
    constructor (itemSize: nat)
      requires itemSize > 0 && QUEUE_SIZE % itemSize == 0
      ensures Valid() && fresh(items)
      ensures Contents() == [] && this.itemSize == itemSize && slots == QUEUE_SIZE / itemSize && lent == None
    {
      items := new byte[QUEUE_SIZE](_ => 0);
      this.itemSize := itemSize;
      start, end := 0, 0;
      slots := QUEUE_SIZE / itemSize;
      first, count, lent := 0, 0, None;
      OffIsProduct(itemSize, QUEUE_SIZE / itemSize);
    }

    /** The address stays good: as long as the loan stands, the bytes behind it are the item. Pushes
        keep the loan; only the next pull replaces it and only a clear ends it. */
    lemma LoanIsIntact()
      requires Valid() && lent.Some?
      ensures lent.value.at + itemSize <= items.Length
      ensures items[lent.value.at..lent.value.at + itemSize] == lent.value.bytes
    {
      SlotsApart(itemSize, Wrap(slots, first + slots - 1), slots);
    }

    method Clear()
      requires Valid()
      modifies this, items
      ensures Valid()
      ensures Contents() == [] && itemSize == old(itemSize) && slots == old(slots) && lent == None
    {
      forall i | 0 <= i < items.Length {
        items[i] := 0;
      }
      start, end := 0, 0;
      first, count, lent := 0, 0, None;
    }

    /** `memcpy` into the buffer. */
    method CopyIn(p: nat, data: seq<byte>)
      requires p + |data| <= items.Length
      modifies items
      ensures items[..] == old(items[..])[..p] + data + old(items[..])[p + |data|..]
    {
      forall i | 0 <= i < |data| {
        items[p + i] := data[i];
      }
    }

    /** One slot always stays free, and a push never touches the item the last pull handed out. */
    method Push(data: seq<byte>) returns (ok: bool)
      requires Valid() && |data| == itemSize
      modifies this, items
      ensures Valid() && itemSize == old(itemSize) && slots == old(slots) && lent == old(lent)
      ensures ok <==> |old(Contents())| < slots - 1
      ensures Contents() == if ok then old(Contents()) + [data] else old(Contents())
    {
      ghost var before := items[..];
      ghost var free := Wrap(slots, first + count);
      var next := NextIndex(end, itemSize, slots, free);
      if start == next {
        SlotInjective(itemSize, first, Wrap(slots, free + 1));
        return false;
      }
      SlotsApart(itemSize, free, slots);
      CopyIn(end, data);
      PushRepresents(before, items[..], itemSize, slots, first, count, start, end, lent, data, next);
      end, count := next, count + 1;
      return true;
    }

    /** Move `start` past the oldest item. */
    method DropOldest(next: nat)
      requires Valid() && 0 < count && next == Off(itemSize, Wrap(slots, first + 1))
      modifies this
      ensures Valid() && itemSize == old(itemSize) && slots == old(slots)
      ensures Contents() == old(Contents())[1..] && lent == Some(Loan(old(start), old(Contents())[0]))
    {
      ghost var bytes := items[..];
      PullRepresents(bytes, itemSize, slots, first, count, start, end, lent, next);
      ItemsTail(bytes, itemSize, slots, first, count);
      lent := Some(Loan(start, Slot(bytes, itemSize, slots, first)));
      start, first, count := next, Wrap(slots, first + 1), count - 1;
      assert items[..] == bytes;
    }

    /** Returns the offset of the oldest item; its bytes stay in place until the next pull or
        clear. */
    method Pull() returns (p: Option<nat>)
      requires Valid()
      modifies this
      ensures Valid() && itemSize == old(itemSize) && slots == old(slots)
      ensures p.None? <==> old(Contents()) == []
      ensures p.None? ==> Contents() == [] && lent == old(lent)
      ensures p.Some? ==>
        && Contents() == old(Contents())[1..]
        && lent == Some(Loan(p.value, old(Contents())[0]))
    {
      p := Peek();
      if p.Some? {
        var next := NextIndex(start, itemSize, slots, first);
        DropOldest(next);
      }
    }

    method Peek() returns (p: Option<nat>)
      requires Valid()
      ensures p.None? <==> Contents() == []
      ensures p.Some? ==>
        && p.value == start
        && p.value + itemSize <= items.Length
        && items[p.value..p.value + itemSize] == Contents()[0]
    {
      if start == end {
        SlotInjective(itemSize, first, Wrap(slots, first + count));
        return None;
      }
      SlotsApart(itemSize, first, slots);
      p := Some(start);
    }
  }
}
