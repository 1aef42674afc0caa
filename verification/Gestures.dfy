/** The velocity of a finger on a touch slider, kept as the running sum of a window of the last
    thirty moves (gestures.c). */
module Gestures {
  import opened Types

  const MAX_HISTORY := 30
  const MAX_SLIDER_POS := 255

  type Position = x: int | 0 <= x <= MAX_SLIDER_POS

  function Sum(s: seq<int>): int {
    if s == [] then 0 else s[0] + Sum(s[1..])
  }

  lemma {:induction false} SumConcat(a: seq<int>, b: seq<int>)
    ensures Sum(a + b) == Sum(a) + Sum(b)
  {
    if a == [] {
      assert a + b == b;
    } else {
      SumConcat(a[1..], b);
      assert (a + b)[1..] == a[1..] + b;
    }
  }

  /** The moves in the ring, the oldest first. */
  function Window(values: seq<int>, index: nat): seq<int>
    requires index <= |values|
  {
    values[index..] + values[..index]
  }

  lemma WindowSum(values: seq<int>, index: nat)
    requires index <= |values|
    ensures Sum(Window(values, index)) == Sum(values)
  {
    var a, b := values[..index], values[index..];
    assert values == a + b;
    SumConcat(a, b);
    SumConcat(b, a);
  }

  /** Overwriting the oldest move and stepping on shifts the window by one. */
  lemma WindowShifts(values: seq<int>, index: nat, v: int)
    requires index < |values|
    ensures
      var next := if index + 1 == |values| then 0 else index + 1;
      Window(values[index := v], next) == Window(values, index)[1..] + [v]
  {
  }

  lemma RingStep(values: seq<int>, index: nat, v: int)
    requires index < |values|
    ensures
      var next := if index + 1 == |values| then 0 else index + 1;
      var window := Window(values, index);
      && Window(values[index := v], next) == window[1..] + [v]
      && Sum(values[index := v]) == Sum(values) - values[index] + v
      && Sum(window[1..] + [v]) == Sum(values[index := v])
  {
    var next := if index + 1 == |values| then 0 else index + 1;
    WindowShifts(values, index, v);
    WindowSum(values, index);
    WindowSum(values[index := v], next);
    SumShifts(Window(values, index), v);
  }

  lemma SumShifts(w: seq<int>, v: int)
    requires w != []
    ensures Sum(w[1..] + [v]) == Sum(w) - w[0] + v
  {
    SumConcat(w[1..], [v]);
  }

  datatype Kind = NoGesture | Slide | Tap
  datatype Status = Inactive | Active | Released

  const SLIDE_DETECTION_DIFF := 10

  /** The state of one slider, with the ring read as a window. */
  datatype View = View(
    duration: nat, start: int, current: int, travel: int, window: seq<int>, kind: Kind, status: Status)

  function ZeroWindow(): (w: seq<int>)
    ensures |w| == MAX_HISTORY && forall i :: 0 <= i < MAX_HISTORY ==> w[i] == 0
  {
    seq(MAX_HISTORY, i => 0)
  }

  const AtRest := View(0, 0, 0, 0, ZeroWindow(), NoGesture, Inactive)

  function Distance(a: int, b: int): int {
    if a >= b then a - b else b - a
  }

  function Max(a: int, b: int): int {
    if a >= b then a else b
  }

  /** The first touch of a gesture counts as no move. */
  function Move(s: View, position: int): int {
    if s.duration == 0 then 0 else position - s.current
  }

  /** `_slider_state_update`. */
  function Touched(s: View, position: int): View
    requires |s.window| == MAX_HISTORY
  {
    var first := s.duration == 0;
    var start := if first then position else s.start;
    View(s.duration + 1, start, position, Max(Distance(position, start), if first then 0 else s.travel),
      s.window[1..] + [Move(s, position)],
      if Distance(position, start) > SLIDE_DETECTION_DIFF then Slide else if first then Tap else s.kind, Active)
  }

  /** `_slider_state_read_and_update`: the duration of a gesture ends one measurement after the finger is
      lifted, and the window stays as it is. */
  function ReadAndUpdate(s: View, touch: Option<Position>): View
    requires |s.window| == MAX_HISTORY
  {
    match touch
    case Some(position) => Touched(s, position)
    case None =>
      if s.duration > 0 && s.status != Released then s.(status := Released) else s.(status := Inactive, duration := 0)
  }

  class Slider {
    var duration: nat
    var positionStart: int
    var positionCurrent: int
    var maxSlideTravel: int
    var velocitySum: int
    var velocityIndex: nat
    const velocityValues: array<int>
    var gestureType: Kind
    var sliderStatus: Status

    /** The sum is kept up to date without adding up the window. */
    ghost predicate Valid()
      reads this, velocityValues
    {
      && velocityValues.Length == MAX_HISTORY
      && velocityIndex < MAX_HISTORY
      && velocitySum == Sum(velocityValues[..])
    }

    ghost function Seen(): (v: View)
      requires Valid()
      reads this, velocityValues
      ensures |v.window| == MAX_HISTORY
    {
      View(duration, positionStart, positionCurrent, maxSlideTravel, Window(velocityValues[..], velocityIndex),
        gestureType, sliderStatus)
    }

    constructor ()
      ensures Valid() && fresh(velocityValues)
      ensures Seen() == AtRest && velocitySum == 0
    {
      duration, positionStart, positionCurrent, maxSlideTravel := 0, 0, 0, 0;
      velocitySum, velocityIndex := 0, 0;
      velocityValues := new int[MAX_HISTORY](i => 0);
      gestureType, sliderStatus := NoGesture, Inactive;
      new;
      SumOfZeros(velocityValues[..]);
    }

    /** `memset` of the state. */
    method Reset()
      requires velocityValues.Length == MAX_HISTORY
      modifies this, velocityValues
      ensures Valid() && Seen() == AtRest && velocitySum == 0
    {
      duration, positionStart, positionCurrent, maxSlideTravel := 0, 0, 0, 0;
      velocitySum, velocityIndex := 0, 0;
      gestureType, sliderStatus := NoGesture, Inactive;
      forall i | 0 <= i < MAX_HISTORY {
        velocityValues[i] := 0;
      }
      SumOfZeros(velocityValues[..]);
    }

    /** Replace the oldest move of the window. */
    method Push(velocityCurrent: int)
      requires Valid()
      modifies this`velocitySum, this`velocityIndex, velocityValues
      ensures Valid()
      ensures Window(velocityValues[..], velocityIndex) ==
        old(Window(velocityValues[..], velocityIndex))[1..] + [velocityCurrent]
      ensures velocitySum == Sum(Window(velocityValues[..], velocityIndex))
    {
      RingStep(velocityValues[..], velocityIndex, velocityCurrent);
      ghost var pushed := velocityValues[..][velocityIndex := velocityCurrent];
      var velocityRemoved := velocityValues[velocityIndex];
      velocitySum := velocitySum - velocityRemoved + velocityCurrent;
      velocityValues[velocityIndex] := velocityCurrent;
      assert velocityValues[..] == pushed;
      velocityIndex := (velocityIndex + 1) % MAX_HISTORY;
    }

    /** The part of an update that is not about the window. */
    method Track(position: Position) returns (velocityCurrent: int)
      modifies this`duration, this`positionStart, this`positionCurrent, this`maxSlideTravel, this`gestureType,
               this`sliderStatus
      ensures velocityCurrent == if old(duration) == 0 then 0 else position - old(positionCurrent)
      ensures duration == old(duration) + 1 && positionCurrent == position && sliderStatus == Active
      ensures positionStart == if old(duration) == 0 then position else old(positionStart)
      ensures maxSlideTravel == Max(Distance(position, positionStart), if old(duration) == 0 then 0 else old(maxSlideTravel))
      ensures gestureType == if Distance(position, positionStart) > SLIDE_DETECTION_DIFF then Slide
                             else if old(duration) == 0 then Tap else old(gestureType)
    {
      if duration == 0 {
        positionStart := position;
        positionCurrent := position;
        maxSlideTravel := 0;
        gestureType := Tap;
      }
      velocityCurrent := position - positionCurrent;
      positionCurrent := position;
      maxSlideTravel := Max(Distance(position, positionStart), maxSlideTravel);
      sliderStatus := Active;
      if Distance(positionCurrent, positionStart) > SLIDE_DETECTION_DIFF {
        gestureType := Slide;
      }
      duration := duration + 1;
    }

    method Update(position: Position)
      requires Valid()
      modifies this, velocityValues
      ensures Valid() && Seen() == Touched(old(Seen()), position)
      ensures velocitySum == Sum(Seen().window)
    {
      var velocityCurrent := Track(position);
      Push(velocityCurrent);
    }

    method Read(touch: Option<Position>)
      requires Valid()
      modifies this, velocityValues
      ensures Valid() && Seen() == ReadAndUpdate(old(Seen()), touch)
    {
      if touch.Some? {
        Update(touch.value);
      } else if duration > 0 && sliderStatus != Released {
        sliderStatus := Released;
      } else {
        sliderStatus := Inactive;
        duration := 0;
      }
    }
  }

  // Both sliders

  /** `_measure_and_emit` on the state: when no finger is left on either slider, both start afresh. */
  function Measured(top: View, bottom: View, touch: (Option<Position>, Option<Position>)): (View, View)
    requires |top.window| == MAX_HISTORY && |bottom.window| == MAX_HISTORY
  {
    var t, b := ReadAndUpdate(top, touch.0), ReadAndUpdate(bottom, touch.1);
    if t.status != Active && b.status != Active then (AtRest, AtRest) else (t, b)
  }

  type Touch = (Option<Position>, Option<Position>)

  function Detected(top: View, bottom: View, reset: bool, touch: Option<Touch>): (View, View)
    requires |top.window| == MAX_HISTORY && |bottom.window| == MAX_HISTORY
  {
    var (t, b) := if reset then (AtRest, AtRest) else (top, bottom);
    match touch
    case None => (t, b)
    case Some(fingers) => Measured(t, b, fingers)
  }

  class Sliders {
    const top: Slider
    const bottom: Slider

    ghost predicate Valid()
      reads this, top, bottom, top.velocityValues, bottom.velocityValues
    {
      top != bottom && top.velocityValues != bottom.velocityValues && top.Valid() && bottom.Valid()
    }

    constructor ()
      ensures Valid() && top.Seen() == AtRest && bottom.Seen() == AtRest
      ensures fresh(top) && fresh(bottom) && fresh(top.velocityValues) && fresh(bottom.velocityValues)
    {
      top := new Slider();
      bottom := new Slider();
    }

    /** `gestures_detect`: a new screen starts both sliders afresh, and then they are read if the touch
        library has finished a measurement. */
    method Detect(reset: bool, done: bool, topTouch: Option<Position>, bottomTouch: Option<Position>)
      requires Valid()
      modifies top, bottom, top.velocityValues, bottom.velocityValues
      ensures Valid()
      ensures (top.Seen(), bottom.Seen()) ==
        Detected(old(top.Seen()), old(bottom.Seen()), reset,
          if done then Some((topTouch, Mirrored(bottomTouch))) else None)
    {
      if reset {
        top.Reset();
        bottom.Reset();
      }
      if done {
        Measure(topTouch, bottomTouch);
      }
    }

    /** The bottom slider is read from the other end. */
    method Measure(topTouch: Option<Position>, bottomTouch: Option<Position>)
      requires Valid()
      modifies top, bottom, top.velocityValues, bottom.velocityValues
      ensures Valid()
      ensures (top.Seen(), bottom.Seen()) ==
        Measured(old(top.Seen()), old(bottom.Seen()), (topTouch, Mirrored(bottomTouch)))
    {
      top.Read(topTouch);
      bottom.Read(Mirrored(bottomTouch));
      if top.sliderStatus != Active && bottom.sliderStatus != Active {
        top.Reset();
        bottom.Reset();
      }
    }
  }

  function Mirrored(touch: Option<Position>): Option<Position> {
    match touch
    case None => None
    case Some(position) => Some(MAX_SLIDER_POS - position)
  }

  lemma {:induction false} SumOfZeros(s: seq<int>)
    requires forall i :: 0 <= i < |s| ==> s[i] == 0
    ensures Sum(s) == 0
  {
    if s != [] {
      SumOfZeros(s[1..]);
    }
  }

  // The sum telescopes

  function TouchedAll(s: View, positions: seq<int>): (t: View)
    requires |s.window| == MAX_HISTORY
    ensures |t.window| == MAX_HISTORY
  {
    if positions == [] then s
    else Touched(TouchedAll(s, positions[..|positions| - 1]), positions[|positions| - 1])
  }

  /** The move before touch k of a gesture, or what the window held before the gesture. */
  function MoveAt(before: seq<int>, positions: seq<int>, k: int): int
    requires -MAX_HISTORY <= k < |positions| && |before| == MAX_HISTORY
  {
    if k < 0 then before[MAX_HISTORY + k]
    else if k == 0 then 0
    else positions[k] - positions[k - 1]
  }

  lemma {:induction false} WindowAfter(s: View, positions: seq<int>)
    requires |s.window| == MAX_HISTORY && s.duration == 0
    ensures
      var t := TouchedAll(s, positions);
      && t.duration == |positions|
      && (positions != [] ==> t.current == positions[|positions| - 1])
      && forall i :: 0 <= i < MAX_HISTORY ==>
           t.window[i] == MoveAt(s.window, positions, |positions| - MAX_HISTORY + i)
  {
    if positions != [] {
      var n := |positions| - 1;
      var rest := positions[..n];
      WindowAfter(s, rest);
      var t, u := TouchedAll(s, rest), TouchedAll(s, positions);
      forall i | 0 <= i < MAX_HISTORY
        ensures u.window[i] == MoveAt(s.window, positions, n + 1 - MAX_HISTORY + i)
      {
        if i < MAX_HISTORY - 1 {
          assert u.window[i] == t.window[i + 1] == MoveAt(s.window, rest, n - MAX_HISTORY + i + 1);
        }
      }
    }
  }

  lemma {:induction false} Telescopes(positions: seq<int>, moves: seq<int>, from: nat)
    requires from + |moves| < |positions|
    requires forall i :: 0 <= i < |moves| ==> moves[i] == positions[from + i + 1] - positions[from + i]
    ensures Sum(moves) == positions[from + |moves|] - positions[from]
    decreases |moves|
  {
    if moves != [] {
      Telescopes(positions, moves[1..], from + 1);
    }
  }

  /** From the thirty-first touch of a gesture on, the velocity is how far the finger is from where it
      was thirty touches ago, whatever the window held before the gesture. */
  lemma VelocityIsDistance(s: View, positions: seq<int>)
    requires |s.window| == MAX_HISTORY && s.duration == 0 && |positions| > MAX_HISTORY
    ensures Sum(TouchedAll(s, positions).window) ==
      positions[|positions| - 1] - positions[|positions| - 1 - MAX_HISTORY]
  {
    WindowAfter(s, positions);
    Telescopes(positions, TouchedAll(s, positions).window, |positions| - 1 - MAX_HISTORY);
  }

  /** Before that it is how far the finger is from where the gesture began, plus the moves of earlier
      gestures that are still in the window: exactly the distance if and only if these cancel out. */
  lemma EarlyVelocity(s: View, positions: seq<int>)
    requires |s.window| == MAX_HISTORY && s.duration == 0 && 0 < |positions| <= MAX_HISTORY
    ensures
      var velocity := Sum(TouchedAll(s, positions).window);
      var distance := positions[|positions| - 1] - positions[0];
      velocity == distance <==> Sum(s.window[|positions|..]) == 0
  {
    WindowAfter(s, positions);
    var w, n := TouchedAll(s, positions).window, |positions|;
    var stale, own := w[..MAX_HISTORY - n], w[MAX_HISTORY - n..];
    assert stale == s.window[n..];
    assert w == stale + own;
    SumConcat(stale, own);
    assert own[0] == 0;
    assert Sum(own) == Sum(own[1..]);
    Telescopes(positions, own[1..], 0);
  }

  // Which moves are in the window, over every run

  datatype Pair = Pair(top: View, bottom: View, topMoves: seq<int>, bottomMoves: seq<int>)

  const Rest := Pair(AtRest, AtRest, [], [])

  function MovesAfter(s: View, moves: seq<int>, touch: Option<Position>): seq<int> {
    match touch
    case None => moves
    case Some(position) => moves + [Move(s, position)]
  }

  predicate Sized(p: Pair) {
    |p.top.window| == MAX_HISTORY && |p.bottom.window| == MAX_HISTORY
  }

  /** One measurement, with the moves of both sliders since they last started afresh. */
  function Step(p: Pair, touch: Touch): (q: Pair)
    requires Sized(p)
    ensures Sized(q)
  {
    var (t, b) := Measured(p.top, p.bottom, touch);
    if t.status != Active && b.status != Active then Rest
    else Pair(t, b, MovesAfter(p.top, p.topMoves, touch.0), MovesAfter(p.bottom, p.bottomMoves, touch.1))
  }

  /** A call of `gestures_detect`: for a new screen or not, with a measurement or not. */
  datatype Call = Call(reset: bool, touch: Option<Touch>)

  function Perform(p: Pair, call: Call): (q: Pair)
    requires Sized(p)
    ensures Sized(q)
  {
    var start := if call.reset then Rest else p;
    match call.touch
    case None => start
    case Some(touch) => Step(start, touch)
  }

  /** The state of the two sliders is what the code makes it. */
  lemma PerformDetects(p: Pair, call: Call)
    requires Sized(p)
    ensures
      var q := Perform(p, call);
      (q.top, q.bottom) == Detected(p.top, p.bottom, call.reset, call.touch)
  {
  }

  function Run(p: Pair, calls: seq<Call>): (q: Pair)
    requires Sized(p)
    ensures Sized(q)
    decreases |calls|
  {
    if calls == [] then p else Run(Perform(p, calls[0]), calls[1..])
  }

  /** The window holds the last thirty moves. */
  predicate HoldsMoves(s: View, moves: seq<int>) {
    s.window == (ZeroWindow() + moves)[|moves|..]
  }

  /** And while no finger is on either slider there is nothing to hold. */
  predicate PairInv(p: Pair) {
    && HoldsMoves(p.top, p.topMoves) && HoldsMoves(p.bottom, p.bottomMoves)
    && (p.top.status != Active && p.bottom.status != Active ==> p == Rest)
    && (p.top.status == Active ==> p.top.duration > 0) && (p.bottom.status == Active ==> p.bottom.duration > 0)
  }

  lemma MovesFollow(s: View, moves: seq<int>, touch: Option<Position>)
    requires |s.window| == MAX_HISTORY && HoldsMoves(s, moves)
    ensures HoldsMoves(ReadAndUpdate(s, touch), MovesAfter(s, moves, touch))
  {
    if touch.Some? {
      var all, move := ZeroWindow() + moves, Move(s, touch.value);
      assert all + [move] == ZeroWindow() + (moves + [move]);
      assert (all + [move])[|moves| + 1..] == all[|moves|..][1..] + [move];
    }
  }

  lemma PerformHoldsMoves(p: Pair, call: Call)
    requires Sized(p) && PairInv(p)
    ensures PairInv(Perform(p, call))
  {
    var start := if call.reset then Rest else p;
    if call.touch.Some? {
      MovesFollow(start.top, start.topMoves, call.touch.value.0);
      MovesFollow(start.bottom, start.bottomMoves, call.touch.value.1);
    }
  }

  /** Over every run, new screens included, the windows hold exactly the last thirty moves made since both
      sliders started afresh, and whenever both are free they are empty. */
  lemma {:induction false} RunHoldsMoves(p: Pair, calls: seq<Call>)
    requires Sized(p) && PairInv(p)
    ensures PairInv(Run(p, calls))
    decreases |calls|
  {
    if calls != [] {
      PerformHoldsMoves(p, calls[0]);
      RunHoldsMoves(Perform(p, calls[0]), calls[1..]);
    }
  }

  predicate Clean(s: View) {
    forall i :: 0 <= i < |s.window| ==> s.window[i] == 0
  }

  /** None of the last thirty moves went anywhere. */
  predicate Still(moves: seq<int>) {
    forall k :: 0 <= k < |moves| && k >= |moves| - MAX_HISTORY ==> moves[k] == 0
  }

  lemma CleanIfStill(s: View, moves: seq<int>)
    requires |s.window| == MAX_HISTORY && HoldsMoves(s, moves)
    ensures Clean(s) <==> Still(moves)
  {
    var all, n := ZeroWindow() + moves, |moves|;
    assert forall i :: 0 <= i < MAX_HISTORY ==> s.window[i] == all[n + i];
    if Clean(s) {
      forall k | 0 <= k < n && k >= n - MAX_HISTORY
        ensures moves[k] == 0
      {
        assert s.window[MAX_HISTORY + k - n] == moves[k];
      }
    }
  }

  /** So over every run a gesture begins with old moves in its window only while the other slider is
      touched, and exactly if one of the last thirty moves of its own slider, since both were free, went
      anywhere. */
  lemma StaleExactly(calls: seq<Call>)
    ensures
      var p := Run(Rest, calls);
      && (Clean(p.top) <==> Still(p.topMoves)) && (Clean(p.bottom) <==> Still(p.bottomMoves))
      && (p.top.duration == 0 && !Clean(p.top) ==> p.bottom.status == Active)
      && (p.bottom.duration == 0 && !Clean(p.bottom) ==> p.top.status == Active)
  {
    RunHoldsMoves(Rest, calls);
    var p := Run(Rest, calls);
    CleanIfStill(p.top, p.topMoves);
    CleanIfStill(p.bottom, p.bottomMoves);
  }

  function Touching(top: Option<Position>, bottom: Option<Position>): Call {
    Call(false, Some((top, bottom)))
  }

  /** It happens: both sliders are touched, the top finger moves and is lifted, the other stays. */
  lemma StaleWindow()
    ensures
      var calls := [Touching(Some(0), Some(0)), Touching(Some(5), Some(0)), Touching(None, Some(0)), Touching(None, Some(0))];
      var p := Run(Rest, calls);
      p.top.duration == 0 && p.top.window[MAX_HISTORY - 1] == 5
  {
    var calls := [Touching(Some(0), Some(0)), Touching(Some(5), Some(0)), Touching(None, Some(0)), Touching(None, Some(0))];
    var p1 := Perform(Rest, calls[0]);
    var p2 := Perform(p1, calls[1]);
    var p3 := Perform(p2, calls[2]);
    var p4 := Perform(p3, calls[3]);
    assert calls[1..][0] == calls[1] && calls[1..][1..][0] == calls[2] && calls[1..][1..][1..][0] == calls[3];
    assert Run(p4, calls[1..][1..][1..][1..]) == p4;
    assert Run(Rest, calls) == p4;
  }
}
