/**
  The time line of a recording (src/lvx2.cpp): each device's timestamps are placed on it relative
  to the newest time written when the device joined, with 64-bit wrap-around arithmetic.
*/
module RecordingTime {
  import opened Bytes
  import opened Division
  import opened TimeMapper
  import opened Wrappers

  /** A device whose timestamp moves further than this joins the time line anew. */
  const CLOCK_JUMP_NS := 1_000_000_000
  const HALF := 0x8000_0000_0000_0000

  /** `base` is the timestamp at recording time 0, `prev` the last timestamp seen. */
  datatype Clock = Clock(base: Option<U64>, prev: U64)
  datatype Line = Line(clocks: seq<Clock>, latestNs: nat)

  /** The cast to int64_t. */
  function Signed(v: U64): (r: int)
    ensures -HALF <= r < HALF
  {
    if v < HALF then v else v - 2 * HALF
  }

  function Moved(a: U64, b: U64): (d: nat) {
    if a > b then a - b else b - a
  }

  function Start(devices: nat): (l: Line) {
    Line(seq(devices, _ => Clock(None, 0)), 0)
  }

  /** Whether a package of timestamp `ts` makes its device join the time line at the newest time. */
  predicate Joins(c: Clock, ts: U64) {
    c.base.None? || Moved(ts, c.prev) > CLOCK_JUMP_NS
  }

  function BaseFor(c: Clock, latestNs: nat, ts: U64): (b: U64) {
    if Joins(c, ts) then ToU64(ts - latestNs) else c.base.value
  }

  /** The recording time of a package. */
  function TimeOf(l: Line, device: nat, ts: U64): (t: int)
    requires device < |l.clocks|
  {
    Signed(ToU64(ts - BaseFor(l.clocks[device], l.latestNs, ts)))
  }

  function Max(a: int, b: int): int {
    if a < b then b else a
  }

  function Placed(l: Line, device: nat, ts: U64): (r: Line)
    requires device < |l.clocks|
    ensures |r.clocks| == |l.clocks|
  {
    Line(l.clocks[device := Clock(Some(BaseFor(l.clocks[device], l.latestNs, ts)), ts)],
         Max(l.latestNs, TimeOf(l, device, ts)))
  }

  /** The frame a recording time falls into; times before 0 fall into the first. */
  function Slot(timeNs: int, durationNs: nat): (s: nat)
    requires durationNs > 0
  {
    if timeNs <= 0 then 0 else
    DivideMonotone(0, timeNs, durationNs);
    timeNs / durationNs
  }

  /** The slot is the frame duration the time lies in, counted from 0. */
  lemma SlotHoldsTime(timeNs: int, durationNs: nat)
    requires durationNs > 0
    ensures var s := Slot(timeNs, durationNs);
            if timeNs <= 0 then s == 0 else s * durationNs <= timeNs < (s + 1) * durationNs
  {
    if timeNs > 0 { WholePart(timeNs, durationNs); }
  }

  /** A time is past a slot exactly if it is not before the end of the slot's duration. */
  lemma PastSlot(timeNs: int, slot: nat, durationNs: nat)
    requires durationNs > 0
    ensures Slot(timeNs, durationNs) > slot <==> timeNs >= (slot + 1) * durationNs
  {
    hide Slot;
    SlotHoldsTime(timeNs, durationNs);
    var s := Slot(timeNs, durationNs);
    Grows(slot + 1, durationNs);
    if s > slot { Products(slot + 1, s, durationNs); } else { Products(s + 1, slot + 1, durationNs); }
  }

  lemma SlotMonotone(a: int, b: int, durationNs: nat)
    requires durationNs > 0 && a <= b
    ensures Slot(a, durationNs) <= Slot(b, durationNs)
  {
    if a > 0 { DivideMonotone(a, b, durationNs); }
  }

  // ---------------------------------------------------------------------------
  // The time line without wrap-around
  // ---------------------------------------------------------------------------

  /** A device on the ideal time line: its last timestamp and that package's position. */
  datatype Place = Place(prev: U64, position: int)
  datatype Ideal = Ideal(places: seq<Option<Place>>, latestNs: nat)

  function IdealStart(devices: nat): (l: Ideal) {
    Ideal(seq(devices, _ => None), 0)
  }

  /** A device joins at the newest position; afterwards, but for jumps of over 1 s, it moves as its timestamps do. */
  function Position(l: Ideal, device: nat, ts: U64): (t: int)
    requires device < |l.places|
  {
    match l.places[device]
    case None => l.latestNs
    case Some(p) => if -1_000_000_000 <= ts - p.prev <= 1_000_000_000 then p.position + ts - p.prev else l.latestNs
  }

  function IdealPlaced(l: Ideal, device: nat, ts: U64): (r: Ideal)
    requires device < |l.places|
    ensures |r.places| == |l.places|
  {
    var t := Position(l, device, ts);
    Ideal(l.places[device := Some(Place(ts, t))], Max(l.latestNs, t))
  }

  /** The clock of a device holds its place. */
  ghost predicate Holds(c: Clock, p: Option<Place>) {
    match p
    case None => c.base.None?
    case Some(q) => c.base == Some(ToU64(q.prev - q.position)) && c.prev == q.prev
  }

  ghost predicate Refines(l: Line, i: Ideal) {
    && |l.clocks| == |i.places|
    && l.latestNs == i.latestNs
    && forall d :: 0 <= d < |l.clocks| ==> Holds(l.clocks[d], i.places[d])
  }

  /** The position of the next package is an int64_t. */
  predicate InRange(t: int) {
    -HALF <= t < HALF
  }

  /** Subtracting a wrapped number gives the difference exactly if it is an int64_t. */
  lemma Unwrapped(a: int, b: int)
    ensures Signed(ToU64(a - ToU64(b))) == a - b <==> InRange(a - b)
  {
    var w := 2 * HALF;
    assert ToU64(b) == b - w * (b / w);
  }

  /** The recording time of a package is its ideal position exactly if that is an int64_t. */
  lemma TimeIsPosition(l: Line, i: Ideal, device: nat, ts: U64)
    requires Refines(l, i) && device < |l.clocks|
    ensures TimeOf(l, device, ts) == Position(i, device, ts) <==> InRange(Position(i, device, ts))
  {
    hide ToU64, Signed, InRange;
    var c, p := l.clocks[device], i.places[device];
    assert Holds(c, p);
    if Joins(c, ts) {
      Unwrapped(ts, ts - l.latestNs);
    } else {
      Unwrapped(ts, p.value.prev - p.value.position);
    }
  }

  lemma PlacedRefines(l: Line, i: Ideal, device: nat, ts: U64)
    requires Refines(l, i) && device < |l.clocks| && InRange(Position(i, device, ts))
    ensures Refines(Placed(l, device, ts), IdealPlaced(i, device, ts))
  {
    hide ToU64, Signed;
    TimeIsPosition(l, i, device, ts);
    var l', i' := Placed(l, device, ts), IdealPlaced(i, device, ts);
    var t, c := Position(i, device, ts), l.clocks[device];
    assert Holds(c, i.places[device]);
    if !Joins(c, ts) {
      var q := i.places[device].value;
      assert ts - t == q.prev - q.position;
    }
    assert Holds(l'.clocks[device], i'.places[device]);
  }

  // ---------------------------------------------------------------------------
  // Runs
  // ---------------------------------------------------------------------------

  /** A package as the time line sees it. */
  datatype Tick = Tick(device: nat, timestampNs: U64)

  predicate Of(ticks: seq<Tick>, devices: nat) {
    forall k :: 0 <= k < |ticks| ==> ticks[k].device < devices
  }

  function LineAfter(devices: nat, ticks: seq<Tick>): (l: Line)
    requires Of(ticks, devices)
    ensures |l.clocks| == devices
  {
    if ticks == [] then Start(devices)
    else
      var n := |ticks| - 1;
      Placed(LineAfter(devices, ticks[..n]), ticks[n].device, ticks[n].timestampNs)
  }

  function IdealAfter(devices: nat, ticks: seq<Tick>): (l: Ideal)
    requires Of(ticks, devices)
    ensures |l.places| == devices
  {
    if ticks == [] then IdealStart(devices)
    else
      var n := |ticks| - 1;
      IdealPlaced(IdealAfter(devices, ticks[..n]), ticks[n].device, ticks[n].timestampNs)
  }

  /** The writer's arithmetic gives every package its ideal position. */
  predicate Follows(devices: nat, ticks: seq<Tick>)
    requires Of(ticks, devices)
  {
    ticks == [] ||
    (var n := |ticks| - 1;
     && Follows(devices, ticks[..n])
     && TimeOf(LineAfter(devices, ticks[..n]), ticks[n].device, ticks[n].timestampNs)
        == Position(IdealAfter(devices, ticks[..n]), ticks[n].device, ticks[n].timestampNs))
  }

  /** Every ideal position is an int64_t. */
  predicate Fits(devices: nat, ticks: seq<Tick>)
    requires Of(ticks, devices)
  {
    ticks == [] ||
    (var n := |ticks| - 1;
     && Fits(devices, ticks[..n])
     && InRange(Position(IdealAfter(devices, ticks[..n]), ticks[n].device, ticks[n].timestampNs)))
  }

  /**
    Every recording, wherever the devices' clocks start, jump or wrap: the 64-bit arithmetic gives
    every package its ideal position exactly if all of these are in the range of int64_t nanoseconds.
  */
  lemma {:induction false} TimeLineIsExact(devices: nat, ticks: seq<Tick>)
    requires Of(ticks, devices)
    ensures Follows(devices, ticks) <==> Fits(devices, ticks)
    ensures Fits(devices, ticks) ==> Refines(LineAfter(devices, ticks), IdealAfter(devices, ticks))
  {
    hide TimeOf, Position, Placed, IdealPlaced, InRange;
    if ticks == [] {
      StartRefines(devices);
    } else {
      var n := |ticks| - 1;
      TimeLineIsExact(devices, ticks[..n]);
      if Fits(devices, ticks[..n]) {
        var l, i := LineAfter(devices, ticks[..n]), IdealAfter(devices, ticks[..n]);
        TimeIsPosition(l, i, ticks[n].device, ticks[n].timestampNs);
        if Fits(devices, ticks) { PlacedRefines(l, i, ticks[n].device, ticks[n].timestampNs); }
      }
    }
  }

  lemma StartRefines(devices: nat)
    ensures Refines(Start(devices), IdealStart(devices))
  {
  }

  /** No device is ahead of the newest position, and none further behind than `reach`. */
  ghost predicate Within(i: Ideal, reach: nat) {
    && i.latestNs <= reach
    && forall d :: 0 <= d < |i.places| && i.places[d].Some? ==>
                     0 <= i.places[d].value.position + reach && i.places[d].value.position <= i.latestNs
  }

  lemma {:induction false} IdealStaysWithin(devices: nat, ticks: seq<Tick>)
    requires Of(ticks, devices)
    ensures Within(IdealAfter(devices, ticks), |ticks| * CLOCK_JUMP_NS)
  {
    if ticks != [] { IdealStaysWithin(devices, ticks[..|ticks| - 1]); }
  }

  /** Fewer than 2^63 / 10^9 packages, over nine billion, always fit. */
  lemma {:induction false} ShortRecordingsFit(devices: nat, ticks: seq<Tick>)
    requires Of(ticks, devices) && |ticks| * CLOCK_JUMP_NS < HALF
    ensures Fits(devices, ticks)
  {
    if ticks != [] {
      ShortRecordingsFit(devices, ticks[..|ticks| - 1]);
      IdealStaysWithin(devices, ticks[..|ticks| - 1]);
    }
  }

  /** The recording time of the last package of a device that has joined. */
  function LastTime(c: Clock): (t: int)
    requires c.base.Some?
    ensures InRange(t)
  {
    Signed(ToU64(c.prev - c.base.value))
  }

  /** No device is ahead of the newest time. */
  ghost predicate Behind(l: Line) {
    && l.latestNs < HALF
    && forall d :: 0 <= d < |l.clocks| && l.clocks[d].base.Some? ==> LastTime(l.clocks[d]) <= l.latestNs
  }

  /** A package that steps back below the range wraps to a time more than a clock jump ahead. */
  predicate WrapsAhead(c: Clock, latestNs: nat, ts: U64) {
    && !Joins(c, ts)
    && LastTime(c) + ts - c.prev < -HALF
    && LastTime(c) + ts - c.prev + 2 * HALF > latestNs + CLOCK_JUMP_NS
  }

  /** The cast of a sum that is off the range by less than one wrap. */
  lemma SignedSum(a: U64, base: U64, prev: U64)
    requires Moved(a, prev) <= CLOCK_JUMP_NS
    ensures var t := Signed(ToU64(prev - base)) + a - prev;
            Signed(ToU64(a - base)) == if t < -HALF then t + 2 * HALF else if t >= HALF then t - 2 * HALF else t
  {
  }

  /** A device that joins is placed at the newest time. */
  lemma JoinsAtNewest(l: Line, device: nat, ts: U64)
    requires device < |l.clocks| && l.latestNs < HALF && Joins(l.clocks[device], ts)
    ensures TimeOf(l, device, ts) == l.latestNs
  {
    hide ToU64, Signed;
    Unwrapped(ts, ts - l.latestNs);
  }

  lemma PlacedIsBehind(l: Line, device: nat, ts: U64)
    requires Behind(l) && device < |l.clocks|
    ensures Behind(Placed(l, device, ts))
  {
    hide ToU64, Signed;
    var r := Placed(l, device, ts);
    assert LastTime(r.clocks[device]) == TimeOf(l, device, ts);
  }

  lemma {:induction false} LineStaysBehind(devices: nat, ticks: seq<Tick>)
    requires Of(ticks, devices)
    ensures Behind(LineAfter(devices, ticks))
  {
    hide Behind, Placed;
    if ticks == [] {
      StartIsBehind(devices);
    } else {
      var n := |ticks| - 1;
      LineStaysBehind(devices, ticks[..n]);
      PlacedIsBehind(LineAfter(devices, ticks[..n]), ticks[n].device, ticks[n].timestampNs);
    }
  }

  lemma StartIsBehind(devices: nat)
    ensures Behind(Start(devices))
  {
  }

  lemma StepMovesExactly(l: Line, device: nat, ts: U64)
    requires Behind(l) && device < |l.clocks|
    ensures var after := Placed(l, device, ts).latestNs;
            && l.latestNs <= after
            && (after > l.latestNs + CLOCK_JUMP_NS <==> WrapsAhead(l.clocks[device], l.latestNs, ts))
  {
    hide ToU64, Signed;
    var c := l.clocks[device];
    if Joins(c, ts) {
      JoinsAtNewest(l, device, ts);
    } else {
      SignedSum(ts, c.base.value, c.prev);
    }
  }

  /**
    Every recording, whatever the devices' clocks do: no package moves the newest time back, and one
    moves it ahead by more than a clock jump exactly if its device steps back below the range of
    int64_t so that its time wraps past the newest one; none does while the recording fits.
  */
  lemma NewestTimeMovesSlowly(devices: nat, ticks: seq<Tick>)
    requires Of(ticks, devices) && ticks != []
    ensures var n := |ticks| - 1;
            var l, after := LineAfter(devices, ticks[..n]), LineAfter(devices, ticks).latestNs;
            && l.latestNs <= after
            && (after > l.latestNs + CLOCK_JUMP_NS
                <==> WrapsAhead(l.clocks[ticks[n].device], l.latestNs, ticks[n].timestampNs))
            && (Fits(devices, ticks) ==> after <= l.latestNs + CLOCK_JUMP_NS)
  {
    hide WrapsAhead, Behind, Placed, Fits;
    var n := |ticks| - 1;
    LineStaysBehind(devices, ticks[..n]);
    StepMovesExactly(LineAfter(devices, ticks[..n]), ticks[n].device, ticks[n].timestampNs);
    if Fits(devices, ticks) { FittingMovesSlowly(devices, ticks); }
  }

  lemma FittingMovesSlowly(devices: nat, ticks: seq<Tick>)
    requires Of(ticks, devices) && ticks != [] && Fits(devices, ticks)
    ensures LineAfter(devices, ticks).latestNs <= LineAfter(devices, ticks[..|ticks| - 1]).latestNs + CLOCK_JUMP_NS
  {
    hide TimeOf, Refines, InRange, BaseFor;
    var n := |ticks| - 1;
    TimeLineIsExact(devices, ticks);
    TimeLineIsExact(devices, ticks[..n]);
    IdealStaysWithin(devices, ticks[..n]);
    SameNewest(devices, ticks[..n]);
  }

  lemma SameNewest(devices: nat, ticks: seq<Tick>)
    requires Of(ticks, devices) && Fits(devices, ticks)
    ensures LineAfter(devices, ticks).latestNs == IdealAfter(devices, ticks).latestNs
  {
    hide LineAfter, IdealAfter, Fits, Follows;
    TimeLineIsExact(devices, ticks);
  }

  /** One device whose clock steps back by a second with every package. */
  function SteppingBack(n: nat): (ticks: seq<Tick>)
    requires n <= 10_000_000_000
    ensures |ticks| == n && Of(ticks, 1)
  {
    if n == 0 then []
    else SteppingBack(n - 1) + [Tick(0, 10_000_000_000_000_000_000 - (n - 1) * CLOCK_JUMP_NS)]
  }

  lemma {:induction false} SteppingBackPosition(n: nat)
    requires 0 < n <= 10_000_000_000
    ensures IdealAfter(1, SteppingBack(n))
            == Ideal([Some(Place(10_000_000_000_000_000_000 - (n - 1) * CLOCK_JUMP_NS, -(n - 1) * CLOCK_JUMP_NS))], 0)
  {
    var ticks := SteppingBack(n);
    assert ticks[..n - 1] == SteppingBack(n - 1);
    if n > 1 {
      SteppingBackPosition(n - 1);
    }
  }

  lemma SteppingBackSplits(n: nat)
    requires n < 10_000_000_000
    ensures SteppingBack(n + 1)[..n] == SteppingBack(n)
    ensures SteppingBack(n + 1)[n] == Tick(0, 10_000_000_000_000_000_000 - n * CLOCK_JUMP_NS)
  {
  }

  /** A recording that does not fit: a clock that steps back far enough leaves the range of int64_t. */
  lemma LongStepBackDoesNotFit()
    ensures !Fits(1, SteppingBack(9_223_372_038))
    ensures Fits(1, SteppingBack(9_223_372_037))
  {
    var n := 9_223_372_037;
    SteppingBackSplits(n);
    SteppingBackPosition(n);
    assert Position(IdealAfter(1, SteppingBack(n)), 0, SteppingBack(n + 1)[n].timestampNs) == -n * CLOCK_JUMP_NS;
    SteppingBackSplits(n - 1);
    SteppingBackPosition(n - 1);
    ShortRecordingsFit(1, SteppingBack(n - 1));
    assert Position(IdealAfter(1, SteppingBack(n - 1)), 0, SteppingBack(n)[n - 1].timestampNs)
           == -(n - 1) * CLOCK_JUMP_NS;
  }

  /**
    There the plain claim fails: after 9_223_372_037 packages the newest time is 0, and the next one
    moves it ahead by 292 years.
  */
  lemma LongStepBackJumpsAhead()
    ensures LineAfter(1, SteppingBack(9_223_372_037)).latestNs == 0
    ensures LineAfter(1, SteppingBack(9_223_372_038)).latestNs == 9_223_372_036_709_551_616
  {
    hide LineAfter, SteppingBack, IdealAfter;
    var n := 9_223_372_037;
    LongStepBackDoesNotFit();
    TimeLineIsExact(1, SteppingBack(n));
    SteppingBackPosition(n);
    var l, ts := LineAfter(1, SteppingBack(n)), 10_000_000_000_000_000_000 - n * CLOCK_JUMP_NS;
    assert Holds(l.clocks[0], Some(Place(ts + CLOCK_JUMP_NS, -(n - 1) * CLOCK_JUMP_NS)));
    SteppingBackSplits(n);
    OneMoreTick(1, SteppingBack(n + 1));
    assert TimeOf(l, 0, ts) == 9_223_372_036_709_551_616;
  }

  lemma OneMoreTick(devices: nat, ticks: seq<Tick>)
    requires Of(ticks, devices) && ticks != []
    ensures var n := |ticks| - 1;
            LineAfter(devices, ticks)
            == Placed(LineAfter(devices, ticks[..n]), ticks[n].device, ticks[n].timestampNs)
  {
    hide Placed;
  }
}
