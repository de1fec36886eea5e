/**
  Gap tracking over the 16-bit packet counter (src/frame_assembler.cpp), refined from counting
  with unbounded packet numbers.
*/
module DropCounter {
  import opened Bytes

  datatype DropState = DropState(have: bool, last: U16)
  datatype DropResult = DropResult(dropped: nat, reordered: bool)

  function ToU16(v: int): U16 {
    v % 0x1_0000
  }

  function Observed(s: DropState, udpCnt: U16, frameChanged: bool): (r: (DropState, DropResult)) {
    if !s.have then (DropState(true, udpCnt), DropResult(0, false))
    else
      var gap := ToU16(udpCnt - ToU16(s.last + 1));
      if gap == 0 || (udpCnt == 0 && frameChanged) then (DropState(true, udpCnt), DropResult(0, false))
      else if gap > 0x8000 then (s, DropResult(0, true))
      else (DropState(true, udpCnt), DropResult(gap, false))
  }

  class DropCounter {
    var have: bool
    var last: U16

    constructor ()
      ensures View() == DropState(false, 0)
    {
      have, last := false, 0;
    }

    function View(): DropState
      reads this
    {
      DropState(have, last)
    }

    method Observe(udpCnt: U16, frameChanged: bool) returns (r: DropResult)
      modifies this
      ensures (View(), r) == Observed(old(View()), udpCnt, frameChanged)
    {
      if !have {
        have := true;
        last := udpCnt;
        return DropResult(0, false);
      }
      var expected := ToU16(last + 1);
      var gap := ToU16(udpCnt - expected);
      r := DropResult(0, false);
      if gap == 0 || (udpCnt == 0 && frameChanged) {
      } else if gap > 0x8000 {
        return DropResult(0, true);
      } else {
        r := DropResult(gap, false);
      }
      last := udpCnt;
    }

    method Reset()
      modifies this
      ensures View() == old(View()).(have := false)
    {
      have := false;
    }
  }

  // ---------------------------------------------------------------------------
  // Reference: the true, unbounded packet number
  // ---------------------------------------------------------------------------

  /** A packet with its true number, of which the header carries 16 bits. */
  datatype Numbered = Numbered(number: int, frameChanged: bool)

  /** Counting with unbounded numbers: a packet beyond the highest seen reports those skipped. */
  function Counted(highest: int, number: int): (r: (int, DropResult)) {
    if number > highest then (number, DropResult(number - highest - 1, false))
    else (highest, DropResult(0, true))
  }

  /** The header that looks like the documented counter reset at a frame start. */
  predicate LooksLikeReset(n: Numbered) {
    ToU16(n.number) == 0 && n.frameChanged
  }

  /**
    When the 16-bit counter cannot be told from the unbounded one: the packet lies in the half
    of the counter range ahead of the highest number or in the half behind it (for a packet
    behind, also any whole number of wraps further back), and no reset is read into it unless it
    is the very next packet.
  */
  predicate WithinReach(highest: int, n: Numbered) {
    var d := n.number - highest;
    if d > 0 then d <= 0x8001 && (LooksLikeReset(n) ==> d == 1)
    else ToU16(d - 1) > 0x8000 && !LooksLikeReset(n)
  }

  /** The exact condition, for one packet in any state. */
  lemma ObserveRefinesCounting(highest: int, n: Numbered)
    ensures var (counter, result) := Observed(DropState(true, ToU16(highest)), ToU16(n.number), n.frameChanged);
            var (highest', expected) := Counted(highest, n.number);
            (result == expected && counter == DropState(true, ToU16(highest'))) <==> WithinReach(highest, n)
  {
    GapIsDistance(highest, n.number);
  }

  lemma GapIsDistance(highest: int, number: int)
    ensures ToU16(ToU16(number) - ToU16(ToU16(highest) + 1)) == ToU16(number - highest - 1)
  {
  }

  function CountedRun(arrivals: seq<Numbered>): (r: (int, seq<DropResult>))
    requires arrivals != []
    ensures |r.1| == |arrivals|
  {
    if |arrivals| == 1 then (arrivals[0].number, [DropResult(0, false)])
    else
      var (highest, results) := CountedRun(arrivals[..|arrivals| - 1]);
      var (highest', result) := Counted(highest, arrivals[|arrivals| - 1].number);
      (highest', results + [result])
  }

  function ObservedRun(s: DropState, arrivals: seq<Numbered>): (r: (DropState, seq<DropResult>))
    ensures |r.1| == |arrivals|
  {
    if arrivals == [] then (s, [])
    else
      var (before, results) := ObservedRun(s, arrivals[..|arrivals| - 1]);
      var n := arrivals[|arrivals| - 1];
      var (after, result) := Observed(before, ToU16(n.number), n.frameChanged);
      (after, results + [result])
  }

  /** Every packet after the first lies within reach of the highest number before it. */
  predicate RunWithinReach(arrivals: seq<Numbered>) {
    forall k :: 0 < k < |arrivals| ==> WithinReach(CountedRun(arrivals[..k]).0, arrivals[k])
  }

  /** From state `s`, the 16-bit counter reports what the unbounded one does and is at its number. */
  predicate Agrees(s: DropState, arrivals: seq<Numbered>)
    requires arrivals != []
  {
    && ObservedRun(s, arrivals).1 == CountedRun(arrivals).1
    && ObservedRun(s, arrivals).0 == DropState(true, ToU16(CountedRun(arrivals).0))
  }

  /** It does so after every packet. */
  predicate AgreesThroughout(s: DropState, arrivals: seq<Numbered>) {
    forall k :: 0 < k <= |arrivals| ==> Agrees(s, arrivals[..k])
  }

  lemma OnePacketAgrees(s: DropState, arrivals: seq<Numbered>)
    requires !s.have && |arrivals| == 1
    ensures Agrees(s, arrivals)
  {
    assert ObservedRun(s, arrivals[..0]) == (s, []);
  }

  /** One more packet after a run that agrees. */
  lemma OneMoreAgrees(s: DropState, arrivals: seq<Numbered>)
    requires |arrivals| > 1 && Agrees(s, arrivals[..|arrivals| - 1])
    ensures Agrees(s, arrivals) <==> WithinReach(CountedRun(arrivals[..|arrivals| - 1]).0, arrivals[|arrivals| - 1])
  {
    hide WithinReach, Observed, Counted;
    var n := |arrivals| - 1;
    ObserveRefinesCounting(CountedRun(arrivals[..n]).0, arrivals[n]);
    var observed, counted := ObservedRun(s, arrivals).1, CountedRun(arrivals).1;
    assert observed == counted <==> observed[n] == counted[n];
  }

  /**
    From a fresh counter, over every arrival sequence: the 16-bit counter reports the drops and the
    reorderings of the unbounded one and stays at the highest number, after every packet, exactly if
    every packet is within reach.
  */
  lemma {:induction false} RunRefinesCounting(s: DropState, arrivals: seq<Numbered>)
    requires !s.have
    ensures AgreesThroughout(s, arrivals) <==> RunWithinReach(arrivals)
  {
    hide Agrees, WithinReach;
    if |arrivals| == 1 {
      assert arrivals[..1] == arrivals;
      OnePacketAgrees(s, arrivals);
    } else if |arrivals| > 1 {
      var n := |arrivals| - 1;
      var before := arrivals[..n];
      RunRefinesCounting(s, before);
      PrefixesOfBoth(s, arrivals);
      if Agrees(s, before) { OneMoreAgrees(s, arrivals); }
      assert AgreesThroughout(s, before) ==> Agrees(s, before[..n]);
      assert before[..n] == before;
    }
  }

  /** Both conditions, in terms of all but the last packet. */
  lemma PrefixesOfBoth(s: DropState, arrivals: seq<Numbered>)
    requires |arrivals| > 1
    ensures var n := |arrivals| - 1;
            && (AgreesThroughout(s, arrivals) <==> AgreesThroughout(s, arrivals[..n]) && Agrees(s, arrivals))
            && (RunWithinReach(arrivals)
                <==> RunWithinReach(arrivals[..n]) && WithinReach(CountedRun(arrivals[..n]).0, arrivals[n]))
  {
    hide Agrees, WithinReach;
    var n := |arrivals| - 1;
    var before := arrivals[..n];
    assert forall k :: 0 <= k <= n ==> before[..k] == arrivals[..k];
    assert arrivals[..n + 1] == arrivals;
    if AgreesThroughout(s, before) && Agrees(s, arrivals) {
      forall k | 0 < k <= n + 1 ensures Agrees(s, arrivals[..k]) {
        if k <= n { assert Agrees(s, before[..k]); }
      }
    }
    if AgreesThroughout(s, arrivals) {
      assert Agrees(s, arrivals[..n + 1]);
      forall k | 0 < k <= n ensures Agrees(s, before[..k]) { assert Agrees(s, arrivals[..k]); }
    }
    if RunWithinReach(arrivals) {
      forall k | 0 < k < n ensures WithinReach(CountedRun(before[..k]).0, before[k]) {
        assert WithinReach(CountedRun(arrivals[..k]).0, arrivals[k]);
      }
    }
    if RunWithinReach(before) && WithinReach(CountedRun(before).0, arrivals[n]) {
      forall k | 0 < k < n + 1 ensures WithinReach(CountedRun(arrivals[..k]).0, arrivals[k]) {
        if k < n { assert WithinReach(CountedRun(before[..k]).0, before[k]); }
      }
    }
  }

  /** The plain range: up to 0x8001 ahead or 0x7FFE behind the highest number, and no reset. */
  lemma PlainRangeIsWithinReach(highest: int, n: Numbered)
    requires -0x7FFE <= n.number - highest <= 0x8001
    requires !LooksLikeReset(n)
    ensures WithinReach(highest, n)
  {
  }

  /** Lost packets go unreported when the counter wraps to 0 in the packet that starts a frame. */
  lemma WrapAtFrameStartHidesDrops()
    ensures var n := Numbered(0x1_0000, true);
            && !WithinReach(0xFFFD, n)
            && Observed(DropState(true, 0xFFFD), ToU16(n.number), true).1 == DropResult(0, false)
            && Counted(0xFFFD, n.number).1 == DropResult(2, false)
  {
  }
}
