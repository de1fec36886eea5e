/**
  What the frame assembler makes of its inputs over a whole run: the time of each packet, the packets
  counted as lost or late, those left out, and the policy in force.
*/
module AssemblerInputs {
  import opened AssemblerRuns
  import opened Bytes
  import opened FrameAssembler
  import opened Packets
  import opened Seqs
  import opened TimeMapper
  import opened Wrappers
  import D = DropCounter
  import CounterFrames

  // ---------------------------------------------------------------------------
  // Policy and times
  // ---------------------------------------------------------------------------

  /** The last policy set, or the one at first. */
  function LastPolicy(policy: FramePolicy, ops: seq<Op>): (p: FramePolicy) {
    if ops == [] then policy
    else
      match ops[|ops| - 1]
      case SetPolicy(p) => p
      case _ => LastPolicy(policy, ops[..|ops| - 1])
  }

  lemma {:induction false} PolicyIsTheLast(policy: FramePolicy, timestamps: TimestampPolicy, ops: seq<Op>)
    ensures Traced(policy, timestamps, ops).state.policy == LastPolicy(policy, ops)
  {
    hide ArrivalOf, Pushed;
    if ops != [] {
      var n := |ops| - 1;
      PolicyIsTheLast(policy, timestamps, ops[..n]);
      if !ops[n].SetPolicy? {
        CounterFrames.AppliedKeepsPolicy(Traced(policy, timestamps, ops[..n]).state, ops[n]);
      }
    }
  }

  /** Point data: neither an IMU packet nor an empty one. */
  predicate HasPoints(h: PacketHeader) {
    h.dataType != Imu && h.dotNum > 0
  }

  /** The point packets since the last rebase, with their receive times. */
  function Heard(ops: seq<Op>): (headers: seq<(PacketHeader, U64)>) {
    if ops == [] then []
    else
      var before := Heard(ops[..|ops| - 1]);
      match ops[|ops| - 1]
      case Push(p, recvNs) => if HasPoints(p.header) then before + [(p.header, recvNs)] else before
      case Rebase => []
      case _ => before
  }

  lemma AcceptedKeepsClocks(s: State, p: Packet, t0: nat, changed: bool, dropped: nat)
    ensures var t := Accepted(s, p, t0, changed, dropped).0;
            && t.mapper == s.mapper && t.drops == s.drops
            && t.counters.droppedPackets == s.counters.droppedPackets
            && t.counters.reordered == s.counters.reordered
            && t.counters.typeSwitchGaps == s.counters.typeSwitchGaps
  {
    hide PointsOf, LatestNs, Closes, FallsBack, GridStart, StaysOnGrid;
  }

  /** A push of point data registers the packet, whether it is left out or not. */
  lemma PushRegisters(s: State, p: Packet, recvNs: U64)
    requires HasPoints(p.header)
    ensures var t, r := Pushed(s, p, recvNs).0, Registered(s, p.header, recvNs);
            && t.mapper == r.mapper && t.drops == r.drops
            && t.counters.droppedPackets == r.counters.droppedPackets
            && t.counters.reordered == r.counters.reordered
            && t.counters.typeSwitchGaps == r.counters.typeSwitchGaps
  {
    hide Accepted, Registered, Late;
    AcceptedKeepsClocks(Registered(s, p.header, recvNs), p, Mapped(s.mapper, p.header, recvNs).1,
                        FrameChanged(s, p.header), Drop(s, p.header).dropped);
  }

  lemma {:induction false} MapperHears(policy: FramePolicy, timestamps: TimestampPolicy, ops: seq<Op>)
    ensures Traced(policy, timestamps, ops).state.mapper
            == MappedRun(MapperState(timestamps, None, false), Heard(ops)).0
    ensures Traced(policy, timestamps, ops).state.mapper.policy == timestamps
  {
    hide ArrivalOf, Pushed, Mapped, Drop;
    if ops != [] {
      var n := |ops| - 1;
      var s, op := Traced(policy, timestamps, ops[..n]).state, ops[n];
      MapperHears(policy, timestamps, ops[..n]);
      match op {
        case Push(p, recvNs) =>
          if HasPoints(p.header) {
            PushRegisters(s, p, recvNs);
            Without(Heard(ops[..n]), (p.header, recvNs));
          } else {
            IgnoredChangesNothing(s, p, recvNs);
          }
        case _ =>
      }
    }
  }

  lemma IgnoredChangesNothing(s: State, p: Packet, recvNs: U64)
    requires !HasPoints(p.header)
    ensures Pushed(s, p, recvNs) == (s, None)
  {
  }

  /** Every run: an accepted packet is placed at the time of the timestamp policy, counted from the last rebase. */
  lemma AcceptedAtItsTime(policy: FramePolicy, timestamps: TimestampPolicy, ops: seq<Op>, op: Op)
    requires ArrivalOf(Traced(policy, timestamps, ops).state, op).Some?
    ensures op.Push? && Heard(ops + [op]) == Heard(ops) + [(op.packet.header, op.recvNs)]
    ensures ArrivalOf(Traced(policy, timestamps, ops).state, op).value.t0
            == TimeFor(timestamps, Heard(ops + [op]), |Heard(ops)|)
  {
    hide Traced, TimeFor, Mapped, Drop, Late, Watched;
    MapperHears(policy, timestamps, ops);
    Without(ops, op);
    var heard := Heard(ops) + [(op.packet.header, op.recvNs)];
    Without(Heard(ops), (op.packet.header, op.recvNs));
    EveryTimeFollows(timestamps, heard, |Heard(ops)|);
  }

  // ---------------------------------------------------------------------------
  // Lost, late and left out
  // ---------------------------------------------------------------------------

  /** Counting with the packets' true numbers, of which the headers carry 16 bits. */
  datatype Tally = Tally(highest: Option<int>, missed: nat, late: nat, switches: nat)

  /** Whether the packet follows one of another frame counter, or of another data type. */
  predicate OtherFrame(accepted: seq<Arrival>, h: PacketHeader) {
    accepted != [] && accepted[|accepted| - 1].packet.header.frameCnt != h.frameCnt
  }

  predicate OtherType(accepted: seq<Arrival>, h: PacketHeader) {
    accepted != [] && accepted[|accepted| - 1].packet.header.dataType != h.dataType
  }

  /** One more packet: those skipped are lost, but not a single one where the data type changes. */
  function Told(t: Tally, number: int, otherType: bool): (r: Tally) {
    match t.highest
    case None => t.(highest := Some(number))
    case Some(highest) =>
      if number <= highest then t.(late := t.late + 1)
      else if number == highest + 2 && otherType then t.(highest := Some(number), switches := t.switches + 1)
      else t.(highest := Some(number), missed := t.missed + (number - highest - 1))
  }

  function TallyOf(policy: FramePolicy, timestamps: TimestampPolicy, ops: seq<Op>, numbers: seq<int>): (t: Tally)
    requires |ops| == |numbers|
  {
    if ops == [] then Tally(None, 0, 0, 0)
    else
      var n := |ops| - 1;
      var before := TallyOf(policy, timestamps, ops[..n], numbers[..n]);
      match ops[n]
      case Push(p, _) =>
        if HasPoints(p.header) then
          Told(before, numbers[n], OtherType(Traced(policy, timestamps, ops[..n]).accepted, p.header))
        else before
      case Rebase => before.(highest := None)
      case _ => before
  }

  /** The numbers are those of the packets, and none is out of the reach of 16 bits. */
  ghost predicate InReach(policy: FramePolicy, timestamps: TimestampPolicy, ops: seq<Op>, numbers: seq<int>)
    requires |ops| == |numbers|
  {
    ops == [] ||
    (var n := |ops| - 1;
     && InReach(policy, timestamps, ops[..n], numbers[..n])
     && (ops[n].Push? && HasPoints(ops[n].packet.header) ==>
           var h, highest := ops[n].packet.header, TallyOf(policy, timestamps, ops[..n], numbers[..n]).highest;
           && D.ToU16(numbers[n]) == h.udpCnt
           && (highest.Some? ==>
                 D.WithinReach(highest.value,
                               D.Numbered(numbers[n], OtherFrame(Traced(policy, timestamps, ops[..n]).accepted, h))))))
  }

  /** The drop counter is at the highest number, and the counters at what was counted. */
  ghost predicate Agrees(s: State, t: Tally) {
    && s.drops.have == t.highest.Some?
    && (t.highest.Some? ==> s.drops.last == D.ToU16(t.highest.value))
    && s.counters.droppedPackets == t.missed && s.counters.reordered == t.late
    && s.counters.typeSwitchGaps == t.switches
  }

  /** What the drop counter says about a packet within reach. */
  lemma ReportOf(s: State, h: PacketHeader, t: Tally, number: int, changed: bool)
    requires Agrees(s, t) && D.ToU16(number) == h.udpCnt && changed == FrameChanged(s, h)
    requires t.highest.Some? ==> D.WithinReach(t.highest.value, D.Numbered(number, changed))
    ensures var (drops, report) := D.Observed(s.drops, h.udpCnt, changed);
            && drops == D.DropState(true, D.ToU16(if t.highest.Some? && number <= t.highest.value then t.highest.value
                                                  else number))
            && report == (if t.highest.None? then D.DropResult(0, false)
                          else if number <= t.highest.value then D.DropResult(0, true)
                          else D.DropResult(number - t.highest.value - 1, false))
  {
    hide D.WithinReach;
    if t.highest.Some? {
      D.ObserveRefinesCounting(t.highest.value, D.Numbered(number, changed));
      assert s.drops == D.DropState(true, D.ToU16(t.highest.value));
    }
  }

  lemma RegisteredIsTold(s: State, h: PacketHeader, recvNs: U64, t: Tally, number: int, otherType: bool)
    requires Agrees(s, t) && D.ToU16(number) == h.udpCnt
    requires otherType == (s.havePrev && h.dataType != s.prevDataType)
    requires t.highest.Some? ==> D.WithinReach(t.highest.value, D.Numbered(number, FrameChanged(s, h)))
    ensures Agrees(Registered(s, h, recvNs), Told(t, number, otherType))
  {
    hide D.WithinReach, D.Observed, Mapped, FrameChanged, D.ToU16;
    ReportOf(s, h, t, number, FrameChanged(s, h));
  }

  /** What the state remembers of the accepted packets. */
  lemma Remembered(policy: FramePolicy, timestamps: TimestampPolicy, ops: seq<Op>, h: PacketHeader)
    ensures var t := Traced(policy, timestamps, ops);
            && FrameChanged(t.state, h) == OtherFrame(t.accepted, h)
            && (t.state.havePrev && h.dataType != t.state.prevDataType) == OtherType(t.accepted, h)
  {
    hide Traced, PieceMatches, PartialMatches, Counted, Flattened;
    RunKeeps(policy, timestamps, ops);
  }

  /**
    Every run whose packet numbers are within reach: the counters of lost and late packets, and of the
    numbers a LiDAR skips at a change of data type, are those of counting with the true numbers; a rebase
    starts anew.
  */
  lemma {:induction false} LossesAreCounted(
    policy: FramePolicy, timestamps: TimestampPolicy, ops: seq<Op>, numbers: seq<int>)
    requires |ops| == |numbers| && InReach(policy, timestamps, ops, numbers)
    ensures Agrees(Traced(policy, timestamps, ops).state, TallyOf(policy, timestamps, ops, numbers))
  {
    hide ArrivalOf, Pushed, D.WithinReach, Registered, Told, OtherFrame, OtherType, FrameChanged, D.ToU16;
    if ops != [] {
      var n := |ops| - 1;
      var s, op := Traced(policy, timestamps, ops[..n]).state, ops[n];
      LossesAreCounted(policy, timestamps, ops[..n], numbers[..n]);
      match op {
        case Push(p, recvNs) =>
          if HasPoints(p.header) {
            PushRegisters(s, p, recvNs);
            Remembered(policy, timestamps, ops[..n], p.header);
            RegisteredIsTold(s, p.header, recvNs, TallyOf(policy, timestamps, ops[..n], numbers[..n]), numbers[n],
                             OtherType(Traced(policy, timestamps, ops[..n]).accepted, p.header));
          } else {
            IgnoredChangesNothing(s, p, recvNs);
          }
        case _ =>
      }
    }
  }

  /**
    Every such run: a pushed packet is left out exactly if it has no points, or the frame counter decides
    and it is a late one, not past the highest number, of another frame than the last accepted packet.
  */
  lemma LeftOutExactly(
    policy: FramePolicy, timestamps: TimestampPolicy, ops: seq<Op>, numbers: seq<int>, op: Op, number: int)
    requires |ops| == |numbers| && op.Push? && InReach(policy, timestamps, ops + [op], numbers + [number])
    ensures var t, highest := Traced(policy, timestamps, ops), TallyOf(policy, timestamps, ops, numbers).highest;
            Traced(policy, timestamps, ops + [op]).accepted == t.accepted
            <==> || !HasPoints(op.packet.header)
                 || (&& t.state.policy.mode == FrameCounter && !t.state.fallback
                     && highest.Some? && number <= highest.value && OtherFrame(t.accepted, op.packet.header))
  {
    hide D.WithinReach, D.Observed, Mapped, OtherFrame, FrameChanged, D.ToU16, Applied, Watched, TallyOf;
    Without(ops, op);
    Without(numbers, number);
    LossesAreCounted(policy, timestamps, ops, numbers);
    var t, h := Traced(policy, timestamps, ops), op.packet.header;
    Remembered(policy, timestamps, ops, h);
    if HasPoints(h) {
      ReportOf(t.state, h, TallyOf(policy, timestamps, ops, numbers), number, FrameChanged(t.state, h));
    }
  }
}
