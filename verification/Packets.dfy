/** Data packets as the receive path hands them on (include/livox/mid360/protocol.hpp). */
module Packets {
  import opened Bytes
  import opened Division

  datatype DataType = Imu | Cartesian32 | Cartesian16 | Spherical

  /** The raw `time_type` byte; 0 is the free-running clock, anything else a synchronised one. */
  const NO_SYNC: Byte := 0

  datatype PacketHeader = PacketHeader(
    timeInterval: U16, dotNum: U16, udpCnt: U16, frameCnt: Byte,
    dataType: DataType, timeType: Byte, timestampNs: U64)

  /** Bytes per sample. */
  function SampleSize(t: DataType): (n: nat)
    ensures n > 0
  {
    match t
    case Imu => 24
    case Cartesian32 => 14
    case Cartesian16 => 8
    case Spherical => 10
  }

  datatype RawPacket = RawPacket(header: PacketHeader, data: seq<Byte>)

  /** A packet that passed parse_data_packet: the payload is `dotNum` whole samples. */
  type Packet = p: RawPacket | |p.data| == p.header.dotNum * SampleSize(p.header.dataType)
    witness RawPacket(PacketHeader(0, 0, 0, 0, Imu, 0, 0), [])

  /** The time from the first to the last sample; `timeInterval` counts 100 ns. */
  function SpanNs(h: PacketHeader): (n: nat)
    ensures n <= 6_553_500
  {
    h.timeInterval * 100
  }

  /** The part `i` of `n` of a time span, rounded down. */
  function Share(span: nat, i: nat, n: nat): (d: nat)
    requires n > 0
  {
    DivideMonotone(0, span * i, n);
    span * i / n
  }

  /** sample_timestamp_ns relative to the packet timestamp: the samples are evenly spaced. */
  function SampleDelta(h: PacketHeader, i: nat): (d: nat)
    ensures i == 0 ==> d == 0
  {
    if h.dotNum <= 1 || i == 0 then 0 else Share(SpanNs(h), i, h.dotNum - 1)
  }

  /** No sample lies past the span of its packet, and the last one lies at its end. */
  lemma SampleWithinSpan(h: PacketHeader, i: nat)
    requires i < h.dotNum
    ensures SampleDelta(h, i) <= SpanNs(h)
    ensures i == h.dotNum - 1 && i != 0 ==> SampleDelta(h, i) == SpanNs(h)
  {
    if h.dotNum > 1 && i != 0 { ShareOfWhole(SpanNs(h), i, h.dotNum - 1); }
  }

  /** The samples of a packet are evenly spaced over its span, each rounded down to a nanosecond. */
  lemma SamplesAreSpread(h: PacketHeader, i: nat)
    requires i < h.dotNum
    ensures var d := SampleDelta(h, i);
            if h.dotNum == 1 then d == 0
            else d * (h.dotNum - 1) <= h.timeInterval * 100 * i < (d + 1) * (h.dotNum - 1)
  {
    if h.dotNum > 1 && i != 0 { WholePart(SpanNs(h) * i, h.dotNum - 1); }
  }

  lemma ShareOfWhole(span: nat, i: nat, n: nat)
    requires i <= n && n > 0
    ensures span * i / n <= span
    ensures i == n ==> span * i / n == span
  {
    Quotient(span * n, n, span, 0);
    assert span * i + span * (n - i) == span * n;
    DivideMonotone(span * i, span * n, n);
  }
}
