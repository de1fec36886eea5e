/** Mapping of packet timestamps to output time (src/frame_assembler.cpp). */
module TimeMapper {
  import opened Bytes
  import opened Packets
  import opened Wrappers

  datatype TimestampPolicy = Lidar | HostOffsetOnce | HostReceive

  /** `offset` is host minus LiDAR time; `synced` says the previous packet was synchronised. */
  datatype MapperState = MapperState(policy: TimestampPolicy, offset: Option<int>, synced: bool)

  function ToU64(v: int): U64 {
    v % 0x1_0000_0000_0000_0000
  }

  function Mapped(s: MapperState, h: PacketHeader, recvNs: U64): (r: (MapperState, U64)) {
    match s.policy
    case Lidar => (s, h.timestampNs)
    case HostReceive => (s, recvNs)
    case HostOffsetOnce =>
      if h.timeType != NO_SYNC then (s.(synced := true), h.timestampNs)
      else if s.offset.None? || s.synced then
        (s.(offset := Some(recvNs - h.timestampNs), synced := false), recvNs)
      else (s, ToU64(h.timestampNs + s.offset.value))
  }

  class TimeMapper {
    const policy: TimestampPolicy
    var offset: Option<int>
    var synced: bool

    constructor (policy: TimestampPolicy)
      ensures View() == MapperState(policy, None, false)
    {
      this.policy := policy;
      offset, synced := None, false;
    }

    function View(): MapperState
      reads this
    {
      MapperState(policy, offset, synced)
    }

    method Map(h: PacketHeader, recvNs: U64) returns (t: U64)
      modifies this
      ensures (View(), t) == Mapped(old(View()), h, recvNs)
    {
      match policy {
        case Lidar => return h.timestampNs;
        case HostReceive => return recvNs;
        case HostOffsetOnce =>
      }
      if h.timeType != NO_SYNC {
        synced := true;
        return h.timestampNs;
      }
      if offset.None? || synced {
        offset := Some(recvNs - h.timestampNs);
        synced := false;
      }
      t := ToU64(h.timestampNs + offset.value);
    }

    method Reset()
      modifies this
      ensures View() == MapperState(policy, None, false)
    {
      offset, synced := None, false;
    }
  }

  function MappedRun(s: MapperState, headers: seq<(PacketHeader, U64)>): (r: (MapperState, seq<U64>))
    ensures |r.1| == |headers|
    ensures r.0.policy == s.policy
  {
    if headers == [] then (s, [])
    else
      var (before, times) := MappedRun(s, headers[..|headers| - 1]);
      var (after, t) := Mapped(before, headers[|headers| - 1].0, headers[|headers| - 1].1);
      (after, times + [t])
  }

  /**
    The offset is measured once per free-running stretch: it starts at the receive time of the
    first packet, and from there on the output advances exactly as the LiDAR clock does.
  */
  lemma {:induction false} OffsetMeasuredOncePerStretch(s: MapperState, headers: seq<(PacketHeader, U64)>, k: nat)
    requires s.policy == HostOffsetOnce && (s.offset.None? || s.synced)
    requires k < |headers|
    requires forall j :: 0 <= j < |headers| ==> headers[j].0.timeType == NO_SYNC
    ensures var shift := headers[0].1 - headers[0].0.timestampNs;
            && MappedRun(s, headers).1[k] == ToU64(headers[k].0.timestampNs + shift)
            && MappedRun(s, headers).0 == MapperState(HostOffsetOnce, Some(shift), false)
    decreases |headers|
  {
    var before := headers[..|headers| - 1];
    if before != [] {
      OffsetMeasuredOncePerStretch(s, before, if k < |before| then k else 0);
    }
  }

  /** The packet at which the free-running stretch of packet `k` began. */
  function StretchStart(headers: seq<(PacketHeader, U64)>, k: nat): (b: nat)
    requires k < |headers|
    ensures b <= k
  {
    if k > 0 && headers[k - 1].0.timeType == NO_SYNC then StretchStart(headers, k - 1) else k
  }

  /** The output time of packet `k` by the policy: one clock, the other, or one shifted onto the other. */
  function TimeFor(policy: TimestampPolicy, headers: seq<(PacketHeader, U64)>, k: nat): (t: U64)
    requires k < |headers|
  {
    var (h, recvNs) := headers[k];
    match policy
    case Lidar => h.timestampNs
    case HostReceive => recvNs
    case HostOffsetOnce =>
      if h.timeType != NO_SYNC then h.timestampNs
      else
        var b := StretchStart(headers, k);
        ToU64(h.timestampNs + (headers[b].1 - headers[b].0.timestampNs))
  }

  /** The state after the packets: the shift of the stretch that is under way. */
  ghost predicate Follows(s: MapperState, policy: TimestampPolicy, headers: seq<(PacketHeader, U64)>) {
    && s.policy == policy
    && (policy == HostOffsetOnce ==>
          if headers == [] then s.offset.None? && !s.synced
          else
            var n := |headers| - 1;
            if headers[n].0.timeType != NO_SYNC then s.synced
            else
              var b := StretchStart(headers, n);
              s == MapperState(policy, Some(headers[b].1 - headers[b].0.timestampNs), false))
  }

  lemma {:induction false} StretchOfPrefix(headers: seq<(PacketHeader, U64)>, n: nat, k: nat)
    requires k < n <= |headers|
    ensures StretchStart(headers[..n], k) == StretchStart(headers, k)
  {
    if k > 0 { StretchOfPrefix(headers, n, k - 1); }
  }

  /** Any packets through a new mapper: each gets the time of its policy. */
  lemma {:induction false} EveryTimeFollows(policy: TimestampPolicy, headers: seq<(PacketHeader, U64)>, k: nat)
    ensures var (s, times) := MappedRun(MapperState(policy, None, false), headers);
            Follows(s, policy, headers) && (k < |headers| ==> times[k] == TimeFor(policy, headers, k))
    decreases |headers|
  {
    if headers != [] {
      var n := |headers| - 1;
      EveryTimeFollows(policy, headers[..n], k);
      if n > 0 { StretchOfPrefix(headers, n, n - 1); }
      if k < n { StretchOfPrefix(headers, n, k); }
    }
  }
}
