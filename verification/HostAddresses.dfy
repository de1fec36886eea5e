/** What a recovery attempt tells the LiDAR about the host, what it leaves alone and what it refuses. */
module HostAddresses {
  import opened Bytes
  import opened KeyValueList
  import opened Keys
  import opened ReplaySetup
  import opened Wrappers

  /** The LiDAR sends what the key stands for to this address and port, from its own port. */
  predicate SendsTo(lidar: Stored, key: U16, ip: Ip, hostPort: U16, lidarPort: U16) {
    && key in lidar && |lidar[key]| == 8
    && lidar[key][..4] == ip
    && ReadAt(lidar[key], 4, 2) == hostPort
    && ReadAt(lidar[key], 6, 2) == lidarPort
  }

  lemma AddressReadsBack(ip: Ip, hostPort: U16, lidarPort: U16)
    ensures var v := HostIpConfig(ip, hostPort, lidarPort);
            |v| == 8 && v[..4] == ip && ReadAt(v, 4, 2) == hostPort && ReadAt(v, 6, 2) == lidarPort
  {
    hide LittleEndian, Value;
    var v := HostIpConfig(ip, hostPort, lidarPort);
    Ranges();
    ReadsWhatWasWritten(hostPort, 2);
    ReadsWhatWasWritten(lidarPort, 2);
    assert v[4..6] == LittleEndian(hostPort, 2) && v[6..8] == LittleEndian(lidarPort, 2);
  }

  ghost predicate HostsAreSet(lidar: Stored, s: HostSetup, ip: Ip) {
    && SendsTo(lidar, 0x0005, ip, s.pushPort, 56200)
    && SendsTo(lidar, 0x0006, ip, s.pointPort, 56300)
    && SendsTo(lidar, 0x0007, ip, s.imuPort, 56400)
  }

  lemma HostKeysSet(lidar: Stored, s: HostSetup, ip: Ip)
    ensures HostsAreSet(Configured(lidar, HostKeys(s, ip)), s, ip)
  {
    hide HostIpConfig, Configured, ReadAt;
    var kvs := HostKeys(s, ip);
    assert kvs == [] + [kvs[0]] + [kvs[1]] + [kvs[2]];
    ConfiguredOneMore(lidar, [], kvs[0]);
    ConfiguredOneMore(lidar, [] + [kvs[0]], kvs[1]);
    ConfiguredOneMore(lidar, [] + [kvs[0]] + [kvs[1]], kvs[2]);
    AddressReadsBack(ip, s.pushPort, 56200);
    AddressReadsBack(ip, s.pointPort, 56300);
    AddressReadsBack(ip, s.imuPort, 56400);
  }

  /** Replaying any keys leaves the host keys, and every key that is neither, as they are. */
  lemma {:induction false} ReplayLeaves(lidar: Stored, s: HostSetup, ip: Ip, n: nat, key: U16)
    requires n <= |REPLAYED| && key !in REPLAYED
    ensures var before, after := Configured(lidar, HostKeys(s, ip)), Configured(lidar, HostKeys(s, ip) + Replay(s, n));
            (key in after <==> key in before) && (key in before ==> after[key] == before[key])
  {
    hide Field, HostKeys, Configured, Replay;
    if n == 0 {
      NothingReplayed(s, ip);
    } else {
      ReplayLeaves(lidar, s, ip, n - 1, key);
      ReplayStep(s, ip, n - 1);
      var v := Field(s, REPLAYED[n - 1]);
      assert REPLAYED[n - 1] in REPLAYED;
      if v.Some? { ConfiguredOneMore(lidar, HostKeys(s, ip) + Replay(s, n - 1), KeyValue(REPLAYED[n - 1], v.value)); }
    }
  }

  /** The address a LiDAR is to send to: the setup's, or that of the host's own socket. */
  function HostIp(s: HostSetup, localIp: Ip): (ip: Ip) {
    if s.ip.Some? then s.ip.value else localIp
  }

  /**
    After every acknowledged attempt the LiDAR sends its status, point clouds and IMU data to the setup's
    ports at the host's address, and from 56200, 56300 and 56400.
  */
  lemma AttemptSetsTheHosts(lidar: Stored, s: HostSetup, localIp: Ip)
    requires Applied(lidar, s, localIp, true).Ok?
    ensures HostsAreSet(Applied(lidar, s, localIp, true).value, s, HostIp(s, localIp))
  {
    hide HostKeys, Configured, Replay, OutOfRange, ReadAt;
    var ip := HostIp(s, localIp);
    HostKeysSet(lidar, s, ip);
    ReplayLeaves(lidar, s, ip, |REPLAYED|, 0x0005);
    ReplayLeaves(lidar, s, ip, |REPLAYED|, 0x0006);
    ReplayLeaves(lidar, s, ip, |REPLAYED|, 0x0007);
  }

  /** So it does after any history of writes, to the ports the setup began with. */
  lemma ReplaySetsTheHosts(initial: HostSetup, writes: seq<KeyValue>, lost: Stored, localIp: Ip)
    requires Applied(lost, Absorbed(initial, writes), localIp, true).Ok?
    ensures var r := Applied(lost, Absorbed(initial, writes), localIp, true).value;
            HostsAreSet(r, initial, HostIp(initial, localIp))
  {
    hide Absorbed, Applied, SendsTo;
    AttemptSetsTheHosts(lost, Absorbed(initial, writes), localIp);
    AddressOfHistory(initial, writes);
  }

  /** It writes no other key. */
  lemma AttemptLeavesOtherKeys(lidar: Stored, s: HostSetup, localIp: Ip, key: U16)
    requires Applied(lidar, s, localIp, true).Ok?
    requires key !in REPLAYED && key !in [0x0005, 0x0006, 0x0007]
    ensures var r := Applied(lidar, s, localIp, true).value;
            (key in r <==> key in lidar) && (key in lidar ==> r[key] == lidar[key])
  {
    hide HostKeys, Configured, Replay, OutOfRange;
    var ip := HostIp(s, localIp);
    HostKeysLeave(lidar, s, ip, key);
    ReplayLeaves(lidar, s, ip, |REPLAYED|, key);
  }

  // ---------------------------------------------------------------------------
  // Refusals
  // ---------------------------------------------------------------------------

  /** A window beyond 0 to 360 degrees of yaw or -10 to 60 of pitch, or one that runs backwards. */
  predicate BadWindow(f: Option<Fov>) {
    f.Some? &&
    (|| f.value.yawStart < 0 || f.value.yawStop > 360 || f.value.yawStop < f.value.yawStart
     || f.value.pitchStart < -10 || f.value.pitchStop > 60 || f.value.pitchStop < f.value.pitchStart)
  }

  /**
    For every setup and every history of accepted writes, an attempt ends in exactly one of these: it
    names the point cloud host without an address, the first window that is bad, says that the LiDAR did
    not accept it, or succeeds.
  */
  lemma EveryAttemptEnds(initial: HostSetup, writes: seq<KeyValue>, lost: Stored, localIp: Ip, accepted: bool)
    ensures var r := Applied(lost, Absorbed(initial, writes), localIp, accepted);
            if HostIp(initial, localIp) == [0, 0, 0, 0] then r == Err(InvalidArgument(0x0006))
            else if BadWindow(Window(initial, writes, FOV_CFG0)) then r == Err(InvalidArgument(0x0015))
            else if BadWindow(Window(initial, writes, FOV_CFG1)) then r == Err(InvalidArgument(0x0016))
            else if accepted then r.Ok? else r == Err(NotAccepted)
  {
    hide Absorbed, SetupKeyValues, Configured, Window;
    WindowsOfHistory(initial, writes);
    AddressOfHistory(initial, writes);
  }
}
