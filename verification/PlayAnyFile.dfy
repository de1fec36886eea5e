/** Playing any file: what is refused, which device each package goes to, and what is not played. */
module PlayAnyFile {
  import opened AssemblerFrames
  import opened AssemblerRuns
  import opened Bytes
  import opened FrameAssembler
  import opened Lvx2Format
  import opened Lvx2Player
  import opened Reader = Lvx2Reader
  import opened RecordThenPlay
  import opened TimeMapper
  import opened Wrappers
  import CutPlayback

  /** The first device of the file with this identifier; the number of devices if there is none. */
  function FirstWith(devices: seq<Device>, id: U32): (k: nat)
    ensures k <= |devices|
    ensures k < |devices| ==> devices[k].lidarId == id
    ensures forall i :: 0 <= i < k ==> devices[i].lidarId != id
  {
    if devices == [] then 0
    else if devices[0].lidarId == id then 0
    else 1 + FirstWith(devices[1..], id)
  }

  lemma {:induction false} AllListed(devices: seq<Device>)
    ensures |Listed(devices, None)| == |devices|
    ensures forall k :: 0 <= k < |devices| ==> Listed(devices, None)[k] == devices[k].lidarId
  {
    if devices != [] { AllListed(devices[..|devices| - 1]); }
  }

  lemma {:induction false} ChosenListed(devices: seq<Device>, id: U32)
    ensures forall k :: 0 <= k < |Listed(devices, Some(id))| ==> Listed(devices, Some(id))[k] == id
    ensures Listed(devices, Some(id)) != [] <==> exists k :: 0 <= k < |devices| && devices[k].lidarId == id
  {
    if devices != [] {
      var n := |devices| - 1;
      ChosenListed(devices[..n], id);
      if devices[n].lidarId != id && exists k :: 0 <= k < |devices| && devices[k].lidarId == id {
        var k :| 0 <= k < |devices| && devices[k].lidarId == id;
        assert devices[..n][k].lidarId == id;
      }
    }
  }

  lemma {:induction false} FindIs(ids: seq<U32>, id: U32, k: nat)
    requires k <= |ids| && (k < |ids| ==> ids[k] == id)
    requires forall i :: 0 <= i < k ==> ids[i] != id
    ensures Find(ids, id) == if k < |ids| then Some(k) else None
    decreases |ids|
  {
    if ids != [] {
      var n := |ids| - 1;
      FindIs(ids[..n], id, if k < n then k else n);
    }
  }

  /**
    Any file: without a choice, one of at most one device plays every package as that device, and one of
    several plays each package as the first device with its identifier. With a choice only the packages of
    the chosen device are played.
  */
  lemma PackageGoesTo(devices: seq<Device>, only: Option<U32>, id: U32)
    requires only.Some? ==> exists k :: 0 <= k < |devices| && devices[k].lidarId == only.value
    ensures DeviceOf(PlayedIds(devices, only), only, id)
            == match only
               case Some(chosen) => if id == chosen then Some(0) else None
               case None =>
                 var k := FirstWith(devices, id);
                 if |devices| <= 1 then Some(0) else if k < |devices| then Some(k) else None
  {
    hide Listed, FirstWith;
    var ids := PlayedIds(devices, only);
    match only {
      case Some(chosen) =>
        ChosenListed(devices, chosen);
        FindIs(ids, id, if id == chosen then 0 else |ids|);
      case None =>
        AllListed(devices);
        if |devices| > 1 { FindIs(ids, id, FirstWith(devices, id)); }
    }
  }

  /** The packages of the packets, and how many of them have none of the identifiers. */
  function Packages(packets: seq<LvxPacket>): (r: seq<Package>)
    ensures |r| == |packets|
    ensures forall x :: 0 <= x < |r| ==> packets[x].package == r[x]
  {
    seq(|packets|, x requires 0 <= x < |packets| => packets[x].package)
  }

  function Strangers(ids: seq<U32>, packets: seq<LvxPacket>): (n: nat) {
    if packets == [] then 0
    else
      Strangers(ids, packets[..|packets| - 1]) + (if packets[|packets| - 1].package.lidarId in ids then 0 else 1)
  }

  function PacketTotal(devices: seq<DevicePlay>): (n: nat) {
    if devices == [] then 0 else PacketTotal(devices[..|devices| - 1]) + devices[|devices| - 1].packets
  }

  lemma {:induction false} TotalChanges(a: seq<DevicePlay>, b: seq<DevicePlay>, d: nat)
    requires |a| == |b| && d < |a| && b[d].packets == a[d].packets + 1
    requires forall k :: 0 <= k < |a| && k != d ==> b[k].packets == a[k].packets
    ensures PacketTotal(b) == PacketTotal(a) + 1
  {
    var n := |a| - 1;
    if d < n { TotalChanges(a[..n], b[..n], d); } else { TotalStays(a[..n], b[..n]); }
  }

  lemma {:induction false} TotalStays(a: seq<DevicePlay>, b: seq<DevicePlay>)
    requires |a| == |b| && forall k :: 0 <= k < |a| ==> b[k].packets == a[k].packets
    ensures PacketTotal(b) == PacketTotal(a)
  {
    if a != [] { TotalStays(a[..|a| - 1], b[..|b| - 1]); }
  }

  lemma {:induction false} NothingPlayed(devices: seq<DevicePlay>)
    requires forall k :: 0 <= k < |devices| ==> devices[k].packets == 0
    ensures PacketTotal(devices) == 0
  {
    if devices != [] { NothingPlayed(devices[..|devices| - 1]); }
  }

  lemma PlayedCounts(s: PlayState, ids: seq<U32>, p: Package)
    requires |ids| > 1 && |s.devices| == |ids|
    ensures var r := Played(s, ids, None, p);
            if p.lidarId in ids then PacketTotal(r.devices) == PacketTotal(s.devices) + 1 && r.unlisted == s.unlisted
            else PacketTotal(r.devices) == PacketTotal(s.devices) && r.unlisted == s.unlisted + 1
  {
    hide Pushed, ViewOf;
    var d := Find(ids, p.lidarId);
    if d.Some? {
      assert ids[d.value] in ids;
      TotalChanges(s.devices, Played(s, ids, None, p).devices, d.value);
    }
  }

  /** Any packages to several devices: each is played by one device or counted as unlisted. */
  lemma {:induction false} EveryPackageIsCounted(policy: FramePolicy, ids: seq<U32>, packets: seq<LvxPacket>)
    requires |ids| > 1
    ensures var s := PlayedAll(policy, ids, None, packets);
            s.unlisted == Strangers(ids, packets) && PacketTotal(s.devices) + s.unlisted == |packets|
  {
    hide Played, PacketTotal;
    if packets == [] {
      NothingPlayed(Ready(policy, |ids|).devices);
    } else {
      var n := |packets| - 1;
      EveryPackageIsCounted(policy, ids, packets[..n]);
      PlayedCounts(PlayedAll(policy, ids, None, packets[..n]), ids, packets[n].package);
    }
  }

  /** The player is given the wrong callbacks, or a device that the file does not have. */
  predicate Refused(options: PlayOptions, devices: seq<Device>) {
    if options.lidarId.Some? && FirstWith(devices, options.lidarId.value) == |devices| then true
    else |PlayedIds(devices, options.lidarId)| > 1 && options.onFrame && !options.onDeviceFrame
  }

  /**
    Any file at all: it is not opened, refused, or played up to an error or the end. Each device then has
    delivered the frames of an assembler of its own on the packages that go to it, at the end also what was
    open.
  */
  lemma AnyFilePlays(options: PlayOptions, file: seq<Byte>, d: nat)
    ensures var o, r := Reader.Opened(file), Play(options, file);
            if o.Err? then r == Err(NotOpened(o.error))
            else if Refused(options, o.value.devices) then r == Err(InvalidArgument)
            else
              var s, ids := ReadAll(o.value.reader), PlayedIds(o.value.devices, options.lidarId);
              var ops := OpsFor(ids, options.lidarId, Packages(s.packets), d);
              match s.end
              case Ok(_) =>
                && r.Ok? && |r.value.devices| == |ids|
                && (d < |ids| ==> FramesFor(r.value.log, d) == Outputs(options.policy, Lidar, ops + [Flush]).1)
              case Err(e) =>
                && r.Err? && r.error.Unreadable? && r.error.error == e && |r.error.played.devices| == |ids|
                && (d < |ids| ==> FramesFor(r.error.played.log, d) == Outputs(options.policy, Lidar, ops).1)
  {
    hide Reader.Opened, ReadAll, PlayedAll, Finished, FramesFor, Outputs, OpsFor, Packages, Listed, FirstWith;
    var o := Reader.Opened(file);
    if o.Ok? {
      var s, ids := ReadAll(o.value.reader), PlayedIds(o.value.devices, options.lidarId);
      if options.lidarId.Some? {
        ChosenListed(o.value.devices, options.lidarId.value);
        var k := FirstWith(o.value.devices, options.lidarId.value);
        assert k < |o.value.devices| ==> o.value.devices[k].lidarId == options.lidarId.value;
      }
      if d < |ids| {
        DevicesDoNotMix(options.policy, ids, options.lidarId, s.packets, Packages(s.packets), d);
        CutPlayback.DeliveredBeforeError(options.policy, ids, options.lidarId, s.packets, Packages(s.packets), d);
      }
    }
  }
}
