/**
  Reading an lvx2 file back, whole or cut short at any byte: the packages the reader returns are
  exactly those that lie wholly inside what is left of the file.
*/
module Lvx2RoundTrip {
  import opened Bytes
  import opened Lvx2Format
  import opened Lvx2Layout
  import opened Lvx2Reader
  import opened Packets
  import opened Seqs
  import opened Wrappers
  import TimeMapper

  // ---------------------------------------------------------------------------
  // The reader inside a cut file
  // ---------------------------------------------------------------------------

  /** The first bytes of a file of these frames, at least up to the first frame. */
  ghost predicate CutOf(file: seq<Byte>, head: seq<Byte>, frames: seq<seq<Package>>) {
    && |head| <= |file|
    && file <= head + Chain(|head|, frames)
    && |head + Chain(|head|, frames)| < FILE_LIMIT
    && |frames| < FILE_LIMIT
  }

  /** The reader is about to read the header of frame `k`. */
  ghost predicate Between(r: ReaderState, start: nat, frames: seq<seq<Package>>, k: nat) {
    && k <= |frames|
    && r.at == r.frameOffset == Offset(start, frames, k) <= |r.file|
    && r.pos == |r.frame| && !r.truncated && !r.done
  }

  /** The reader has read `j` packages of frame `k`, of whose body `m` bytes are left. */
  ghost predicate Inside(r: ReaderState, start: nat, frames: seq<seq<Package>>, k: nat, j: nat, m: nat) {
    && k < |frames| && j <= |frames[k]|
    && Offset(start, frames, k) + FRAME_HEADER_SIZE <= |r.file|
    && m == Min(|Body(frames[k])|, |r.file| - (Offset(start, frames, k) + FRAME_HEADER_SIZE))
    && r.at == Offset(start, frames, k) + FRAME_HEADER_SIZE + m <= |r.file|
    && r.frame == Body(frames[k])[..m]
    && r.pos == |Body(frames[k][..j])| <= m
    && r.frameIndex == k && r.frameOffset == Offset(start, frames, k + 1)
    && r.truncated == (m < |Body(frames[k])|) && !r.done
  }

  /** A package as the writer makes them: of a recorded type and of a length that fits its field. */
  predicate Recordable(p: Package) {
    && (p.dataType == Cartesian32 || p.dataType == Cartesian16)
    && |p.points| < 0x1_0000_0000
  }

  lemma HeadParses(p: Package)
    requires Recordable(p)
    ensures ParsedHead(PackageHead(p))
            == if Readable(p) then Ok((0, p.(points := []), |p.points|)) else Err(BadFile)
  {
    hide PackageHead, ReadAt;
    HeadFields(p);
  }

  /** The header of the next package, if it is not cut off. */
  lemma NextHead(r: ReaderState, start: nat, frames: seq<seq<Package>>, k: nat, j: nat, m: nat)
    requires Inside(r, start, frames, k, j, m) && j < |frames[k]|
    requires r.pos + PACKAGE_HEADER_SIZE <= m
    ensures r.frame[r.pos..r.pos + PACKAGE_HEADER_SIZE] == PackageHead(frames[k][j])
  {
    hide Body, PackageHead, Offset;
    PackageAt(frames[k], j);
    assert r.frame[r.pos..r.pos + PACKAGE_HEADER_SIZE] == Body(frames[k])[r.pos..r.pos + PACKAGE_HEADER_SIZE];
  }

  lemma NextInFrame(r: ReaderState, start: nat, frames: seq<seq<Package>>, k: nat, j: nat, m: nat)
    requires Valid(r) && Inside(r, start, frames, k, j, m) && j < |frames[k]|
    requires Readable(frames[k][j]) && |Body(frames[k][..j + 1])| <= m
    ensures var r' := r.(pos := |Body(frames[k][..j + 1])|);
            && Next(r) == (r', Ok(Some(LvxPacket(k, 0, frames[k][j]))))
            && Inside(r', start, frames, k, j + 1, m)
  {
    hide Body, PackageHead, Offset, ParsedHead, Loaded;
    var p := frames[k][j];
    PackageAt(frames[k], j);
    NextHead(r, start, frames, k, j, m);
    HeadParses(p);
    var body := r.pos + PACKAGE_HEADER_SIZE;
    assert r.frame[body..body + |p.points|] == Body(frames[k])[body..body + |p.points|];
  }

  /** A package that is not whole points ends the reading as soon as its header is there. */
  lemma NextIsUnwhole(r: ReaderState, start: nat, frames: seq<seq<Package>>, k: nat, j: nat, m: nat)
    requires Valid(r) && Inside(r, start, frames, k, j, m) && j < |frames[k]|
    requires Recordable(frames[k][j]) && !Readable(frames[k][j]) && r.pos + PACKAGE_HEADER_SIZE <= m
    ensures Next(r) == (r, Err(BadFile))
  {
    hide Body, PackageHead, Offset, ParsedHead, Loaded;
    PackageAt(frames[k], j);
    NextHead(r, start, frames, k, j, m);
    HeadParses(frames[k][j]);
  }

  /** A package that is cut off, whole or not if its header is cut, ends the reading. */
  lemma NextIsCut(r: ReaderState, start: nat, frames: seq<seq<Package>>, k: nat, j: nat, m: nat)
    requires Valid(r) && Inside(r, start, frames, k, j, m) && j < |frames[k]|
    requires r.pos + PACKAGE_HEADER_SIZE > m || (Readable(frames[k][j]) && |Body(frames[k][..j + 1])| > m)
    ensures Next(r).1 == Ok(None) && Next(r).0.truncated
  {
    hide Body, PackageHead, Offset, ParsedHead;
    PackageAt(frames[k], j);
    assert r.truncated && r.at == |r.file|;
    if r.pos + PACKAGE_HEADER_SIZE <= m {
      NextHead(r, start, frames, k, j, m);
      HeadParses(frames[k][j]);
    }
  }

  /** Past the last package of a frame the reader is between frames. */
  lemma FrameIsRead(r: ReaderState, start: nat, frames: seq<seq<Package>>, k: nat, m: nat)
    requires k < |frames| && Inside(r, start, frames, k, |frames[k]|, m)
    ensures Between(r, start, frames, k + 1)
  {
    hide Body, Offset;
    assert frames[k][..|frames[k]|] == frames[k];
    OffsetStep(start, frames, k);
  }

  lemma HeaderAt(file: seq<Byte>, head: seq<Byte>, frames: seq<seq<Package>>, k: nat)
    requires CutOf(file, head, frames) && k < |frames|
    requires Offset(|head|, frames, k) + FRAME_HEADER_SIZE <= |file|
    ensures var at := Offset(|head|, frames, k);
            var h := file[at..at + FRAME_HEADER_SIZE];
            && U64At(h, 0) == at
            && U64At(h, 8) == Offset(|head|, frames, k + 1) == at + FRAME_HEADER_SIZE + |Body(frames[k])| < FILE_LIMIT
            && U64At(h, 16) == k
  {
    hide Body, Chain, FrameHead, Offset, ReadAt;
    var at, whole := Offset(|head|, frames, k), head + Chain(|head|, frames);
    FrameAt(head, frames, k);
    OffsetStep(|head|, frames, k);
    FrameHeadFields(at, |Body(frames[k])|, k);
    assert file[at..at + FRAME_HEADER_SIZE] == whole[at..at + FRAME_HEADER_SIZE];
  }

  lemma BodyAt(file: seq<Byte>, head: seq<Byte>, frames: seq<seq<Package>>, k: nat)
    requires CutOf(file, head, frames) && k < |frames|
    requires Offset(|head|, frames, k) + FRAME_HEADER_SIZE <= |file|
    ensures var body := Offset(|head|, frames, k) + FRAME_HEADER_SIZE;
            var end := Min(body + |Body(frames[k])|, |file|);
            file[body..end] == Body(frames[k])[..end - body]
  {
    hide Body, Chain, FrameHead, Offset;
    var whole, size := head + Chain(|head|, frames), |Body(frames[k])|;
    var body := Offset(|head|, frames, k) + FRAME_HEADER_SIZE;
    var end := Min(body + size, |file|);
    FrameAt(head, frames, k);
    SliceOfPrefix(file, whole, body, end, body + size);
  }

  lemma SliceOfPrefix(file: seq<Byte>, whole: seq<Byte>, a: nat, b: nat, c: nat)
    requires file <= whole && a <= b <= |file| && b <= c <= |whole|
    ensures file[a..b] == whole[a..c][..b - a]
  {
  }

  lemma NextLoads(r: ReaderState, head: seq<Byte>, frames: seq<seq<Package>>, k: nat)
    requires Valid(r) && Between(r, |head|, frames, k) && k < |frames|
    requires CutOf(r.file, head, frames) && r.at + FRAME_HEADER_SIZE <= |r.file|
    ensures var l := Loaded(r).0;
            && Next(r) == Next(l)
            && Inside(l, |head|, frames, k, 0, |l.frame|)
  {
    hide Body, CutOf, Offset, ReadAt, TimeMapper.ToU64, ParsedHead, Next;
    var at, size := Offset(|head|, frames, k), |Body(frames[k])|;
    HeaderAt(r.file, head, frames, k);
    BodyAt(r.file, head, frames, k);
    NoWrap(at + FRAME_HEADER_SIZE);
    NoWrap(size);
    EmptyBody(frames[k]);
    assert Loaded(r).1 == Ok(true);
    NextAfterLoad(r);
  }

  lemma NextAfterLoad(r: ReaderState)
    requires Valid(r) && r.pos == |r.frame| && !r.truncated && !r.done && Loaded(r).1 == Ok(true)
    ensures Next(r) == Next(Loaded(r).0)
  {
    hide Loaded, ParsedHead;
    assert r.(truncated := r.truncated || r.pos != |r.frame|) == r;
  }

  lemma NoWrap(v: nat)
    requires v < FILE_LIMIT
    ensures TimeMapper.ToU64(v) == v
  {
  }

  lemma EmptyBody(packages: seq<Package>)
    ensures Body(packages[..0]) == []
  {
  }

  /** Where no whole frame header is left, the reading ends. */
  lemma NextEnds(r: ReaderState, head: seq<Byte>, frames: seq<seq<Package>>, k: nat)
    requires Valid(r) && Between(r, |head|, frames, k)
    requires CutOf(r.file, head, frames) && r.at + FRAME_HEADER_SIZE > |r.file|
    ensures Next(r).1 == Ok(None)
    ensures Next(r).0.truncated <==> !OnBoundary(|head|, frames, |r.file|)
  {
    hide Chain, Offset, ParsedHead;
    if r.at < |r.file| {
      if k == |frames| {
        assert frames[..k] == frames;
        EndOfFile(head, frames);
      } else {
        OffsetStep(|head|, frames, k);
        InsideIsNoBoundary(|head|, frames, k, |r.file|);
      }
    }
  }

  lemma EndOfFile(head: seq<Byte>, frames: seq<seq<Package>>)
    ensures Offset(|head|, frames, |frames|) == |head + Chain(|head|, frames)|
  {
    assert frames[..|frames|] == frames;
  }

  // ---------------------------------------------------------------------------
  // Reading to the end
  // ---------------------------------------------------------------------------

  /** Package `bad` is the first whose points are not whole; none is if `bad` is the number of packages. */
  ghost predicate WholeUpTo(frames: seq<seq<Package>>, bad: nat)
    requires |frames| <= FILE_LIMIT
  {
    && bad <= |Tagged(frames)|
    && (forall x :: 0 <= x < bad ==> Readable(Tagged(frames)[x].package))
    && (bad < |Tagged(frames)| ==>
          Recordable(Tagged(frames)[bad].package) && !Readable(Tagged(frames)[bad].package))
  }

  /** The file offset at which the header of package `x` ends. */
  function HeadEnd(start: nat, frames: seq<seq<Package>>, x: nat): (o: int)
    requires |frames| <= FILE_LIMIT && x < |Tagged(frames)| == |Ends(start, frames)|
  {
    Ends(start, frames)[x] - |Tagged(frames)[x].package.points|
  }

  /** The cut keeps the header of the first package that is not whole. */
  ghost predicate MeetsUnwhole(start: nat, frames: seq<seq<Package>>, bad: nat, cut: nat)
    requires |frames| <= FILE_LIMIT && |Tagged(frames)| == |Ends(start, frames)|
  {
    bad < |Tagged(frames)| && HeadEnd(start, frames, bad) <= cut
  }

  /** The outcome of a reading that starts at package `i`. */
  ghost predicate Outcome(s: Reading, start: nat, frames: seq<seq<Package>>, bad: nat, cut: nat, i: nat)
    requires |frames| <= FILE_LIMIT
  {
    var n := i + |s.packets|;
    && n <= bad && bad <= |Tagged(frames)| == |Ends(start, frames)|
    && s.packets == Tagged(frames)[i..n]
    && (forall x :: i <= x < n ==> Ends(start, frames)[x] <= cut)
    && if n == bad && MeetsUnwhole(start, frames, bad, cut) then s.end == Err(BadFile)
       else
         && (n < bad ==> Ends(start, frames)[n] > cut)
         && s.end.Ok? && (s.end.value.truncated <==> !OnBoundary(start, frames, cut))
  }

  lemma OutcomeGrows(r: ReaderState, start: nat, frames: seq<seq<Package>>, bad: nat, cut: nat, i: nat)
    requires Valid(r) && |frames| <= FILE_LIMIT && i < |Tagged(frames)| == |Ends(start, frames)|
    requires Next(r).1 == Ok(Some(Tagged(frames)[i])) && Ends(start, frames)[i] <= cut
    requires Outcome(ReadAll(Next(r).0), start, frames, bad, cut, i + 1)
    ensures Outcome(ReadAll(r), start, frames, bad, cut, i)
  {
    hide Next, Tagged, Ends, OnBoundary, MeetsUnwhole;
    var rest, tagged := ReadAll(Next(r).0), Tagged(frames);
    assert [tagged[i]] + rest.packets == tagged[i..i + 1 + |rest.packets|];
  }

  lemma OutcomeIsEmpty(r: ReaderState, start: nat, frames: seq<seq<Package>>, bad: nat, cut: nat, i: nat)
    requires Valid(r) && |frames| <= FILE_LIMIT && i <= bad <= |Tagged(frames)| == |Ends(start, frames)|
    requires if i == bad && MeetsUnwhole(start, frames, bad, cut) then Next(r).1 == Err(BadFile)
             else
               && Next(r).1 == Ok(None) && (i < bad ==> Ends(start, frames)[i] > cut)
               && (Next(r).0.truncated <==> !OnBoundary(start, frames, cut))
    ensures Outcome(ReadAll(r), start, frames, bad, cut, i)
  {
    hide Next, Tagged, Ends, OnBoundary, MeetsUnwhole;
  }

  lemma {:induction false} ReadsInside(
    r: ReaderState, head: seq<Byte>, frames: seq<seq<Package>>, bad: nat, k: nat, j: nat, m: nat)
    requires CutOf(r.file, head, frames) && WholeUpTo(frames, bad)
    requires Valid(r) && Inside(r, |head|, frames, k, j, m)
    requires |Tagged(frames[..k])| + j <= bad
    ensures Outcome(ReadAll(r), |head|, frames, bad, |r.file|, |Tagged(frames[..k])| + j)
    decreases 2 * (|frames| - k), |frames[k]| - j
  {
    hide Body, Chain, Offset, Next, Tagged, Ends, Readable, Outcome, OnBoundary, ReadAll;
    var i := |Tagged(frames[..k])| + j;
    if j == |frames[k]| {
      FrameIsRead(r, |head|, frames, k, m);
      CountStep(frames, k);
      ReadsBetween(r, head, frames, bad, k + 1);
    } else {
      Position(|head|, frames, k, j);
      OffsetStep(|head|, frames, k);
      PackageAt(frames[k], j);
      if i == bad && r.pos + PACKAGE_HEADER_SIZE <= m {
        NextIsUnwhole(r, |head|, frames, k, j, m);
        OutcomeIsEmpty(r, |head|, frames, bad, |r.file|, i);
      } else if i == bad || |Body(frames[k][..j + 1])| > m {
        NextIsCut(r, |head|, frames, k, j, m);
        InsideIsNoBoundary(|head|, frames, k, |r.file|);
        OutcomeIsEmpty(r, |head|, frames, bad, |r.file|, i);
      } else {
        NextInFrame(r, |head|, frames, k, j, m);
        ReadsInside(Next(r).0, head, frames, bad, k, j + 1, m);
        OutcomeGrows(r, |head|, frames, bad, |r.file|, i);
      }
    }
  }

  lemma {:induction false} ReadsBetween(
    r: ReaderState, head: seq<Byte>, frames: seq<seq<Package>>, bad: nat, k: nat)
    requires CutOf(r.file, head, frames) && WholeUpTo(frames, bad)
    requires Valid(r) && Between(r, |head|, frames, k)
    requires |Tagged(frames[..k])| <= bad
    ensures Outcome(ReadAll(r), |head|, frames, bad, |r.file|, |Tagged(frames[..k])|)
    decreases 2 * (|frames| - k) + 1, 0
  {
    hide Body, Chain, Offset, Next, Tagged, Ends, Readable, Outcome, OnBoundary, Inside, Loaded;
    var i := |Tagged(frames[..k])|;
    SameCount(|head|, frames);
    if r.at + FRAME_HEADER_SIZE <= |r.file| {
      EndOfFile(head, frames);
      NextLoads(r, head, frames, k);
      var l := Loaded(r).0;
      ReadsInside(l, head, frames, bad, k, 0, |l.frame|);
      assert ReadAll(r) == ReadAll(l);
    } else {
      NextEnds(r, head, frames, k);
      RestIsCutOff(|head|, frames, k, |r.file|);
      OutcomeIsEmpty(r, |head|, frames, bad, |r.file|, i);
    }
  }

  /** Every package header from frame `k` on ends past a cut before the body of that frame. */
  lemma RestIsCutOff(start: nat, frames: seq<seq<Package>>, k: nat, cut: nat)
    requires k <= |frames| <= FILE_LIMIT && cut < Offset(start, frames, k) + FRAME_HEADER_SIZE
    ensures |Tagged(frames[..k])| <= |Tagged(frames)| == |Ends(start, frames)|
    ensures var i := |Tagged(frames[..k])|;
            i < |Tagged(frames)| ==> Ends(start, frames)[i] >= HeadEnd(start, frames, i) > cut
    decreases |frames| - k
  {
    hide Body, Chain, Offset, Ends, Tagged;
    SameCount(start, frames);
    if k == |frames| {
      assert frames[..k] == frames;
    } else if frames[k] != [] {
      Position(start, frames, k, 0);
      PackageAt(frames[k], 0);
    } else {
      CountStep(frames, k);
      OffsetStep(start, frames, k);
      RestIsCutOff(start, frames, k + 1, cut);
    }
  }

  // ---------------------------------------------------------------------------
  // Whole files
  // ---------------------------------------------------------------------------

  function Head(durationMs: U32, devices: seq<Device>): (s: seq<Byte>)
    requires |devices| < 256
    ensures |s| == FILE_HEADER_SIZE + DEVICE_INFO_SIZE * |devices|
  {
    FileHeader(durationMs, |devices|) + DeviceBlock(devices)
  }

  /** The devices as the fixed-size fields of the file hold them. */
  function StoredAll(devices: seq<Device>): (r: seq<Device>)
    ensures |r| == |devices|
    ensures forall k :: 0 <= k < |r| ==> r[k] == Stored(devices[k])
  {
    if devices == [] then [] else StoredAll(devices[..|devices| - 1]) + [Stored(devices[|devices| - 1])]
  }

  lemma {:induction false} DevicesReadBack(devices: seq<Device>, after: seq<Byte>)
    ensures ReadDevices(DeviceBlock(devices) + after, |devices|) == StoredAll(devices)
  {
    hide ReadDevice, DeviceBytes, Stored;
    if devices != [] {
      var n := |devices| - 1;
      var last := DeviceBytes(devices[n]);
      DevicesReadBack(devices[..n], last + after);
      Assoc(DeviceBlock(devices[..n]), last, after);
      assert (DeviceBlock(devices) + after)[DEVICE_INFO_SIZE * n..DEVICE_INFO_SIZE * (n + 1)] == last;
      DeviceReadsBack(devices[n]);
    }
  }

  /** The header fields of a cut that keeps the file header. */
  lemma HeaderFieldsInCut(file: seq<Byte>, durationMs: U32, count: Byte)
    requires FileHeader(durationMs, count) <= file
    ensures file[..16] == SIGNATURE && ReadAt(file, 20, 4) == MAGIC && file[16] == 2
    ensures ReadAt(file, 24, 4) == durationMs && file[28] == count
  {
    hide FileHeader, ReadAt;
    FileHeaderFields(durationMs, count);
    var h := FileHeader(durationMs, count);
    assert file[..16] == h[..16];
    SameRead(file, h, 20);
    SameRead(file, h, 24);
  }

  lemma SameRead(file: seq<Byte>, h: seq<Byte>, offset: nat)
    requires h <= file && offset + 4 <= |h|
    ensures ReadAt(file, offset, 4) == ReadAt(h, offset, 4)
  {
    assert file[offset..offset + 4] == h[offset..offset + 4];
  }

  /** A cut file opens, with its own duration and devices, exactly if its device block is whole. */
  lemma CutOpens(durationMs: U32, devices: seq<Device>, frames: seq<seq<Package>>, cut: nat)
    requires |devices| < 256 && cut <= |FileBytes(durationMs, devices, frames)|
    ensures var file, start := FileBytes(durationMs, devices, frames)[..cut], |Head(durationMs, devices)|;
            Opened(file)
            == if cut < start then Err(BadFile)
               else Ok(OpenFile(durationMs, StoredAll(devices),
                                ReaderState(file, start, [], 0, 0, start, false, false)))
  {
    hide FileHeader, DeviceBlock, Chain, ReadAt, ReadDevices;
    var whole, header := FileBytes(durationMs, devices, frames), FileHeader(durationMs, |devices|);
    var file, start := whole[..cut], |Head(durationMs, devices)|;
    assert header <= whole;
    if cut >= FILE_HEADER_SIZE {
      assert header <= file by { assert file[..FILE_HEADER_SIZE] == whole[..FILE_HEADER_SIZE]; }
      HeaderFieldsInCut(file, durationMs, |devices|);
      if cut >= start {
        assert file[FILE_HEADER_SIZE..start] == DeviceBlock(devices);
        DevicesReadBack(devices, []);
        assert DeviceBlock(devices) + [] == DeviceBlock(devices);
      }
    }
  }

  ghost predicate AllReadable(frames: seq<seq<Package>>)
    requires |frames| <= FILE_LIMIT
  {
    forall x :: 0 <= x < |Tagged(frames)| ==> Readable(Tagged(frames)[x].package)
  }

  ghost predicate AllRecordable(frames: seq<seq<Package>>)
    requires |frames| <= FILE_LIMIT
  {
    forall x :: 0 <= x < |Tagged(frames)| ==> Recordable(Tagged(frames)[x].package)
  }

  /** What is left of a file after its device block. */
  function ReadCut(durationMs: U32, devices: seq<Device>, frames: seq<seq<Package>>, cut: nat): (s: Reading)
    requires |devices| < 256 && |Head(durationMs, devices)| <= cut <= |FileBytes(durationMs, devices, frames)|
  {
    CutOpens(durationMs, devices, frames, cut);
    ReadAll(Opened(FileBytes(durationMs, devices, frames)[..cut]).value.reader)
  }

  lemma CutReads(durationMs: U32, devices: seq<Device>, frames: seq<seq<Package>>, cut: nat, bad: nat)
    requires |devices| < 256 && |frames| < FILE_LIMIT
    requires |Head(durationMs, devices)| <= cut <= |FileBytes(durationMs, devices, frames)| < FILE_LIMIT
    requires WholeUpTo(frames, bad)
    ensures Outcome(ReadCut(durationMs, devices, frames, cut), |Head(durationMs, devices)|, frames, bad, cut, 0)
  {
    hide FileHeader, DeviceBlock, Chain, ReadAll, WholeUpTo, Outcome, Tagged;
    var head, whole := Head(durationMs, devices), FileBytes(durationMs, devices, frames);
    CutOpens(durationMs, devices, frames, cut);
    var r := ReaderState(whole[..cut], |head|, [], 0, 0, |head|, false, false);
    NoneBefore(|head|, frames);
    assert CutOf(r.file, head, frames);
    ReadsBetween(r, head, frames, bad, 0);
  }

  lemma NoneBefore(start: nat, frames: seq<seq<Package>>)
    ensures Offset(start, frames, 0) == start && Tagged(frames[..0]) == []
  {
  }

  /** The first package whose points are not whole. */
  function FirstUnwhole(packets: seq<LvxPacket>): (n: nat)
    ensures n <= |packets|
    ensures forall x :: 0 <= x < n ==> Readable(packets[x].package)
    ensures n < |packets| ==> !Readable(packets[n].package)
  {
    if packets == [] then 0
    else
      var n := FirstUnwhole(packets[..|packets| - 1]);
      if n == |packets| - 1 && Readable(packets[n].package) then n + 1 else n
  }

  /** The header of a later package ends past the end of an earlier one. */
  lemma {:induction false} HeadsFollow(start: nat, frames: seq<seq<Package>>, x: nat, y: nat)
    requires |frames| <= FILE_LIMIT && x < y < |Tagged(frames)| == |Ends(start, frames)|
    ensures Ends(start, frames)[x] < HeadEnd(start, frames, y)
  {
    hide Body, Chain, Offset;
    var n := |frames| - 1;
    SameCount(start, frames[..n]);
    var before := |Tagged(frames[..n])|;
    if y < before {
      HeadsFollow(start, frames[..n], x, y);
    } else {
      Position(start, frames, n, y - before);
      PackageAt(frames[n], y - before);
      if x < before {
        EndsBelow(start, frames[..n], x);
        SameOffset(start, frames, n, n);
      } else {
        Position(start, frames, n, x - before);
        BodiesIncreaseOrStay(frames[n], x - before + 1, y - before);
      }
    }
  }

  lemma BodiesIncreaseOrStay(packages: seq<Package>, i: nat, j: nat)
    requires i <= j <= |packages|
    ensures |Body(packages[..i])| <= |Body(packages[..j])|
  {
    hide Body;
    if i < j { BodiesIncrease(packages, i, j); }
  }

  /**
    Any file the writer can produce with payloads under 4 GiB, whole points or not, cut at any byte after
    its device block. The reader returns, in order and as they were written, exactly the packages that
    end before the cut and precede the first one that is not whole points. It ends in an error exactly if
    the header of that one is before the cut; otherwise it says the file is truncated exactly if the cut
    is not where a frame starts or the file ends.
  */
  lemma CutFileReadsExactly(durationMs: U32, devices: seq<Device>, frames: seq<seq<Package>>, cut: nat)
    requires |devices| < 256 && |frames| < FILE_LIMIT && AllRecordable(frames)
    requires |Head(durationMs, devices)| <= cut <= |FileBytes(durationMs, devices, frames)| < FILE_LIMIT
    ensures var s, start := ReadCut(durationMs, devices, frames, cut), |Head(durationMs, devices)|;
            var bad := FirstUnwhole(Tagged(frames));
            && |s.packets| <= |Tagged(frames)| == |Ends(start, frames)|
            && s.packets == Tagged(frames)[..|s.packets|]
            && (forall x :: 0 <= x < |Tagged(frames)| ==>
                  (x < |s.packets| <==> x < bad && Ends(start, frames)[x] <= cut))
            && (s.end.Err? <==> bad < |Tagged(frames)| && HeadEnd(start, frames, bad) <= cut)
            && (s.end.Err? ==> s.end.error == BadFile)
            && (s.end.Ok? ==> (s.end.value.truncated <==> !OnBoundary(start, frames, cut)))
  {
    hide FileBytes, ReadCut, Tagged, Ends, OnBoundary, Head, Readable, HeadEnd;
    var s, start := ReadCut(durationMs, devices, frames, cut), |Head(durationMs, devices)|;
    var bad := FirstUnwhole(Tagged(frames));
    CutReads(durationMs, devices, frames, cut, bad);
    var n := |s.packets|;
    forall x | n < x < |Tagged(frames)| && n < bad
      ensures Ends(start, frames)[x] > cut && HeadEnd(start, frames, x) > cut
    {
      EndsIncrease(start, frames, n, x);
      HeadsFollow(start, frames, n, x);
    }
  }

  /** A file of whole points, cut at any byte after its device block, reads without an error. */
  lemma CutFileReadsWhatIsLeft(durationMs: U32, devices: seq<Device>, frames: seq<seq<Package>>, cut: nat)
    requires |devices| < 256 && |frames| < FILE_LIMIT && AllReadable(frames)
    requires |Head(durationMs, devices)| <= cut <= |FileBytes(durationMs, devices, frames)| < FILE_LIMIT
    ensures var s, start := ReadCut(durationMs, devices, frames, cut), |Head(durationMs, devices)|;
            && |s.packets| <= |Tagged(frames)| == |Ends(start, frames)|
            && s.packets == Tagged(frames)[..|s.packets|]
            && (forall x :: 0 <= x < |Tagged(frames)| ==> (x < |s.packets| <==> Ends(start, frames)[x] <= cut))
            && s.end.Ok? && (s.end.value.truncated <==> !OnBoundary(start, frames, cut))
  {
    hide FileBytes, ReadCut, Tagged, Ends, OnBoundary, Head, HeadEnd;
    CutFileReadsExactly(durationMs, devices, frames, cut);
  }

  /**
    An uncut file: the reader returns every package and a clean end exactly if all points are
    whole; otherwise it returns those before the first package that is not, and an error.
  */
  lemma FileReadsBack(durationMs: U32, devices: seq<Device>, frames: seq<seq<Package>>)
    requires |devices| < 256 && |frames| < FILE_LIMIT && AllRecordable(frames)
    requires |FileBytes(durationMs, devices, frames)| < FILE_LIMIT
    ensures var s := ReadCut(durationMs, devices, frames, |FileBytes(durationMs, devices, frames)|);
            if AllReadable(frames) then s.packets == Tagged(frames) && s.end.Ok? && !s.end.value.truncated
            else s.packets == Tagged(frames)[..FirstUnwhole(Tagged(frames))] && s.end == Err(BadFile)
  {
    hide ReadCut, Tagged, Ends, OnBoundary, Readable, FileHeader, DeviceBlock, Chain;
    var head, whole := Head(durationMs, devices), FileBytes(durationMs, devices, frames);
    var bad := FirstUnwhole(Tagged(frames));
    assert whole == head + Chain(|head|, frames);
    CutFileReadsExactly(durationMs, devices, frames, |whole|);
    EndOfFile(head, frames);
    assert OnBoundary(|head|, frames, |whole|) by { BoundaryAt(|head|, frames, |frames|); }
    forall x | 0 <= x < |Tagged(frames)| ensures Ends(|head|, frames)[x] <= |whole| {
      EndsBelow(|head|, frames, x);
    }
    assert AllReadable(frames) <==> bad == |Tagged(frames)|;
    var s := ReadCut(durationMs, devices, frames, |whole|);
    assert bad < |Tagged(frames)| ==> HeadEnd(|head|, frames, bad) <= |whole|;
    var n := |s.packets|;
    assert n < |Tagged(frames)| ==> Ends(|head|, frames)[n] <= |whole|;
    assert bad < |Tagged(frames)| ==> Ends(|head|, frames)[bad] <= |whole|;
    assert n == bad;
  }

  lemma BoundaryAt(start: nat, frames: seq<seq<Package>>, k: nat)
    requires k <= |frames|
    ensures OnBoundary(start, frames, Offset(start, frames, k))
  {
  }
}
