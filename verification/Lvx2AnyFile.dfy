/**
  Reading any file whatsoever. The reference walks the bytes of the file by their positions; the reader,
  which buffers one frame at a time, is compared with it for every file.
*/
module Lvx2AnyFile {
  import opened Bytes
  import opened Lvx2Format
  import opened Lvx2Layout
  import opened Lvx2Reader
  import opened Packets
  import opened Wrappers

  // ---------------------------------------------------------------------------
  // Reference: the file by positions
  // ---------------------------------------------------------------------------

  /** The packages found, the error that ends the walk, and whether anything is cut short. */
  datatype Scan = Scan(packets: seq<LvxPacket>, error: Option<ReadError>, truncated: bool)

  const END := Scan([], None, false)

  function Marked(truncated: bool, s: Scan): (r: Scan) {
    s.(truncated := s.truncated || truncated)
  }

  function Found(p: LvxPacket, s: Scan): (r: Scan) {
    s.(packets := [p] + s.packets)
  }

  /** The package whose header is at `pos` and whose `length` bytes of points follow it. */
  function PackageAt(file: seq<Byte>, pos: nat, dataType: DataType, length: nat): (p: Package)
    requires pos + PACKAGE_HEADER_SIZE + length <= |file|
  {
    ReadBound(file, pos + 1, 4); ReadBound(file, pos + 7, 8); ReadBound(file, pos + 15, 2);
    Ranges();
    Package(ReadAt(file, pos + 1, 4), file[pos + 6], ReadAt(file, pos + 7, 8), ReadAt(file, pos + 15, 2), dataType,
            file[pos + 22], file[pos + 27..pos + 27 + length])
  }

  /** The LiDAR type, data type and length of points that the header at `pos` says. */
  function HeadAt(file: seq<Byte>, pos: nat): (r: Result<(Byte, DataType, nat), ReadError>)
    requires pos + PACKAGE_HEADER_SIZE <= |file|
  {
    var code, length := file[pos + 17], ReadAt(file, pos + 18, 4);
    if code != 1 && code != 2 then Err(UnsupportedDataType)
    else if length % (if code == 1 then 14 else 8) != 0 then Err(BadFile)
    else Ok((file[pos + 5], if code == 1 then Cartesian32 else Cartesian16, length))
  }

  /** From the frame at `at`: its header says where it is and where the next one is. */
  function ScanFrames(file: seq<Byte>, at: nat): (s: Scan)
    requires at <= |file|
    decreases |file| - at, 0
  {
    if at == |file| then END
    else if at + 24 > |file| then Scan([], None, true)
    else if ReadAt(file, at, 8) != at || ReadAt(file, at + 8, 8) < at + 24 then Scan([], Some(BadFile), false)
    else
      var next := ReadAt(file, at + 8, 8);
      ReadBound(file, at + 16, 8);
      Ranges();
      Marked(next > |file|, ScanPackages(file, at + 24, Min(next, |file|), ReadAt(file, at + 16, 8)))
  }

  /** From the package at `pos` of a frame that goes up to `end`. */
  function ScanPackages(file: seq<Byte>, pos: nat, end: nat, index: U64): (s: Scan)
    requires pos <= end <= |file|
    decreases |file| - pos, 1
  {
    if pos + 27 > end then Marked(pos != end, ScanFrames(file, end))
    else
      var head := HeadAt(file, pos);
      if head.Err? then Scan([], Some(head.error), false)
      else
        var (lidarType, dataType, length) := head.value;
        if pos + 27 + length > end then Scan([], None, true)
        else
          Found(LvxPacket(index, lidarType, PackageAt(file, pos, dataType, length)),
                ScanPackages(file, pos + 27 + length, end, index))
  }

  // ---------------------------------------------------------------------------
  // The reader against the reference
  // ---------------------------------------------------------------------------

  /** The reading ends as the walk does; `before` says whether anything was cut short before it. */
  ghost predicate Same(r: Reading, s: Scan, before: bool) {
    && r.packets == s.packets
    && match s.error
       case Some(e) => r.end == Err(e)
       case None => r.end.Ok? && r.end.value.truncated == (before || s.truncated)
  }

  /** The buffer of the reader is the part of the file from `a` on. */
  ghost predicate Buffers(r: ReaderState, a: nat) {
    && Valid(r) && !r.done && |r.file| < FILE_LIMIT
    && a + |r.frame| == r.at && r.frame == r.file[a..r.at]
    && (r.at == |r.file| || r.frameOffset == r.at)
  }

  lemma SliceOfSlice(file: seq<Byte>, from: nat, to: nat, i: nat, j: nat)
    requires from <= to <= |file| && i <= j && from + j <= to
    ensures file[from..to][i..j] == file[from + i..from + j]
  {
    var a, b := file[from..to][i..j], file[from + i..from + j];
    forall k | 0 <= k < j - i ensures a[k] == b[k] { assert file[from..to][i + k] == file[from + i + k]; }
    assert a == b;
  }

  lemma FieldOfSlice(file: seq<Byte>, from: nat, to: nat, offset: nat, n: nat)
    requires from <= to <= |file| && from + offset + n <= to
    ensures ReadAt(file[from..to], offset, n) == ReadAt(file, from + offset, n)
  {
    hide Value;
    SliceOfSlice(file, from, to, offset, offset + n);
  }

  /** The frame header as the reader sees it. */
  lemma LoadsFrame(r: ReaderState)
    requires Valid(r) && |r.file| < FILE_LIMIT && r.frameOffset == r.at < |r.file| && r.at + 24 <= |r.file|
    ensures var current, next := ReadAt(r.file, r.at, 8), ReadAt(r.file, r.at + 8, 8);
            var (l, more) := Loaded(r);
            if current != r.at || next < r.at + 24 then more == Err(BadFile)
            else
              var end := Min(next, |r.file|);
              && more == Ok(true) && l.file == r.file && l.at == end && l.frame == r.file[r.at + 24..end]
              && l.pos == 0 && l.frameIndex == ReadAt(r.file, r.at + 16, 8) && l.done == r.done
              && l.truncated == (r.truncated || next > |r.file|) && l.frameOffset == next
  {
    hide Value;
    FieldOfSlice(r.file, r.at, r.at + 24, 0, 8);
    FieldOfSlice(r.file, r.at, r.at + 24, 8, 8);
    FieldOfSlice(r.file, r.at, r.at + 24, 16, 8);
    ReadBound(r.file, r.at + 8, 8);
    Ranges();
  }

  /** The package header as the reader sees it. */
  lemma HeadOfPackage(file: seq<Byte>, pos: nat)
    requires pos + 27 <= |file|
    ensures var h, head := ParsedHead(file[pos..pos + 27]), HeadAt(file, pos);
            if head.Err? then h == Err(head.error)
            else
              var (lidarType, dataType, length) := head.value;
              && h.Ok? && h.value.0 == lidarType && h.value.2 == length
              && (pos + 27 + length <= |file| ==>
                    h.value.1.(points := file[pos + 27..pos + 27 + length])
                    == PackageAt(file, pos, dataType, length))
  {
    hide Value;
    FieldOfSlice(file, pos, pos + 27, 1, 4);
    FieldOfSlice(file, pos, pos + 27, 7, 8);
    FieldOfSlice(file, pos, pos + 27, 15, 2);
    FieldOfSlice(file, pos, pos + 27, 18, 4);
  }

  /** What a call to next_packet comes to, seen from the whole reading. */
  lemma ReadingStep(r: ReaderState)
    requires Valid(r)
    ensures var (next, result) := Next(r);
            match result
            case Err(e) => ReadAll(r) == Reading([], Err(e))
            case Ok(None) => ReadAll(r) == Reading([], Ok(next))
            case Ok(Some(p)) => ReadAll(r) == Reading([p] + ReadAll(next).packets, ReadAll(next).end)
  {
    hide Next;
  }

  lemma SameNext(r: ReaderState, l: ReaderState)
    requires Valid(r) && Valid(l) && Next(r) == Next(l)
    ensures ReadAll(r) == ReadAll(l)
  {
    hide Next;
  }

  /** At the end of a frame the next one is loaded, if there is one. */
  lemma NextLoads(r: ReaderState)
    requires Valid(r) && !r.done && r.pos + 27 > |r.frame|
    ensures var (l, more) := Loaded(r.(truncated := r.truncated || r.pos != |r.frame|));
            match more
            case Err(e) => Next(r).1 == Err(e)
            case Ok(false) => Next(r) == (l.(done := true), Ok(None))
            case Ok(true) => Next(r) == Next(l)
  {
    hide Loaded;
  }

  lemma NothingToLoad(r: ReaderState)
    requires Valid(r) && (r.at == |r.file| || r.at + 24 > |r.file|)
    ensures var (l, more) := Loaded(r);
            more == Ok(false) && l.truncated == (r.truncated || r.at != |r.file|)
  {
  }

  lemma ScanEnd(file: seq<Byte>, pos: nat, end: nat, index: U64)
    requires pos <= end <= |file| && pos + 27 > end
    ensures ScanPackages(file, pos, end, index) == Marked(pos != end, ScanFrames(file, end))
  {
    hide ScanFrames;
  }

  lemma SameMarked(r: Reading, s: Scan, a: bool, b: bool)
    ensures Same(r, s, a || b) <==> Same(r, Marked(b, s), a)
  {
  }

  /** What the frame after the end of this one gives. */
  lemma ScanLoads(file: seq<Byte>, at: nat)
    requires at <= |file|
    ensures at == |file| ==> ScanFrames(file, at) == END
    ensures at != |file| && at + 24 > |file| ==> ScanFrames(file, at) == Scan([], None, true)
    ensures at + 24 <= |file| ==>
              var next := ReadAt(file, at + 8, 8);
              if ReadAt(file, at, 8) != at || next < at + 24 then ScanFrames(file, at) == Scan([], Some(BadFile), false)
              else
                && ReadAt(file, at + 16, 8) < FILE_LIMIT
                && ScanFrames(file, at)
                   == Marked(next > |file|, ScanPackages(file, at + 24, Min(next, |file|), ReadAt(file, at + 16, 8)))
  {
    hide ScanPackages, Value;
    if at + 24 <= |file| { ReadBound(file, at + 16, 8); Ranges(); }
  }

  lemma {:induction false} AtFrameEnd(r: ReaderState, a: nat)
    requires Buffers(r, a) && r.pos + 27 > |r.frame|
    ensures Same(ReadAll(r), ScanPackages(r.file, a + r.pos, r.at, r.frameIndex), r.truncated)
    decreases |r.file| - r.at, |r.frame| - r.pos, 0
  {
    hide Loaded, Next, ReadAll, ScanPackages, ScanFrames, Same, Marked, ReadAt;
    var marked := r.(truncated := r.truncated || r.pos != |r.frame|);
    NextLoads(r);
    ReadingStep(r);
    ScanEnd(r.file, a + r.pos, r.at, r.frameIndex);
    ScanLoads(r.file, r.at);
    SameMarked(ReadAll(r), ScanFrames(r.file, r.at), r.truncated, r.pos != |r.frame|);
    if r.at == |r.file| || r.at + 24 > |r.file| {
      NothingToLoad(marked);
      EndsQuietly(Loaded(marked).0.(done := true), marked.truncated, r.at != |r.file|);
    } else {
      LoadsFrame(marked);
      var (l, more) := Loaded(marked);
      if more == Ok(true) {
        ReadsAsScanned(l, r.at + 24);
        SameNext(r, l);
        var next := ReadAt(r.file, r.at + 8, 8);
        SameMarked(ReadAll(r), ScanPackages(r.file, r.at + 24, l.at, l.frameIndex), marked.truncated, next > |r.file|);
      } else {
        EndsInError(BadFile, marked.truncated);
      }
    }
  }

  lemma EndsQuietly(l: ReaderState, before: bool, cut: bool)
    requires l.truncated == (before || cut)
    ensures Same(Reading([], Ok(l)), if cut then Scan([], None, true) else END, before)
  {
  }

  lemma EndsInError(e: ReadError, before: bool)
    ensures Same(Reading([], Err(e)), Scan([], Some(e), false), before)
  {
  }

  lemma NextByHead(r: ReaderState)
    requires Valid(r) && !r.done && r.pos + 27 <= |r.frame|
    ensures var body, head := r.pos + 27, ParsedHead(r.frame[r.pos..r.pos + 27]);
            if head.Err? then Next(r) == (r, Err(head.error))
            else
              var (lidarType, p, length) := head.value;
              if body + length > |r.frame| then Next(r) == (r.(truncated := true, done := true), Ok(None))
              else
                Next(r) == (r.(pos := body + length),
                            Ok(Some(LvxPacket(r.frameIndex, lidarType, p.(points := r.frame[body..body + length])))))
  {
    hide ParsedHead;
  }

  /** Within a frame next_packet returns the package that is there, or says what is wrong with it. */
  lemma NextInFrame(r: ReaderState, a: nat)
    requires Buffers(r, a) && r.pos + 27 <= |r.frame|
    ensures var p := a + r.pos;
            var head := HeadAt(r.file, p);
            if head.Err? then Next(r) == (r, Err(head.error))
            else
              var (lidarType, dataType, length) := head.value;
              if p + 27 + length > r.at then Next(r) == (r.(truncated := true, done := true), Ok(None))
              else
                Next(r) == (r.(pos := r.pos + 27 + length),
                            Ok(Some(LvxPacket(r.frameIndex, lidarType, PackageAt(r.file, p, dataType, length)))))
  {
    hide ParsedHead, PackageAt, HeadAt, Next;
    var p := a + r.pos;
    NextByHead(r);
    HeadOfPackage(r.file, p);
    SliceOfSlice(r.file, a, r.at, r.pos, r.pos + 27);
    if HeadAt(r.file, p).Ok? {
      var length := HeadAt(r.file, p).value.2;
      if p + 27 + length <= r.at { SliceOfSlice(r.file, a, r.at, r.pos + 27, r.pos + 27 + length); }
    }
  }

  lemma {:induction false} ReadsAsScanned(r: ReaderState, a: nat)
    requires Buffers(r, a)
    ensures Same(ReadAll(r), ScanPackages(r.file, a + r.pos, r.at, r.frameIndex), r.truncated)
    decreases |r.file| - r.at, |r.frame| - r.pos, 1
  {
    hide PackageAt, HeadAt, Next, ReadAll, Loaded, ScanFrames;
    if r.pos + 27 > |r.frame| {
      AtFrameEnd(r, a);
    } else {
      NextInFrame(r, a);
      ReadingStep(r);
      if Next(r).1.Ok? && Next(r).1.value.Some? { ReadsAsScanned(Next(r).0, a); }
    }
  }

  // ---------------------------------------------------------------------------
  // Opening
  // ---------------------------------------------------------------------------

  /** The first bytes are those the writer puts there, but for the last three of the version. */
  predicate HasHeader(file: seq<Byte>, durationMs: U32, devices: Byte) {
    && |file| >= 29
    && file[..17] == FileHeader(durationMs, devices)[..17]
    && file[20..29] == FileHeader(durationMs, devices)[20..29]
  }

  lemma HeaderMeans(file: seq<Byte>, durationMs: U32, devices: Byte)
    ensures HasHeader(file, durationMs, devices)
            <==> && |file| >= 29 && file[..16] == SIGNATURE && file[16] == 2 && ReadAt(file, 20, 4) == MAGIC
                 && ReadAt(file, 24, 4) == durationMs && file[28] == devices
  {
    hide LittleEndian, Value;
    var h := FileHeader(durationMs, devices);
    Ranges();
    if |file| >= 29 {
      assert file[..17] == file[..16] + [file[16]];
      assert h[..17] == SIGNATURE + [2];
      assert h[20..29] == LittleEndian(MAGIC, 4) + LittleEndian(durationMs, 4) + [devices];
      assert file[20..29] == file[20..24] + file[24..28] + [file[28]];
      ReadsWhatWasWritten(MAGIC, 4);
      ReadsWhatWasWritten(durationMs, 4);
      WritesWhatWasRead(file[20..24]);
      WritesWhatWasRead(file[24..28]);
      assert file[..17][..16] == file[..16] && file[..17][16] == file[16];
      assert file[20..29][..4] == file[20..24] && file[20..29][4..8] == file[24..28] && file[20..29][8] == file[28];
      assert h[20..29][..4] == LittleEndian(MAGIC, 4) && h[20..29][4..8] == LittleEndian(durationMs, 4);
      assert h[20..29][8] == devices;
    }
  }

  /** The fixed bytes of the header: "livox_tech", the version and the magic number. */
  lemma FixedBytes(durationMs: U32, devices: Byte)
    ensures var h := FileHeader(durationMs, devices);
            && h[..16] == [0x6C, 0x69, 0x76, 0x6F, 0x78, 0x5F, 0x74, 0x65, 0x63, 0x68, 0, 0, 0, 0, 0, 0]
            && h[16..24] == [2, 0, 0, 0, 0x67, 0xA7, 0x0E, 0xAC]
  {
    assert LittleEndian(0xAC, 1) == [0xAC] by { assert LittleEndian(0, 0) == []; }
    assert LittleEndian(0xAC0E, 2) == [0x0E, 0xAC];
    assert LittleEndian(0xAC0E_A7, 3) == [0xA7, 0x0E, 0xAC];
    assert LittleEndian(0xAC0E_A767, 4) == [0x67, 0xA7, 0x0E, 0xAC];
    hide LittleEndian;
    var h := FileHeader(durationMs, devices);
    assert h[16..24] == [2, 0, 0, 0] + LittleEndian(MAGIC, 4);
  }

  /**
    Any file: it opens exactly if it has the writer's header for some duration and number of devices and
    holds as many device infos, and then it opens with those.
  */
  lemma OpensExactly(file: seq<Byte>, durationMs: U32, devices: Byte)
    ensures HasHeader(file, durationMs, devices) && |file| >= 29 + 63 * devices
            <==> && Opened(file).Ok? && Opened(file).value.durationMs == durationMs
                 && |Opened(file).value.devices| == devices
    ensures Opened(file).Err? ==> Opened(file).error == BadFile
  {
    hide HasHeader, FileHeader, ReadDevices, Value;
    HeaderMeans(file, durationMs, devices);
  }

  lemma {:induction false} DevicesInOrder(block: seq<Byte>, n: nat, k: nat)
    requires 63 * n <= |block| && k < n
    ensures ReadDevices(block, n)[k] == ReadDevice(block[63 * k..63 * k + 63])
  {
    hide ReadDevice;
    if k < n - 1 { DevicesInOrder(block, n - 1, k); }
  }

  /**
    Any file that opens, below 2^64 bytes, well-formed or not: the reader returns the packages that the
    walk over its bytes finds, ends in the same error if it does, and otherwise says whether anything was
    cut short.
  */
  lemma AnyFileReads(file: seq<Byte>)
    requires Opened(file).Ok? && |file| < FILE_LIMIT
    ensures 29 + 63 * |Opened(file).value.devices| <= |file|
    ensures Same(ReadAll(Opened(file).value.reader), ScanFrames(file, 29 + 63 * |Opened(file).value.devices|), false)
  {
    hide ReadAll, ReadDevices, ScanFrames, Value;
    var r := Opened(file).value.reader;
    assert r.frame == r.file[r.at..r.at];
    ReadsAsScanned(r, r.at);
  }
}
