# Livox Mid-360 SDK: a verified model

A Dafny model of the parts of the Livox Mid-360 C++ SDK that keep state and make decisions, with
proofs about whole runs of them: frame assembly, the lvx2 recorder, reader and player, the registry
between user threads and the receive thread, the device's cancel, connection, replay, status and
settings protocols, and the wire codec with its CRCs.

Where the original changes state in place, the model is a class or a method with loops, proved equal
to a function from the old state to the new one; the theorems about runs are proved about those
functions. Concurrent protocols are step systems: a run is any sequence of steps of any threads, and a
step that is not enabled does nothing, so every sequence of steps is an interleaving. Atomics are
sequentially consistent. Sockets, files and clocks appear as inputs.

## Modules

| part | modules |
|---|---|
| wire codec | `Bytes`, `Bits`, `Folding`, `Crc`, `CommandFrame`, `CrcCheck`, `KeyValueList`, `Keys` |
| frame assembly | `Packets`, `DropCounter`, `TimeMapper`, `FrameAssembler`, `AssemblerRuns`, `AssemblerFrames`, `AssemblerInputs`, `PointBytes`, `Fallback`, `CounterFrames`, `CounterCuts`, `WindowGrid`, `GridCuts`, `OpenFrameGrid` |
| lvx2 files | `Lvx2Format`, `RecordingTime`, `Lvx2Writer`, `Recording`, `RecordingFrames`, `Lvx2Reader`, `Lvx2Layout`, `Lvx2RoundTrip`, `Lvx2AnyFile`, `Lvx2Player`, `RecordThenPlay`, `DeviceIdentities`, `CutPlayback`, `PlayAnyFile` |
| context registry | `Registry`, `RegistryProtocol`, `RegistrySafety`, `RegistryCalls`, `RegistryProgress` |
| device protocols | `CancelProtocol`, `ConnectionProtocol`, `ReplaySetup`, `HostAddresses`, `PushMerge`, `PushHistory`, `PushDatagrams`, `SettingsLoop` |
| shared | `Wrappers`, `Seqs`, `Division` |

## Properties that hold only under a condition

Each of these is proved as an if-and-only-if, with a concrete input where the plain claim fails.

- Time-window frames follow the grid floor((t - first) / window), in where they are cut together with
  where each packet leaves the window, exactly as long as each packet can still be expressed as a 32-bit
  offset from the first packet of the cell before it, or lies on a cell boundary. A longer gap restarts
  the window at the packet, off the grid; the frames show it at that packet or at some next one
  (`WindowGrid.CutsByTheGrid`, `GridCuts.GapsFitExactlyIfShown`, `GridCuts.LongGapLeavesTheGrid`).
- The 16-bit drop counter agrees with unbounded counting exactly within half its range and when no wrap
  to 0 falls on the first packet of a frame, which reads as the documented reset and hides the drops
  before it (`DropCounter.RunRefinesCounting`, `DropCounter.WrapAtFrameStartHidesDrops`).
- `remove()` also returns when the context is stopping. If it is stopped once the registry is empty but
  while a `remove()` still waits, that `remove()` can return with the receiver's callback in flight; it is
  safe exactly if the receive thread is neither in nor before a call of the receiver
  (`RegistrySafety.ReturnIsSafeExactly`, `RegistrySafety.StopReleasesARemoveEarly`).
- A reconnect event can be queued before the disconnect event it ends, because a disconnect clears the
  flag before it is queued. The events alternate exactly if no attempt overtakes such a thread
  (`ConnectionProtocol.EventsAlternateExactly`, `ConnectionProtocol.ReconnectMayComeFirst`).
- A reconnect restores the last value written to a key exactly if that value is decodable, although the
  LiDAR accepted it, or the setup began with it (`ReplaySetup.ReplayRestoresTheLastWrite`,
  `ReplaySetup.UndecodableWriteIsLost`).
- A FOV window the LiDAR accepted but that is outside the range checked by the host makes every later
  attempt fail (`ReplaySetup.RefusedExactly`, `ReplaySetup.OutOfRangeWriteBlocksReplay`).
- The recorder's 64-bit time line places every package where unbounded arithmetic would exactly if all
  positions are int64 nanoseconds, as they are in any recording of up to nine billion packages
  (`RecordingTime.TimeLineIsExact`, `RecordingTime.LongStepBackDoesNotFit`).
- A package moves the newest recording time ahead by more than 1 s exactly if its device steps back below
  that range and wraps past it (`RecordingTime.NewestTimeMovesSlowly`,
  `RecordingTime.LongStepBackJumpsAhead`).
- An lvx2 file with payloads under 4 GiB, cut or not, reads without an error exactly if it does not hold
  the header of a payload that is not a whole number of points; the writer does not check this
  (`Lvx2RoundTrip.CutFileReadsExactly`, `CutPlayback.OneBytePayloadDoesNotReadBack`).
- A key-value list survives encoding exactly if every value is shorter than 65536 bytes
  (`KeyValueList.RoundTrip`, `KeyValueList.LongZerosAreRefused`).
- An accepted command frame is the encoding of what it carries exactly if its reserved bytes are zero
  (`CommandFrame.AcceptedIsCanonical`, `CommandFrame.ReservedByteIsAccepted`).
- Every recording plays back to each device the frames of its own packets exactly if the devices'
  identifiers differ (`DeviceIdentities.KeptApartExactlyIfDistinct`, `DeviceIdentities.EqualIdentifiersMix`).

## Model

| member | source | states |
|---|---|---|
| `Bytes.ReadsWhatWasWritten` | include/livox/mid360/bytes.hpp:18-40 | reading a little-endian field back gives the value written, if it fits the field |
| `Bytes.WritesWhatWasRead` | include/livox/mid360/bytes.hpp:18-40 | every byte string is the encoding of its own value, so decoding is injective |
| `Bytes.WriteAt` | include/livox/mid360/bytes.hpp:30-40 | stores the low bytes lowest first at the offset and leaves every other byte of the buffer alone |
| `Crc.MakeTable16` | include/livox/mid360/crc.hpp:26-38 | entry i is byte i divided out of an empty register, bit by bit, by polynomial 0x1021 |
| `Crc.MakeTable32` | include/livox/mid360/crc.hpp:40-52 | entry i is byte i divided out bit by bit by the reflected polynomial of section 8 of RFC 1952 |
| `Crc.CcittFalse16` | include/livox/mid360/crc.hpp:60-68 | the table-driven loop computes the bit-by-bit CRC-16 of any data from any state |
| `Crc.Zlib32` | include/livox/mid360/crc.hpp:72-80 | the table-driven loop computes the bit-by-bit CRC-32 of any data, continuing from any previous final result |
| `Crc.TableStep16` | include/livox/mid360/crc.hpp:63-66 | one table look-up divides out exactly the eight bits of one byte (by linearity of the division) |
| `Crc.TableStep32` | include/livox/mid360/crc.hpp:76-78 | the same for the reflected CRC-32 |
| `Crc.Crc16Continues` | include/livox/mid360/crc.hpp:59-68 | passing the result as the state continues the CRC over any split |
| `Crc.Crc32Continues` | include/livox/mid360/crc.hpp:70-80 | passing the previous final result continues the CRC over any split |
| `Crc.Crc16SeesOneByte` | include/livox/mid360/crc.hpp:60-68 | any single changed byte changes the CRC-16 |
| `Crc.Crc32SeesOneByte` | include/livox/mid360/crc.hpp:72-80 | any single changed byte changes the CRC-32 |
| `CrcCheck.HeaderCheckValue` | include/livox/mid360/crc.hpp:26-68 | the header CRC of FF FF 01 is 0x1021: it starts from 0xFFFF and divides by 0x1021, highest bit first |
| `CrcCheck.PayloadCheckValue` | include/livox/mid360/crc.hpp:40-80 | the payload CRC of FF FF FF FF 80 is the inverse of 0xEDB88320: it starts from 0xFFFFFFFF, divides lowest bit first and is inverted; an empty payload has 0 |
| `CommandFrame.ParseInvertsEncode` | src/protocol.cpp:186-249 | parsing an encoded frame, whatever follows it in the datagram, returns the fields and payload encoded |
| `CommandFrame.AcceptedIsCanonical` | src/protocol.cpp:186-249 | an accepted frame re-encodes to its own first `length` bytes if and only if its reserved bytes are zero |
| `CommandFrame.ReservedByteIsAccepted` | src/protocol.cpp:186-249 | a frame with one reserved byte set is accepted and re-encodes to something else |
| `CommandFrame.OneChangedByteIsRejected` | src/protocol.cpp:186-220 | changing any single byte within the first `length` bytes of an accepted frame makes the parser reject it |
| `CommandFrame.AcceptsExactly` | src/protocol.cpp:186-220 | which datagrams are accepted, with a length of 24 to 1400 within the datagram and both CRCs right, and what is reported first of the others |
| `CommandFrame.EncodeInto` | src/protocol.cpp:222-249 | fills the buffer with the encoding, both CRCs included, touches nothing behind it, and leaves the whole buffer alone on each of the two errors |
| `KeyValueList.ParseList` | src/protocol.cpp:390-413 | the offset walk accepts exactly the buffers that are `keyNum` whole entries, with the two errors of the original |
| `KeyValueList.AppendList` | src/protocol.cpp:415-424 | appends the encoding of the entries, in order |
| `KeyValueList.AcceptedIsCanonical` | src/protocol.cpp:390-424 | any accepted buffer is exactly the re-encoding of its entries |
| `KeyValueList.RoundTrip` | src/protocol.cpp:390-424 | parsing an encoded list returns it if and only if every value fits the 16-bit length field |
| `KeyValueList.LongValueIsRefused` | src/protocol.cpp:415-424 | a value of 65536 bytes is written with a length of 0 and the list is then refused |
| `KeyValueList.LongZerosAreRefused` | src/protocol.cpp:415-424 | the same at one input, 65536 zero bytes under key 1 |
| `KeyValueList.InquireAckReadsBack` | src/protocol.cpp:494-509 | an encoded 0x0101 acknowledgement parses back to its code and values |
| `KeyValueList.InfoPushReadsBack` | src/protocol.cpp:511-522 | an encoded 0x0102 push, whatever its reserved bytes, parses back to its keys and values |
| `Keys.FovWritesBack` | src/keys.cpp:231-240 | encoding a decoded FOV window gives back its 20 bytes |
| `Keys.FovReadsBack` | src/keys.cpp:231-240 | decoding an encoded FOV window gives back the window |
| `Keys.SmallValuesWriteBack` | src/keys.cpp:356-474 | encoding undoes decoding for every decodable value of the one-byte and IMU sensor keys |
| `Keys.SignedReadsBack` | src/keys.cpp:282-293 | decoding an encoded signed number of any width gives it back |
| `Keys.DiagReadsBack` | src/keys.cpp:476-494 | decoding an encoded diagnosis gives back each of its four levels |
| `Keys.HmsReadsBack` | src/keys.cpp:496-507 | decoding eight encoded HMS codes gives them back in order |
| `Packets.SampleWithinSpan` | src/protocol.cpp:378-385 | no sample lies past its packet's span, and the last one lies at its end |
| `Packets.SamplesAreSpread` | src/protocol.cpp:378-385 | sample i of n lies i/(n-1) of the packet's span after its first one, rounded down to a nanosecond |
| `DropCounter.DropCounter.Observe` | src/frame_assembler.cpp:16-36 | the counter update and report for every counter value, frame change and state |
| `DropCounter.DropCounter.Reset` | src/frame_assembler.hpp:30 | the next packet is taken as the first; nothing else changes |
| `DropCounter.ObserveRefinesCounting` | src/frame_assembler.cpp:16-36 | drops, reorders and new state equal those of an unbounded counter if and only if the packet is within reach of the highest number |
| `DropCounter.RunRefinesCounting` | src/frame_assembler.cpp:16-36 | over every arrival sequence, the reports are those of the unbounded reference and the state is the highest number mod 2^16, after every packet, if and only if every packet is within reach |
| `DropCounter.PlainRangeIsWithinReach` | src/frame_assembler.cpp:24-32 | up to 0x8001 ahead or 0x7FFE behind without a reset is within reach |
| `DropCounter.WrapAtFrameStartHidesDrops` | src/frame_assembler.cpp:26-27 | a wrap to 0 in the packet that starts a frame hides two lost packets |
| `TimeMapper.TimeMapper.Map` | src/frame_assembler.cpp:41-62 | the mapped time and the new offset state under each of the three policies |
| `TimeMapper.TimeMapper.Reset` | src/frame_assembler.hpp:45-49 | the offset is measured anew at the next free-running packet |
| `TimeMapper.OffsetMeasuredOncePerStretch` | src/frame_assembler.cpp:51-61 | over any free-running stretch the output starts at the receive time and advances exactly as the LiDAR clock |
| `TimeMapper.EveryTimeFollows` | src/frame_assembler.cpp:41-62 | any packets through a new mapper: LiDAR time, receive time, or LiDAR time shifted by what the first packet of its free-running stretch measured, and unshifted while synchronised |
| `FrameAssembler.FrameAssembler.Push` | src/frame_assembler.cpp:156-249 | one call computes the specified new state and frame: ignored and late packets, drop report, fallback, closing rules, grid, points |
| `FrameAssembler.FrameAssembler.Join` | src/frame_assembler.cpp:179-248 | the second half of push: an accepted packet closes the open frame if it has to and joins a frame |
| `FrameAssembler.FrameAssembler.Start` | src/frame_assembler.cpp:229-239 | the first packet of a frame sets its base and its window, on the grid or anew |
| `FrameAssembler.FrameAssembler.Rebase` | src/frame_assembler.hpp:92-96 | time mapping and drop counting start over; frames and counters stay |
| `FrameAssembler.FrameAssembler.Append` | src/frame_assembler.cpp:251-266 | appends every point of the packet with its clamped offset and moves the end time to the latest sample |
| `FrameAssembler.FrameAssembler.Decide` | src/frame_assembler.cpp:197-224 | whether the packet closes the open frame and whether the window grid goes on |
| `FrameAssembler.FrameAssembler.Watch` | src/frame_assembler.cpp:179-192 | first-time bookkeeping and the fallback to the time window |
| `FrameAssembler.FrameAssembler.TakeFrame` | src/frame_assembler.cpp:130-138 | hands out the open frame with the next index and starts an empty one |
| `FrameAssembler.FrameAssembler.Flush` | src/frame_assembler.cpp:148-154 | hands out the open frame unless it is empty |
| `FrameAssembler.FrameAssembler.Discard` | src/frame_assembler.cpp:140-146 | drops the points of the open frame and takes them out of the counters |
| `FrameAssembler.FrameAssembler.SetPolicy` | src/frame_assembler.cpp:117-123 | changes the policy and forgets the fallback and what led to it |
| `AssemblerRuns.RunKeeps` | src/frame_assembler.cpp:112-266 | over every run of push, flush, discard, set_policy and rebase, the open frame, the counters and the delivered frames are determined by the accepted packets, cut into pieces |
| `AssemblerRuns.StepKeeps` | src/frame_assembler.cpp:117-266 | each operation keeps that invariant |
| `AssemblerRuns.PointsAreExact` | src/frame_assembler.cpp:251-266 | the 2^32-1 clamp never changes an offset of a packet within the offset range |
| `AssemblerFrames.PointsAreConserved` | src/frame_assembler.cpp:130-266 | over every run, delivered points followed by the open frame are, sample for sample and in order, those of the accepted packets that were not discarded, and the point and frame counters count them |
| `AssemblerFrames.EveryFrameIsExact` | src/frame_assembler.cpp:130-266 | frame k of any run has index k mod 2^32, is the frame of a non-empty group of accepted packets of one data type and one time type, has unclamped offsets, and its largest offset is end minus base |
| `PointBytes.BytesAreConserved` | src/frame_assembler.cpp:130-266 | over every run the delivered points and those of the open frame hold, byte for byte and in order, the payloads of the accepted packets that were not discarded |
| `PointBytes.EveryPointIsItsSample` | src/frame_assembler.cpp:251-266 | over every run the point of sample i of a packet in a frame has the payload bytes from i sample sizes on, line i mod 4, and as offset the sample's share of the packet's span |
| `PointBytes.SampleBytes` | src/protocol.cpp:309-323 | byte j of sample i is payload byte i * size + j |
| `AssemblerInputs.AcceptedAtItsTime` | src/frame_assembler.cpp:41-62 | over every run an accepted packet is placed at the time its timestamp policy gives it, counted from the last rebase |
| `AssemblerInputs.LossesAreCounted` | src/frame_assembler.cpp:160-172 | over every run with packet numbers within reach of 16 bits, the lost, late and type-switch counters are those of counting with the true numbers since the last rebase |
| `AssemblerInputs.LeftOutExactly` | src/frame_assembler.cpp:156-177 | in such a run a pushed packet is left out if and only if it has no points or, while the frame counter decides, it is late and of another frame than the last accepted packet |
| `AssemblerInputs.PolicyIsTheLast` | src/frame_assembler.cpp:112-123 | after every run the policy is the last one set |
| `AssemblerFrames.CounterFramesAreUniform` | src/frame_assembler.cpp:197-228 | a frame that only the frame counter decided about holds one frame counter value |
| `CounterFrames.OneCounterPerFrame` | src/frame_assembler.cpp:117-228 | over every run with any changes of policy, a delivered frame whose packets were all accepted under one frame-counter policy before it fell back holds packets of one frame counter value |
| `CounterCuts.CutsWhereTheCounterChanges` | src/frame_assembler.cpp:160-254 | over every run, while one frame-counter policy has not fallen back and nothing is flushed or discarded, the accepted packets are cut exactly where the frame counter changes or the next packet has another data or time type, steps back a window or exceeds the offset range |
| `CounterCuts.ConsecutiveCountersDiffer` | src/frame_assembler.cpp:193-254 | two consecutive frames delivered there have different frame counters, unless the next frame's type, time type, base or first span rules out one frame |
| `CounterFrames.UntimedInEpoch` | src/frame_assembler.cpp:117-192 | between two calls of set_policy, as long as a frame-counter policy has not fallen back, only the frame counter decides about packets |
| `Fallback.FallbackIsExact` | src/frame_assembler.cpp:179-192 | in every run the assembler has fallen back if and only if some packet since the policy was set found the counter unchanged for two windows after the earliest packet, and this is counted once per policy |
| `Fallback.FallbackStays` | src/frame_assembler.cpp:117-192 | no operation but set_policy takes the fallback back |
| `WindowGrid.CutsByTheGrid` | src/frame_assembler.cpp:197-239 | every push of a stream of one format with non-decreasing times cuts exactly if the cell floor((t - first) / window) changes and leaves the window at the start of the packet's cell, if and only if every gap fits |
| `WindowGrid.SmallGapsFit` | src/frame_assembler.cpp:197-239 | gaps of at most 2^32-1 ns less a window and the packet span always fit |
| `GridCuts.MisfitShows` | src/frame_assembler.cpp:218-239 | the first gap that does not fit, at least a window before 2^64 ns, shows in the frames: its packet is cut otherwise than the cells say, or a next packet would be, and for a window within the offset range one whose own gap fits |
| `GridCuts.GapsFitExactlyIfShown` | src/frame_assembler.cpp:197-239 | for a window within the offset range, in streams that end a window before 2^64 ns, every gap fits if and only if each packet was cut as the cells say and any next packet with a fitting gap would have been |
| `GridCuts.LongGapLeavesTheGrid` | src/frame_assembler.cpp:218-239 | three concrete packets with a gap of 5 s: the third is in cell 51 but is not cut from the second in cell 50 |
| `OpenFrameGrid.OpenFrameCutsByTheGrid` | src/frame_assembler.cpp:177-239 | from any open frame, also at the fallback of a frame-counter policy, the packets that follow are cut exactly at the cells counted from that frame's window start, with the window on the grid, if and only if every gap fits |
| `OpenFrameGrid.WindowStartsBeforeFrame` | src/frame_assembler.hpp:116 | after every run the window of an open frame starts no later than the frame |
| `Lvx2Format.DeviceReadsBack` | src/lvx2.cpp:241-257 | a device info block reads back as the device, its strings as 16 bytes hold them |
| `Lvx2Format.PlainStringIsKept` | src/lvx2.cpp:68-78 | a string of at most 16 bytes without a zero byte survives the fixed-size field |
| `Lvx2Format.StoredString` | src/lvx2.cpp:68-78 | any string is stored up to its first zero byte and up to the size of the field |
| `Lvx2Format.UnpaddedExactly` | src/lvx2.cpp:68-78 | a fixed-size field reads as what comes before its first zero byte |
| `RecordingTime.TimeLineIsExact` | src/lvx2.cpp:313-331 | for every mix of device clocks, jumps and wraps, the 64-bit arithmetic gives every package its position on an ideal time line without wrap if and only if all positions are int64 nanoseconds |
| `RecordingTime.ShortRecordingsFit` | src/lvx2.cpp:313-331 | any recording of fewer than 2^63 / 10^9 packages fits |
| `RecordingTime.NewestTimeMovesSlowly` | src/lvx2.cpp:318-325 | over every recording no package moves the newest time back, and one moves it ahead by more than 1 s if and only if its device steps back below the int64 range so that its time wraps past the newest; none does while all positions are int64 |
| `RecordingTime.LongStepBackDoesNotFit` | src/lvx2.cpp:324 | a recording that leaves the range: one clock stepping back a second per package, at its 9223372038th package and not before |
| `RecordingTime.LongStepBackJumpsAhead` | src/lvx2.cpp:318-325 | in that recording the 9223372038th package moves the newest time from 0 to 9223372036709551616 |
| `Lvx2Writer.Lvx2Writer.Open` | src/lvx2.cpp:215-272 | each refusal leaves the writer alone; otherwise the file holds exactly the header and device infos and all state is reset |
| `Lvx2Writer.Lvx2Writer.Describe` | src/lvx2.cpp:232-257 | the header and one device info per device, in order, with their identifiers |
| `Lvx2Writer.Lvx2Writer.Write` | src/lvx2.cpp:274-353 | errors, ignored IMU packets, conversion of spherical samples, and the package filed into the open or a new frame |
| `Lvx2Writer.Lvx2Writer.Convert` | src/lvx2.cpp:297-306 | every whole spherical sample converted, in order |
| `Lvx2Writer.Lvx2Writer.Add` | src/lvx2.cpp:313-352 | the package goes into the frame of its recording time; a later slot flushes the open frame first |
| `Lvx2Writer.Lvx2Writer.Place` | src/lvx2.cpp:320-331 | the recording time of a package and the clock state, with the 64-bit wrap of the original |
| `Lvx2Writer.Lvx2Writer.FlushFrame` | src/lvx2.cpp:179-202 | writes the open frame with its chained header and counts it; an empty one changes nothing |
| `Lvx2Writer.Lvx2Writer.Close` | src/lvx2.cpp:355-367 | flushes the open frame and closes |
| `Recording.FileHoldsThePackages` | src/lvx2.cpp:179-367 | over every write run the closed file is a well-formed frame chain that holds exactly the recorded packages, each once and in order, and the statistics count them |
| `Recording.RunKeeps` | src/lvx2.cpp:274-353 | the invariant of every write run: what is on disk, what is buffered, and how the open frame relates to the time line |
| `Recording.FramesMoveForward` | src/lvx2.cpp:313-341 | over every write run the open frame's slot is newest time / duration, slots strictly increase, each frame starts with a package of its slot and holds none of a later one |
| `Recording.RecordedTimesAreExact` | src/lvx2.cpp:313-331 | over every write run that fits so far, the newest time is the ideal one, and the time the next package is filed at is its ideal position if and only if that is an int64 |
| `Recording.RecordedNewestTimeMoves` | src/lvx2.cpp:313-331 | over every write run the next call moves the newest time ahead by more than 1 s if and only if it records a package that wraps past it |
| `RecordingTime.SlotHoldsTime` | src/lvx2.cpp:326-329 | a positive time t has the slot s with s * d <= t < (s + 1) * d, any other slot 0 |
| `RecordingFrames.FramesHoldTheirTimes` | src/lvx2.cpp:313-341 | over every write run each frame begins with a package within its multiple of the duration and holds none after it, the multiples increase strictly, and the newest time is in the last frame |
| `RecordingFrames.NewFrameExactly` | src/lvx2.cpp:330-352 | a recorded package begins a new frame if and only if it is the first or its time is not before the end of the last frame |
| `RecordingFrames.RecordedExactly` | src/lvx2.cpp:284-312 | every packet but an IMU packet is recorded, Cartesian points as they are, and sample i of a spherical one as the conversion of sample i |
| `RecordingFrames.EveryWriteIsCounted` | src/lvx2.cpp:274-353 | over every write run the statistics count the recorded and the ignored packets of the recording's devices |
| `RecordingFrames.WriteOutcome` | src/lvx2.cpp:274-296 | what each call returns: recorded, ignored, no such device, not open; a refused one changes nothing |
| `RecordingFrames.OpensExactly` | src/lvx2.cpp:215-272 | opening succeeds if and only if the writer is closed and there are 1 to 255 devices and a duration, whatever was recorded before |
| `Lvx2Reader.Lvx2Reader.Open` | src/lvx2.cpp:443-505 | which files are refused, and what duration, devices and first frame offset the others give |
| `Lvx2Reader.Lvx2Reader.LoadFrame` | src/lvx2.cpp:397-435 | the next frame body, the clean and the truncated end, and the two header errors |
| `Lvx2Reader.Lvx2Reader.NextPacket` | src/lvx2.cpp:511-567 | the loop returns the next package, the end of the file or the error that the recursive reading of the chain defines |
| `Lvx2RoundTrip.CutOpens` | src/lvx2.cpp:443-505 | a file cut at any byte opens if and only if its device block is whole, and then with its own duration and devices |
| `Lvx2RoundTrip.ReadsInside` | src/lvx2.cpp:511-567 | from any package of any frame of a cut file, whole points or not, the reading yields exactly the packages that are left before the first one that is not whole |
| `Lvx2RoundTrip.CutFileReadsExactly` | src/lvx2.cpp:397-567 | any file of the writer with payloads under 4 GiB, cut at any byte after the device block, yields in order exactly the packages that end before the cut and precede the first payload that is not whole points; it ends in an error if and only if the header of that one is before the cut, and is otherwise `truncated` if and only if the cut is not a frame boundary |
| `Lvx2RoundTrip.CutFileReadsWhatIsLeft` | src/lvx2.cpp:397-567 | a file of whole points cut at any byte after the device block yields exactly the packages that end before the cut, no error, and `truncated` if and only if the cut is not a frame boundary |
| `Lvx2RoundTrip.FileReadsBack` | src/lvx2.cpp:179-567 | an uncut file yields every package with all fields and a clean end if and only if all payloads are whole points; otherwise those before the first bad one and an error |
| `Lvx2AnyFile.AnyFileReads` | src/lvx2.cpp:397-567 | any file whatsoever that opens reads as the walk over its bytes by position does: the same packages, the same error, the same `truncated` |
| `Lvx2AnyFile.OpensExactly` | src/lvx2.cpp:443-505 | any file opens if and only if it has the writer's header, but for three bytes of the version, and its device infos |
| `Lvx2AnyFile.FixedBytes` | src/lvx2.cpp:232-240 | the fixed bytes of the header of a file |
| `Lvx2AnyFile.DevicesInOrder` | src/lvx2.cpp:485-500 | device k is read from the k-th 63 bytes of the device block |
| `CutPlayback.OneBytePayloadDoesNotReadBack` | src/lvx2.cpp:274-567 | the writer records a packet with one byte of data, and the reader refuses the file at that package |
| `Lvx2Player.Run` | src/lvx2.cpp:622-771 | one pass delivers what playing the packages one by one delivers, with the refusals for unlisted and several devices; on a read error the result holds what was delivered before it |
| `Lvx2Player.DotsFit` | src/lvx2.cpp:127-141 | the 16-bit point count of a replayed package never reaches past its payload |
| `RecordThenPlay.DevicesDoNotMix` | src/lvx2.cpp:661-751 | each played device's frames are those of an assembler of its own on its packages |
| `RecordThenPlay.RecordThenPlay` | src/lvx2.cpp:274-771 | recording any interleaved packets of up to 255 LiDARs and playing the file gives, per device, exactly the frames of one assembler on its packets with time interval 0 and spherical samples converted |
| `RecordThenPlay.DistinctDevicesRecordThenPlay` | src/lvx2.cpp:274-771 | with differing identifiers each device's frames are exactly those of one assembler on the packets captured from it |
| `RecordThenPlay.RecordThenPlayOne` | src/lvx2.cpp:622-771 | playing one of several recorded LiDARs by its identifier gives exactly the frames of an assembler on the packets captured from it |
| `CutPlayback.AnyCutPlays` | src/lvx2.cpp:397-771 | playing any file of the writer with payloads under 4 GiB, cut at any byte after the device block gives each device the frames of its packages that are left; the run fails, without the open frames, if and only if the header of a payload that is not whole points is left |
| `CutPlayback.CutRecordingPlays` | src/lvx2.cpp:274-771 | playing a recording cut at any byte after the device block gives each device exactly the frames of the captures up to the last package that ends before the cut |
| `CutPlayback.DeliveredBeforeError` | src/lvx2.cpp:717-751 | a pass that ends in an error has delivered exactly the frames each device's assembler had closed by then |
| `PlayAnyFile.AnyFilePlays` | src/lvx2.cpp:622-771 | playing any file at all is not opened, refused, or delivers to each device the frames of an assembler of its own on the packages that go to it, up to the error or the end |
| `PlayAnyFile.PackageGoesTo` | src/lvx2.cpp:661-684 | a file of at most one device plays every package, one of several each as the first device with its identifier, and a chosen device only its own |
| `PlayAnyFile.EveryPackageIsCounted` | src/lvx2.cpp:677-716 | each package to several devices is played by one of them or, if and only if none has its identifier, counted as unlisted |
| `RecordThenPlay.StatisticsAreExact` | src/lvx2.cpp:687-770 | each device's statistics count its packages, frames, points and drops |
| `RecordThenPlay.NothingGoesAstray` | src/lvx2.cpp:677-751 | playing a recording counts no unlisted package |
| `RecordThenPlay.PlayedAsItself` | src/lvx2.cpp:677-684 | every device's packages are played as that device if and only if the identifiers differ |
| `DeviceIdentities.KeptApartExactlyIfDistinct` | src/lvx2.cpp:274-771 | every recording below the file limit plays back to every device exactly the frames of the packets captured from it, if and only if the identifiers differ |
| `DeviceIdentities.EqualIdentifiersMix` | src/lvx2.cpp:677-684 | of any two devices with one identifier the second loses a single captured point: playing delivers no frame for it, its own assembler one |
| `RecordThenPlay.DistinctDevicesPlayTheirOwn` | src/lvx2.cpp:677-684 | with differing identifiers the packets of a device are exactly those captured from it |
| `Registry.ContextRegistry.Add` | src/context.cpp:41-55 | adds the entry and bumps the generation unless the address or serial is taken |
| `Registry.ContextRegistry.Bind` | src/context.cpp:57-65 | sets the device of every entry of the receiver and no generation |
| `Registry.ContextRegistry.Rekey` | src/context.cpp:67-85 | moves the receiver's first entry unless another holds the address; true if it ends there |
| `Registry.ContextRegistry.Erase` | src/context.cpp:87-95 | removes every entry of the receiver and returns the generation to wait for |
| `Registry.ContextRegistry.Refresh` | src/context.cpp:106-115 | takes a new snapshot exactly if the generation moved |
| `Registry.ContextRegistry.Dispatch` | src/context.cpp:179-197 | every datagram is handed to the receiver of its source or counted as unknown |
| `Registry.AfterAdd` | src/context.cpp:41-55 | adding keeps addresses and serials unique and brings in no other receiver |
| `Registry.AfterRekey` | src/context.cpp:67-85 | moving an entry keeps addresses and serials unique and every receiver |
| `Registry.AfterErase` | src/context.cpp:87-91 | exactly the other receivers' entries remain |
| `Registry.ReceiverOf` | src/context.cpp:187-196 | among unique entries the receiver of a source is the one entry of that address |
| `RegistryCalls.AddRoutes` | src/context.cpp:41-55 | add() succeeds if and only if address and serial are new, and then leads exactly that address to the receiver |
| `RegistryCalls.RekeyRoutes` | src/context.cpp:67-85 | rekey() of a registered receiver to a free address leads that address to it and its former one nowhere; otherwise nothing changes |
| `RegistryCalls.EraseRoutes` | src/context.cpp:87-91 | remove() leads the receiver's addresses nowhere and all others where they led |
| `RegistryCalls.CallsAreRouted` | src/context.cpp:187-196 | every datagram of a known source makes one call, in order, of the receiver registered for it |
| `RegistryCalls.BatchMakesItsCalls` | src/context.cpp:179-197 | in any interleaving the calls made for a batch, followed by those still to come, are the calls of the batch in the snapshot |
| `RegistryCalls.TimersAreCalled` | src/context.cpp:117-135 | in any interleaving a pass over the timers calls every entry of the snapshot, in order |
| `RegistryProgress.RemoveCanReturn` | src/context.cpp:87-115 | from every reachable state steps of the receive thread alone let any waiting `remove()` return |
| `RegistryProtocol.RunKeeps` | src/context.cpp:41-207 | the invariant of the registry protocol over every interleaving |
| `RegistrySafety.SeenIsQuiet` | src/context_impl.hpp:76-83 | once the receive thread has observed the generation of a removal it is in no call of the receiver and before none |
| `RegistrySafety.NeverCalledAgain` | src/context.cpp:97-207 | a removed receiver that is not about to be called stays so in every continuation that does not add it again |
| `RegistrySafety.CallComes` | src/context.cpp:117-197 | a call the receive thread is about to make does come, by its own steps alone |
| `RegistrySafety.EveryInterleaving` | src/context.cpp:41-207 | addresses and serials stay unique, the snapshot is the registry at one generation, every batch is dispatched from a generation no older than its receipt, and datagrams = delivered + unknown + outstanding |
| `RegistrySafety.RemovedIsNeverCalled` | src/context.cpp:87-207 | in every interleaving with an orderly stop, a receiver whose `remove()` returned is in no callback and about to get none until it is added again |
| `RegistrySafety.ReturnIsSafeExactly` | src/context.cpp:87-207 | without any rule for stopping, a returning `remove()` leaves a callback possible if and only if the receive thread is in or before one, and only because of the stop |
| `RegistrySafety.StopReleasesARemoveEarly` | src/context.cpp:87-95 | an interleaving in which a stop with an empty registry lets `remove()` return with the callback in flight |
| `RegistryProgress.ReceivedIsDispatched` | src/context.cpp:167-186 | a received batch is dispatched as a whole, with the registry as it is then |
| `RegistryProgress.ThreadCanExit` | src/context.cpp:117-207 | once the Context is stopped the receive thread gets to its end by its own steps |
| `RegistryProgress.UserOperations` | src/context.cpp:41-95 | each operation of a user thread changes the registry as its function says, and a removal is published with its waiter |
| `CancelProtocol.FlagsAgreeWhenFree` | src/device.cpp:886-898 | in every interleaving the two flags agree whenever conn_mutex is free and no command is between consuming and settling, and whichever socket the command polls next aborts it if and only if a cancel began since the last settlement |
| `CancelProtocol.OneCancelOneAbort` | src/device.cpp:1776-1782 | in every interleaving each abort has a cancel of its own, begun after the abort before it was settled |
| `CancelProtocol.StepKeeps` | src/device.cpp:603-1005 | every step of cancel, poll, swap and settlement keeps the flag invariant |
| `CancelProtocol.UnsettledFlagStays` | src/device.cpp:886-898 | without the settlement the second flag of the same cancel would stay up |
| `CancelProtocol.PollsExactly` | src/session.cpp:409-441 | in every interleaving a poll aborts the command if and only if a cancel is pending or the device stops |
| `CancelProtocol.CancelRaisesBoth` | src/device.cpp:1776-1782 | a cancel that gets the mutex leaves both flags up |
| `CancelProtocol.SwapKeepsTheFlags` | src/device.cpp:998-1005 | in the middle of a command the session can be replaced by one whose flag is down, and both flags end as they were |
| `CancelProtocol.SettlementClears` | src/device.cpp:886-898 | the settlement leaves no cancel pending and lets the next command begin |
| `CancelProtocol.EndLeavesTheRest` | src/device.cpp:603-640 | a command that ends by itself leaves a pending cancel for the next one |
| `ConnectionProtocol.QuiescentCounts` | src/device.cpp:857-1049 | in every interleaving, when nothing is under way, disconnects minus reconnects is 0 or 1 by the flag, and as many events of each kind were queued |
| `ConnectionProtocol.EventsAlternateExactly` | src/device.cpp:857-1049 | in every interleaving the events alternate if and only if no attempt queued its reconnect while a disconnect was still on its way |
| `ConnectionProtocol.ReconnectMayComeFirst` | src/device.cpp:859-884 | an interleaving that queues the reconnect before the disconnect |
| `ConnectionProtocol.CanAlwaysRecover` | src/device.cpp:857-1049 | from every reachable state the device can be up again with nothing under way and every event delivered |
| `ConnectionProtocol.FailedAttemptChangesNothing` | src/device.cpp:1000-1049 | an attempt that fails leaves the accounting as it was |
| `ReplaySetup.SetupStore.Absorb` | src/device.cpp:790-848 | folds the values in order |
| `ReplaySetup.AbsorbedOwn` | src/device.cpp:790-848 | folding a decodable write makes the replay of its key exactly the bytes written; an undecodable one changes nothing |
| `ReplaySetup.AbsorbedOther` | src/device.cpp:790-848 | folding a write leaves the replay of every other key alone |
| `ReplaySetup.FieldOfHistory` | src/device.cpp:790-848 | after any history of writes, what is replayed for each of the nine keys is the last decodable value written, else the initial one |
| `ReplaySetup.HostSetupKeyValues` | src/config.cpp:44-90 | the views into the shared storage are the encoded values of the setup, in request order |
| `ReplaySetup.KeyValueBuilder.Put` | src/config.cpp:49-53 | one more value in the storage, earlier ones unchanged |
| `ReplaySetup.PutFov` | src/config.cpp:63-73 | the FOV keys that are present, in order |
| `ReplaySetup.AttemptConfigures` | src/config.cpp:92-110 | a successful request leaves each replayed key at the setup's value and the keys it lacks as they were |
| `ReplaySetup.KeyValueBuilder.Views` | src/config.cpp:83-89 | each view is the slice of the storage that was put for its key |
| `ReplaySetup.ReplayRestoresTheLastWrite` | src/device.cpp:790-1013 | for any setup and history, after any loss of LiDAR settings, an acknowledged attempt restores the last written value of a key if and only if it is not refused and that value is decodable, or nothing decodable was written and the setup began with it |
| `ReplaySetup.UndecodableWriteIsLost` | src/device.cpp:790-1013 | a scan pattern of 9 that was accepted is not restored |
| `ReplaySetup.RefusedExactly` | src/config.cpp:92-104 | an attempt is refused without a request if and only if there is no host address or a replayed FOV window is out of range |
| `ReplaySetup.OutOfRangeWriteBlocksReplay` | src/config.cpp:92-104 | after an accepted window up to 400 degrees the attempt fails |
| `HostAddresses.AttemptSetsTheHosts` | src/config.cpp:54-57 | after every acknowledged attempt the values under 0x0005, 0x0006 and 0x0007 read back as the host's address, the setup's push, point and IMU port, and 56200, 56300 and 56400 |
| `HostAddresses.ReplaySetsTheHosts` | src/device.cpp:1000-1013 | so they do after any history of writes, with the ports the setup began with |
| `HostAddresses.AttemptLeavesOtherKeys` | src/config.cpp:44-90 | an attempt writes no key but the three hosts and the replayed nine |
| `HostAddresses.EveryAttemptEnds` | src/config.cpp:92-110 | for every setup and history an attempt names the missing address, the first window out of range, reports that it was not accepted, or succeeds |
| `PushMerge.PushMerger.OnPush` | src/device.cpp:310-416 | one datagram moves the merged status, the baselines, the events and the counters as specified |
| `PushMerge.PushMerger.Merge` | src/device.cpp:331-394 | merge, change detection and baselines of one accepted push |
| `PushMerge.SortedTellsMultisets` | src/device.cpp:361-367 | sorted codes are equal if and only if the multisets of codes are |
| `PushHistory.StatusIsTheLatest` | src/device.cpp:243-416 | after any datagrams each of the ten status fields is the latest decodable value ever pushed |
| `PushHistory.StateEventsChain` | src/device.cpp:337-360 | state events form an unbroken chain of real changes from the first state pushed to the latest |
| `PushHistory.DiagEventsChain` | src/device.cpp:381-391 | diagnosis events form an unbroken chain of real changes from normal to the latest |
| `PushHistory.HmsEventsExactly` | src/device.cpp:361-380 | a push raises an HMS event if and only if the multiset of the eight raw codes changed, and the event carries the codes of that push |
| `PushDatagrams.DatagramCarriesItsValues` | src/device.cpp:310-321 | a command frame around any values is a push with exactly those values if its command is 0x0102, and none otherwise |
| `PushDatagrams.PushedStatusArrives` | src/device.cpp:243-416 | the datagram of any status in range is counted as a push, and each field it has is the merged status's from then on, the others stay |
| `PushDatagrams.EveryDatagramIsCounted` | src/device.cpp:310-321 | every datagram is counted once, as a push or as a bad packet |
| `SettingsLoop.Settings` | src/device.cpp:1414-1436 | the loop ends after at most 17 inquires against any LiDAR and network, with the specified result |
| `SettingsLoop.Rounds` | src/device.cpp:1421-1435 | the rounds end after at most one inquire more than there are keys, whatever the answers |
| `SettingsLoop.Exchange` | src/session.cpp:679-703 | a LiDAR that omits or blanks unsupported keys is answered with the first unsupported key as the error key, or with all values |
| `SettingsLoop.SupportedKeysRemain` | src/device.cpp:1414-1436 | for any supported set and any distinct keys: no supported key is dropped, one inquire per unsupported key plus one, and the answer is for exactly the supported keys |
| `SettingsLoop.SettingsAreTheSupportedOnes` | src/device.cpp:1414-1436 | each settings key is found with the LiDAR's own value if and only if it is supported |
| `SettingsLoop.OtherAnswersEnd` | src/session.cpp:679-703 | no answer, one that does not parse, or another return code ends the loop with that error |
| `SettingsLoop.UnclearRejection` | src/session.cpp:679-703 | "not supported" with an answer to every key names the first key of the answer |

## Left out

- Sockets, the poller, discovery and real clocks: received datagrams, replies and times are inputs.
- Conversion of points to metres and of spherical samples to Cartesian ones: a point carries the raw
  sample and its data type, and the lvx2 writer takes the conversion as a function of 10 bytes to 14.
- Times in the assembler are unbounded: sums of a mapped time with a window or a span are assumed not to
  wrap at 2^64.
- Lvx2Writer.Lvx2Writer.Write: does not model I/O errors, nor a data type outside the four of the enumeration,
  which the packet parser refuses before.
- I/O errors and allocation failures of the lvx2 reader.
- Lvx2Player.Run: does not model pacing, looping over the file, the stop token and the sums of the statistics
  over the devices; the assemblers of the played devices are values in one sequence, not objects.
- The log and debug datagram counters of the context, and the order in which its sockets are drained: the
  receive thread may receive any batch next.
- The bodies of Session requests, retries and acknowledgement matching: the cancel protocol sees a request
  as any number of polls of its flag.
- Device destruction, the reconnect worker's timing, the reboot hand-over and the idle-close deadline.
- The work mode in a replayed setup, which is cleared when the device is opened (src/device.cpp:1279).
- Field decoders of the settings beyond the replayed keys; settings are compared as the bytes found under a key.
- HMS levels and names, text output, the command-line tools, the viewer and the firmware-log payloads: they
  would only add easy members.
