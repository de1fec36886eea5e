/**
  Control command frames (src/protocol.cpp): a 24-byte header with a CRC-16 over its first 18
  bytes and a CRC-32 over the payload that follows it.
*/
module CommandFrame {
  import opened Bits
  import opened Bytes
  import opened Crc
  import opened Folding
  import opened Wrappers

  const HEADER_SIZE := 24
  const FRAME_MAX_SIZE := 1400
  const DATA_MAX_SIZE := FRAME_MAX_SIZE - HEADER_SIZE
  const SOF: Byte := 0xAA
  const VERSION: Byte := 0

  datatype ParseError =
    | TooShort | BadSof | BadVersion | LengthMismatch | BadCrc16 | BadCrc32
    | Truncated | KeyNumMismatch

  datatype EncodeError = DataTooLarge | BufferTooSmall

  datatype Header = Header(
    length: nat, seqNum: nat, cmdId: nat, cmdType: Byte, senderType: Byte,
    resv: seq<Byte>, crc16: nat, crc32: nat)

  datatype View = View(header: Header, data: seq<Byte>)

  datatype Spec = Spec(seqNum: U32, cmdId: U16, cmdType: Byte, senderType: Byte, data: seq<Byte>)

  function HeaderCrc(head: seq<Byte>): (v: nat) {
    ToNat(Crc16(head, Ones(16)))
  }

  /** The CRC of an empty payload is not computed: the field is zero. */
  function DataCrc(data: seq<Byte>): (v: nat) {
    if data == [] then 0 else ToNat(Crc32(data, Zeros(32)))
  }

  lemma CrcBounds(head: seq<Byte>, data: seq<Byte>)
    ensures HeaderCrc(head) < Range(2)
    ensures DataCrc(data) < Range(4)
  {
    ToNatBound(Crc16(head, Ones(16)));
    ToNatBound(Crc32(data, Zeros(32)));
    Ranges();
    Powers();
  }

  // ---------------------------------------------------------------------------
  // Parsing
  // ---------------------------------------------------------------------------

  function ReadHeader(frame: seq<Byte>): (h: Header)
    requires |frame| >= HEADER_SIZE
  {
    Header(
      ReadAt(frame, 2, 2), ReadAt(frame, 4, 4), ReadAt(frame, 8, 2), frame[10], frame[11],
      frame[12..18], ReadAt(frame, 18, 2), ReadAt(frame, 20, 4))
  }

  /** parse_command_frame. */
  function Parse(frame: seq<Byte>): (r: Result<View, ParseError>) {
    if |frame| < HEADER_SIZE then Err(TooShort)
    else if frame[0] != SOF then Err(BadSof)
    else if frame[1] != VERSION then Err(BadVersion)
    else
      var h := ReadHeader(frame);
      if h.length < HEADER_SIZE || h.length > FRAME_MAX_SIZE || h.length > |frame| then Err(LengthMismatch)
      else if HeaderCrc(frame[..18]) != h.crc16 then Err(BadCrc16)
      else
        var data := frame[HEADER_SIZE..h.length];
        if DataCrc(data) != h.crc32 then Err(BadCrc32)
        else Ok(View(h, data))
  }

  /** Which datagrams are accepted, and for the others what is wrong first. */
  lemma AcceptsExactly(frame: seq<Byte>)
    ensures |frame| < 24 ==> Parse(frame) == Err(TooShort)
    ensures |frame| >= 24 ==>
              var len := ReadAt(frame, 2, 2);
              var fits := 24 <= len <= 1400 && len <= |frame|;
              && (Parse(frame) == Err(BadSof) <==> frame[0] != 0xAA)
              && (Parse(frame) == Err(BadVersion) <==> frame[0] == 0xAA && frame[1] != 0)
              && (Parse(frame) == Err(LengthMismatch) <==> frame[0] == 0xAA && frame[1] == 0 && !fits)
              && (Parse(frame) == Err(BadCrc16) <==>
                    frame[0] == 0xAA && frame[1] == 0 && fits && HeaderCrc(frame[..18]) != ReadAt(frame, 18, 2))
              && (Parse(frame).Ok? <==>
                    && frame[0] == 0xAA && frame[1] == 0 && fits && HeaderCrc(frame[..18]) == ReadAt(frame, 18, 2)
                    && DataCrc(frame[24..len]) == ReadAt(frame, 20, 4))
  {
    hide HeaderCrc, DataCrc, Value;
  }

  // ---------------------------------------------------------------------------
  // Encoding
  // ---------------------------------------------------------------------------

  /** The 18 bytes the header CRC covers. */
  function Head(spec: Spec): (s: seq<Byte>)
    ensures |s| == 18
  {
    [SOF, VERSION] + LittleEndian(HEADER_SIZE + |spec.data|, 2) + LittleEndian(spec.seqNum, 4)
    + LittleEndian(spec.cmdId, 2) + [spec.cmdType, spec.senderType] + [0, 0, 0, 0, 0, 0]
  }

  /** The whole frame on the wire. */
  function Encoded(spec: Spec): (s: seq<Byte>)
    ensures |s| == HEADER_SIZE + |spec.data|
  {
    Head(spec) + LittleEndian(HeaderCrc(Head(spec)), 2) + LittleEndian(DataCrc(spec.data), 4) + spec.data
  }

  lemma HeadFields(spec: Spec)
    requires |spec.data| <= DATA_MAX_SIZE
    ensures ReadAt(Head(spec), 2, 2) == HEADER_SIZE + |spec.data|
    ensures ReadAt(Head(spec), 4, 4) == spec.seqNum
    ensures ReadAt(Head(spec), 8, 2) == spec.cmdId
    ensures Head(spec)[12..18] == [0, 0, 0, 0, 0, 0]
  {
    Ranges();
    var s := Head(spec);
    assert s[2..4] == LittleEndian(HEADER_SIZE + |spec.data|, 2);
    ReadsWhatWasWritten(HEADER_SIZE + |spec.data|, 2);
    assert s[4..8] == LittleEndian(spec.seqNum, 4);
    ReadsWhatWasWritten(spec.seqNum, 4);
    assert s[8..10] == LittleEndian(spec.cmdId, 2);
    ReadsWhatWasWritten(spec.cmdId, 2);
  }

  /** What the header of an encoded frame reads back as. */
  function HeaderOf(spec: Spec): (h: Header) {
    Header(
      HEADER_SIZE + |spec.data|, spec.seqNum, spec.cmdId, spec.cmdType, spec.senderType,
      [0, 0, 0, 0, 0, 0], HeaderCrc(Head(spec)), DataCrc(spec.data))
  }

  /**
    Parsing an encoded frame gives back what was encoded, also when the datagram holds more
    bytes than the frame.
  */
  lemma ParseInvertsEncode(spec: Spec, trailing: seq<Byte>)
    requires |spec.data| <= DATA_MAX_SIZE
    ensures Parse(Encoded(spec) + trailing) == Ok(View(HeaderOf(spec), spec.data))
  {
    hide HeaderCrc, DataCrc, LittleEndian, Range, Value;
    var head, frame := Head(spec), Encoded(spec) + trailing;
    CrcBounds(head, spec.data);
    HeadFields(spec);
    assert frame[..18] == head;
    assert frame[2..4] == head[2..4] && frame[4..8] == head[4..8] && frame[8..10] == head[8..10];
    assert frame[12..18] == head[12..18];
    assert frame[18..20] == LittleEndian(HeaderCrc(head), 2);
    ReadsWhatWasWritten(HeaderCrc(head), 2);
    assert frame[20..24] == LittleEndian(DataCrc(spec.data), 4);
    ReadsWhatWasWritten(DataCrc(spec.data), 4);
    assert ReadHeader(frame) == HeaderOf(spec);
    assert frame[HEADER_SIZE..HEADER_SIZE + |spec.data|] == spec.data;
  }

  /** The frame a parsed view describes. */
  function SpecOf(v: View): (spec: Spec)
    requires v.header.seqNum < 0x1_0000_0000 && v.header.cmdId < 0x1_0000
  {
    Spec(v.header.seqNum, v.header.cmdId, v.header.cmdType, v.header.senderType, v.data)
  }

  lemma ParsedFieldBounds(frame: seq<Byte>)
    requires Parse(frame).Ok?
    ensures Parse(frame).value.header.seqNum < 0x1_0000_0000
    ensures Parse(frame).value.header.cmdId < 0x1_0000
  {
    Ranges();
    ReadBound(frame, 4, 4);
    ReadBound(frame, 8, 2);
  }

  lemma HeadOfParsed(frame: seq<Byte>)
    requires Parse(frame).Ok?
    requires Parse(frame).value.header.resv == [0, 0, 0, 0, 0, 0]
    ensures (ParsedFieldBounds(frame); Head(SpecOf(Parse(frame).value)) == frame[..18])
  {
    hide HeaderCrc, DataCrc, LittleEndian;
    ParsedFieldBounds(frame);
    WritesWhatWasRead(frame[2..4]);
    WritesWhatWasRead(frame[4..8]);
    WritesWhatWasRead(frame[8..10]);
    assert frame[..18] ==
      [frame[0], frame[1]] + frame[2..4] + frame[4..8] + frame[8..10] + [frame[10], frame[11]] + frame[12..18];
  }

  /**
    An accepted frame is the encoding of what it carries, byte for byte, exactly when its
    reserved bytes are zero.
  */
  lemma AcceptedIsCanonical(frame: seq<Byte>)
    requires Parse(frame).Ok?
    ensures (ParsedFieldBounds(frame);
             var v := Parse(frame).value;
             Encoded(SpecOf(v)) == frame[..v.header.length] <==> v.header.resv == [0, 0, 0, 0, 0, 0])
  {
    hide HeaderCrc, DataCrc, LittleEndian, Value;
    ParsedFieldBounds(frame);
    var v := Parse(frame).value;
    var spec := SpecOf(v);
    if v.header.resv == [0, 0, 0, 0, 0, 0] {
      HeadOfParsed(frame);
      WritesWhatWasRead(frame[18..20]);
      WritesWhatWasRead(frame[20..24]);
      assert frame[..v.header.length] == frame[..18] + frame[18..20] + frame[20..24] + v.data;
    }
    if Encoded(spec) == frame[..v.header.length] {
      assert Encoded(spec)[..18] == Head(spec);
      assert frame[..v.header.length][..18] == frame[..18];
      HeadFields(spec);
      assert frame[12..18] == frame[..18][12..18];
    }
  }

  /** The signed part of a header without payload whose last reserved byte is 1. */
  const RESERVED_HEAD: seq<Byte> := [SOF, VERSION, 24, 0, 7, 0, 0, 0, 1, 1, 0, 0, 0, 0, 0, 0, 0, 1]

  /** Such a frame with the right checksums is accepted, but is not the encoding of what it carries. */
  lemma ReservedByteIsAccepted()
    ensures var frame := RESERVED_HEAD + LittleEndian(HeaderCrc(RESERVED_HEAD), 2) + [0, 0, 0, 0];
            && Parse(frame).Ok?
            && (ParsedFieldBounds(frame); Encoded(SpecOf(Parse(frame).value)) != frame)
  {
    hide HeaderCrc, LittleEndian;
    var frame := RESERVED_HEAD + LittleEndian(HeaderCrc(RESERVED_HEAD), 2) + [0, 0, 0, 0];
    CrcBounds(RESERVED_HEAD, []);
    assert frame[..18] == RESERVED_HEAD;
    assert frame[2..4] == [24, 0] && frame[20..24] == [0, 0, 0, 0];
    SmallValues();
    assert frame[18..20] == LittleEndian(HeaderCrc(RESERVED_HEAD), 2);
    ReadsWhatWasWritten(HeaderCrc(RESERVED_HEAD), 2);
    assert frame[HEADER_SIZE..24] == [];
    assert frame[12..18] == [0, 0, 0, 0, 0, 1];
    assert Parse(frame).Ok?;
    AcceptedIsCanonical(frame);
    assert frame[..24] == frame;
  }

  lemma SmallValues()
    ensures Value([24, 0]) == 24 && Value([0, 0, 0, 0]) == 0
  {
    assert [24, 0][1..] == [0] && [0][1..] == [];
    assert [0, 0, 0, 0][1..] == [0, 0, 0] && [0, 0, 0][1..] == [0, 0] && [0, 0][1..] == [0];
    assert Value([0]) == 0 && Value([0, 0]) == 0 && Value([0, 0, 0]) == 0;
  }

  // ---------------------------------------------------------------------------
  // Corruption
  // ---------------------------------------------------------------------------

  lemma SlicesDifferAt(f: seq<Byte>, g: seq<Byte>, at: nat, lo: nat, hi: nat)
    requires DifferAt(f, g, at)
    requires lo <= at < hi <= |f|
    ensures DifferAt(f[lo..hi], g[lo..hi], at - lo)
  {
    var a, b := f[lo..hi], g[lo..hi];
    assert a[..at - lo] == f[..at][lo..] && b[..at - lo] == g[..at][lo..];
    assert a[at - lo + 1..] == f[at + 1..][..hi - at - 1] && b[at - lo + 1..] == g[at + 1..][..hi - at - 1];
  }

  lemma SlicesAgree(f: seq<Byte>, g: seq<Byte>, at: nat, lo: nat, hi: nat)
    requires DifferAt(f, g, at)
    requires lo <= hi <= |f|
    requires hi <= at || at < lo
    ensures f[lo..hi] == g[lo..hi]
  {
    forall k | lo <= k < hi ensures f[k] == g[k] {
      if k < at {
        assert f[k] == f[..at][k] && g[k] == g[..at][k];
      } else {
        assert f[k] == f[at + 1..][k - at - 1] && g[k] == g[at + 1..][k - at - 1];
      }
    }
  }

  lemma FieldsDiffer(f: seq<Byte>, g: seq<Byte>, at: nat, lo: nat, n: nat)
    requires DifferAt(f, g, at)
    requires lo <= at < lo + n <= |f|
    ensures ReadAt(f, lo, n) != ReadAt(g, lo, n)
  {
    var a, b := f[lo..lo + n], g[lo..lo + n];
    assert a[at - lo] != b[at - lo];
    WritesWhatWasRead(a);
    WritesWhatWasRead(b);
  }

  /** Any single changed byte within the first `length` bytes of an accepted frame is detected. */
  lemma OneChangedByteIsRejected(f: seq<Byte>, g: seq<Byte>, at: nat)
    requires Parse(f).Ok?
    requires DifferAt(f, g, at)
    requires at < Parse(f).value.header.length
    ensures Parse(g).Err?
  {
    var h := Parse(f).value.header;
    if at < 18 {
      SlicesDifferAt(f, g, at, 0, 18);
      assert f[0..18] == f[..18] && g[0..18] == g[..18];
      Crc16SeesOneByte(f[..18], g[..18], at, Ones(16));
      SlicesAgree(f, g, at, 18, 20);
    } else {
      SlicesAgree(f, g, at, 0, 18);
      assert f[..18] == g[..18] by { assert f[0..18] == f[..18] && g[0..18] == g[..18]; }
      assert f[2..4] == f[..18][2..4] && g[2..4] == g[..18][2..4];
      if at < 20 {
        FieldsDiffer(f, g, at, 18, 2);
      } else {
        SlicesAgree(f, g, at, 18, 20);
        if at < HEADER_SIZE {
          FieldsDiffer(f, g, at, 20, 4);
          SlicesAgree(f, g, at, HEADER_SIZE, h.length);
        } else {
          SlicesAgree(f, g, at, 20, 24);
          SlicesDifferAt(f, g, at, HEADER_SIZE, h.length);
          Crc32SeesOneByte(f[HEADER_SIZE..h.length], g[HEADER_SIZE..h.length], at - HEADER_SIZE, Zeros(32));
        }
      }
    }
  }

  // ---------------------------------------------------------------------------
  // The encoder, in place
  // ---------------------------------------------------------------------------

  /**
    encode_command_frame: fills the first bytes of `out` and leaves the rest alone; a frame that
    cannot be written leaves the whole buffer alone.
  */
  method EncodeInto(out: array<Byte>, spec: Spec, table16: seq<Word16>, table32: seq<Word32>)
    returns (r: Result<nat, EncodeError>)
    requires IsTable16(table16) && IsTable32(table32)
    modifies out
    ensures |spec.data| > DATA_MAX_SIZE ==> r == Err(DataTooLarge) && out[..] == old(out[..])
    ensures |spec.data| <= DATA_MAX_SIZE && out.Length < HEADER_SIZE + |spec.data| ==>
              r == Err(BufferTooSmall) && out[..] == old(out[..])
    ensures |spec.data| <= DATA_MAX_SIZE && HEADER_SIZE + |spec.data| <= out.Length ==>
              && r == Ok(HEADER_SIZE + |spec.data|)
              && out[..] == Encoded(spec) + old(out[HEADER_SIZE + |spec.data|..])
  {
    hide Head, LittleEndian, ToNat, Crc16, Crc32;
    if |spec.data| > DATA_MAX_SIZE { return Err(DataTooLarge); }
    var total := HEADER_SIZE + |spec.data|;
    if out.Length < total { return Err(BufferTooSmall); }
    WriteHead(out, spec);
    var crc16 := CcittFalse16(table16, out[..18], Ones(16));
    Put(out, 18, ToNat(crc16), 2, Head(spec));
    ghost var signed := Head(spec) + LittleEndian(HeaderCrc(Head(spec)), 2);
    if spec.data != [] {
      var crc32 := Zlib32(table32, spec.data, Zeros(32));
      Put(out, 20, ToNat(crc32), 4, signed);
    } else {
      Put(out, 20, 0, 4, signed);
    }
    CopyAt(out, HEADER_SIZE, spec.data, signed + LittleEndian(DataCrc(spec.data), 4));
    assert out[..] == out[..total] + out[total..];
    r := Ok(total);
  }

  /** write_le of the field that follows the bytes `done`. */
  method Put(out: array<Byte>, offset: nat, v: nat, n: nat, ghost done: seq<Byte>)
    requires offset + n <= out.Length
    requires out[..offset] == done
    modifies out
    ensures out[..offset + n] == done + LittleEndian(v, n)
    ensures forall j :: offset + n <= j < out.Length ==> out[j] == old(out[j])
  {
    WriteAt(out, offset, v, n);
  }

  /** The payload copy. */
  method CopyAt(out: array<Byte>, offset: nat, data: seq<Byte>, ghost done: seq<Byte>)
    requires offset + |data| <= out.Length
    requires out[..offset] == done
    modifies out
    ensures out[..offset + |data|] == done + data
    ensures forall j :: offset + |data| <= j < out.Length ==> out[j] == old(out[j])
  {
    for i := 0 to |data|
      invariant out[..offset + i] == done + data[..i]
      invariant forall j :: offset + i <= j < out.Length ==> out[j] == old(out[j])
    {
      out[offset + i] := data[i];
    }
  }

  method WriteHead(out: array<Byte>, spec: Spec)
    requires HEADER_SIZE + |spec.data| <= out.Length
    modifies out
    ensures out[..18] == Head(spec)
    ensures forall j :: 18 <= j < out.Length ==> out[j] == old(out[j])
  {
    Put(out, 0, SOF, 1, []);
    Put(out, 1, VERSION, 1, [SOF]);
    Put(out, 2, HEADER_SIZE + |spec.data|, 2, [SOF, VERSION]);
    ghost var s4 := [SOF, VERSION] + LittleEndian(HEADER_SIZE + |spec.data|, 2);
    Put(out, 4, spec.seqNum, 4, s4);
    ghost var s8 := s4 + LittleEndian(spec.seqNum, 4);
    Put(out, 8, spec.cmdId, 2, s8);
    ghost var s10 := s8 + LittleEndian(spec.cmdId, 2);
    Put(out, 10, spec.cmdType, 1, s10);
    Put(out, 11, spec.senderType, 1, s10 + [spec.cmdType]);
    CopyAt(out, 12, [0, 0, 0, 0, 0, 0], s10 + [spec.cmdType] + [spec.senderType]);
  }
}
