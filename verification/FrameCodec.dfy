/**
 The STGS v1 frame codec (src/FrameCodec.cpp, include/stgs/TelemetryFrame.hpp).

 Layout, all integers big-endian:
 magic:4 version:1 satelliteId:2 timestampMs:8 temperatureC:4 battery:1 status:1 length:2 payload crc:4
 */
module FrameCodec {
  import opened Bytes
  import Crc32

  const FRAME_MAGIC: u32 := 0x5354_4753
  const PROTOCOL_VERSION: byte := 1
  const HEADER_SIZE: nat := 23
  const CRC_SIZE: nat := 4
  const MIN_FRAME_SIZE: nat := 27
  const MAX_PAYLOAD_SIZE: nat := 4096
  const MAX_FRAME_SIZE: nat := 4123
  const MAX_BATTERY_PERCENT: byte := 100
  const CRITICAL: byte := 2
  const SAFE_MODE: byte := 3

  /** The temperature is the 32-bit pattern of a float; the status is the enumeration's byte. */
  datatype TelemetryFrame = TelemetryFrame(
    version: byte, satelliteId: u16, timestampMs: u64, temperatureC: u32,
    batteryPercent: byte, status: byte, payload: seq<byte>)

  datatype ErrorCode =
    | TooShort | BadMagic | UnsupportedVersion | PayloadTooLarge | LengthMismatch
    | BadCrc | InvalidTemperature | InvalidBattery | InvalidStatus

  datatype ParseResult = Parsed(frame: TelemetryFrame) | Rejected(code: ErrorCode)

  /** binary32 is finite iff its exponent field is not all ones (section 3.4 of IEEE 754-2019). */
  predicate IsFinite(bits: u32) { (bits >> 23) & 0xFF != 0xFF }

  lemma FiniteBits(bits: u32)
    ensures IsFinite(bits) <==> bits & 0x7F80_0000 != 0x7F80_0000
  {
  }

  // ---------------------------------------------------------------- Encoding

  predicate Encodable(f: TelemetryFrame) {
    && |f.payload| <= MAX_PAYLOAD_SIZE
    && f.version == PROTOCOL_VERSION
    && IsFinite(f.temperatureC)
    && f.batteryPercent <= MAX_BATTERY_PERCENT
    && f.status <= SAFE_MODE
  }

  function Header(f: TelemetryFrame): (h: seq<byte>)
    requires |f.payload| <= MAX_PAYLOAD_SIZE
    ensures |h| == HEADER_SIZE
  {
    U32BE(FRAME_MAGIC) + [f.version] + U16BE(f.satelliteId) + U64BE(f.timestampMs) + U32BE(f.temperatureC)
    + [f.batteryPercent] + [f.status] + U16BE(|f.payload| as u16)
  }

  /** The bytes covered by the checksum. */
  function Covered(f: TelemetryFrame): (c: seq<byte>)
    requires |f.payload| <= MAX_PAYLOAD_SIZE
    ensures |c| == HEADER_SIZE + |f.payload|
  {
    Header(f) + f.payload
  }

  function Wire(f: TelemetryFrame): (b: seq<byte>)
    requires |f.payload| <= MAX_PAYLOAD_SIZE
    ensures |b| == MIN_FRAME_SIZE + |f.payload|
  {
    Covered(f) + U32BE(Crc32.Checksum(Covered(f)))
  }

  /** `None` stands for the std::invalid_argument of the source. */
  method EncodeFrame(frame: TelemetryFrame) returns (r: Option<seq<byte>>)
    ensures r == if Encodable(frame) then Some(Wire(frame)) else None
  {
    hide U16BE, U32BE, U64BE, IsFinite, Header, Crc32.Checksum;
    if |frame.payload| > MAX_PAYLOAD_SIZE {
      return None;
    }
    if frame.version != PROTOCOL_VERSION {
      return None;
    }
    if !IsFinite(frame.temperatureC) {
      return None;
    }
    if frame.batteryPercent > MAX_BATTERY_PERCENT {
      return None;
    }
    if frame.status > SAFE_MODE {
      return None;
    }
    var bytes := HeaderBuffer(frame);
    bytes.Append(frame.payload);
    assert bytes.data == Covered(frame);
    var crc := Crc32.Crc32(bytes.data);
    bytes.AppendU32BE(crc);
    return Some(bytes.data);
  }

  method HeaderBuffer(frame: TelemetryFrame) returns (bytes: ByteBuffer)
    requires |frame.payload| <= MAX_PAYLOAD_SIZE
    ensures fresh(bytes) && bytes.data == Header(frame)
  {
    hide U16BE, U32BE, U64BE;
    bytes := new ByteBuffer();
    bytes.AppendU32BE(FRAME_MAGIC);
    bytes.AppendU8(frame.version);
    bytes.AppendU16BE(frame.satelliteId);
    bytes.AppendU64BE(frame.timestampMs);
    bytes.AppendU32BE(frame.temperatureC);
    bytes.AppendU8(frame.batteryPercent);
    bytes.AppendU8(frame.status);
    bytes.AppendU16BE(|frame.payload| as u16);
  }

  // ---------------------------------------------------------------- Decoding

  function PayloadLength(b: seq<byte>): nat
    requires HEADER_SIZE <= |b|
  {
    ReadU16BE(b, 21) as nat
  }

  function DecodeFrame(b: seq<byte>): ParseResult {
    if |b| < MIN_FRAME_SIZE then Rejected(TooShort)
    else if ReadU32BE(b, 0) != FRAME_MAGIC then Rejected(BadMagic)
    else if b[4] != PROTOCOL_VERSION then Rejected(UnsupportedVersion)
    else if PayloadLength(b) > MAX_PAYLOAD_SIZE then Rejected(PayloadTooLarge)
    else if |b| != HEADER_SIZE + PayloadLength(b) + CRC_SIZE then Rejected(LengthMismatch)
    else if ReadU32BE(b, |b| - CRC_SIZE) != Crc32.Checksum(b[..|b| - CRC_SIZE]) then Rejected(BadCrc)
    else if !IsFinite(ReadU32BE(b, 15)) then Rejected(InvalidTemperature)
    else if b[19] > MAX_BATTERY_PERCENT then Rejected(InvalidBattery)
    else if b[20] > SAFE_MODE then Rejected(InvalidStatus)
    else Parsed(TelemetryFrame(b[4], ReadU16BE(b, 5), ReadU64BE(b, 7), ReadU32BE(b, 15), b[19], b[20],
                               b[HEADER_SIZE..HEADER_SIZE + PayloadLength(b)]))
  }

  // ---------------------------------------------------------------- The codec is a bijection

  lemma Read16Local(b: seq<byte>, o: nat)
    requires o + 2 <= |b|
    ensures ReadU16BE(b, o) == ReadU16BE(b[o..o + 2], 0)
  {
  }

  lemma Read32Local(b: seq<byte>, o: nat)
    requires o + 4 <= |b|
    ensures ReadU32BE(b, o) == ReadU32BE(b[o..o + 4], 0)
  {
  }

  lemma Read64Local(b: seq<byte>, o: nat)
    requires o + 8 <= |b|
    ensures ReadU64BE(b, o) == ReadU64BE(b[o..o + 8], 0)
  {
    hide Pack64, ReadU64BE;
    AccumulateIsPack64(b, o);
    AccumulateIsPack64(b[o..o + 8], 0);
  }

  /** Where each header field lies, whatever follows the header. */
  lemma HeaderSlices(f: TelemetryFrame, b: seq<byte>)
    requires |f.payload| <= MAX_PAYLOAD_SIZE
    requires HEADER_SIZE <= |b| && b[..HEADER_SIZE] == Header(f)
    ensures b[0..4] == U32BE(FRAME_MAGIC) && b[4] == f.version && b[5..7] == U16BE(f.satelliteId)
    ensures b[7..15] == U64BE(f.timestampMs) && b[15..19] == U32BE(f.temperatureC)
    ensures b[19] == f.batteryPercent && b[20] == f.status && b[21..23] == U16BE(|f.payload| as u16)
  {
    hide U16BE, U32BE, U64BE, Header;
    PartsOfHeader(f);
    var h := b[..HEADER_SIZE];
    assert b[0..4] == h[0..4] && b[5..7] == h[5..7] && b[7..15] == h[7..15];
    assert b[15..19] == h[15..19] && b[21..23] == h[21..23];
    assert b[4] == h[4] && b[19] == h[19] && b[20] == h[20];
  }

  lemma PartsOfHeader(f: TelemetryFrame)
    requires |f.payload| <= MAX_PAYLOAD_SIZE
    ensures var h := Header(f);
            && h[0..4] == U32BE(FRAME_MAGIC) && h[4] == f.version && h[5..7] == U16BE(f.satelliteId)
            && h[7..15] == U64BE(f.timestampMs) && h[15..19] == U32BE(f.temperatureC)
            && h[19] == f.batteryPercent && h[20] == f.status && h[21..23] == U16BE(|f.payload| as u16)
  {
    hide U16BE, U32BE, U64BE;
    HeaderParts(U32BE(FRAME_MAGIC), f.version, U16BE(f.satelliteId), U64BE(f.timestampMs), U32BE(f.temperatureC),
                f.batteryPercent, f.status, U16BE(|f.payload| as u16));
  }

  lemma HeaderParts(m: seq<byte>, v: byte, i: seq<byte>, t: seq<byte>, c: seq<byte>, p: byte, s: byte, n: seq<byte>)
    requires |m| == 4 && |i| == 2 && |t| == 8 && |c| == 4 && |n| == 2
    ensures var h := m + [v] + i + t + c + [p] + [s] + n;
            && h[0..4] == m && h[4] == v && h[5..7] == i && h[7..15] == t && h[15..19] == c
            && h[19] == p && h[20] == s && h[21..23] == n
  {
  }

  lemma HeaderFields(f: TelemetryFrame, b: seq<byte>)
    requires |f.payload| <= MAX_PAYLOAD_SIZE
    requires HEADER_SIZE <= |b| && b[..HEADER_SIZE] == Header(f)
    ensures ReadU32BE(b, 0) == FRAME_MAGIC && b[4] == f.version && ReadU16BE(b, 5) == f.satelliteId
    ensures ReadU64BE(b, 7) == f.timestampMs && ReadU32BE(b, 15) == f.temperatureC
    ensures b[19] == f.batteryPercent && b[20] == f.status && PayloadLength(b) == |f.payload|
  {
    hide U16BE, U32BE, U64BE, ReadU16BE, ReadU32BE, ReadU64BE, Header;
    HeaderSlices(f, b);
    Read32Local(b, 0);
    U32RoundTrip(FRAME_MAGIC);
    Read16Local(b, 5);
    U16RoundTrip(f.satelliteId);
    Read64Local(b, 7);
    U64RoundTrip(f.timestampMs);
    Read32Local(b, 15);
    U32RoundTrip(f.temperatureC);
    Read16Local(b, 21);
    U16RoundTrip(|f.payload| as u16);
    NatU16(|f.payload|);
  }

  lemma DecodeOfEncode(f: TelemetryFrame)
    requires Encodable(f)
    ensures DecodeFrame(Wire(f)) == Parsed(f)
  {
    hide U16BE, U32BE, U64BE, ReadU16BE, ReadU32BE, ReadU64BE, Header, PayloadLength, IsFinite, Crc32.Checksum;
    var b := Wire(f);
    var n := |b| - CRC_SIZE;
    assert b[..HEADER_SIZE] == Header(f);
    HeaderFields(f, b);
    assert b[..n] == Covered(f);
    assert b[n..n + 4] == U32BE(Crc32.Checksum(Covered(f)));
    Read32Local(b, n);
    U32RoundTrip(Crc32.Checksum(Covered(f)));
    assert b[HEADER_SIZE..HEADER_SIZE + |f.payload|] == f.payload;
  }

  /** What acceptance says about the bytes, check by check. */
  lemma AcceptedFields(b: seq<byte>)
    requires DecodeFrame(b).Parsed?
    ensures MIN_FRAME_SIZE <= |b| <= MAX_FRAME_SIZE && |b| == MIN_FRAME_SIZE + PayloadLength(b)
    ensures ReadU32BE(b, 0) == FRAME_MAGIC
    ensures DecodeFrame(b).frame
         == TelemetryFrame(b[4], ReadU16BE(b, 5), ReadU64BE(b, 7), ReadU32BE(b, 15), b[19], b[20],
                           b[HEADER_SIZE..|b| - CRC_SIZE])
    ensures Encodable(DecodeFrame(b).frame)
    ensures ReadU32BE(b, |b| - CRC_SIZE) == Crc32.Checksum(b[..|b| - CRC_SIZE])
  {
    hide ReadU16BE, ReadU32BE, ReadU64BE, IsFinite, Crc32.Checksum;
  }

  /** The header of an accepted string is the header of the frame it decodes to. */
  lemma HeaderOfDecoded(b: seq<byte>)
    requires DecodeFrame(b).Parsed?
    ensures |DecodeFrame(b).frame.payload| <= MAX_PAYLOAD_SIZE
    ensures HEADER_SIZE <= |b| && b[..HEADER_SIZE] == Header(DecodeFrame(b).frame)
  {
    hide U16BE, U32BE, U64BE, ReadU16BE, ReadU32BE, ReadU64BE, DecodeFrame, IsFinite;
    AcceptedFields(b);
    U32Slice(b, 0);
    U16Slice(b, 5);
    U64Slice(b, 7);
    U32Slice(b, 15);
    U16Slice(b, 21);
    U16Nat(ReadU16BE(b, 21));
    SplitHeader(b);
  }

  lemma SplitHeader(b: seq<byte>)
    requires HEADER_SIZE <= |b|
    ensures b[..HEADER_SIZE]
         == b[0..4] + [b[4]] + b[5..7] + b[7..15] + b[15..19] + [b[19]] + [b[20]] + b[21..23]
  {
  }

  lemma EncodeOfDecode(b: seq<byte>)
    requires DecodeFrame(b).Parsed?
    ensures Encodable(DecodeFrame(b).frame) && Wire(DecodeFrame(b).frame) == b
  {
    hide U32BE, ReadU16BE, ReadU32BE, ReadU64BE, Header, PayloadLength, DecodeFrame, IsFinite, Crc32.Checksum;
    var n := |b| - CRC_SIZE;
    AcceptedFields(b);
    HeaderOfDecoded(b);
    U32Slice(b, n);
    assert b[..n] == b[..HEADER_SIZE] + b[HEADER_SIZE..n];
    assert b == b[..n] + b[n..n + 4];
  }

  /** A byte string is accepted exactly when it is the encoding of the frame it is decoded to. */
  lemma CodecIsBijective(b: seq<byte>, f: TelemetryFrame)
    ensures DecodeFrame(b) == Parsed(f) <==> Encodable(f) && Wire(f) == b
  {
    hide DecodeFrame, Wire, Encodable;
    if DecodeFrame(b).Parsed? {
      EncodeOfDecode(b);
    }
    if Encodable(f) {
      DecodeOfEncode(f);
    }
  }
}
