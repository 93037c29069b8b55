/**
 Why a frame is rejected (src/FrameCodec.cpp:141-200): the error code for a damaged, cut or
 lengthened frame, and for one with a correct checksum over fields that are not allowed.
 */
module RejectionReasons {
  import opened Bytes
  import opened ByteValues
  import opened FrameCodec
  import opened ErrorDetection
  import Crc32

  // ---------------------------------------------------------------- A correct checksum over wrong fields

  /** Whatever the fields, the first that is not allowed decides the answer; none, and the frame is read back. */
  lemma SealedFrame(f: TelemetryFrame)
    requires |f.payload| <= 4096
    ensures DecodeFrame(Wire(f))
         == if f.version != 1 then Rejected(UnsupportedVersion)
            else if f.temperatureC & 0x7F80_0000 == 0x7F80_0000 then Rejected(InvalidTemperature)
            else if f.batteryPercent > 100 then Rejected(InvalidBattery)
            else if f.status > 3 then Rejected(InvalidStatus)
            else Parsed(f)
  {
    hide U16BE, U32BE, U64BE, ReadU16BE, ReadU32BE, ReadU64BE, Header, PayloadLength, IsFinite, Crc32.Checksum;
    FiniteBits(f.temperatureC);
    var b := Wire(f);
    var n := |b| - CRC_SIZE;
    assert b[..HEADER_SIZE] == Header(f);
    HeaderFields(f, b);
    assert b[..n] == Covered(f);
    assert b[n..n + 4] == U32BE(Crc32.Checksum(Covered(f)));
    Read32Local(b, n);
    U32RoundTrip(Crc32.Checksum(Covered(f)));
    assert b[HEADER_SIZE..HEADER_SIZE + |f.payload|] == f.payload;
  }

  /** Where each field lies on the wire, and what the first bytes are. */
  lemma WireLayout(f: TelemetryFrame)
    requires |f.payload| <= 4096
    ensures var b := Wire(f);
            && |b| == 27 + |f.payload|
            && b[0..4] == [0x53, 0x54, 0x47, 0x53] && b[4] == f.version && Value(b[5..7]) == f.satelliteId as nat
            && Value(b[7..15]) == f.timestampMs as nat && Value(b[15..19]) == f.temperatureC as nat
            && b[19] == f.batteryPercent && b[20] == f.status && Value(b[21..23]) == |f.payload|
            && b[23..23 + |f.payload|] == f.payload
            && Value(b[23 + |f.payload|..]) == Crc32.Checksum(b[..23 + |f.payload|]) as nat
  {
    hide U16BE, U64BE, Header, Value, Crc32.Checksum;
    var b := Wire(f);
    assert b[..HEADER_SIZE] == Header(f);
    HeaderSlices(f, b);
    assert b[23..23 + |f.payload|] == f.payload;
    assert b[..23 + |f.payload|] == Covered(f);
    var crc := Crc32.Checksum(Covered(f));
    assert b[23 + |f.payload|..] == U32BE(crc);
    WritersKeepValues(f.satelliteId, f.temperatureC, f.timestampMs);
    WritersKeepValues(|f.payload| as u16, crc, 0);
    NatU16(|f.payload|);
    MagicOnTheWire();
  }

  lemma MagicOnTheWire()
    ensures U32BE(FRAME_MAGIC) == [0x53, 0x54, 0x47, 0x53]
  {
  }

  // ---------------------------------------------------------------- Damage that keeps the length

  lemma SameMagic(b: seq<byte>, c: seq<byte>)
    requires |b| >= 4 && |c| >= 4
    ensures ReadU32BE(c, 0) == ReadU32BE(b, 0) <==> c[0..4] == b[0..4]
  {
    hide ReadU32BE, U32BE;
    Read32Local(b, 0);
    Read32Local(c, 0);
    U32Slice(b, 0);
    U32Slice(c, 0);
  }

  lemma SameLength(b: seq<byte>, c: seq<byte>)
    requires |b| >= 23 && |c| >= 23
    ensures PayloadLength(c) == PayloadLength(b) <==> c[21..23] == b[21..23]
    ensures PayloadLength(c) == Value(c[21..23])
  {
    hide ReadU16BE, U16BE, Value;
    Read16Local(b, 21);
    Read16Local(c, 21);
    U16Slice(b, 21);
    U16Slice(c, 21);
    U16Nat(ReadU16BE(b, 21));
    U16Nat(ReadU16BE(c, 21));
    ReadU16Value(c, 21);
  }

  /** An accepted frame altered anyhow, but as long as before: the first part that does not fit is reported. */
  lemma DamagedFrame(b: seq<byte>, c: seq<byte>)
    requires DecodeFrame(b).Parsed? && |c| == |b|
    ensures |b| >= 27
    ensures var r := DecodeFrame(c);
            if c[0..4] != b[0..4] then r == Rejected(BadMagic)
            else if c[4] != b[4] then r == Rejected(UnsupportedVersion)
            else if c[21..23] != b[21..23] then
              r == Rejected(if Value(c[21..23]) > 4096 then PayloadTooLarge else LengthMismatch)
            else r == Rejected(BadCrc) <==> !ChecksumMatches(c)
  {
    hide ReadU16BE, ReadU32BE, ReadU64BE, PayloadLength, IsFinite, Crc32.Checksum, Value;
    AcceptedFields(b);
    SameMagic(b, c);
    SameLength(b, c);
  }

  lemma MatchingIsEqual(b: seq<byte>, c: seq<byte>, p: nat)
    requires DecodeFrame(b).Parsed? && |c| == |b| && p + 4 <= |b|
    requires p + 4 <= |b| - CRC_SIZE || p >= |b| - CRC_SIZE
    requires forall i :: 0 <= i < |b| && !(p <= i < p + 4) ==> c[i] == b[i]
    requires c != b
    ensures !ChecksumMatches(c)
  {
    hide DecodeFrame, ChecksumMatches;
    AcceptedMatches(b);
    if ChecksumMatches(c) {
      if p + 4 <= |b| - CRC_SIZE {
        BurstKeepsNoChecksum(b, c, p);
      } else {
        assert c[..|b| - CRC_SIZE] == b[..|b| - CRC_SIZE];
        ChecksumFieldIsDetermined(b, c);
      }
      assert false;
    }
  }

  /** One altered byte is named by its place. */
  lemma OneByteReason(b: seq<byte>, c: seq<byte>, i: nat)
    requires DecodeFrame(b).Parsed? && i < |b| && |c| == |b|
    requires forall k :: 0 <= k < |b| && k != i ==> c[k] == b[k]
    requires c[i] != b[i]
    ensures |b| >= 27
    ensures DecodeFrame(c)
         == Rejected(if i < 4 then BadMagic
                     else if i == 4 then UnsupportedVersion
                     else if i == 21 || i == 22 then (if Value(c[21..23]) > 4096 then PayloadTooLarge else LengthMismatch)
                     else BadCrc)
  {
    hide DecodeFrame, ChecksumMatches, Value;
    DamagedFrame(b, c);
    var n := |b| - CRC_SIZE;
    MatchingIsEqual(b, c, if i >= n then n else if i + 4 <= n then i else n - 4);
    assert c[0..4] != b[0..4] <==> i < 4 by {
      if i < 4 {
        assert c[0..4][i] != b[0..4][i];
      }
    }
    assert c[21..23] != b[21..23] <==> i == 21 || i == 22 by {
      if i == 21 || i == 22 {
        assert c[21..23][i - 21] != b[21..23][i - 21];
      }
    }
  }

  // ---------------------------------------------------------------- Cut and lengthened frames

  lemma HeaderRemains(b: seq<byte>, c: seq<byte>)
    requires |b| >= 23 && |c| >= 23 && c[..23] == b[..23]
    ensures ReadU32BE(c, 0) == ReadU32BE(b, 0) && c[4] == b[4] && PayloadLength(c) == PayloadLength(b)
  {
    hide ReadU32BE, PayloadLength;
    assert c[0..4] == c[..23][0..4] && b[0..4] == b[..23][0..4];
    assert c[21..23] == c[..23][21..23] && b[21..23] == b[..23][21..23];
    assert c[4] == c[..23][4] && b[4] == b[..23][4];
    SameMagic(b, c);
    SameLength(b, c);
  }

  lemma CutFrame(b: seq<byte>, k: nat)
    requires DecodeFrame(b).Parsed? && k < |b|
    ensures DecodeFrame(b[..k]) == Rejected(if k < 27 then TooShort else LengthMismatch)
  {
    hide ReadU32BE, ReadU16BE, ReadU64BE, PayloadLength, IsFinite, Crc32.Checksum;
    AcceptedFields(b);
    if k >= 27 {
      assert b[..k][..23] == b[..23];
      HeaderRemains(b, b[..k]);
    }
  }

  lemma LengthenedFrame(b: seq<byte>, t: seq<byte>)
    requires DecodeFrame(b).Parsed? && t != []
    ensures DecodeFrame(b + t) == Rejected(LengthMismatch)
  {
    hide ReadU32BE, ReadU16BE, ReadU64BE, PayloadLength, IsFinite, Crc32.Checksum;
    AcceptedFields(b);
    assert (b + t)[..23] == b[..23];
    HeaderRemains(b, b + t);
  }
}
