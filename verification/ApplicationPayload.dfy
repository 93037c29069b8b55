/**
 The STGA application payload (src/ApplicationPayload.cpp): text messages and signal blocks.

 A float is its 32-bit pattern.  Comparisons between floats are made on the exact values the
 patterns stand for, scaled by 2^149 so that they are integers.
 */
module ApplicationPayload {
  import opened Bytes
  import opened FrameCodec

  const APPLICATION_MAGIC: u32 := 0x5354_4741
  const APPLICATION_VERSION: byte := 1
  const TEXT_KIND: byte := 1
  const SIGNAL_KIND: byte := 2
  const COMMON_SIZE: nat := 6
  const TEXT_FIXED_SIZE: nat := 10
  const SIGNAL_FIXED_SIZE: nat := 22
  const SAMPLE_SIZE: nat := 4
  const MAX_TEXT_BYTES: nat := 4086
  const MAX_SIGNAL_SAMPLES: nat := 1018

  datatype TextMessage = TextMessage(sequence: u32, text: seq<byte>)

  datatype SignalBlock = SignalBlock(
    sampleRateHz: u16, frequencyHz: u32, nominalAmplitude: u32, startSampleIndex: u32, samples: seq<u32>)

  datatype PayloadError = TruncatedHeader | BadVersion | UnknownKind | InvalidLength | InvalidSignalMetadata

  datatype Payload = Opaque | Text(message: TextMessage) | Signal(signal: SignalBlock) | Malformed(error: PayloadError)

  // ---------------------------------------------------------------- Exact binary32 values

  predicate IsNegative(bits: u32) { bits >> 31 != 0 }

  function ExponentField(bits: u32): nat { ((bits >> 23) & 0xFF) as nat }

  function MantissaField(bits: u32): nat { (bits & 0x7F_FFFF) as nat }

  /** |value| * 2^149 of a finite pattern. */
  function Magnitude(bits: u32): nat {
    if ExponentField(bits) == 0 then MantissaField(bits)
    else (MantissaField(bits) + 0x80_0000) * Pow2(ExponentField(bits) - 1)
  }

  /** Finite metadata with 0 < frequency < sampleRate / 2 and a non-negative amplitude. */
  predicate ValidSignalMetadata(sampleRateHz: u16, frequencyHz: u32, nominalAmplitude: u32) {
    && sampleRateHz != 0 && IsFinite(frequencyHz) && IsFinite(nominalAmplitude)
    && !IsNegative(frequencyHz) && Magnitude(frequencyHz) > 0
    && Magnitude(frequencyHz) < sampleRateHz as nat * Pow2(148)
    && (!IsNegative(nominalAmplitude) || Magnitude(nominalAmplitude) == 0)
  }

  // ---------------------------------------------------------------- Wire format

  function CommonHeader(kind: byte): (h: seq<byte>)
    ensures |h| == COMMON_SIZE
  {
    U32BE(APPLICATION_MAGIC) + [APPLICATION_VERSION] + [kind]
  }

  function TextWire(m: TextMessage): (p: seq<byte>)
    ensures |p| == TEXT_FIXED_SIZE + |m.text|
  {
    CommonHeader(TEXT_KIND) + U32BE(m.sequence) + m.text
  }

  function SamplesWire(samples: seq<u32>): (p: seq<byte>)
    ensures |p| == SAMPLE_SIZE * |samples|
  {
    if samples == [] then [] else SamplesWire(samples[..|samples| - 1]) + U32BE(samples[|samples| - 1])
  }

  function SignalHeader(s: SignalBlock): (h: seq<byte>)
    requires |s.samples| < 0x1_0000
    ensures |h| == SIGNAL_FIXED_SIZE
  {
    CommonHeader(SIGNAL_KIND) + U16BE(s.sampleRateHz) + U32BE(s.frequencyHz) + U32BE(s.nominalAmplitude)
    + U32BE(s.startSampleIndex) + U16BE(|s.samples| as u16)
  }

  function SignalWire(s: SignalBlock): (p: seq<byte>)
    requires |s.samples| < 0x1_0000
    ensures |p| == SIGNAL_FIXED_SIZE + SAMPLE_SIZE * |s.samples|
  {
    SignalHeader(s) + SamplesWire(s.samples)
  }

  predicate AllFinite(samples: seq<u32>) {
    forall i :: 0 <= i < |samples| ==> IsFinite(samples[i])
  }

  predicate SignalEncodable(s: SignalBlock) {
    && ValidSignalMetadata(s.sampleRateHz, s.frequencyHz, s.nominalAmplitude)
    && |s.samples| <= MAX_SIGNAL_SAMPLES
    && AllFinite(s.samples)
  }

  // ---------------------------------------------------------------- Encoders

  method CommonBuffer(kind: byte) returns (payload: ByteBuffer)
    ensures fresh(payload) && payload.data == CommonHeader(kind)
  {
    payload := new ByteBuffer();
    payload.AppendU32BE(APPLICATION_MAGIC);
    payload.AppendU8(APPLICATION_VERSION);
    payload.AppendU8(kind);
  }

  /** `None` stands for the std::invalid_argument of the source; so does it below. */
  method EncodeText(m: TextMessage) returns (r: Option<seq<byte>>)
    ensures r == if |m.text| <= MAX_TEXT_BYTES then Some(TextWire(m)) else None
    ensures r.Some? ==> |r.value| <= MAX_PAYLOAD_SIZE
  {
    hide U32BE, CommonHeader;
    if |m.text| > MAX_TEXT_BYTES {
      return None;
    }
    var payload := CommonBuffer(TEXT_KIND);
    payload.AppendU32BE(m.sequence);
    payload.Append(m.text);
    return Some(payload.data);
  }

  method EncodeSignal(s: SignalBlock) returns (r: Option<seq<byte>>)
    ensures r == if SignalEncodable(s) then Some(SignalWire(s)) else None
    ensures r.Some? ==> |r.value| <= MAX_PAYLOAD_SIZE
  {
    hide U16BE, U32BE, IsFinite, ValidSignalMetadata, SignalHeader;
    if !ValidSignalMetadata(s.sampleRateHz, s.frequencyHz, s.nominalAmplitude) {
      return None;
    }
    if |s.samples| > MAX_SIGNAL_SAMPLES || |s.samples| > 0xFFFF {
      return None;
    }
    for i := 0 to |s.samples|
      invariant forall k :: 0 <= k < i ==> IsFinite(s.samples[k])
    {
      if !IsFinite(s.samples[i]) {
        return None;
      }
    }
    var payload := SignalHeaderBuffer(s);
    for i := 0 to |s.samples|
      invariant payload.data == SignalHeader(s) + SamplesWire(s.samples[..i])
      invariant fresh(payload)
    {
      assert s.samples[..i + 1][..i] == s.samples[..i];
      assert SamplesWire(s.samples[..i + 1]) == SamplesWire(s.samples[..i]) + U32BE(s.samples[i]);
      payload.AppendU32BE(s.samples[i]);
    }
    assert s.samples[..|s.samples|] == s.samples;
    return Some(payload.data);
  }

  method SignalHeaderBuffer(s: SignalBlock) returns (payload: ByteBuffer)
    requires |s.samples| < 0x1_0000
    ensures fresh(payload) && payload.data == SignalHeader(s)
  {
    hide U16BE, U32BE, CommonHeader;
    payload := CommonBuffer(SIGNAL_KIND);
    payload.AppendU16BE(s.sampleRateHz);
    payload.AppendU32BE(s.frequencyHz);
    payload.AppendU32BE(s.nominalAmplitude);
    payload.AppendU32BE(s.startSampleIndex);
    payload.AppendU16BE(|s.samples| as u16);
  }

  // ---------------------------------------------------------------- Decoder

  predicate HasMagic(p: seq<byte>) {
    |p| >= 4 && ReadU32BE(p, 0) == APPLICATION_MAGIC
  }

  function SampleCount(p: seq<byte>): nat
    requires |p| >= SIGNAL_FIXED_SIZE
  {
    ReadU16BE(p, 20) as nat
  }

  function SamplesAt(p: seq<byte>, count: nat): (s: seq<u32>)
    requires |p| >= SIGNAL_FIXED_SIZE + SAMPLE_SIZE * count
    ensures |s| == count
  {
    seq(count, i requires 0 <= i < count => ReadU32BE(p, SIGNAL_FIXED_SIZE + SAMPLE_SIZE * i))
  }

  function DecodeText(p: seq<byte>): Payload {
    if |p| < TEXT_FIXED_SIZE then Malformed(InvalidLength)
    else Text(TextMessage(ReadU32BE(p, 6), p[TEXT_FIXED_SIZE..]))
  }

  function DecodeSignal(p: seq<byte>): Payload {
    if |p| < SIGNAL_FIXED_SIZE then Malformed(InvalidLength)
    else if |p| != SIGNAL_FIXED_SIZE + SAMPLE_SIZE * SampleCount(p) then Malformed(InvalidLength)
    else if !ValidSignalMetadata(ReadU16BE(p, 6), ReadU32BE(p, 8), ReadU32BE(p, 12)) then Malformed(InvalidSignalMetadata)
    else if !AllFinite(SamplesAt(p, SampleCount(p))) then Malformed(InvalidSignalMetadata)
    else Signal(SignalBlock(ReadU16BE(p, 6), ReadU32BE(p, 8), ReadU32BE(p, 12), ReadU32BE(p, 16),
                            SamplesAt(p, SampleCount(p))))
  }

  function DecodePayload(p: seq<byte>): Payload {
    if !HasMagic(p) then Opaque
    else if |p| < COMMON_SIZE then Malformed(TruncatedHeader)
    else if p[4] != APPLICATION_VERSION then Malformed(BadVersion)
    else if p[5] == TEXT_KIND then DecodeText(p)
    else if p[5] == SIGNAL_KIND then DecodeSignal(p)
    else Malformed(UnknownKind)
  }

  /** The sample loop of the decoder: it stops at the first sample that is not finite. */
  method ReadSamples(p: seq<byte>, count: nat) returns (samples: Option<seq<u32>>)
    requires |p| >= SIGNAL_FIXED_SIZE + SAMPLE_SIZE * count
    ensures samples == if AllFinite(SamplesAt(p, count)) then Some(SamplesAt(p, count)) else None
  {
    hide IsFinite, ReadU32BE;
    var read: seq<u32> := [];
    for i := 0 to count
      invariant read == SamplesAt(p, count)[..i]
      invariant AllFinite(read)
    {
      var sample := ReadU32BE(p, SIGNAL_FIXED_SIZE + i * SAMPLE_SIZE);
      assert sample == SamplesAt(p, count)[i];
      if !IsFinite(sample) {
        return None;
      }
      read := read + [sample];
    }
    assert read == SamplesAt(p, count);
    return Some(read);
  }

  // ---------------------------------------------------------------- Round trip and canonicity

  lemma CommonFields(kind: byte, p: seq<byte>)
    requires |p| >= COMMON_SIZE && p[..COMMON_SIZE] == CommonHeader(kind)
    ensures HasMagic(p) && p[4] == APPLICATION_VERSION && p[5] == kind
  {
    hide U32BE, ReadU32BE;
    var h := CommonHeader(kind);
    assert h[0..4] == U32BE(APPLICATION_MAGIC);
    assert p[0..4] == h[0..4] && p[4] == h[4] && p[5] == h[5];
    Read32Local(p, 0);
    U32RoundTrip(APPLICATION_MAGIC);
  }

  lemma CommonOfDecoded(p: seq<byte>)
    requires HasMagic(p) && |p| >= COMMON_SIZE && p[4] == APPLICATION_VERSION
    ensures p[..COMMON_SIZE] == CommonHeader(p[5])
  {
    hide U32BE, ReadU32BE;
    U32Slice(p, 0);
    assert p[..COMMON_SIZE] == p[0..4] + [p[4]] + [p[5]];
  }

  /** Text payloads and text messages correspond one to one; the size limit is the encoder's alone. */
  lemma TextIsBijective(p: seq<byte>, m: TextMessage)
    ensures DecodePayload(p) == Text(m) <==> p == TextWire(m)
    ensures p == TextWire(m) ==> (|m.text| <= MAX_TEXT_BYTES <==> |p| <= MAX_PAYLOAD_SIZE)
  {
    hide U32BE, ReadU32BE, CommonHeader, HasMagic, DecodeSignal;
    if p == TextWire(m) {
      assert p[..COMMON_SIZE] == CommonHeader(TEXT_KIND);
      CommonFields(TEXT_KIND, p);
      assert p[6..10] == U32BE(m.sequence) && p[TEXT_FIXED_SIZE..] == m.text;
      Read32Local(p, 6);
      U32RoundTrip(m.sequence);
    }
    if DecodePayload(p) == Text(m) {
      KindOfDecoded(p);
      CommonOfDecoded(p);
      U32Slice(p, 6);
      assert p == p[..COMMON_SIZE] + p[6..10] + p[TEXT_FIXED_SIZE..];
    }
  }

  /** Which branch of the decoder a result comes from. */
  lemma KindOfDecoded(p: seq<byte>)
    ensures DecodePayload(p).Text? ==>
              HasMagic(p) && |p| >= COMMON_SIZE && p[4] == APPLICATION_VERSION && p[5] == TEXT_KIND
    ensures DecodePayload(p).Signal? ==>
              HasMagic(p) && |p| >= COMMON_SIZE && p[4] == APPLICATION_VERSION && p[5] == SIGNAL_KIND
              && DecodePayload(p) == DecodeSignal(p)
  {
    hide HasMagic, ReadU32BE, ReadU16BE, ValidSignalMetadata, IsFinite;
  }

  lemma {:induction false} SamplesWireAt(samples: seq<u32>, i: nat)
    requires i < |samples|
    ensures SamplesWire(samples)[SAMPLE_SIZE * i..SAMPLE_SIZE * i + 4] == U32BE(samples[i])
    decreases |samples|
  {
    hide U32BE;
    if i < |samples| - 1 {
      SamplesWireAt(samples[..|samples| - 1], i);
    }
  }

  lemma SamplesOfWire(h: seq<byte>, samples: seq<u32>)
    requires |h| == SIGNAL_FIXED_SIZE
    ensures SamplesAt(h + SamplesWire(samples), |samples|) == samples
  {
    hide U32BE, ReadU32BE, SamplesWire;
    var p := h + SamplesWire(samples);
    forall i | 0 <= i < |samples|
      ensures SamplesAt(p, |samples|)[i] == samples[i]
    {
      var o := SIGNAL_FIXED_SIZE + SAMPLE_SIZE * i;
      SamplesWireAt(samples, i);
      assert p[o..o + 4] == SamplesWire(samples)[SAMPLE_SIZE * i..SAMPLE_SIZE * i + 4];
      Read32Local(p, o);
      U32RoundTrip(samples[i]);
    }
  }

  lemma {:induction false} WireOfSamples(p: seq<byte>, count: nat)
    requires |p| >= SIGNAL_FIXED_SIZE + SAMPLE_SIZE * count
    ensures SamplesWire(SamplesAt(p, count)) == p[SIGNAL_FIXED_SIZE..SIGNAL_FIXED_SIZE + SAMPLE_SIZE * count]
    decreases count
  {
    hide U32BE, ReadU32BE;
    if count > 0 {
      WireOfSamples(p, count - 1);
      var o := SIGNAL_FIXED_SIZE + SAMPLE_SIZE * (count - 1);
      assert SamplesAt(p, count)[..count - 1] == SamplesAt(p, count - 1);
      U32Slice(p, o);
      assert p[SIGNAL_FIXED_SIZE..o + 4] == p[SIGNAL_FIXED_SIZE..o] + p[o..o + 4];
    }
  }

  lemma SignalHeaderSlices(s: SignalBlock)
    requires |s.samples| < 0x1_0000
    ensures var h := SignalHeader(s);
            && h[..COMMON_SIZE] == CommonHeader(SIGNAL_KIND) && h[6..8] == U16BE(s.sampleRateHz)
            && h[8..12] == U32BE(s.frequencyHz) && h[12..16] == U32BE(s.nominalAmplitude)
            && h[16..20] == U32BE(s.startSampleIndex) && h[20..22] == U16BE(|s.samples| as u16)
  {
    hide U16BE, U32BE, CommonHeader;
  }

  lemma SignalSlices(s: SignalBlock, p: seq<byte>)
    requires |s.samples| < 0x1_0000
    requires |p| >= SIGNAL_FIXED_SIZE && p[..SIGNAL_FIXED_SIZE] == SignalHeader(s)
    ensures p[..COMMON_SIZE] == CommonHeader(SIGNAL_KIND) && p[6..8] == U16BE(s.sampleRateHz)
    ensures p[8..12] == U32BE(s.frequencyHz) && p[12..16] == U32BE(s.nominalAmplitude)
    ensures p[16..20] == U32BE(s.startSampleIndex) && p[20..22] == U16BE(|s.samples| as u16)
  {
    hide U16BE, U32BE, CommonHeader, SignalHeader;
    SignalHeaderSlices(s);
    var h := p[..SIGNAL_FIXED_SIZE];
    assert p[..COMMON_SIZE] == h[..COMMON_SIZE] && p[6..8] == h[6..8] && p[8..12] == h[8..12];
    assert p[12..16] == h[12..16] && p[16..20] == h[16..20] && p[20..22] == h[20..22];
  }

  lemma SignalFields(s: SignalBlock, p: seq<byte>)
    requires |s.samples| < 0x1_0000
    requires |p| >= SIGNAL_FIXED_SIZE && p[..SIGNAL_FIXED_SIZE] == SignalHeader(s)
    ensures HasMagic(p) && p[4] == APPLICATION_VERSION && p[5] == SIGNAL_KIND
    ensures ReadU16BE(p, 6) == s.sampleRateHz && ReadU32BE(p, 8) == s.frequencyHz
    ensures ReadU32BE(p, 12) == s.nominalAmplitude && ReadU32BE(p, 16) == s.startSampleIndex
    ensures SampleCount(p) == |s.samples|
  {
    hide U16BE, U32BE, ReadU16BE, ReadU32BE, CommonHeader, SignalHeader, HasMagic;
    SignalSlices(s, p);
    CommonFields(SIGNAL_KIND, p);
    Read16Local(p, 6);
    U16RoundTrip(s.sampleRateHz);
    Read32Local(p, 8);
    U32RoundTrip(s.frequencyHz);
    Read32Local(p, 12);
    U32RoundTrip(s.nominalAmplitude);
    Read32Local(p, 16);
    U32RoundTrip(s.startSampleIndex);
    Read16Local(p, 20);
    U16RoundTrip(|s.samples| as u16);
    NatU16(|s.samples|);
  }

  lemma SignalRoundTrip(s: SignalBlock)
    requires |s.samples| < 0x1_0000
    requires ValidSignalMetadata(s.sampleRateHz, s.frequencyHz, s.nominalAmplitude) && AllFinite(s.samples)
    ensures DecodePayload(SignalWire(s)) == Signal(s)
  {
    hide ReadU16BE, ReadU32BE, SampleCount, SamplesAt, HasMagic, ValidSignalMetadata, SignalHeader, SamplesWire,
         AllFinite, DecodeText;
    var p := SignalWire(s);
    assert p[..SIGNAL_FIXED_SIZE] == SignalHeader(s);
    SignalFields(s, p);
    SamplesOfWire(SignalHeader(s), s.samples);
  }

  /** What acceptance as a signal says about the bytes, check by check. */
  lemma SignalAccepted(p: seq<byte>)
    requires DecodePayload(p).Signal?
    ensures HasMagic(p) && p[4] == APPLICATION_VERSION && p[5] == SIGNAL_KIND
    ensures |p| >= SIGNAL_FIXED_SIZE && |p| == SIGNAL_FIXED_SIZE + SAMPLE_SIZE * SampleCount(p)
    ensures DecodePayload(p).signal
         == SignalBlock(ReadU16BE(p, 6), ReadU32BE(p, 8), ReadU32BE(p, 12), ReadU32BE(p, 16), SamplesAt(p, SampleCount(p)))
    ensures var s := DecodePayload(p).signal;
            ValidSignalMetadata(s.sampleRateHz, s.frequencyHz, s.nominalAmplitude) && AllFinite(s.samples)
  {
    hide ReadU16BE, ReadU32BE, HasMagic, ValidSignalMetadata, AllFinite, SamplesAt, SampleCount, DecodePayload;
    KindOfDecoded(p);
  }

  lemma CountFits(p: seq<byte>)
    requires |p| >= SIGNAL_FIXED_SIZE
    ensures SampleCount(p) < 0x1_0000 && SampleCount(p) as u16 == ReadU16BE(p, 20)
  {
    hide ReadU16BE;
    U16Nat(ReadU16BE(p, 20));
  }

  lemma SignalHeaderOfDecoded(p: seq<byte>)
    requires DecodePayload(p).Signal?
    ensures |DecodePayload(p).signal.samples| < 0x1_0000
    ensures |p| >= SIGNAL_FIXED_SIZE && p[..SIGNAL_FIXED_SIZE] == SignalHeader(DecodePayload(p).signal)
  {
    hide U16BE, U32BE, ReadU16BE, ReadU32BE, CommonHeader, HasMagic, ValidSignalMetadata, AllFinite, SamplesAt,
         SampleCount, DecodePayload;
    SignalAccepted(p);
    CommonOfDecoded(p);
    U16Slice(p, 6);
    U32Slice(p, 8);
    U32Slice(p, 12);
    U32Slice(p, 16);
    U16Slice(p, 20);
    CountFits(p);
    SplitSignal(p);
  }

  lemma SplitSignal(p: seq<byte>)
    requires |p| >= SIGNAL_FIXED_SIZE
    ensures p[..SIGNAL_FIXED_SIZE] == p[..COMMON_SIZE] + p[6..8] + p[8..12] + p[12..16] + p[16..20] + p[20..22]
  {
  }

  lemma SignalCanonical(p: seq<byte>)
    requires DecodePayload(p).Signal?
    ensures var s := DecodePayload(p).signal;
            && |s.samples| < 0x1_0000
            && ValidSignalMetadata(s.sampleRateHz, s.frequencyHz, s.nominalAmplitude) && AllFinite(s.samples)
            && SignalWire(s) == p
  {
    hide ReadU16BE, ReadU32BE, HasMagic, ValidSignalMetadata, SignalHeader, SamplesWire, SamplesAt, AllFinite,
         SampleCount, DecodePayload;
    SignalAccepted(p);
    SignalHeaderOfDecoded(p);
    WireOfSamples(p, SampleCount(p));
    assert p == p[..SIGNAL_FIXED_SIZE] + p[SIGNAL_FIXED_SIZE..];
  }

  /** Within the payload limit of a frame, signal payloads and encodable signal blocks correspond one to one. */
  lemma SignalIsBijective(p: seq<byte>, s: SignalBlock)
    ensures DecodePayload(p) == Signal(s) && |p| <= MAX_PAYLOAD_SIZE
       <==> SignalEncodable(s) && p == SignalWire(s)
  {
    hide DecodePayload, SignalHeader, SamplesWire, ValidSignalMetadata, AllFinite;
    if DecodePayload(p) == Signal(s) {
      SignalCanonical(p);
    }
    if SignalEncodable(s) {
      SignalRoundTrip(s);
    }
  }

  // ---------------------------------------------------------------- The scaled values order as the floats do

  lemma RawFields(b: u32)
    ensures !(b >> 31 != 0) ==> b as nat == ((b >> 23) & 0xFF) as nat * 0x80_0000 + (b & 0x7F_FFFF) as nat
  {
  }

  lemma RawMantissa(b: u32)
    ensures (b & 0x7F_FFFF) as nat < 0x80_0000
  {
    NarrowMantissa(b);
  }

  lemma NarrowMantissa(b: u32)
    ensures ((b & 0x7F_FFFF) as bv23) as nat == (b & 0x7F_FFFF) as nat
  {
  }

  lemma FieldsOfPattern(bits: u32)
    ensures !IsNegative(bits) ==> bits as nat == ExponentField(bits) * 0x80_0000 + MantissaField(bits)
    ensures MantissaField(bits) < 0x80_0000
  {
    RawFields(bits);
    RawMantissa(bits);
  }

  lemma {:induction false} Pow2Increasing(m: nat, n: nat)
    requires m <= n
    ensures Pow2(m) <= Pow2(n)
    decreases n - m
  {
    if m < n {
      Pow2Increasing(m, n - 1);
    }
  }

  /** For patterns without sign, the order of the patterns is the order of the values. */
  lemma MagnitudeIncreasing(a: u32, b: u32)
    requires !IsNegative(a) && !IsNegative(b) && (a as nat) < (b as nat)
    ensures Magnitude(a) < Magnitude(b)
  {
    hide ExponentField, MantissaField, IsNegative;
    FieldsOfPattern(a);
    FieldsOfPattern(b);
    var e, f := ExponentField(a), ExponentField(b);
    var m, n := MantissaField(a), MantissaField(b);
    if e < f {
      var top := if e == 0 then 1 else Pow2(e - 1);
      Pow2Increasing(if e == 0 then 0 else e, f - 1);
      BelowNextBinade(m, n, top, Pow2(f - 1), e == 0);
    } else {
      assert e == f;
      assert m < n;
      if e > 0 {
        SameBinade(m, n, Pow2(e - 1));
      }
    }
  }

  lemma BelowNextBinade(m: nat, n: nat, p: nat, q: nat, subnormal: bool)
    requires m < 0x80_0000
    requires if subnormal then q >= 1 else q >= 2 * p
    requires p >= 1
    ensures (if subnormal then m else (m + 0x80_0000) * p) < (n + 0x80_0000) * q
  {
    assert (n + 0x80_0000) * q >= 0x80_0000 * q;
    if !subnormal {
      assert (m + 0x80_0000) * p < 0x100_0000 * p;
    }
  }

  lemma SameBinade(m: nat, n: nat, p: nat)
    requires m < n && p >= 1
    ensures (m + 0x80_0000) * p < (n + 0x80_0000) * p
  {
  }
}
