/**
 The STGA payload byte by byte (src/ApplicationPayload.cpp:132-206): its layout, and what the decoder
 makes of one that is cut, whose header is altered, or whose signal is not allowed.
 */
module PayloadReasons {
  import opened Bytes
  import opened ByteValues
  import opened FrameCodec
  import opened ApplicationPayload

  // ---------------------------------------------------------------- Layout

  lemma CommonBytes(kind: byte)
    ensures CommonHeader(kind) == [0x53, 0x54, 0x47, 0x41, 1, kind]
  {
  }

  lemma TextLayout(m: TextMessage)
    ensures var p := TextWire(m);
            && |p| == 10 + |m.text| && p[..6] == [0x53, 0x54, 0x47, 0x41, 1, 1]
            && Value(p[6..10]) == m.sequence as nat && p[10..] == m.text
  {
    hide U32BE, Value, CommonHeader;
    var p := TextWire(m);
    CommonBytes(1);
    WritersKeepValues(0, m.sequence, 0);
    assert p[..6] == CommonHeader(TEXT_KIND) && p[6..10] == U32BE(m.sequence);
  }

  lemma SignalLayout(s: SignalBlock)
    requires |s.samples| < 0x1_0000
    ensures var p := SignalWire(s);
            && |p| == 22 + 4 * |s.samples| && p[..6] == [0x53, 0x54, 0x47, 0x41, 1, 2]
            && Value(p[6..8]) == s.sampleRateHz as nat && Value(p[8..12]) == s.frequencyHz as nat
            && Value(p[12..16]) == s.nominalAmplitude as nat && Value(p[16..20]) == s.startSampleIndex as nat
            && Value(p[20..22]) == |s.samples|
            && forall i :: 0 <= i < |s.samples| ==> Value(p[22 + 4 * i..22 + 4 * i + 4]) == s.samples[i] as nat
  {
    hide U16BE, U32BE, Value, CommonHeader, SignalHeader, SamplesWire;
    var p := SignalWire(s);
    assert p[..SIGNAL_FIXED_SIZE] == SignalHeader(s);
    SignalSlices(s, p);
    CommonBytes(2);
    WritersKeepValues(s.sampleRateHz, s.frequencyHz, 0);
    WritersKeepValues(|s.samples| as u16, s.nominalAmplitude, 0);
    WritersKeepValues(0, s.startSampleIndex, 0);
    NatU16(|s.samples|);
    forall i | 0 <= i < |s.samples|
      ensures Value(p[22 + 4 * i..22 + 4 * i + 4]) == s.samples[i] as nat
    {
      SamplesWireAt(s.samples, i);
      assert p[22 + 4 * i..22 + 4 * i + 4] == SamplesWire(s.samples)[4 * i..4 * i + 4];
      WritersKeepValues(0, s.samples[i], 0);
    }
  }

  // ---------------------------------------------------------------- What the decoder answers

  lemma MagicOf(p: seq<byte>)
    ensures HasMagic(p) <==> |p| >= 4 && p[..4] == [0x53, 0x54, 0x47, 0x41]
  {
    hide ReadU32BE, U32BE;
    MagicSpelt();
    if |p| >= 4 {
      Read32Local(p, 0);
      U32Slice(p, 0);
      U32RoundTrip(APPLICATION_MAGIC);
      assert p[0..4] == p[..4];
    }
  }

  lemma MagicSpelt()
    ensures U32BE(APPLICATION_MAGIC) == [0x53, 0x54, 0x47, 0x41]
  {
  }

  /** A payload of which only the first `k` bytes are left has the header, or the part of it, that was there. */
  lemma CutHeader(p: seq<byte>, kind: byte, k: nat)
    requires 6 <= |p| && p[..6] == [0x53, 0x54, 0x47, 0x41, 1, kind] && k <= |p|
    ensures k < 4 ==> DecodePayload(p[..k]) == Opaque
    ensures 4 <= k < 6 ==> DecodePayload(p[..k]) == Malformed(TruncatedHeader)
    ensures k >= 6 ==> HasMagic(p[..k]) && p[..k][4] == 1 && p[..k][5] == kind
  {
    hide HasMagic, DecodeText, DecodeSignal;
    MagicOf(p[..k]);
    assert p[..6][..4] == [0x53, 0x54, 0x47, 0x41];
    if k >= 4 {
      assert p[..k][..4] == p[..6][..4];
    }
    if k >= 6 {
      assert p[..k][4] == p[..6][4] && p[..k][5] == p[..6][5];
    }
  }

  /** A cut text: opaque, a truncated header, too short, or a shorter text that nothing gives away. */
  lemma CutText(m: TextMessage, k: nat)
    requires k <= |TextWire(m)|
    ensures DecodePayload(TextWire(m)[..k])
         == if k < 4 then Opaque
            else if k < 6 then Malformed(TruncatedHeader)
            else if k < 10 then Malformed(InvalidLength)
            else Text(TextMessage(m.sequence, m.text[..k - 10]))
  {
    hide HasMagic, DecodeSignal, ReadU32BE, TextWire;
    var p := TextWire(m);
    TextLayout(m);
    CutHeader(p, 1, k);
    if k >= 10 {
      var short := TextMessage(m.sequence, m.text[..k - 10]);
      assert p[..k] == TextWire(short) by {
        ShorterText(m, k - 10);
      }
      TextIsBijective(p[..k], short);
    }
  }

  lemma ShorterText(m: TextMessage, n: nat)
    requires n <= |m.text|
    ensures TextWire(m)[..10 + n] == TextWire(TextMessage(m.sequence, m.text[..n]))
  {
    hide U32BE, CommonHeader;
  }

  /** A cut signal is never taken for a signal: its own sample count gives it away. */
  lemma CutSignal(s: SignalBlock, k: nat)
    requires |s.samples| < 0x1_0000 && k < |SignalWire(s)|
    ensures DecodePayload(SignalWire(s)[..k])
         == if k < 4 then Opaque
            else if k < 6 then Malformed(TruncatedHeader)
            else Malformed(InvalidLength)
  {
    hide HasMagic, ReadU16BE, ReadU32BE, Value, ValidSignalMetadata, AllFinite, SamplesAt, SignalWire, DecodeText;
    var p := SignalWire(s);
    SignalLayout(s);
    CutHeader(p, 2, k);
    if k >= 22 {
      ReadU16Value(p[..k], 20);
      assert p[..k][20..22] == p[20..22];
    }
  }

  /** A whole signal payload is read back unless its metadata or one of its samples is not allowed. */
  lemma WholeSignal(s: SignalBlock)
    requires |s.samples| < 0x1_0000
    ensures DecodePayload(SignalWire(s))
         == if ValidSignalMetadata(s.sampleRateHz, s.frequencyHz, s.nominalAmplitude)
               && (forall i :: 0 <= i < |s.samples| ==> s.samples[i] & 0x7F80_0000 != 0x7F80_0000)
            then Signal(s) else Malformed(InvalidSignalMetadata)
  {
    hide ReadU16BE, ReadU32BE, SampleCount, SamplesAt, HasMagic, ValidSignalMetadata, SignalHeader, SamplesWire,
         IsFinite, DecodeText;
    var p := SignalWire(s);
    assert p[..SIGNAL_FIXED_SIZE] == SignalHeader(s);
    SignalFields(s, p);
    SamplesOfWire(SignalHeader(s), s.samples);
    forall i | 0 <= i < |s.samples|
      ensures IsFinite(s.samples[i]) <==> s.samples[i] & 0x7F80_0000 != 0x7F80_0000
    {
      FiniteBits(s.samples[i]);
    }
  }

  /** One altered header byte: without its magic the payload is opaque, the others have their own errors. */
  lemma AlteredHeader(p: seq<byte>, i: nat, x: byte)
    requires DecodePayload(p).Text? || DecodePayload(p).Signal?
    requires i < 6 && i < |p| && x != p[i]
    ensures i < 4 ==> DecodePayload(p[i := x]) == Opaque
    ensures i == 4 ==> DecodePayload(p[i := x]) == Malformed(BadVersion)
    ensures i == 5 && x != 1 && x != 2 ==> DecodePayload(p[i := x]) == Malformed(UnknownKind)
  {
    hide HasMagic, DecodeText, DecodeSignal;
    KindOfDecoded(p);
    MagicOf(p);
    MagicOf(p[i := x]);
    if i < 4 {
      assert p[i := x][..4][i] != p[..4][i];
    } else {
      assert p[i := x][..4] == p[..4];
    }
  }
}
