/**
 What the frame checksum detects (src/FrameCodec.cpp:174-182, src/Crc32.cpp) and the
 simulator's deliberate corruption (apps/satellite_simulator/SimulatorFrameFactory.cpp).

 The checksum is transmitted most significant byte first while the register works least
 significant bit first, so data and checksum are not one cyclic codeword: bursts are detected
 inside the covered part and inside the checksum, but not always across their boundary.
 `FourByteErrors` says exactly which four-byte errors go unseen.
 */
module ErrorDetection {
  import opened Bytes
  import opened FrameCodec
  import opened Crc32

  /** The comparison of the stored with the recomputed checksum. */
  ghost predicate ChecksumMatches(b: seq<byte>) {
    |b| >= CRC_SIZE && ReadU32BE(b, |b| - CRC_SIZE) == Checksum(b[..|b| - CRC_SIZE])
  }

  lemma AcceptedMatches(b: seq<byte>)
    requires DecodeFrame(b).Parsed?
    ensures ChecksumMatches(b) && MIN_FRAME_SIZE <= |b| <= MAX_FRAME_SIZE
  {
    hide DecodeFrame;
    AcceptedFields(b);
  }

  // ---------------------------------------------------------------- Bursts inside the covered part

  lemma BurstKeepsNoChecksum(b: seq<byte>, c: seq<byte>, p: nat)
    requires ChecksumMatches(b) && ChecksumMatches(c)
    requires |c| == |b| && p + 4 <= |b| - CRC_SIZE
    requires forall i :: 0 <= i < |b| && !(p <= i < p + 4) ==> c[i] == b[i]
    ensures c == b
  {
    hide ReadU32BE, Checksum;
    var n := |b| - CRC_SIZE;
    assert c[n..n + 4] == b[n..n + 4];
    Read32Local(b, n);
    Read32Local(c, n);
    BurstChangesChecksum(b[..n], c[..n], p);
    assert b == b[..n] + b[n..n + 4] && c == c[..n] + c[n..n + 4];
  }

  lemma ChecksumFieldIsDetermined(b: seq<byte>, c: seq<byte>)
    requires ChecksumMatches(b) && ChecksumMatches(c)
    requires |c| == |b| && c[..|b| - CRC_SIZE] == b[..|b| - CRC_SIZE]
    ensures c == b
  {
    hide ReadU32BE, U32BE, Checksum;
    var n := |b| - CRC_SIZE;
    U32Slice(b, n);
    U32Slice(c, n);
    assert b == b[..n] + b[n..n + 4] && c == c[..n] + c[n..n + 4];
  }

  /** Altering any bytes inside four consecutive covered bytes of an accepted frame is noticed. */
  lemma BurstIsRejected(b: seq<byte>, c: seq<byte>, p: nat)
    requires DecodeFrame(b).Parsed?
    requires |c| == |b| && p + 4 <= |b| - CRC_SIZE
    requires forall i :: 0 <= i < |b| && !(p <= i < p + 4) ==> c[i] == b[i]
    requires c != b
    ensures DecodeFrame(c).Rejected?
  {
    hide DecodeFrame, ChecksumMatches;
    if DecodeFrame(c).Parsed? {
      AcceptedMatches(b);
      AcceptedMatches(c);
      BurstKeepsNoChecksum(b, c, p);
    }
  }

  /** Altering nothing but the checksum field is noticed. */
  lemma ChecksumFieldIsRejected(b: seq<byte>, c: seq<byte>)
    requires DecodeFrame(b).Parsed? && |b| >= CRC_SIZE
    requires |c| == |b| && c[..|b| - CRC_SIZE] == b[..|b| - CRC_SIZE]
    requires c != b
    ensures DecodeFrame(c).Rejected?
  {
    hide DecodeFrame, ChecksumMatches;
    if DecodeFrame(c).Parsed? {
      AcceptedMatches(b);
      AcceptedMatches(c);
      ChecksumFieldIsDetermined(b, c);
    }
  }

  lemma SingleByteIsRejected(b: seq<byte>, c: seq<byte>, i: nat)
    requires DecodeFrame(b).Parsed?
    requires i < |b| && |c| == |b|
    requires forall k :: 0 <= k < |b| && k != i ==> c[k] == b[k]
    requires c[i] != b[i]
    ensures DecodeFrame(c).Rejected?
  {
    hide DecodeFrame;
    AcceptedMatches(b);
    var n := |b| - CRC_SIZE;
    if i >= n {
      ChecksumFieldIsRejected(b, c);
    } else {
      BurstIsRejected(b, c, if i + 4 <= n then i else n - 4);
    }
  }

  // ---------------------------------------------------------------- The simulator's corruption

  /** `at` is the index the generator drew; an empty frame is left alone. */
  method MaybeCorrupt(bytes: array<byte>, at: nat)
    requires bytes.Length > 0 ==> at < bytes.Length
    modifies bytes
    ensures bytes.Length == 0 ==> bytes[..] == old(bytes[..])
    ensures bytes.Length > 0 ==> bytes[..] == old(bytes[..])[at := old(bytes[at]) ^ 0x5A]
    ensures old(DecodeFrame(bytes[..])).Parsed? ==> DecodeFrame(bytes[..]).Rejected?
  {
    hide DecodeFrame;
    ghost var before := bytes[..];
    if bytes.Length == 0 {
      EmptyIsRejected(before);
      return;
    }
    MaskChanges(bytes[at]);
    bytes[at] := bytes[at] ^ 0x5A;
    if DecodeFrame(before).Parsed? {
      SingleByteIsRejected(before, bytes[..], at);
    }
  }

  lemma EmptyIsRejected(b: seq<byte>)
    requires b == []
    ensures DecodeFrame(b).Rejected?
  {
  }

  lemma MaskChanges(x: byte)
    ensures x ^ 0x5A != x
  {
  }

  // ---------------------------------------------------------------- Every error pattern

  lemma ReadXor(a: seq<byte>, e: seq<byte>, o: nat)
    requires |a| == |e| && o + 4 <= |a|
    ensures ReadU32BE(XorBytes(a, e), o) == Xor(ReadU32BE(a, o), ReadU32BE(e, o))
  {
    RawReadXor(a[o], a[o + 1], a[o + 2], a[o + 3], e[o], e[o + 1], e[o + 2], e[o + 3]);
  }

  function FourBE(b0: byte, b1: byte, b2: byte, b3: byte): u32 {
    ((b0 as u32) << 24) | ((b1 as u32) << 16) | ((b2 as u32) << 8) | (b3 as u32)
  }

  lemma RawReadXor(a0: byte, a1: byte, a2: byte, a3: byte, e0: byte, e1: byte, e2: byte, e3: byte)
    ensures FourBE(a0 ^ e0, a1 ^ e1, a2 ^ e2, a3 ^ e3) == Xor(FourBE(a0, a1, a2, a3), FourBE(e0, e1, e2, e3))
  {
  }

  /** An error pattern passes the checksum exactly when its own syndrome equals its own last four bytes. */
  lemma ErrorPatternUndetected(b: seq<byte>, e: seq<byte>)
    requires ChecksumMatches(b) && |e| == |b|
    ensures ChecksumMatches(XorBytes(b, e)) <==> Syndrome(e[..|e| - CRC_SIZE]) == ReadU32BE(e, |e| - CRC_SIZE)
  {
    hide ReadU32BE, Xor, Fold, Checksum, Syndrome;
    var n := |b| - CRC_SIZE;
    ReadXor(b, e, n);
    assert XorBytes(b, e)[..n] == XorBytes(b[..n], e[..n]);
    ChecksumAffine(b[..n], e[..n]);
    var k := Checksum(b[..n]);
    if Xor(k, ReadU32BE(e, n)) == Xor(k, Syndrome(e[..n])) {
      XorCommutes(k, ReadU32BE(e, n));
      XorCommutes(k, Syndrome(e[..n]));
      XorCancel(ReadU32BE(e, n), Syndrome(e[..n]), k);
    }
  }

  // ---------------------------------------------------------------- Four-byte errors, exactly

  /** The string of length `n` that is zero outside a window of four bytes at `p`. */
  ghost predicate Window(e: seq<byte>, p: nat) {
    p + 4 <= |e| && forall i :: 0 <= i < |e| && !(p <= i < p + 4) ==> e[i] == 0
  }

  lemma {:induction false} SyndromeOfZeros(n: nat)
    ensures Fold(0, Zeros(n)) == 0
  {
    hide Update;
    if n > 0 {
      assert Zeros(n)[1..] == Zeros(n - 1);
      UpdateZero();
      SyndromeOfZeros(n - 1);
    }
  }

  lemma UpdateZero()
    ensures Update(0, 0) == 0
  {
    hide Xor, Bits, Fold;
    ExtendZero();
    XorSelf(0);
    MaskedZero();
    EightZeroBits(0);
  }

  lemma ExtendZero()
    ensures Extend(0) == 0
  {
  }

  lemma MaskedZero()
    ensures And(0, 0xFF) == 0 && Shr8(0) == 0
  {
  }

  lemma SyndromeAfterZeros(z: nat, w: seq<byte>)
    ensures Syndrome(Zeros(z) + w) == Fold(0, w)
  {
    hide Update;
    FoldAppend(0, Zeros(z), w);
    SyndromeOfZeros(z);
  }

  /** A bit step written out with the machine operators. */
  function Raw(c: u32): u32 {
    if c & 1 != 0 then (c >> 1) ^ 0xEDB8_8320 else c >> 1
  }

  function Raw8(c: u32): u32 { Raw(Raw(Raw(Raw(Raw(Raw(Raw(Raw(c)))))))) }

  lemma RawIsBit(c: u32)
    ensures Bit(c) == Raw(c)
  {
    ShowBit(c);
  }

  lemma BitsIsRaw8(c: u32)
    ensures Bits(c, 8) == Raw8(c)
  {
    hide Bit, Raw;
    var c1 := Raw(c);
    var c2 := Raw(c1);
    var c3 := Raw(c2);
    var c4 := Raw(c3);
    var c5 := Raw(c4);
    var c6 := Raw(c5);
    var c7 := Raw(c6);
    RawIsBit(c);
    RawIsBit(c1);
    RawIsBit(c2);
    RawIsBit(c3);
    RawIsBit(c4);
    RawIsBit(c5);
    RawIsBit(c6);
    RawIsBit(c7);
    assert Bits(c, 8) == Bits(c2, 6);
    assert Bits(c2, 6) == Bits(c4, 4);
    assert Bits(c4, 4) == Bits(c6, 2);
    assert Bits(c6, 2) == Raw(c7);
  }

  lemma Fold1(a: byte)
    ensures Fold(0, [a]) == Raw8(Word(a, 0, 0, 0))
  {
    hide Bits, Bit, Xor, Extend, Word, Raw8, Update;
    ConsumeByte(0, a, 0, 0, 0);
    WordBits(0, 0, 0, 0);
    XorSelf(Word(a, 0, 0, 0));
    XorSelf(Update(0, a));
    BitsIsRaw8(Word(a, 0, 0, 0));
    assert [a][1..] == [];
  }

  lemma Fold2(a: byte, b: byte)
    ensures Fold(0, [a, b]) == Raw8(Raw8(Word(a, b, 0, 0)))
  {
    hide Bits, Bit, Xor, Extend, Word, Raw8, Update;
    var c := Update(0, a);
    ConsumeByte(0, a, b, 0, 0);
    ConsumeByte(c, b, 0, 0, 0);
    WordBits(0, 0, 0, 0);
    XorSelf(Word(a, b, 0, 0));
    XorSelf(Update(c, b));
    BitsIsRaw8(Word(a, b, 0, 0));
    BitsIsRaw8(Raw8(Word(a, b, 0, 0)));
    assert [a, b][1..] == [b] && [b][1..] == [];
    assert Fold(0, [a, b]) == Fold(c, [b]);
  }

  lemma Fold3(a: byte, b: byte, d: byte)
    ensures Fold(0, [a, b, d]) == Raw8(Raw8(Raw8(Word(a, b, d, 0))))
  {
    hide Bits, Bit, Xor, Extend, Word, Raw8, Update;
    var c := Update(0, a);
    var c2 := Update(c, b);
    ConsumeByte(0, a, b, d, 0);
    ConsumeByte(c, b, d, 0, 0);
    ConsumeByte(c2, d, 0, 0, 0);
    WordBits(0, 0, 0, 0);
    XorSelf(Word(a, b, d, 0));
    XorSelf(Update(c2, d));
    BitsIsRaw8(Word(a, b, d, 0));
    BitsIsRaw8(Raw8(Word(a, b, d, 0)));
    BitsIsRaw8(Raw8(Raw8(Word(a, b, d, 0))));
    assert [a, b, d][1..] == [b, d] && [b, d][1..] == [d] && [d][1..] == [];
    assert Fold(0, [a, b, d]) == Fold(c, [b, d]);
    assert Fold(c, [b, d]) == Fold(c2, [d]);
    assert Fold(c2, [d]) == Fold(Update(c2, d), []);
  }

  lemma OneDataByte(x: u32)
    requires x & 0xFFFF_FF00 == 0 && Raw8(x) & 0xFF == 0
    ensures x == 0
  {
  }

  lemma TwoDataBytes(x: u32)
    requires x & 0xFFFF_0000 == 0 && Raw8(Raw8(x)) & 0xFFFF == 0
    ensures x == 0 || x == 0xD861
  {
  }

  lemma TwoDataBytesValue()
    ensures Raw8(Raw8(0)) == 0 && Raw8(Raw8(0xD861)) == 0xF4EE_0000
  {
  }

  /** The bit step run backwards. */
  function Back(c: u32): u32 {
    if c & 0x8000_0000 != 0 then ((c ^ 0xEDB8_8320) << 1) | 1 else c << 1
  }

  function Back8(c: u32): u32 { Back(Back(Back(Back(Back(Back(Back(Back(c)))))))) }

  lemma BackUndoes(c: u32)
    ensures Back(Raw(c)) == c
  {
  }

  lemma Back8Undoes(c: u32)
    ensures Back8(Raw8(c)) == c
  {
    hide Back, Raw;
    var c1 := Raw(c);
    var c2 := Raw(c1);
    var c3 := Raw(c2);
    var c4 := Raw(c3);
    var c5 := Raw(c4);
    var c6 := Raw(c5);
    var c7 := Raw(c6);
    BackUndoes(c7);
    BackUndoes(c6);
    BackUndoes(c5);
    BackUndoes(c4);
    BackUndoes(c3);
    BackUndoes(c2);
    BackUndoes(c1);
    BackUndoes(c);
  }

  lemma TopByteOnly(t: u32)
    requires t & 0x00FF_FFFF == 0 && Back8(Back8(Back8(t))) & 0xFF00_0000 == 0
    ensures t == 0
  {
  }

  lemma BackOfZero()
    ensures Back8(0) == 0
  {
  }

  lemma ThreeDataBytes(x: u32)
    requires x & 0xFF00_0000 == 0 && Raw8(Raw8(Raw8(x))) & 0x00FF_FFFF == 0
    ensures x == 0
  {
    hide Back8, Raw8;
    Back8Undoes(x);
    Back8Undoes(Raw8(x));
    Back8Undoes(Raw8(Raw8(x)));
    TopByteOnly(Raw8(Raw8(Raw8(x))));
    BackOfZero();
  }

  lemma WordLow(a: byte, b: byte, d: byte)
    ensures Word(a, 0, 0, 0) & 0xFFFF_FF00 == 0 && Word(a, b, 0, 0) & 0xFFFF_0000 == 0
    ensures Word(a, b, d, 0) & 0xFF00_0000 == 0
    ensures Word(a, 0, 0, 0) == 0 ==> a == 0
    ensures Word(a, b, 0, 0) == 0 ==> a == 0 && b == 0
    ensures Word(a, b, 0, 0) == 0xD861 <==> a == 0x61 && b == 0xD8
    ensures Word(a, b, d, 0) == 0 ==> a == 0 && b == 0 && d == 0
  {
  }

  lemma FieldLow(a: byte, b: byte, d: byte, e: byte)
    ensures FourBE(b, d, e, 0) & 0xFF == 0 && FourBE(d, e, 0, 0) & 0xFFFF == 0 && FourBE(e, 0, 0, 0) & 0xFF_FFFF == 0
    ensures FourBE(a, b, d, e) == 0 <==> a == 0 && b == 0 && d == 0 && e == 0
    ensures FourBE(d, e, 0, 0) == 0xF4EE_0000 <==> d == 0xF4 && e == 0xEE
  {
  }

  lemma StraddleOne(a: byte, b: byte, d: byte, e: byte)
    ensures Fold(0, [a]) == FourBE(b, d, e, 0) ==> a == 0 && b == 0 && d == 0 && e == 0
  {
    hide Fold, Raw8, Word, FourBE;
    Fold1(a);
    WordLow(a, 0, 0);
    FieldLow(b, d, e, 0);
    FieldLow(0, b, d, e);
    if Fold(0, [a]) == FourBE(b, d, e, 0) {
      OneDataByte(Word(a, 0, 0, 0));
      RawOfZero();
    }
  }

  lemma RawOfZero()
    ensures Raw8(0) == 0
  {
  }

  lemma StraddleTwo(a: byte, b: byte, d: byte, e: byte)
    ensures Fold(0, [a, b]) == FourBE(d, e, 0, 0)
       <==> [a, b, d, e] == [0, 0, 0, 0] || [a, b, d, e] == [0x61, 0xD8, 0xF4, 0xEE]
  {
    hide Fold, Raw8, Word, FourBE;
    Fold2(a, b);
    WordLow(a, b, 0);
    FieldLow(0, 0, d, e);
    FieldLow(d, e, 0, 0);
    TwoDataBytesValue();
    ZeroWord();
    if Fold(0, [a, b]) == FourBE(d, e, 0, 0) {
      TwoDataBytes(Word(a, b, 0, 0));
    }
  }

  lemma ZeroWord()
    ensures Word(0, 0, 0, 0) == 0 && FourBE(0, 0, 0, 0) == 0
  {
  }

  lemma StraddleThree(a: byte, b: byte, d: byte, e: byte)
    ensures Fold(0, [a, b, d]) == FourBE(e, 0, 0, 0) ==> a == 0 && b == 0 && d == 0 && e == 0
  {
    hide Fold, Raw8, Word, FourBE;
    Fold3(a, b, d);
    WordLow(a, b, d);
    FieldLow(0, 0, 0, e);
    FieldLow(e, 0, 0, 0);
    if Fold(0, [a, b, d]) == FourBE(e, 0, 0, 0) {
      ThreeDataBytes(Word(a, b, d, 0));
      RawOfZero();
    }
  }

  // ---------------------------------------------------------------- The classification

  const BLIND_SPOT: seq<byte> := [0x61, 0xD8, 0xF4, 0xEE]

  /** The part of a straddling window that lies in the data decides the syndrome. */
  lemma StraddlingSyndrome(e: seq<byte>, p: nat, n: nat)
    requires |e| == n + CRC_SIZE && Window(e, p) && p < n
    ensures Syndrome(e[..n]) == Fold(0, e[p..n])
  {
    hide Syndrome, Fold;
    assert e[..n] == Zeros(p) + e[p..n];
    SyndromeAfterZeros(p, e[p..n]);
  }

  lemma ReadIsFourBE(e: seq<byte>, n: nat)
    requires n + 4 <= |e|
    ensures ReadU32BE(e, n) == FourBE(e[n], e[n + 1], e[n + 2], e[n + 3])
  {
  }

  lemma StraddlingError(e: seq<byte>, p: nat, n: nat)
    requires |e| == n + CRC_SIZE && Window(e, p) && p < n < p + 4
    ensures Syndrome(e[..n]) == ReadU32BE(e, n)
       <==> (forall i :: 0 <= i < |e| ==> e[i] == 0) || (p + 2 == n && e[p..p + 4] == BLIND_SPOT)
  {
    hide Syndrome, Fold, ReadU32BE, FourBE;
    StraddlingSyndrome(e, p, n);
    ReadIsFourBE(e, n);
    var w := e[p..p + 4];
    assert w == [w[0], w[1], w[2], w[3]];
    assert w[0] == e[p] && w[1] == e[p + 1] && w[2] == e[p + 2] && w[3] == e[p + 3];
    assert (forall i :: 0 <= i < |e| ==> e[i] == 0) <==> w == [0, 0, 0, 0];
    StraddleZero();
    if p + 1 == n {
      assert e[p..n] == [w[0]];
      StraddleOne(w[0], w[1], w[2], w[3]);
    } else if p + 2 == n {
      assert e[p..n] == [w[0], w[1]];
      StraddleTwo(w[0], w[1], w[2], w[3]);
    } else {
      assert e[p..n] == [w[0], w[1], w[2]];
      StraddleThree(w[0], w[1], w[2], w[3]);
    }
  }

  lemma StraddleZero()
    ensures Fold(0, [0]) == FourBE(0, 0, 0, 0) && Fold(0, [0, 0, 0]) == FourBE(0, 0, 0, 0)
  {
    hide Fold, Raw8;
    Fold1(0);
    Fold3(0, 0, 0);
    ZeroWord();
    RawOfZero();
  }

  lemma XorSame(b: seq<byte>, e: seq<byte>, i: nat)
    requires |b| == |e| && i < |b|
    ensures XorBytes(b, e)[i] == b[i] <==> e[i] == 0
  {
    RawXorSame(b[i], e[i]);
  }

  lemma RawXorSame(x: byte, y: byte)
    ensures x ^ y == x <==> y == 0
  {
  }

  /**
   A non-zero error confined to four consecutive bytes passes the checksum exactly when it is
   the one blind spot: two data bytes and two checksum bytes with the values of `BLIND_SPOT`.
   */
  lemma FourByteErrors(b: seq<byte>, e: seq<byte>, p: nat)
    requires ChecksumMatches(b) && |e| == |b| && Window(e, p)
    requires exists i :: 0 <= i < |e| && e[i] != 0
    ensures ChecksumMatches(XorBytes(b, e)) <==> p + 2 == |b| - CRC_SIZE && e[p..p + 4] == BLIND_SPOT
  {
    hide ReadU32BE, Checksum, Syndrome;
    var n := |b| - CRC_SIZE;
    var c := XorBytes(b, e);
    forall i | 0 <= i < |b|
      ensures c[i] == b[i] <==> e[i] == 0
    {
      XorSame(b, e, i);
    }
    if p < n < p + 4 {
      ErrorPatternUndetected(b, e);
      StraddlingError(e, p, n);
    } else if ChecksumMatches(c) {
      if p + 4 <= n {
        BurstKeepsNoChecksum(b, c, p);
      } else {
        assert c[..n] == b[..n];
        ChecksumFieldIsDetermined(b, c);
      }
    }
  }

  /** The remaining checks look at the header only. */
  lemma AcceptedByHeader(b: seq<byte>, c: seq<byte>)
    requires DecodeFrame(b).Parsed? && |c| == |b| && HEADER_SIZE <= |b| && c[..HEADER_SIZE] == b[..HEADER_SIZE]
    requires ChecksumMatches(c)
    ensures DecodeFrame(c).Parsed?
  {
    hide ReadU16BE, ReadU32BE, ReadU64BE, IsFinite, Checksum;
    assert c[0..4] == c[..HEADER_SIZE][0..4] && b[0..4] == b[..HEADER_SIZE][0..4];
    assert c[15..19] == c[..HEADER_SIZE][15..19] && b[15..19] == b[..HEADER_SIZE][15..19];
    assert c[21..23] == c[..HEADER_SIZE][21..23] && b[21..23] == b[..HEADER_SIZE][21..23];
    Read32Local(b, 0);
    Read32Local(c, 0);
    Read32Local(b, 15);
    Read32Local(c, 15);
    Read16Local(b, 21);
    Read16Local(c, 21);
    assert c[4] == c[..HEADER_SIZE][4] && c[19] == c[..HEADER_SIZE][19] && c[20] == c[..HEADER_SIZE][20];
  }

  /** The blind spot as an error pattern on a frame of `n` bytes. */
  function BlindSpot(n: nat): (e: seq<byte>)
    requires n >= 6
    ensures |e| == n
  {
    Zeros(n - 6) + BLIND_SPOT + Zeros(2)
  }

  lemma BlindSpotIsWindow(n: nat)
    requires n >= 6
    ensures Window(BlindSpot(n), n - 6) && BlindSpot(n)[n - 6..n - 2] == BLIND_SPOT && BlindSpot(n)[n - 6] != 0
  {
    assert BLIND_SPOT[0] != 0;
  }

  /** The blind spot is real: it turns every frame with at least two payload bytes into another accepted frame. */
  lemma BoundaryBurstIsAccepted(f: TelemetryFrame)
    requires Encodable(f) && |f.payload| >= 2
    ensures XorBytes(Wire(f), BlindSpot(|Wire(f)|)) != Wire(f)
    ensures DecodeFrame(XorBytes(Wire(f), BlindSpot(|Wire(f)|))).Parsed?
  {
    hide DecodeFrame, ChecksumMatches, IsFinite, Wire, BlindSpot, Window;
    var b := Wire(f);
    var e := BlindSpot(|b|);
    var p := |b| - 6;
    var c := XorBytes(b, e);
    DecodeOfEncode(f);
    AcceptedMatches(b);
    BlindSpotIsWindow(|b|);
    FourByteErrors(b, e, p);
    XorSame(b, e, p);
    HeaderKept(b, e, p);
    AcceptedByHeader(b, c);
  }

  /** Two accepted strings of one length have the same length field. */
  lemma SameLengthField(b: seq<byte>, c: seq<byte>)
    requires DecodeFrame(b).Parsed? && DecodeFrame(c).Parsed? && |c| == |b|
    ensures |b| >= HEADER_SIZE && c[21..23] == b[21..23]
  {
    hide DecodeFrame, ReadU16BE, U16BE;
    AcceptedFields(b);
    AcceptedFields(c);
    U16Nat(ReadU16BE(b, 21));
    U16Nat(ReadU16BE(c, 21));
    U16Slice(b, 21);
    U16Slice(c, 21);
  }

  lemma LengthByteAltered(b: seq<byte>, e: seq<byte>, p: nat)
    requires |e| == |b| && p + 4 <= |e| && e[p..p + 4] == BLIND_SPOT && (p == 21 || p == 22)
    ensures XorBytes(b, e)[22] != b[22]
  {
    assert e[p] == BLIND_SPOT[0] && e[p + 1] == BLIND_SPOT[1];
    XorSame(b, e, 22);
  }

  /**
   For the decoder: a non-zero error within four consecutive bytes of an accepted frame goes unseen
   exactly when it is the blind spot and the frame has at least two payload bytes.  In a shorter
   frame the blind spot reaches into the length field, which gives it away.
   */
  lemma FourByteErrorsDecoded(b: seq<byte>, e: seq<byte>, p: nat)
    requires DecodeFrame(b).Parsed? && |e| == |b| && Window(e, p)
    requires exists i :: 0 <= i < |e| && e[i] != 0
    ensures DecodeFrame(XorBytes(b, e)).Parsed?
       <==> p + 2 == |b| - CRC_SIZE && e[p..p + 4] == BLIND_SPOT && |b| >= MIN_FRAME_SIZE + 2
  {
    hide DecodeFrame, ChecksumMatches, BLIND_SPOT;
    var c := XorBytes(b, e);
    AcceptedMatches(b);
    FourByteErrors(b, e, p);
    if DecodeFrame(c).Parsed? {
      AcceptedMatches(c);
      if |b| < MIN_FRAME_SIZE + 2 {
        SameLengthField(b, c);
        assert c[22] == c[21..23][1] && b[22] == b[21..23][1];
        LengthByteAltered(b, e, p);
        assert false;
      }
    } else if p + 2 == |b| - CRC_SIZE && e[p..p + 4] == BLIND_SPOT && |b| >= MIN_FRAME_SIZE + 2 {
      HeaderKept(b, e, p);
      AcceptedByHeader(b, c);
      assert false;
    }
  }

  lemma HeaderKept(b: seq<byte>, e: seq<byte>, p: nat)
    requires |b| == |e| && Window(e, p) && HEADER_SIZE <= p
    ensures XorBytes(b, e)[..HEADER_SIZE] == b[..HEADER_SIZE]
  {
    forall i | 0 <= i < HEADER_SIZE
      ensures XorBytes(b, e)[i] == b[i]
    {
      XorSame(b, e, i);
    }
  }
}
