/**
 Two flipped bits, anywhere in an accepted frame (src/FrameCodec.cpp:174-182): the decoder notices.

 A flipped bit contributes a power of x to the difference of the checksums, covered or not; two
 powers less than the order of x apart are different.
 */
module BitErrors {
  import opened Bytes
  import opened FrameCodec
  import opened Crc32
  import opened CrcOrder
  import opened ErrorDetection

  // ---------------------------------------------------------------- One bit

  /** The value of bit `t` of a byte, 0 the lowest. */
  function Mask(t: nat): byte
    requires t < 8
  {
    match t
    case 0 => 0x01
    case 1 => 0x02
    case 2 => 0x04
    case 3 => 0x08
    case 4 => 0x10
    case 5 => 0x20
    case 6 => 0x40
    case 7 => 0x80
  }

  /** The string of `n` bytes with bit number `g` set, counted from the lowest bit of the first byte. */
  function OneBit(n: nat, g: nat): (e: seq<byte>)
    requires g < 8 * n
    ensures |e| == n
  {
    Zeros(g / 8) + [Mask(g % 8)] + Zeros(n - g / 8 - 1)
  }

  // ---------------------------------------------------------------- The first powers are single bits

  lemma PowerShift(k: nat, v: u32)
    requires Power(k) == v && And(v, 0xFF) == 0
    ensures Power(k + 8) == Shr8(v)
  {
    hide Bits, And, Shr8;
    BitsAdd(ONE, k, 8);
    EightZeroBits(v);
  }

  lemma PowerHalf(k: nat, v: u32)
    requires Power(k) == v && v & 1 == 0
    ensures Power(k + 1) == v >> 1
  {
    hide Power;
    NextPower(k);
    ShowBit(v);
  }

  lemma FirstPowers()
    ensures Power(0) == 0x8000_0000 && Power(1) == 0x4000_0000 && Power(2) == 0x2000_0000 && Power(3) == 0x1000_0000
    ensures Power(4) == 0x0800_0000 && Power(5) == 0x0400_0000 && Power(6) == 0x0200_0000 && Power(7) == 0x0100_0000
  {
    hide Power;
    PowerZero();
    PowerHalf(0, 0x8000_0000);
    PowerHalf(1, 0x4000_0000);
    PowerHalf(2, 0x2000_0000);
    PowerHalf(3, 0x1000_0000);
    PowerHalf(4, 0x0800_0000);
    PowerHalf(5, 0x0400_0000);
    PowerHalf(6, 0x0200_0000);
  }

  /** Bit `t` of the top byte of a register. */
  function TopMask(t: nat): u32
    requires t < 8
  {
    (Mask(t) as u32) << 24
  }

  lemma TopPower(t: nat)
    requires t < 8
    ensures Power(7 - t) == TopMask(t)
  {
    hide Power;
    FirstPowers();
  }

  /** Bit `t` of byte `q` of a register, 0 the top byte. */
  function WordMask(q: nat, t: nat): u32
    requires q < 4 && t < 8
  {
    match q
    case 0 => (Mask(t) as u32) << 24
    case 1 => (Mask(t) as u32) << 16
    case 2 => (Mask(t) as u32) << 8
    case 3 => Mask(t) as u32
  }

  lemma NextByte(q: nat, t: nat)
    requires q < 3 && t < 8
    ensures And(WordMask(q, t), 0xFF) == 0 && Shr8(WordMask(q, t)) == WordMask(q + 1, t)
  {
  }

  /** Each bit of a register is a power of x below 32. */
  lemma {:induction false} WordPower(q: nat, t: nat)
    requires q < 4 && t < 8
    ensures Power(8 * q + 7 - t) == WordMask(q, t)
    decreases q
  {
    hide Power, And, Shr8, Mask;
    if q == 0 {
      TopPower(t);
    } else {
      WordPower(q - 1, t);
      NextByte(q - 1, t);
      PowerShift(8 * (q - 1) + 7 - t, WordMask(q - 1, t));
    }
  }

  // ---------------------------------------------------------------- The syndrome of one bit

  lemma {:induction false} ZerosShift(c: u32, n: nat)
    ensures Fold(c, Zeros(n)) == Bits(c, 8 * n)
    decreases n
  {
    hide Bits, Xor, Extend;
    if n == 0 {
      NoBits(c);
    } else {
      ExtendZero();
      XorSelf(c);
      assert Zeros(n)[0] == 0 && Zeros(n)[1..] == Zeros(n - 1);
      ZerosShift(Bits(c, 8), n - 1);
      BitsAdd(c, 8, 8 * (n - 1));
    }
  }

  lemma NoBits(c: u32)
    ensures Bits(c, 0) == c
  {
  }

  lemma MaskIsPower(t: nat)
    requires t < 8
    ensures Update(0, Mask(t)) == Power(39 - t)
  {
    hide Bits, Xor, Mask, WordMask, Extend;
    XorSelf(Extend(Mask(t)));
    WordPower(3, t);
    ExtendMask(t);
    BitsAdd(ONE, 31 - t, 8);
  }

  lemma ExtendMask(t: nat)
    requires t < 8
    ensures Extend(Mask(t)) == WordMask(3, t)
  {
    hide Mask;
  }

  /** A single bit moves the checksum by a power of x: its distance from the end, plus 31. */
  lemma OneBitSyndrome(n: nat, g: nat)
    requires g < 8 * n
    ensures Syndrome(OneBit(n, g)) == Power(31 + 8 * n - g)
  {
    hide Bits, Update, Mask;
    var p, t := g / 8, g % 8;
    var later := n - p - 1;
    assert OneBit(n, g) == Zeros(p) + ([Mask(t)] + Zeros(later));
    SyndromeAfterZeros(p, [Mask(t)] + Zeros(later));
    assert ([Mask(t)] + Zeros(later))[1..] == Zeros(later);
    MaskIsPower(t);
    ZerosShift(Power(39 - t), later);
    BitsAdd(ONE, 39 - t, 8 * later);
  }

  /** A single bit of the checksum field, as the field is read. */
  lemma OneBitField(n: nat, g: nat)
    requires n >= 4 && 8 * (n - 4) <= g < 8 * n
    ensures var q, t := g / 8 - (n - 4), g % 8;
            q < 4 && ReadU32BE(OneBit(n, g), n - 4) == Power(8 * q + 7 - t)
  {
    hide Power, Mask;
    var q, t := g / 8 - (n - 4), g % 8;
    var e := OneBit(n, g);
    assert e[n - 4] == if q == 0 then Mask(t) else 0;
    assert e[n - 4 + 1] == if q == 1 then Mask(t) else 0;
    assert e[n - 4 + 2] == if q == 2 then Mask(t) else 0;
    assert e[n - 4 + 3] == if q == 3 then Mask(t) else 0;
    WordPower(q, t);
    ReadMask(q, t);
    assert ReadU32BE(e, n - 4) == FourBE(e[n - 4], e[n - 4 + 1], e[n - 4 + 2], e[n - 4 + 3]);
  }

  lemma ReadMask(q: nat, t: nat)
    requires q < 4 && t < 8
    ensures WordMask(q, t) == FourBE(if q == 0 then Mask(t) else 0, if q == 1 then Mask(t) else 0,
                                     if q == 2 then Mask(t) else 0, if q == 3 then Mask(t) else 0)
  {
    hide Mask;
  }

  // ---------------------------------------------------------------- Two bits

  /** `e` with bits number `g` and `k` set, and no other. */
  function TwoBits(n: nat, g: nat, k: nat): (e: seq<byte>)
    requires g < k < 8 * n
    ensures |e| == n
  {
    XorBytes(OneBit(n, g), OneBit(n, k))
  }

  lemma DifferentPowers(a: nat, b: nat)
    requires b < a < b + FERMAT
    ensures Power(a) != Power(b)
  {
    hide Power, Cycle;
    if Power(a) == Power(b) {
      SamePower(a, b);
      OrderIsLarge(a - b);
      assert false;
    }
  }

  lemma PrefixOfBit(n: nat, g: nat)
    requires n >= 4 && g < 8 * n
    ensures OneBit(n, g)[..n - 4] == if g < 8 * (n - 4) then OneBit(n - 4, g) else Zeros(n - 4)
  {
    hide Mask;
  }

  lemma CoveredBitField(n: nat, g: nat)
    requires n >= 4 && g < 8 * (n - 4)
    ensures ReadU32BE(OneBit(n, g), n - 4) == 0
  {
    hide Mask;
    var e := OneBit(n, g);
    assert e[n - 4] == 0 && e[n - 4 + 1] == 0 && e[n - 4 + 2] == 0 && e[n - 4 + 3] == 0;
  }

  lemma XorDistinct(a: u32, b: u32)
    requires a != b
    ensures Xor(a, b) != 0
  {
    hide Xor;
    if Xor(a, b) == 0 {
      XorSelf(b);
      XorCancel(a, b, b);
      assert false;
    }
  }

  lemma SyndromeOfPair(a: seq<byte>, b: seq<byte>)
    requires |a| == |b|
    ensures Syndrome(XorBytes(a, b)) == Xor(Syndrome(a), Syndrome(b))
  {
    hide Fold, Xor;
    XorSelf(0);
    FoldLinear(0, 0, a, b);
  }

  /** The first bit is covered: what the two add to the data and to the field cannot agree. */
  lemma PairIsSeen(n: nat, g: nat, k: nat)
    requires 4 <= n <= MAX_FRAME_SIZE && g < k < 8 * n && g < 8 * (n - 4)
    ensures Syndrome(TwoBits(n, g, k)[..n - 4]) != ReadU32BE(TwoBits(n, g, k), n - 4)
  {
    hide Power, Syndrome, ReadU32BE, Xor, OneBit, FERMAT;
    var a, b := OneBit(n, g), OneBit(n, k);
    var m := n - 4;
    assert XorBytes(a, b)[..m] == XorBytes(a[..m], b[..m]);
    SyndromeOfPair(a[..m], b[..m]);
    ReadXor(a, b, m);
    PrefixOfBit(n, g);
    PrefixOfBit(n, k);
    CoveredBitField(n, g);
    OneBitSyndrome(m, g);
    FermatIsLarge();
    if k < 8 * m {
      CoveredBitField(n, k);
      OneBitSyndrome(m, k);
      DifferentPowers(31 + 8 * m - g, 31 + 8 * m - k);
      XorDistinct(Power(31 + 8 * m - g), Power(31 + 8 * m - k));
      XorSelf(0);
    } else {
      OneBitField(n, k);
      var j := 8 * (k / 8 - m) + 7 - k % 8;
      NoErrorNoSyndrome(m);
      XorSelf(Power(31 + 8 * m - g));
      XorSelf(Power(j));
      DifferentPowers(31 + 8 * m - g, j);
    }
  }

  lemma FermatIsLarge()
    ensures FERMAT > 8 * MAX_FRAME_SIZE + 31
  {
  }

  lemma NoErrorNoSyndrome(n: nat)
    ensures Syndrome(Zeros(n)) == 0
  {
    hide Fold;
    SyndromeOfZeros(n);
  }

  lemma PairInField(n: nat, g: nat, k: nat)
    requires 4 <= n && 8 * (n - 4) <= g < k < 8 * n
    ensures TwoBits(n, g, k)[..n - 4] == Zeros(n - 4) && TwoBits(n, g, k) != Zeros(n)
  {
    hide ReadU32BE, OneBit, Power, FERMAT, Mask;
    var a, b := OneBit(n, g), OneBit(n, k);
    PrefixOfBit(n, g);
    PrefixOfBit(n, k);
    XorZeros(Zeros(n - 4));
    assert XorBytes(a, b)[..n - 4] == XorBytes(a[..n - 4], b[..n - 4]);
    if XorBytes(a, b) == Zeros(n) {
      SameBits(a, b);
      OneBitField(n, g);
      OneBitField(n, k);
      FermatIsLarge();
      var i, j := 8 * (g / 8 - (n - 4)) + 7 - g % 8, 8 * (k / 8 - (n - 4)) + 7 - k % 8;
      if i < j {
        DifferentPowers(j, i);
      } else {
        DifferentPowers(i, j);
      }
      assert false;
    }
  }

  lemma SameBits(a: seq<byte>, b: seq<byte>)
    requires |a| == |b| && XorBytes(a, b) == Zeros(|a|)
    ensures a == b
  {
    forall i | 0 <= i < |a|
      ensures a[i] == b[i]
    {
      assert XorBytes(a, b)[i] == 0;
      ZeroXor(a[i], b[i]);
    }
  }

  lemma ZeroXor(x: byte, y: byte)
    requires x ^ y == 0
    ensures x == y
  {
  }

  /** Any two bits of an accepted frame may be flipped, however far apart: the result is rejected. */
  lemma TwoBitErrorsAreRejected(b: seq<byte>, g: nat, k: nat)
    requires DecodeFrame(b).Parsed? && g < k < 8 * |b|
    ensures DecodeFrame(XorBytes(b, TwoBits(|b|, g, k))).Rejected?
  {
    hide DecodeFrame, ChecksumMatches, TwoBits, Syndrome, ReadU32BE;
    var n := |b|;
    AcceptedMatches(b);
    var e := TwoBits(n, g, k);
    var c := XorBytes(b, e);
    if g < 8 * (n - 4) {
      PairIsSeen(n, g, k);
      ErrorPatternUndetected(b, e);
      if DecodeFrame(c).Parsed? {
        AcceptedMatches(c);
        assert false;
      }
    } else {
      PairInField(n, g, k);
      KeptWhereZero(b, e, n - 4);
      ChangedSomewhere(b, e);
      ChecksumFieldIsRejected(b, c);
    }
  }

  lemma KeptWhereZero(b: seq<byte>, e: seq<byte>, m: nat)
    requires |b| == |e| && m <= |b| && e[..m] == Zeros(m)
    ensures XorBytes(b, e)[..m] == b[..m]
  {
    forall i | 0 <= i < m
      ensures XorBytes(b, e)[i] == b[i]
    {
      assert e[i] == e[..m][i] == 0;
      XorSame(b, e, i);
    }
  }

  lemma ChangedSomewhere(b: seq<byte>, e: seq<byte>)
    requires |b| == |e| && e != Zeros(|e|)
    ensures XorBytes(b, e) != b
  {
    var i :| 0 <= i < |e| && e[i] != Zeros(|e|)[i];
    XorSame(b, e, i);
  }
}
