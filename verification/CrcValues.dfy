/**
 What fixes the start value and the final XOR of the checksum (include/stgs/Crc32.hpp:19-28): a
 leading zero byte counts, the residue of a string followed by its checksum, and the check value.
 */
module CrcValues {
  import opened Bytes
  import opened Crc32
  import opened ErrorDetection

  // ---------------------------------------------------------------- Leading zeros

  /** A register of ones does not survive a zero byte, so strings that start with zeros are told apart. */
  lemma LeadingZeroCounts(b: seq<byte>)
    ensures Checksum([0] + b) != Checksum(b)
  {
    hide Xor, Fold, Update;
    var c := Update(INITIAL_VALUE, 0);
    FirstByte(INITIAL_VALUE, 0, b);
    OnesThenZero();
    if Checksum([0] + b) == Checksum(b) {
      XorCancel(Fold(INITIAL_VALUE, [0] + b), Fold(INITIAL_VALUE, b), FINAL_XOR);
      FoldInjectiveInState(c, INITIAL_VALUE, b);
      assert false;
    }
  }

  lemma FirstByte(c: u32, x: byte, b: seq<byte>)
    ensures Fold(c, [x] + b) == Fold(Update(c, x), b)
  {
    assert ([x] + b)[1..] == b;
  }

  lemma OnesThenZero()
    ensures Update(INITIAL_VALUE, 0) == 0x2DFD_1072
  {
    ByteStep(INITIAL_VALUE, 0, 0x2DFD_1072);
  }

  /** One byte of a computation written out. */
  lemma ByteStep(c: u32, x: byte, next: u32)
    requires Raw8(c ^ (x as u32)) == next
    ensures Update(c, x) == next
  {
    hide Bits, Raw8;
    BitsIsRaw8(Xor(c, Extend(x)));
  }

  // ---------------------------------------------------------------- The check value

  /** The digits 1 to 9 in ASCII. */
  const CHECK: seq<byte> := [0x31, 0x32, 0x33, 0x34, 0x35, 0x36, 0x37, 0x38, 0x39]

  lemma FirstDigits()
    ensures Update(INITIAL_VALUE, 0x31) == 0x7C23_1048 && Update(0x7C23_1048, 0x32) == 0xB0AC_BB32
    ensures Update(0xB0AC_BB32, 0x33) == 0x77B7_9C2D
  {
    hide Update;
    ByteStep(INITIAL_VALUE, 0x31, 0x7C23_1048);
    ByteStep(0x7C23_1048, 0x32, 0xB0AC_BB32);
    ByteStep(0xB0AC_BB32, 0x33, 0x77B7_9C2D);
  }

  lemma MiddleDigits()
    ensures Update(0x77B7_9C2D, 0x34) == 0x641C_1F5C && Update(0x641C_1F5C, 0x35) == 0x340A_C5E3
    ensures Update(0x340A_C5E3, 0x36) == 0xF68D_2C9E
  {
    hide Update;
    ByteStep(0x77B7_9C2D, 0x34, 0x641C_1F5C);
    ByteStep(0x641C_1F5C, 0x35, 0x340A_C5E3);
    ByteStep(0x340A_C5E3, 0x36, 0xF68D_2C9E);
  }

  lemma LastDigits()
    ensures Update(0xF68D_2C9E, 0x37) == 0xAFFC_9660 && Update(0xAFFC_9660, 0x38) == 0x651F_2550
    ensures Update(0x651F_2550, 0x39) == 0x340B_C6D9
  {
    hide Update;
    ByteStep(0xF68D_2C9E, 0x37, 0xAFFC_9660);
    ByteStep(0xAFFC_9660, 0x38, 0x651F_2550);
    ByteStep(0x651F_2550, 0x39, 0x340B_C6D9);
  }

  lemma ThreeBytes(c: u32, x: byte, y: byte, z: byte, b: seq<byte>)
    ensures Fold(c, [x, y, z] + b) == Fold(Update(Update(Update(c, x), y), z), b)
  {
    hide Update, Fold;
    FirstByte(c, x, [y, z] + b);
    FirstByte(Update(c, x), y, [z] + b);
    FirstByte(Update(Update(c, x), y), z, b);
    assert [x] + ([y, z] + b) == [x, y, z] + b && [y] + ([z] + b) == [y, z] + b;
  }

  /** The standard check value of CRC-32/ISO-HDLC. */
  lemma CheckValue()
    ensures Checksum(CHECK) == 0xCBF4_3926
  {
    hide Update, Fold, Xor;
    var middle, last := [0x34, 0x35, 0x36, 0x37, 0x38, 0x39], [0x37, 0x38, 0x39];
    FirstDigits();
    MiddleDigits();
    LastDigits();
    ThreeBytes(INITIAL_VALUE, 0x31, 0x32, 0x33, middle);
    ThreeBytes(0x77B7_9C2D, 0x34, 0x35, 0x36, last);
    ThreeBytes(0xF68D_2C9E, 0x37, 0x38, 0x39, []);
    assert CHECK == [0x31, 0x32, 0x33] + middle && middle == [0x34, 0x35, 0x36] + last && last == last + [];
    NoBytes(0x340B_C6D9);
    CheckXor();
  }

  lemma CheckXor()
    ensures Xor(0x340B_C6D9, FINAL_XOR) == 0xCBF4_3926
  {
  }

  lemma NoBytes(c: u32)
    ensures Fold(c, []) == c
  {
  }

  // ---------------------------------------------------------------- The residue

  /** The four bytes of a word, the lowest first. */
  function LittleEndian(v: u32): (b: seq<byte>)
    ensures |b| == 4
  {
    [(v & 0xFF) as byte, ((v >> 8) & 0xFF) as byte, ((v >> 16) & 0xFF) as byte, ((v >> 24) & 0xFF) as byte]
  }

  lemma WordOfLittleEndian(v: u32)
    ensures var b := LittleEndian(v); Word(b[0], b[1], b[2], b[3]) == v
  {
  }

  lemma OnesResidue()
    ensures Bits(0xFFFF_FFFF, 32) == 0xDEBB_20E3
  {
    hide Bits, Raw8;
    BitsAdd(0xFFFF_FFFF, 8, 24);
    BitsAdd(0x2DFD_1072, 8, 16);
    BitsAdd(0xBE26_ED00, 8, 8);
    BitsIsRaw8(0xFFFF_FFFF);
    BitsIsRaw8(0x2DFD_1072);
    BitsIsRaw8(0xBE26_ED00);
    BitsIsRaw8(0x00BE_26ED);
    RawResidue();
  }

  lemma RawResidue()
    ensures Raw8(0xFFFF_FFFF) == 0x2DFD_1072 && Raw8(0x2DFD_1072) == 0xBE26_ED00
    ensures Raw8(0xBE26_ED00) == 0x00BE_26ED && Raw8(0x00BE_26ED) == 0xDEBB_20E3
  {
  }

  lemma FinalXorIsOnes()
    ensures FINAL_XOR == 0xFFFF_FFFF && Xor(0xDEBB_20E3, FINAL_XOR) == 0x2144_DF1C
  {
  }

  /** A string followed by its checksum, lowest byte first, has the same checksum whatever the string. */
  lemma Residue(b: seq<byte>)
    ensures Checksum(b + LittleEndian(Checksum(b))) == 0x2144_DF1C
  {
    hide Xor, Fold, Bits, Word, LittleEndian;
    var s := Fold(INITIAL_VALUE, b);
    var w := LittleEndian(Xor(s, FINAL_XOR));
    FoldAppend(INITIAL_VALUE, b, w);
    assert w == [w[0], w[1], w[2], w[3]];
    FourBytes(s, w[0], w[1], w[2], w[3]);
    WordOfLittleEndian(Xor(s, FINAL_XOR));
    XorAssociative(s, s, FINAL_XOR);
    XorSelf(s);
    XorSelf(FINAL_XOR);
    OnesResidue();
    FinalXorIsOnes();
  }
}
