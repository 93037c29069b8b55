/**
 CRC-32/ISO-HDLC (src/Crc32.cpp, include/stgs/Crc32.hpp).

 `Checksum` is the bit-serial, least-significant-bit-first algorithm.  The table-driven code,
 the most-significant-bit-first algorithm of section 8 of RFC 1952 and the algebraic laws
 that make errors detectable are all related to it.

 Bit-level facts are proved once, in small lemmas the solver settles by bit-blasting.  The
 inductive proofs above them hide the bit-level definitions and use only those facts.
 */
module Crc32 {
  import opened Bytes

  const INITIAL_VALUE: u32 := 0xFFFF_FFFF
  const FINAL_XOR: u32 := 0xFFFF_FFFF

  // ---------------------------------------------------------------- The bit-serial reference

  function Xor(a: u32, b: u32): u32 { a ^ b }

  predicate Odd(c: u32) { c & 1 != 0 }

  function Half(c: u32): u32 { c >> 1 }

  /** The reflected polynomial. */
  function Poly(): u32 { 0xEDB8_8320 }

  /** One bit step, least significant bit first. */
  function Bit(c: u32): u32 {
    if Odd(c) then Xor(Half(c), Poly()) else Half(c)
  }

  function Bits(c: u32, n: nat): u32
    decreases n
  {
    if n == 0 then c else Bits(Bit(c), n - 1)
  }

  function Extend(b: byte): u32 { b as u32 }

  function Update(c: u32, b: byte): u32 {
    Bits(Xor(c, Extend(b)), 8)
  }

  function Fold(c: u32, bytes: seq<byte>): u32
    decreases bytes
  {
    if bytes == [] then c else Fold(Update(c, bytes[0]), bytes[1..])
  }

  function Checksum(bytes: seq<byte>): u32 {
    Xor(Fold(INITIAL_VALUE, bytes), FINAL_XOR)
  }

  // ---------------------------------------------------------------- Bit-level facts

  lemma RawAssociative(a: u32, b: u32, c: u32)
    ensures (a ^ b) ^ c == a ^ (b ^ c)
  {
  }

  lemma RawShift(a: u32, b: u32)
    ensures (a ^ b) >> 1 == (a >> 1) ^ (b >> 1)
  {
  }

  lemma RawParity(a: u32, b: u32)
    ensures (a ^ b) & 1 != 0 <==> (a & 1 != 0) != (b & 1 != 0)
  {
  }

  lemma XorAssociative(a: u32, b: u32, c: u32)
    ensures Xor(Xor(a, b), c) == Xor(a, Xor(b, c))
  {
    RawAssociative(a, b, c);
  }

  lemma XorCommutes(a: u32, b: u32)
    ensures Xor(a, b) == Xor(b, a)
  {
  }

  lemma XorSelf(a: u32)
    ensures Xor(a, a) == 0 && Xor(a, 0) == a && Xor(0, a) == a
  {
  }

  lemma XorCancel(a: u32, b: u32, c: u32)
    requires Xor(a, c) == Xor(b, c)
    ensures a == b
  {
    hide Xor;
    XorAssociative(a, c, c);
    XorAssociative(b, c, c);
    XorSelf(c);
    XorSelf(a);
    XorSelf(b);
  }

  lemma XorSwap(a: u32, b: u32, c: u32, d: u32)
    ensures Xor(Xor(a, b), Xor(c, d)) == Xor(Xor(a, c), Xor(b, d))
  {
    hide Xor;
    XorAssociative(a, b, Xor(c, d));
    XorAssociative(b, c, d);
    XorCommutes(b, c);
    XorAssociative(c, b, d);
    XorAssociative(a, c, Xor(b, d));
  }

  lemma OddXor(a: u32, b: u32)
    ensures Odd(Xor(a, b)) <==> Odd(a) != Odd(b)
  {
    RawParity(a, b);
  }

  lemma HalfXor(a: u32, b: u32)
    ensures Half(Xor(a, b)) == Xor(Half(a), Half(b))
  {
    RawShift(a, b);
  }

  lemma BitLinear(a: u32, b: u32)
    ensures Bit(Xor(a, b)) == Xor(Bit(a), Bit(b))
  {
    hide Xor, Odd, Half, Poly;
    OddXor(a, b);
    HalfXor(a, b);
    XorSwap(Half(a), Poly(), Half(b), Poly());
    XorSelf(Poly());
    XorSelf(Xor(Half(a), Half(b)));
    XorAssociative(Half(a), Poly(), Half(b));
    XorCommutes(Poly(), Half(b));
    XorAssociative(Half(a), Half(b), Poly());
  }

  /** The polynomial has its top bit set, so no two registers step to the same one. */
  lemma BitInjective(a: u32, b: u32)
    requires Bit(a) == Bit(b)
    ensures a == b
  {
    RawInjective(a, b);
  }

  lemma RawInjective(a: u32, b: u32)
    ensures (a >> 1) ^ 0xEDB8_8320 != b >> 1 && a >> 1 != (b >> 1) ^ 0xEDB8_8320
    ensures (a >> 1) ^ 0xEDB8_8320 == (b >> 1) ^ 0xEDB8_8320 ==> a >> 1 == b >> 1
    ensures a >> 1 == b >> 1 && (a & 1 != 0 <==> b & 1 != 0) ==> a == b
  {
  }

  predicate LowClear(c: u32, n: nat)
    decreases n
  {
    n == 0 || (!Odd(c) && LowClear(Half(c), n - 1))
  }

  function Halves(c: u32, n: nat): u32
    decreases n
  {
    if n == 0 then c else Halves(Half(c), n - 1)
  }

  /** Zero bits at the bottom are simply shifted out. */
  lemma {:induction false} ZeroBits(c: u32, n: nat)
    requires LowClear(c, n)
    ensures Bits(c, n) == Halves(c, n)
    decreases n
  {
    hide Odd, Half, Poly, Xor;
    if n > 0 {
      ZeroBits(Half(c), n - 1);
    }
  }

  function And(c: u32, m: u32): u32 { c & m }

  function Shr2(c: u32): u32 { c >> 2 }

  function Shr4(c: u32): u32 { c >> 4 }

  function Shr8(c: u32): u32 { c >> 8 }

  lemma HalfHalf(c: u32)
    ensures Half(Half(c)) == Shr2(c)
  {
  }

  lemma Shr2Shr2(c: u32)
    ensures Shr2(Shr2(c)) == Shr4(c)
  {
  }

  lemma Shr4Shr4(c: u32)
    ensures Shr4(Shr4(c)) == Shr8(c)
  {
  }

  lemma {:induction false} HalvesAdd(c: u32, m: nat, n: nat)
    ensures Halves(c, m + n) == Halves(Halves(c, m), n)
    decreases m
  {
    hide Half;
    if m > 0 {
      HalvesAdd(Half(c), m - 1, n);
    }
  }

  lemma TwoHalves(c: u32)
    ensures Halves(c, 2) == Shr2(c)
  {
    hide Half, Shr2;
    HalfHalf(c);
    assert Halves(c, 2) == Halves(Half(c), 1);
    assert Halves(Half(c), 1) == Halves(Half(Half(c)), 0);
  }

  lemma EightHalves(c: u32)
    ensures Halves(c, 8) == Shr8(c)
  {
    hide Half, Shr2, Shr4, Shr8, Halves;
    HalvesAdd(c, 4, 4);
    HalvesAdd(c, 2, 2);
    HalvesAdd(Shr4(c), 2, 2);
    TwoHalves(c);
    TwoHalves(Shr2(c));
    Shr2Shr2(c);
    TwoHalves(Shr4(c));
    TwoHalves(Shr2(Shr4(c)));
    Shr2Shr2(Shr4(c));
    Shr4Shr4(c);
  }

  lemma MaskStep(c: u32, m: u32)
    ensures And(c, m) == 0 && Odd(m) ==> !Odd(c) && And(Half(c), Half(m)) == 0
  {
  }

  predicate LowOnes(m: u32, n: nat)
    decreases n
  {
    n == 0 || (Odd(m) && LowOnes(Half(m), n - 1))
  }

  lemma {:induction false} MaskedIsClear(c: u32, m: u32, n: nat)
    requires And(c, m) == 0 && LowOnes(m, n)
    ensures LowClear(c, n)
    decreases n
  {
    hide And, Odd, Half;
    if n > 0 {
      MaskStep(c, m);
      MaskedIsClear(Half(c), Half(m), n - 1);
    }
  }

  lemma ByteMask()
    ensures LowOnes(0xFF, 8)
  {
    assert LowOnes(0x1, 1);
    assert LowOnes(0x3, 2);
    assert LowOnes(0x7, 3);
    assert LowOnes(0xF, 4);
    assert LowOnes(0x1F, 5);
    assert LowOnes(0x3F, 6);
    assert LowOnes(0x7F, 7);
  }

  lemma EightZeroBits(c: u32)
    requires And(c, 0xFF) == 0
    ensures Bits(c, 8) == Shr8(c)
  {
    hide And, Odd, Half, Bits, Halves, LowClear, Shr8;
    ByteMask();
    MaskedIsClear(c, 0xFF, 8);
    ZeroBits(c, 8);
    EightHalves(c);
  }

  // ---------------------------------------------------------------- Algebra of the register

  lemma {:induction false} BitsAdd(c: u32, m: nat, n: nat)
    ensures Bits(c, m + n) == Bits(Bits(c, m), n)
    decreases m
  {
    hide Bit;
    if m > 0 {
      BitsAdd(Bit(c), m - 1, n);
    }
  }

  lemma {:induction false} BitsLinear(a: u32, b: u32, n: nat)
    ensures Bits(Xor(a, b), n) == Xor(Bits(a, n), Bits(b, n))
    decreases n
  {
    hide Bit, Xor;
    if n > 0 {
      BitLinear(a, b);
      BitsLinear(Bit(a), Bit(b), n - 1);
    }
  }

  lemma {:induction false} BitsInjective(a: u32, b: u32, n: nat)
    requires Bits(a, n) == Bits(b, n)
    ensures a == b
    decreases n
  {
    hide Bit;
    if n > 0 {
      BitsInjective(Bit(a), Bit(b), n - 1);
      BitInjective(a, b);
    }
  }

  lemma {:induction false} FoldAppend(c: u32, a: seq<byte>, b: seq<byte>)
    ensures Fold(c, a + b) == Fold(Fold(c, a), b)
    decreases a
  {
    hide Update;
    if a == [] {
      assert a + b == b;
    } else {
      assert (a + b)[1..] == a[1..] + b;
      FoldAppend(Update(c, a[0]), a[1..], b);
    }
  }

  lemma UpdateInjectiveInState(a: u32, b: u32, x: byte)
    requires Update(a, x) == Update(b, x)
    ensures a == b
  {
    hide Bits, Xor, Extend;
    BitsInjective(Xor(a, Extend(x)), Xor(b, Extend(x)), 8);
    XorCancel(a, b, Extend(x));
  }

  /** Registers that differ before a string still differ after it. */
  lemma {:induction false} FoldInjectiveInState(a: u32, b: u32, bytes: seq<byte>)
    requires Fold(a, bytes) == Fold(b, bytes)
    ensures a == b
    decreases bytes
  {
    hide Update;
    if bytes != [] {
      FoldInjectiveInState(Update(a, bytes[0]), Update(b, bytes[0]), bytes[1..]);
      UpdateInjectiveInState(a, b, bytes[0]);
    }
  }

  // ---------------------------------------------------------------- The table-driven code

  /** What the table holds at index `i`. */
  function Entry(i: nat): u32
    requires i < 256
  {
    Bits(i as u32, 8)
  }

  method MakeTable() returns (table: array<u32>)
    ensures fresh(table) && table.Length == 256
    ensures forall i :: 0 <= i < 256 ==> table[i] == Entry(i)
  {
    hide Entry;
    table := new u32[256];
    for i := 0 to 256
      invariant forall k :: 0 <= k < i ==> table[k] == Entry(k)
    {
      var crc := MakeEntry(i);
      table[i] := crc;
    }
  }

  /** The inner loop of the table construction. */
  method MakeEntry(i: nat) returns (crc: u32)
    requires i < 256
    ensures crc == Entry(i)
  {
    hide Bit;
    crc := i as u32;
    for bit := 0 to 8
      invariant Bits(crc, 8 - bit) == Entry(i)
    {
      ShowBit(crc);
      if crc & 1 != 0 {
        crc := (crc >> 1) ^ 0xEDB8_8320;
      } else {
        crc := crc >> 1;
      }
    }
  }

  lemma ShowBit(c: u32)
    ensures Bit(c) == if c & 1 != 0 then (c >> 1) ^ 0xEDB8_8320 else c >> 1
  {
  }

  /** The code's checksum loop, which looks every byte up in the table. */
  method Crc32(bytes: seq<byte>) returns (crc: u32)
    ensures crc == Checksum(bytes)
  {
    hide Update, Xor, Entry;
    var table := MakeTable();
    crc := INITIAL_VALUE;
    for i := 0 to |bytes|
      invariant Fold(crc, bytes[i..]) == Fold(INITIAL_VALUE, bytes)
      invariant forall k :: 0 <= k < 256 ==> table[k] == Entry(k)
    {
      assert bytes[i..][0] == bytes[i] && bytes[i..][1..] == bytes[i + 1..];
      crc := LookUp(table, crc, bytes[i]);
    }
    ShowXor(crc, FINAL_XOR);
    crc := crc ^ FINAL_XOR;
  }

  method LookUp(table: array<u32>, crc: u32, b: byte) returns (next: u32)
    requires table.Length == 256
    requires forall i :: 0 <= i < 256 ==> table[i] == Entry(i)
    ensures next == Update(crc, b)
  {
    hide Update, Entry, Xor, Extend, Shr8;
    TableStep(crc, b);
    var index := LowIndex(Xor(crc, Extend(b)));
    next := Xor(Shr8(crc), table[index]);
  }

  /** `static_cast<std::uint8_t>(x & LowByteMask)`, as an index. */
  function LowIndex(x: u32): (i: nat)
    ensures i < 256
  {
    LowByteRange(x);
    And(x, 0xFF) as nat
  }

  lemma LowByteRange(c: u32)
    ensures And(c, 0xFF) as nat < 256
  {
  }

  lemma EntryAt(x: u32)
    ensures Entry(LowIndex(x)) == Bits(And(x, 0xFF), 8)
  {
    hide Bits, And;
    U32Nat(And(x, 0xFF));
  }

  /** One table look-up does the work of eight bit steps. */
  lemma TableStep(c: u32, b: byte)
    ensures Update(c, b) == Xor(Shr8(c), Entry(LowIndex(Xor(c, Extend(b)))))
  {
    hide Bits, Bit, Xor, Extend, Entry, LowIndex, And, Shr8;
    var x := Xor(c, Extend(b));
    SplitWord(x);
    ShiftInput(c, b);
    BitsLinear(And(x, 0xFFFF_FF00), And(x, 0xFF), 8);
    EightZeroBits(And(x, 0xFFFF_FF00));
    EntryAt(x);
  }

  lemma SplitWord(x: u32)
    ensures x == Xor(And(x, 0xFFFF_FF00), And(x, 0xFF))
    ensures And(And(x, 0xFFFF_FF00), 0xFF) == 0
  {
    RawSplit(x);
  }

  lemma RawSplit(x: u32)
    ensures x == (x & 0xFFFF_FF00) ^ (x & 0xFF)
    ensures (x & 0xFFFF_FF00) & 0xFF == 0
  {
  }

  lemma ShiftInput(c: u32, b: byte)
    ensures Shr8(And(Xor(c, Extend(b)), 0xFFFF_FF00)) == Shr8(c)
  {
    RawShiftInput(c, b);
  }

  lemma RawShiftInput(c: u32, b: byte)
    ensures ((c ^ (b as u32)) & 0xFFFF_FF00) >> 8 == c >> 8
  {
  }

  lemma ShowXor(a: u32, b: u32)
    ensures Xor(a, b) == a ^ b
  {
  }

  // ---------------------------------------------------------------- Linearity over strings

  function XorBytes(a: seq<byte>, b: seq<byte>): (r: seq<byte>)
    requires |a| == |b|
    ensures |r| == |a|
    ensures forall i :: 0 <= i < |a| ==> r[i] == a[i] ^ b[i]
  {
    seq(|a|, i requires 0 <= i < |a| => a[i] ^ b[i])
  }

  lemma ExtendXor(x: byte, y: byte)
    ensures Extend(x ^ y) == Xor(Extend(x), Extend(y))
  {
  }

  lemma UpdateLinear(c: u32, d: u32, x: byte, y: byte)
    ensures Update(Xor(c, d), x ^ y) == Xor(Update(c, x), Update(d, y))
  {
    hide Bits, Xor, Extend;
    ExtendXor(x, y);
    XorSwap(c, d, Extend(x), Extend(y));
    BitsLinear(Xor(c, Extend(x)), Xor(d, Extend(y)), 8);
  }

  lemma {:induction false} FoldLinear(c: u32, d: u32, a: seq<byte>, b: seq<byte>)
    requires |a| == |b|
    ensures Fold(Xor(c, d), XorBytes(a, b)) == Xor(Fold(c, a), Fold(d, b))
    decreases a
  {
    hide Update, Xor;
    if a != [] {
      UpdateLinear(c, d, a[0], b[0]);
      assert XorBytes(a, b)[1..] == XorBytes(a[1..], b[1..]);
      FoldLinear(Update(c, a[0]), Update(d, b[0]), a[1..], b[1..]);
    }
  }

  /** How the checksum moves when the error pattern `e` is XORed onto a string. */
  function Syndrome(e: seq<byte>): u32 { Fold(0, e) }

  lemma ChecksumAffine(a: seq<byte>, e: seq<byte>)
    requires |a| == |e|
    ensures Checksum(XorBytes(a, e)) == Xor(Checksum(a), Syndrome(e))
  {
    hide Xor, Fold;
    FoldLinear(INITIAL_VALUE, 0, a, e);
    XorSelf(INITIAL_VALUE);
    XorAssociative(Fold(INITIAL_VALUE, a), Syndrome(e), FINAL_XOR);
    XorCommutes(Syndrome(e), FINAL_XOR);
    XorAssociative(Fold(INITIAL_VALUE, a), FINAL_XOR, Syndrome(e));
  }

  function Zeros(n: nat): (z: seq<byte>)
    ensures |z| == n
  {
    seq(n, i => 0)
  }

  lemma XorZeros(b: seq<byte>)
    ensures XorBytes(Zeros(|b|), b) == b
  {
    forall i | 0 <= i < |b|
      ensures XorBytes(Zeros(|b|), b)[i] == b[i]
    {
      ByteXorZero(b[i]);
    }
  }

  lemma ByteXorZero(x: byte)
    ensures 0 ^ x == x
  {
  }

  /** Affine over XOR, as a law about checksums alone: the all-zero string is the constant term. */
  lemma ChecksumXor(a: seq<byte>, b: seq<byte>)
    requires |a| == |b|
    ensures Checksum(XorBytes(a, b)) == Xor(Xor(Checksum(a), Checksum(b)), Checksum(Zeros(|a|)))
  {
    hide Xor, Fold, Checksum, Syndrome;
    var z := Checksum(Zeros(|a|));
    ChecksumAffine(a, b);
    ChecksumAffine(Zeros(|a|), b);
    XorZeros(b);
    XorCommutes(z, Syndrome(b));
    XorAssociative(Checksum(a), Xor(Syndrome(b), z), z);
    XorAssociative(Syndrome(b), z, z);
    XorSelf(z);
    XorSelf(Syndrome(b));
  }

  // ---------------------------------------------------------------- Four-byte windows

  function Word(b0: byte, b1: byte, b2: byte, b3: byte): u32 {
    (b0 as u32) | ((b1 as u32) << 8) | ((b2 as u32) << 16) | ((b3 as u32) << 24)
  }

  lemma WordBits(b0: byte, b1: byte, b2: byte, b3: byte)
    ensures Word(b0, b1, b2, b3) == Xor(Extend(b0), Word(0, b1, b2, b3))
    ensures And(Word(0, b1, b2, b3), 0xFF) == 0
    ensures Shr8(Word(0, b1, b2, b3)) == Word(b1, b2, b3, 0)
    ensures Word(0, 0, 0, 0) == 0
  {
  }

  lemma WordInjective(a0: byte, a1: byte, a2: byte, a3: byte, b0: byte, b1: byte, b2: byte, b3: byte)
    requires Word(a0, a1, a2, a3) == Word(b0, b1, b2, b3)
    ensures a0 == b0 && a1 == b1 && a2 == b2 && a3 == b3
  {
  }

  /** Eight steps consume the bottom byte of a word and move the others down. */
  lemma ConsumeByte(c: u32, b0: byte, b1: byte, b2: byte, b3: byte)
    ensures Bits(Xor(c, Word(b0, b1, b2, b3)), 8) == Xor(Update(c, b0), Word(b1, b2, b3, 0))
  {
    hide Bits, Bit, Xor, Extend, Word, And, Shr8;
    WordBits(b0, b1, b2, b3);
    XorAssociative(c, Extend(b0), Word(0, b1, b2, b3));
    BitsLinear(Xor(c, Extend(b0)), Word(0, b1, b2, b3), 8);
    EightZeroBits(Word(0, b1, b2, b3));
  }

  /** Four bytes enter the register as one 32-bit word followed by 32 bit steps. */
  lemma FourBytes(c: u32, b0: byte, b1: byte, b2: byte, b3: byte)
    ensures Fold(c, [b0, b1, b2, b3]) == Bits(Xor(c, Word(b0, b1, b2, b3)), 32)
  {
    hide Bits, Bit, Xor, Extend, Word, Update;
    var c1 := Update(c, b0);
    var c2 := Update(c1, b1);
    var c3 := Update(c2, b2);
    var c4 := Update(c3, b3);
    ConsumeByte(c, b0, b1, b2, b3);
    BitsAdd(Xor(c, Word(b0, b1, b2, b3)), 8, 24);
    ConsumeByte(c1, b1, b2, b3, 0);
    BitsAdd(Xor(c1, Word(b1, b2, b3, 0)), 8, 16);
    ConsumeByte(c2, b2, b3, 0, 0);
    BitsAdd(Xor(c2, Word(b2, b3, 0, 0)), 8, 8);
    ConsumeByte(c3, b3, 0, 0, 0);
    WordBits(0, 0, 0, 0);
    XorSelf(c4);
    Fold4(c, b0, b1, b2, b3);
  }

  lemma Fold4(c: u32, b0: byte, b1: byte, b2: byte, b3: byte)
    ensures Fold(c, [b0, b1, b2, b3]) == Update(Update(Update(Update(c, b0), b1), b2), b3)
  {
    hide Update;
    assert [b0, b1, b2, b3][1..] == [b1, b2, b3];
    assert [b1, b2, b3][1..] == [b2, b3];
    assert [b2, b3][1..] == [b3];
    var c1 := Update(c, b0);
    var c2 := Update(c1, b1);
    var c3 := Update(c2, b2);
    assert Fold(c, [b0, b1, b2, b3]) == Fold(c1, [b1, b2, b3]);
    assert Fold(c1, [b1, b2, b3]) == Fold(c2, [b2, b3]);
    assert Fold(c2, [b2, b3]) == Fold(c3, [b3]);
    assert Fold(c3, [b3]) == Fold(Update(c3, b3), []);
  }

  /** The register update by a four-byte word is injective in the word. */
  lemma FoldInjectiveInWord(c: u32, v: seq<byte>, w: seq<byte>)
    requires |v| == |w| == 4
    requires Fold(c, v) == Fold(c, w)
    ensures v == w
  {
    hide Bits, Bit, Xor, Extend, Word, Update, Fold;
    assert v == [v[0], v[1], v[2], v[3]] && w == [w[0], w[1], w[2], w[3]];
    var x, y := Word(v[0], v[1], v[2], v[3]), Word(w[0], w[1], w[2], w[3]);
    FourBytes(c, v[0], v[1], v[2], v[3]);
    FourBytes(c, w[0], w[1], w[2], w[3]);
    BitsInjective(Xor(c, x), Xor(c, y), 32);
    XorCommutes(c, x);
    XorCommutes(c, y);
    XorCancel(x, y, c);
    WordInjective(v[0], v[1], v[2], v[3], w[0], w[1], w[2], w[3]);
  }

  /** Strings that differ only inside one window of four bytes have different checksums. */
  lemma BurstChangesChecksum(a: seq<byte>, b: seq<byte>, p: nat)
    requires |a| == |b| && p + 4 <= |a|
    requires forall i :: 0 <= i < |a| && !(p <= i < p + 4) ==> a[i] == b[i]
    requires Checksum(a) == Checksum(b)
    ensures a == b
  {
    hide Xor, Fold;
    var head, v, w, tail := a[..p], a[p..p + 4], b[p..p + 4], a[p + 4..];
    assert a == head + v + tail;
    assert b == head + w + tail;
    FoldAppend(INITIAL_VALUE, head + v, tail);
    FoldAppend(INITIAL_VALUE, head, v);
    FoldAppend(INITIAL_VALUE, head + w, tail);
    FoldAppend(INITIAL_VALUE, head, w);
    XorCancel(Fold(INITIAL_VALUE, a), Fold(INITIAL_VALUE, b), FINAL_XOR);
    FoldInjectiveInState(Fold(Fold(INITIAL_VALUE, head), v), Fold(Fold(INITIAL_VALUE, head), w), tail);
    FoldInjectiveInWord(Fold(INITIAL_VALUE, head), v, w);
  }

  // ---------------------------------------------------------------- The unreflected algorithm

  /** Bit i of the result is bit 31 - i of the argument. */
  function Reflect(x: u32): u32 {
    ((x & 0x1) << 31) | ((x & 0x2) << 29) | ((x & 0x4) << 27) | ((x & 0x8) << 25) |
    ((x & 0x10) << 23) | ((x & 0x20) << 21) | ((x & 0x40) << 19) | ((x & 0x80) << 17) |
    ((x & 0x100) << 15) | ((x & 0x200) << 13) | ((x & 0x400) << 11) | ((x & 0x800) << 9) |
    ((x & 0x1000) << 7) | ((x & 0x2000) << 5) | ((x & 0x4000) << 3) | ((x & 0x8000) << 1) |
    ((x & 0x10000) >> 1) | ((x & 0x20000) >> 3) | ((x & 0x40000) >> 5) | ((x & 0x80000) >> 7) |
    ((x & 0x100000) >> 9) | ((x & 0x200000) >> 11) | ((x & 0x400000) >> 13) | ((x & 0x800000) >> 15) |
    ((x & 0x1000000) >> 17) | ((x & 0x2000000) >> 19) | ((x & 0x4000000) >> 21) | ((x & 0x8000000) >> 23) |
    ((x & 0x10000000) >> 25) | ((x & 0x20000000) >> 27) | ((x & 0x40000000) >> 29) | ((x & 0x80000000) >> 31)
  }

  /** Bit i of the result is bit 7 - i of the argument. */
  function ReflectByte(x: byte): byte {
    ((x & 0x1) << 7) | ((x & 0x2) << 5) | ((x & 0x4) << 3) | ((x & 0x8) << 1) |
    ((x & 0x10) >> 1) | ((x & 0x20) >> 3) | ((x & 0x40) >> 5) | ((x & 0x80) >> 7)
  }

  predicate TopSet(c: u32) { c & 0x8000_0000 != 0 }

  function Twice(c: u32): u32 { c << 1 }

  /** The canonical polynomial. */
  function MsbPoly(): u32 { 0x04C1_1DB7 }

  /** One bit step, most significant bit first. */
  function MsbBit(c: u32): u32 {
    if TopSet(c) then Xor(Twice(c), MsbPoly()) else Twice(c)
  }

  function MsbBits(c: u32, n: nat): u32
    decreases n
  {
    if n == 0 then c else MsbBits(MsbBit(c), n - 1)
  }

  function TopByte(b: byte): u32 { (ReflectByte(b) as u32) << 24 }

  function MsbFold(c: u32, bytes: seq<byte>): u32
    decreases bytes
  {
    if bytes == [] then c else MsbFold(MsbBits(Xor(c, TopByte(bytes[0])), 8), bytes[1..])
  }

  /** width=32 poly=0x04C11DB7 init=0xFFFFFFFF refin=true refout=true xorout=0xFFFFFFFF */
  function MsbChecksum(bytes: seq<byte>): u32 {
    Xor(Reflect(MsbFold(0xFFFF_FFFF, bytes)), 0xFFFF_FFFF)
  }

  lemma ReflectBottom(c: u32)
    ensures TopSet(Reflect(c)) <==> Odd(c)
  {
  }

  lemma ReflectHalf(c: u32)
    ensures Twice(Reflect(c)) == Reflect(Half(c))
  {
    RawReflectHalf(c);
  }

  lemma RawReflectHalf(c: u32)
    ensures Reflect(c) << 1 == Reflect(c >> 1)
  {
  }

  lemma ReflectXor(a: u32, b: u32)
    ensures Reflect(Xor(a, b)) == Xor(Reflect(a), Reflect(b))
  {
  }

  /** 0xEDB88320 is 0x04C11DB7 read backwards. */
  lemma PolynomialsReflected()
    ensures Reflect(Poly()) == MsbPoly() && Reflect(MsbPoly()) == Poly()
  {
  }

  lemma ReflectExtend(b: byte)
    ensures Reflect(Extend(b)) == TopByte(b)
  {
  }

  lemma ReflectInvolutive(x: u32)
    ensures Reflect(Reflect(x)) == x
  {
  }

  lemma ReflectOnes()
    ensures Reflect(0xFFFF_FFFF) == INITIAL_VALUE && FINAL_XOR == 0xFFFF_FFFF
  {
  }

  lemma BitReflected(c: u32)
    ensures MsbBit(Reflect(c)) == Reflect(Bit(c))
  {
    hide Reflect, Xor, Odd, Half, TopSet, Twice, Poly, MsbPoly;
    ReflectBottom(c);
    ReflectHalf(c);
    ReflectXor(Half(c), Poly());
    PolynomialsReflected();
  }

  lemma {:induction false} BitsReflected(c: u32, n: nat)
    ensures MsbBits(Reflect(c), n) == Reflect(Bits(c, n))
    decreases n
  {
    hide Reflect, MsbBit, Bit;
    if n > 0 {
      BitReflected(c);
      BitsReflected(Bit(c), n - 1);
    }
  }

  lemma {:induction false} FoldReflected(c: u32, bytes: seq<byte>)
    ensures MsbFold(Reflect(c), bytes) == Reflect(Fold(c, bytes))
    decreases bytes
  {
    hide Reflect, MsbBits, Bits, Xor, TopByte, Extend;
    if bytes != [] {
      ReflectXor(c, Extend(bytes[0]));
      ReflectExtend(bytes[0]);
      BitsReflected(Xor(c, Extend(bytes[0])), 8);
      FoldReflected(Update(c, bytes[0]), bytes[1..]);
    }
  }

  /** The reflected and the unreflected algorithm agree on every string. */
  lemma ChecksumIsMsbChecksum(bytes: seq<byte>)
    ensures Checksum(bytes) == MsbChecksum(bytes)
  {
    hide Reflect, Xor, Fold, MsbFold;
    ReflectInvolutive(Fold(INITIAL_VALUE, bytes));
    ReflectOnes();
    FoldReflected(INITIAL_VALUE, bytes);
  }
}
