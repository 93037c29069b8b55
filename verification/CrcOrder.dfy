/**
 The order of x modulo the generator polynomial of the checksum (src/Crc32.cpp) is greater than
 65536: no smaller number of bit steps brings a register back.

 A register is an element of the field of 2^32 elements; its top bit alone is 1, and a bit step
 multiplies by x.  Squaring is linear there, so it is given by its values on the 32 bits, and the
 powers 2^16 and 2^32 of x take 16 and 32 squarings.
 */
module CrcOrder {
  import opened Bytes
  import opened Crc32

  const ONE: u32 := 0x8000_0000

  /** x to the power `n`. */
  function Power(n: nat): u32 { Bits(ONE, n) }

  lemma NextPower(n: nat)
    ensures Power(n + 1) == Bit(Power(n))
  {
    hide Bit;
    BitsAdd(ONE, n, 1);
    assert Bits(Power(n), 1) == Bit(Power(n));
  }

  lemma PowerZero()
    ensures Power(0) == ONE
  {
  }

  // ---------------------------------------------------------------- Squaring

  function Pick(c: u32, m: u32, k: u32): u32 { if c & m != 0 then k else 0 }

  /** The sum of the constants that the bits 0 to 3 of `c` select, and the same for the bits 4 to 7. */
  function Low(c: u32, k0: u32, k1: u32, k2: u32, k3: u32): u32 {
    (Pick(c, 0x01, k0) ^ Pick(c, 0x02, k1)) ^ (Pick(c, 0x04, k2) ^ Pick(c, 0x08, k3))
  }

  function High(c: u32, k4: u32, k5: u32, k6: u32, k7: u32): u32 {
    (Pick(c, 0x10, k4) ^ Pick(c, 0x20, k5)) ^ (Pick(c, 0x40, k6) ^ Pick(c, 0x80, k7))
  }

  function Eight(c: u32, k0: u32, k1: u32, k2: u32, k3: u32, k4: u32, k5: u32, k6: u32, k7: u32): u32 {
    Low(c, k0, k1, k2, k3) ^ High(c, k4, k5, k6, k7)
  }

  function Square0(c: u32): u32 {
    Eight(c, 0xAA09_C88B, 0xC5B4_28EF, 0xA032_AF3E, 0xED59_B63B,
          0x0384_D46E, 0x0E13_51B8, 0x384D_46E0, 0xE135_1B80)
  }

  function Square1(c: u32): u32 {
    Eight(c >> 8, 0x3236_6282, 0xC8D9_8A08, 0x9584_24A2, 0x3B83_984B,
          0xEE0E_612C, 0x0EDB_8832, 0x3B6E_20C8, 0xEDB8_8320)
  }

  function Square2(c: u32): u32 {
    Eight(c >> 16, 0x0000_0002, 0x0000_0008, 0x0000_0020, 0x0000_0080,
          0x0000_0200, 0x0000_0800, 0x0000_2000, 0x0000_8000)
  }

  function Square3(c: u32): u32 {
    Eight(c >> 24, 0x0002_0000, 0x0008_0000, 0x0020_0000, 0x0080_0000,
          0x0200_0000, 0x0800_0000, 0x2000_0000, 0x8000_0000)
  }

  /** Bit 31 - i is the power i of x, so its square is the power 2 * i. */
  function Square(c: u32): u32 { (Square0(c) ^ Square1(c)) ^ (Square2(c) ^ Square3(c)) }

  /** `m` is a single bit. */
  lemma RawPick(a: u32, b: u32, m: u32)
    requires m & (m - 1) == 0
    ensures (a ^ b) & m != 0 <==> (a & m != 0) != (b & m != 0)
  {
  }

  lemma PickOne(a: u32, b: u32, m: u32, k: u32)
    requires m & (m - 1) == 0
    ensures Pick(Xor(a, b), m, k) == Xor(Pick(a, m, k), Pick(b, m, k))
  {
    RawPick(a, b, m);
    XorSelf(k);
    XorSelf(0);
  }

  /** Four sums of two are two sums of four. */
  lemma SumOfFour(a0: u32, b0: u32, a1: u32, b1: u32, a2: u32, b2: u32, a3: u32, b3: u32)
    ensures Xor(Xor(Xor(a0, b0), Xor(a1, b1)), Xor(Xor(a2, b2), Xor(a3, b3)))
         == Xor(Xor(Xor(a0, a1), Xor(a2, a3)), Xor(Xor(b0, b1), Xor(b2, b3)))
  {
    hide Xor;
    XorSwap(a0, b0, a1, b1);
    XorSwap(a2, b2, a3, b3);
    XorSwap(Xor(a0, a1), Xor(b0, b1), Xor(a2, a3), Xor(b2, b3));
  }

  lemma LowIsSum(c: u32, k0: u32, k1: u32, k2: u32, k3: u32)
    ensures Low(c, k0, k1, k2, k3)
         == Xor(Xor(Pick(c, 0x01, k0), Pick(c, 0x02, k1)), Xor(Pick(c, 0x04, k2), Pick(c, 0x08, k3)))
  {
    hide Pick;
  }

  lemma HighIsSum(c: u32, k4: u32, k5: u32, k6: u32, k7: u32)
    ensures High(c, k4, k5, k6, k7)
         == Xor(Xor(Pick(c, 0x10, k4), Pick(c, 0x20, k5)), Xor(Pick(c, 0x40, k6), Pick(c, 0x80, k7)))
  {
    hide Pick;
  }

  lemma LowLinear(a: u32, b: u32, k0: u32, k1: u32, k2: u32, k3: u32)
    ensures Low(Xor(a, b), k0, k1, k2, k3) == Xor(Low(a, k0, k1, k2, k3), Low(b, k0, k1, k2, k3))
  {
    hide Pick, Xor, Low;
    LowIsSum(a, k0, k1, k2, k3);
    LowIsSum(b, k0, k1, k2, k3);
    LowIsSum(Xor(a, b), k0, k1, k2, k3);
    PickOne(a, b, 0x01, k0);
    PickOne(a, b, 0x02, k1);
    PickOne(a, b, 0x04, k2);
    PickOne(a, b, 0x08, k3);
    SumOfFour(Pick(a, 0x01, k0), Pick(b, 0x01, k0), Pick(a, 0x02, k1), Pick(b, 0x02, k1),
              Pick(a, 0x04, k2), Pick(b, 0x04, k2), Pick(a, 0x08, k3), Pick(b, 0x08, k3));
  }

  lemma HighLinear(a: u32, b: u32, k4: u32, k5: u32, k6: u32, k7: u32)
    ensures High(Xor(a, b), k4, k5, k6, k7) == Xor(High(a, k4, k5, k6, k7), High(b, k4, k5, k6, k7))
  {
    hide Pick, Xor, High;
    HighIsSum(a, k4, k5, k6, k7);
    HighIsSum(b, k4, k5, k6, k7);
    HighIsSum(Xor(a, b), k4, k5, k6, k7);
    PickOne(a, b, 0x10, k4);
    PickOne(a, b, 0x20, k5);
    PickOne(a, b, 0x40, k6);
    PickOne(a, b, 0x80, k7);
    SumOfFour(Pick(a, 0x10, k4), Pick(b, 0x10, k4), Pick(a, 0x20, k5), Pick(b, 0x20, k5),
              Pick(a, 0x40, k6), Pick(b, 0x40, k6), Pick(a, 0x80, k7), Pick(b, 0x80, k7));
  }

  lemma EightIsSum(c: u32, k0: u32, k1: u32, k2: u32, k3: u32, k4: u32, k5: u32, k6: u32, k7: u32)
    ensures Eight(c, k0, k1, k2, k3, k4, k5, k6, k7) == Xor(Low(c, k0, k1, k2, k3), High(c, k4, k5, k6, k7))
  {
    hide Low, High;
  }

  lemma EightLinear(a: u32, b: u32, k0: u32, k1: u32, k2: u32, k3: u32, k4: u32, k5: u32, k6: u32, k7: u32)
    ensures Eight(Xor(a, b), k0, k1, k2, k3, k4, k5, k6, k7)
         == Xor(Eight(a, k0, k1, k2, k3, k4, k5, k6, k7), Eight(b, k0, k1, k2, k3, k4, k5, k6, k7))
  {
    hide Low, High, Eight, Xor;
    EightIsSum(a, k0, k1, k2, k3, k4, k5, k6, k7);
    EightIsSum(b, k0, k1, k2, k3, k4, k5, k6, k7);
    EightIsSum(Xor(a, b), k0, k1, k2, k3, k4, k5, k6, k7);
    LowLinear(a, b, k0, k1, k2, k3);
    HighLinear(a, b, k4, k5, k6, k7);
    XorSwap(Low(a, k0, k1, k2, k3), Low(b, k0, k1, k2, k3), High(a, k4, k5, k6, k7), High(b, k4, k5, k6, k7));
  }

  lemma Shr2Linear(a: u32, b: u32)
    ensures Shr2(Xor(a, b)) == Xor(Shr2(a), Shr2(b))
  {
    hide Xor, Half, Shr2;
    HalfHalf(a);
    HalfHalf(b);
    HalfHalf(Xor(a, b));
    HalfXor(a, b);
    HalfXor(Half(a), Half(b));
  }

  lemma Shr4Linear(a: u32, b: u32)
    ensures Shr4(Xor(a, b)) == Xor(Shr4(a), Shr4(b))
  {
    hide Xor, Shr2, Shr4;
    Shr2Shr2(a);
    Shr2Shr2(b);
    Shr2Shr2(Xor(a, b));
    Shr2Linear(a, b);
    Shr2Linear(Shr2(a), Shr2(b));
  }

  lemma Shr8Linear(a: u32, b: u32)
    ensures Shr8(Xor(a, b)) == Xor(Shr8(a), Shr8(b))
  {
    hide Xor, Shr4, Shr8;
    Shr4Shr4(a);
    Shr4Shr4(b);
    Shr4Shr4(Xor(a, b));
    Shr4Linear(a, b);
    Shr4Linear(Shr4(a), Shr4(b));
  }

  lemma Shifts(c: u32)
    ensures c >> 8 == Shr8(c) && c >> 16 == Shr8(Shr8(c)) && c >> 24 == Shr8(Shr8(Shr8(c)))
  {
  }

  lemma ShiftLinear(a: u32, b: u32)
    ensures Xor(a, b) >> 8 == Xor(a >> 8, b >> 8)
    ensures Xor(a, b) >> 16 == Xor(a >> 16, b >> 16)
    ensures Xor(a, b) >> 24 == Xor(a >> 24, b >> 24)
  {
    hide Xor, Shr8;
    Shifts(a);
    Shifts(b);
    Shifts(Xor(a, b));
    Shr8Linear(a, b);
    Shr8Linear(Shr8(a), Shr8(b));
    Shr8Linear(Shr8(Shr8(a)), Shr8(Shr8(b)));
  }

  lemma Square0Linear(a: u32, b: u32)
    ensures Square0(Xor(a, b)) == Xor(Square0(a), Square0(b))
  {
    hide Eight, Xor;
    EightLinear(a, b, 0xAA09_C88B, 0xC5B4_28EF, 0xA032_AF3E, 0xED59_B63B,
                0x0384_D46E, 0x0E13_51B8, 0x384D_46E0, 0xE135_1B80);
  }

  lemma Square1Linear(a: u32, b: u32)
    ensures Square1(Xor(a, b)) == Xor(Square1(a), Square1(b))
  {
    hide Eight, Xor;
    ShiftLinear(a, b);
    EightLinear(a >> 8, b >> 8, 0x3236_6282, 0xC8D9_8A08, 0x9584_24A2, 0x3B83_984B,
                0xEE0E_612C, 0x0EDB_8832, 0x3B6E_20C8, 0xEDB8_8320);
  }

  lemma Square2Linear(a: u32, b: u32)
    ensures Square2(Xor(a, b)) == Xor(Square2(a), Square2(b))
  {
    hide Eight, Xor;
    ShiftLinear(a, b);
    EightLinear(a >> 16, b >> 16, 0x0000_0002, 0x0000_0008, 0x0000_0020, 0x0000_0080,
                0x0000_0200, 0x0000_0800, 0x0000_2000, 0x0000_8000);
  }

  lemma Square3Linear(a: u32, b: u32)
    ensures Square3(Xor(a, b)) == Xor(Square3(a), Square3(b))
  {
    hide Eight, Xor;
    ShiftLinear(a, b);
    EightLinear(a >> 24, b >> 24, 0x0002_0000, 0x0008_0000, 0x0020_0000, 0x0080_0000,
                0x0200_0000, 0x0800_0000, 0x2000_0000, 0x8000_0000);
  }

  lemma FourParts(c: u32)
    ensures Square(c) == Xor(Xor(Square0(c), Square1(c)), Xor(Square2(c), Square3(c)))
  {
    hide Square0, Square1, Square2, Square3;
  }

  lemma SquareLinear(a: u32, b: u32)
    ensures Square(Xor(a, b)) == Xor(Square(a), Square(b))
  {
    hide Xor, Square, Square0, Square1, Square2, Square3;
    Square0Linear(a, b);
    Square1Linear(a, b);
    Square2Linear(a, b);
    Square3Linear(a, b);
    SumOfFour(Square0(a), Square0(b), Square1(a), Square1(b), Square2(a), Square2(b), Square3(a), Square3(b));
    FourParts(a);
    FourParts(b);
    FourParts(Xor(a, b));
  }

  // ---------------------------------------------------------------- Squaring turns one bit step into two

  /** A bit step written out with the machine operators. */
  function Step(c: u32): u32 {
    if c & 1 != 0 then (c >> 1) ^ 0xEDB8_8320 else c >> 1
  }

  lemma StepIsBit(c: u32)
    ensures Bit(c) == Step(c)
  {
    ShowBit(c);
  }

  lemma CommuteByte0(x: byte)
    ensures var y := x as u32; Square(Step(y)) == Step(Step(Square(y)))
  {
  }

  lemma CommuteByte1(x: byte)
    ensures var y := (x as u32) << 8; Square(Step(y)) == Step(Step(Square(y)))
  {
  }

  lemma CommuteByte2(x: byte)
    ensures var y := (x as u32) << 16; Square(Step(y)) == Step(Step(Square(y)))
  {
  }

  lemma CommuteByte3(x: byte)
    ensures var y := (x as u32) << 24; Square(Step(y)) == Step(Step(Square(y)))
  {
  }

  predicate Commutes(c: u32) { Square(Bit(c)) == Bit(Bit(Square(c))) }

  lemma SumCommutes(a: u32, b: u32)
    requires Commutes(a) && Commutes(b)
    ensures Commutes(Xor(a, b))
  {
    hide Square, Bit, Xor;
    BitLinear(a, b);
    SquareLinear(Bit(a), Bit(b));
    SquareLinear(a, b);
    BitLinear(Square(a), Square(b));
    BitLinear(Bit(Square(a)), Bit(Square(b)));
  }

  lemma StepsCommute(c: u32)
    requires Square(Step(c)) == Step(Step(Square(c)))
    ensures Commutes(c)
  {
    hide Square, Bit, Step;
    StepIsBit(c);
    StepIsBit(Square(c));
    StepIsBit(Step(Square(c)));
  }

  lemma SplitBytes(c: u32) returns (b0: byte, b1: byte, b2: byte, b3: byte)
    ensures c == Xor(Xor(b0 as u32, (b1 as u32) << 8), Xor((b2 as u32) << 16, (b3 as u32) << 24))
  {
    b0, b1, b2, b3 := (c & 0xFF) as byte, ((c >> 8) & 0xFF) as byte, ((c >> 16) & 0xFF) as byte, (c >> 24) as byte;
  }

  lemma SquareCommutes(c: u32)
    ensures Commutes(c)
  {
    hide Commutes, Square, Step, Xor;
    var b0, b1, b2, b3 := SplitBytes(c);
    CommuteByte0(b0);
    CommuteByte1(b1);
    CommuteByte2(b2);
    CommuteByte3(b3);
    StepsCommute(b0 as u32);
    StepsCommute((b1 as u32) << 8);
    StepsCommute((b2 as u32) << 16);
    StepsCommute((b3 as u32) << 24);
    SumCommutes(b0 as u32, (b1 as u32) << 8);
    SumCommutes((b2 as u32) << 16, (b3 as u32) << 24);
    SumCommutes(Xor(b0 as u32, (b1 as u32) << 8), Xor((b2 as u32) << 16, (b3 as u32) << 24));
  }

  lemma SquareOfOne()
    ensures Square(ONE) == ONE
  {
  }

  /** `Square` is squaring, on all powers of x. */
  lemma {:induction false} SquareOfPower(n: nat)
    ensures Square(Power(n)) == Power(2 * n)
  {
    hide Square, Bit, Power;
    if n == 0 {
      SquareOfOne();
      PowerZero();
    } else {
      SquareOfPower(n - 1);
      NextPower(n - 1);
      SquareCommutes(Power(n - 1));
      NextPower(2 * n - 2);
      NextPower(2 * n - 1);
    }
  }

  // ---------------------------------------------------------------- x to the powers 2^16 and 2^32

  lemma Squares0()
    ensures Square(0x4000_0000) == 0x2000_0000
    ensures Square(0x2000_0000) == 0x0800_0000
    ensures Square(0x0800_0000) == 0x0080_0000
    ensures Square(0x0080_0000) == 0x0000_8000
    ensures Square(0x0000_8000) == 0xEDB8_8320
    ensures Square(0xEDB8_8320) == 0xB1E6_B092
    ensures Square(0xB1E6_B092) == 0xA06A_2517
    ensures Square(0xA06A_2517) == 0xED62_7DAE
  {
  }

  lemma Squares1()
    ensures Square(0xED62_7DAE) == 0x88D1_4467
    ensures Square(0x88D1_4467) == 0xD7BB_FE6A
    ensures Square(0xD7BB_FE6A) == 0xEC44_7F11
    ensures Square(0xEC44_7F11) == 0x8E7E_A170
    ensures Square(0x8E7E_A170) == 0x6427_800E
    ensures Square(0x6427_800E) == 0x4D47_BAE0
    ensures Square(0x4D47_BAE0) == 0x09FE_548F
    ensures Square(0x09FE_548F) == 0x8385_2D0F
  {
  }

  lemma Squares2()
    ensures Square(0x8385_2D0F) == 0x3036_2F1A
    ensures Square(0x3036_2F1A) == 0x7B5A_9CC3
    ensures Square(0x7B5A_9CC3) == 0x31FE_C169
    ensures Square(0x31FE_C169) == 0x9FEC_022A
    ensures Square(0x9FEC_022A) == 0x6C8D_EDC4
    ensures Square(0x6C8D_EDC4) == 0x15D6_874D
    ensures Square(0x15D6_874D) == 0x5FDE_7A4E
    ensures Square(0x5FDE_7A4E) == 0xBAD9_0E37
  {
  }

  lemma Squares3()
    ensures Square(0xBAD9_0E37) == 0x2E4E_5EEF
    ensures Square(0x2E4E_5EEF) == 0x4EAB_A214
    ensures Square(0x4EAB_A214) == 0xA8A4_72C0
    ensures Square(0xA8A4_72C0) == 0x429A_969E
    ensures Square(0x429A_969E) == 0x148D_302A
    ensures Square(0x148D_302A) == 0xC40B_A6D0
    ensures Square(0xC40B_A6D0) == 0xC4E2_2C3C
    ensures Square(0xC4E2_2C3C) == 0x4000_0000
  {
  }

  lemma SquareOnce(k: nat, v: u32)
    requires Power(Pow2(k)) == v
    ensures Power(Pow2(k + 1)) == Square(v)
  {
    hide Square, Power;
    SquareOfPower(Pow2(k));
  }

  lemma PowerOne()
    ensures Power(Pow2(0)) == 0x4000_0000
  {
    ShowBit(ONE);
    NextPower(0);
  }

  lemma SixteenSquares()
    ensures Power(Pow2(16)) == 0x8385_2D0F
  {
    hide Square, Power, Pow2;
    PowerOne();
    Squares0();
    Squares1();
    SquareOnce(0, 0x4000_0000);
    SquareOnce(1, 0x2000_0000);
    SquareOnce(2, 0x0800_0000);
    SquareOnce(3, 0x0080_0000);
    SquareOnce(4, 0x0000_8000);
    SquareOnce(5, 0xEDB8_8320);
    SquareOnce(6, 0xB1E6_B092);
    SquareOnce(7, 0xA06A_2517);
    SquareOnce(8, 0xED62_7DAE);
    SquareOnce(9, 0x88D1_4467);
    SquareOnce(10, 0xD7BB_FE6A);
    SquareOnce(11, 0xEC44_7F11);
    SquareOnce(12, 0x8E7E_A170);
    SquareOnce(13, 0x6427_800E);
    SquareOnce(14, 0x4D47_BAE0);
    SquareOnce(15, 0x09FE_548F);
  }

  lemma ThirtyTwoSquares()
    ensures Power(Pow2(32)) == 0x4000_0000
  {
    hide Square, Power, Pow2;
    SixteenSquares();
    Squares2();
    Squares3();
    SquareOnce(16, 0x8385_2D0F);
    SquareOnce(17, 0x3036_2F1A);
    SquareOnce(18, 0x7B5A_9CC3);
    SquareOnce(19, 0x31FE_C169);
    SquareOnce(20, 0x9FEC_022A);
    SquareOnce(21, 0x6C8D_EDC4);
    SquareOnce(22, 0x15D6_874D);
    SquareOnce(23, 0x5FDE_7A4E);
    SquareOnce(24, 0xBAD9_0E37);
    SquareOnce(25, 0x2E4E_5EEF);
    SquareOnce(26, 0x4EAB_A214);
    SquareOnce(27, 0xA8A4_72C0);
    SquareOnce(28, 0x429A_969E);
    SquareOnce(29, 0x148D_302A);
    SquareOnce(30, 0xC40B_A6D0);
    SquareOnce(31, 0xC4E2_2C3C);
  }

  // ---------------------------------------------------------------- Powers that are 1

  /** `n` bit steps bring every register back. */
  predicate Cycle(n: nat) { Power(n) == ONE }

  lemma PowerSum(a: nat, b: nat)
    requires Cycle(a)
    ensures Power(a + b) == Power(b)
  {
    BitsAdd(ONE, a, b);
  }

  lemma SamePower(a: nat, b: nat)
    requires b <= a && Power(a) == Power(b)
    ensures Cycle(a - b)
  {
    hide Bits;
    BitsAdd(ONE, a - b, b);
    BitsInjective(Power(a - b), ONE, b);
  }

  lemma {:induction false} CycleMultiple(a: nat, k: nat)
    requires Cycle(a)
    ensures Cycle(a * k)
    decreases k
  {
    hide Power;
    if k == 0 {
      PowerZero();
    } else {
      CycleMultiple(a, k - 1);
      PowerSum(a, a * (k - 1));
      assert a * k == a + a * (k - 1);
    }
  }

  // ---------------------------------------------------------------- The prime 65537

  const FERMAT: nat := 65537

  lemma SmallFactor(d: nat, q: nat)
    requires 2 <= d <= 256
    ensures d * q != 65537
  {
  }

  lemma FermatIsPrime(d: nat)
    requires 2 <= d < FERMAT
    ensures FERMAT % d != 0
  {
    if FERMAT % d == 0 {
      var q := FERMAT / d;
      Whole(FERMAT, d, q);
      if d <= 256 {
        SmallFactor(d, q);
      } else {
        SmallFactor(q, d);
      }
      assert false;
    }
  }

  /** A divisor and its cofactor: one of them is small. */
  lemma Whole(n: nat, d: nat, q: nat)
    requires 2 <= d < n < 257 * 257 && n % d == 0 && q == n / d
    ensures d * q == n && q * d == n && q >= 2 && (d > 256 ==> q <= 256)
  {
    if q >= 257 && d >= 257 {
      LargeProduct(d, q);
    }
  }

  lemma LargeProduct(d: nat, q: nat)
    requires d >= 257 && q >= 257
    ensures d * q >= 257 * 257
  {
    assert d * q >= 257 * q;
  }

  // ---------------------------------------------------------------- The order of x

  /** From a period of x^u below the prime, the Euclidean algorithm leads to the period 1. */
  lemma {:induction false} Descend(u: nat, e: nat)
    requires 0 < e < FERMAT && Cycle(u * e) && Cycle(u * FERMAT)
    ensures Cycle(u)
    decreases e
  {
    hide Cycle, Power;
    if e == 1 {
      assert u * e == u;
    } else {
      var q, r := FERMAT / e, FERMAT % e;
      FermatIsPrime(e);
      CycleMultiple(u * e, q);
      Divide(u, e, q, r);
      RestIsCycle((u * e) * q, u * r);
      Descend(u, r);
    }
  }

  lemma Divide(u: nat, e: nat, q: nat, r: nat)
    requires FERMAT == e * q + r
    ensures u * FERMAT == (u * e) * q + u * r
  {
    assert u * (e * q) == (u * e) * q;
    assert u * (e * q + r) == u * (e * q) + u * r;
  }

  lemma RestIsCycle(a: nat, b: nat)
    requires Cycle(a) && Cycle(a + b)
    ensures Cycle(b)
  {
    hide Power;
    PowerSum(a, b);
  }

  lemma {:induction false} Pow2Sum(a: nat, b: nat)
    ensures Pow2(a + b) == Pow2(a) * Pow2(b)
    decreases a
  {
    if a > 0 {
      Pow2Sum(a - 1, b);
      assert 2 * (Pow2(a - 1) * Pow2(b)) == (2 * Pow2(a - 1)) * Pow2(b);
    }
  }

  lemma Pow2Sixteen()
    ensures Pow2(16) == FERMAT - 1
  {
    assert Pow2(2) == 4;
    assert Pow2(4) == 16;
    assert Pow2(6) == 64;
    assert Pow2(8) == 256;
    hide Pow2;
    Pow2Sum(8, 8);
  }

  /** The order of x divides 2^32 - 1 = 65535 * 65537. */
  lemma FullCycle()
    ensures Cycle((FERMAT - 2) * FERMAT)
  {
    hide Power, Pow2;
    ThirtyTwoSquares();
    PowerOne();
    Pow2Zero();
    Pow2Sixteen();
    Pow2Sum(16, 16);
    SamePower(Pow2(32), 1);
    assert (FERMAT - 1) * (FERMAT - 1) - 1 == (FERMAT - 2) * FERMAT;
  }

  lemma Pow2Zero()
    ensures Pow2(0) == 1
  {
  }

  lemma HalfWayIsNoCycle()
    ensures !Cycle(FERMAT - 2)
  {
    hide Power, Pow2;
    SixteenSquares();
    PowerOne();
    Pow2Zero();
    Pow2Sixteen();
    if Cycle(FERMAT - 2) {
      PowerSum(FERMAT - 2, 1);
      assert false;
    }
  }

  /** No register comes back in fewer than 65537 bit steps. */
  lemma OrderIsLarge(d: nat)
    requires 0 < d < FERMAT
    ensures !Cycle(d)
  {
    hide Cycle, FERMAT;
    if Cycle(d) {
      CycleMultiple(d, FERMAT - 2);
      assert d * (FERMAT - 2) == (FERMAT - 2) * d;
      FullCycle();
      Descend(FERMAT - 2, d);
      HalfWayIsNoCycle();
      assert false;
    }
  }
}
