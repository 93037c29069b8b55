/**
 Big-endian, said in numbers (include/stgs/ByteUtils.hpp:36-119): the readers compute, and the
 writers spell out, the value in base 256 with the first byte counting most.
 */
module ByteValues {
  import opened Bytes

  /** The number that a string of bytes stands for. */
  function Value(b: seq<byte>): nat {
    if b == [] then 0 else 256 * Value(b[..|b| - 1]) + b[|b| - 1] as nat
  }

  // ---------------------------------------------------------------- One more byte

  function Wide(v: u64): nat { v as nat }

  function Left(v: u64): u64 { v << 1 }

  function Left4(v: u64): u64 { Left(Left(Left(Left(v)))) }

  lemma LeftDoubles(v: u64)
    requires Wide(v) < 0x8000_0000_0000_0000
    ensures Wide(Left(v)) == 2 * Wide(v)
  {
    RawDouble(v);
  }

  lemma RawDouble(v: u64)
    ensures v as nat < 0x8000_0000_0000_0000 ==> (v << 1) as nat == 2 * (v as nat)
  {
  }

  lemma Left4Value(v: u64)
    requires Wide(v) < 0x1000_0000_0000_0000
    ensures Wide(Left4(v)) == 16 * Wide(v)
  {
    hide Wide, Left;
    LeftDoubles(v);
    LeftDoubles(Left(v));
    LeftDoubles(Left(Left(v)));
    LeftDoubles(Left(Left(Left(v))));
  }

  lemma LeftEight(v: u64)
    ensures Left4(Left4(v)) == v << 8
  {
  }

  lemma LowByteAdds(v: u64, b: byte)
    requires v & 0xFF == 0
    ensures Wide(v | (b as u64)) == Wide(v) + b as nat
  {
  }

  lemma LowByteClear(v: u64)
    ensures (v << 8) & 0xFF == 0
  {
  }

  lemma ShiftInValue(v: u64, b: byte)
    requires Wide(v) < 0x100_0000_0000_0000
    ensures Wide(ShiftIn(v, b)) == 256 * Wide(v) + b as nat
  {
    hide Wide, Left4;
    Left4Value(v);
    Left4Value(Left4(v));
    LeftEight(v);
    LowByteClear(v);
    LowByteAdds(v << 8, b);
  }

  // ---------------------------------------------------------------- How large a value can be

  function Radix(n: nat): (r: nat)
    ensures r > 0
  {
    if n == 0 then 1 else 256 * Radix(n - 1)
  }

  lemma ByteBelow(x: byte)
    ensures x as nat < 256
  {
  }

  lemma {:induction false} ValueBelow(b: seq<byte>)
    ensures Value(b) < Radix(|b|)
  {
    if b != [] {
      ValueBelow(b[..|b| - 1]);
      ByteBelow(b[|b| - 1]);
    }
  }

  lemma {:induction false} RadixGrows(m: nat, n: nat)
    requires m <= n
    ensures Radix(m) <= Radix(n)
    decreases n
  {
    if m < n {
      RadixGrows(m, n - 1);
    }
  }

  lemma RadixSeven()
    ensures Radix(7) == 0x100_0000_0000_0000
  {
    assert Radix(2) == 0x1_0000;
    assert Radix(4) == 0x1_0000_0000;
    assert Radix(6) == 0x1_0000_0000_0000;
  }

  // ---------------------------------------------------------------- The readers

  lemma NothingIsZero()
    ensures Wide(0) == 0
  {
  }

  lemma {:induction false} AccumulateValue(b: seq<byte>, o: nat, count: nat)
    requires o + count <= |b| && count <= 8
    ensures Wide(Accumulate(b, o, count)) == Value(b[o..o + count])
  {
    hide ShiftIn, Radix, Wide;
    if count == 0 {
      NothingIsZero();
    } else {
      AccumulateValue(b, o, count - 1);
      var s := b[o..o + count];
      assert s[..count - 1] == b[o..o + count - 1];
      ValueBelow(s[..count - 1]);
      RadixGrows(count - 1, 7);
      RadixSeven();
      ShiftInValue(Accumulate(b, o, count - 1), s[count - 1]);
    }
  }

  lemma Widen16(h: byte, l: byte)
    ensures Wide(ShiftIn(ShiftIn(0, h), l)) == (((h as u16) << 8) | (l as u16)) as nat
  {
  }

  lemma Widen32(b0: byte, b1: byte, b2: byte, b3: byte)
    ensures ShiftIn(ShiftIn(ShiftIn(ShiftIn(0, b0), b1), b2), b3) == FourBytes(b0, b1, b2, b3) as u64
  {
  }

  function FourBytes(b0: byte, b1: byte, b2: byte, b3: byte): u32 {
    ((b0 as u32) << 24) | ((b1 as u32) << 16) | ((b2 as u32) << 8) | (b3 as u32)
  }

  lemma WideOfNarrow(w: u32)
    ensures Wide(w as u64) == w as nat
  {
  }

  lemma FirstTwo(b: seq<byte>, o: nat)
    requires o + 2 <= |b|
    ensures Accumulate(b, o, 2) == ShiftIn(ShiftIn(0, b[o]), b[o + 1])
  {
    hide ShiftIn;
    assert Accumulate(b, o, 1) == ShiftIn(Accumulate(b, o, 0), b[o]);
  }

  lemma FirstFour(b: seq<byte>, o: nat)
    requires o + 4 <= |b|
    ensures Accumulate(b, o, 4) == ShiftIn(ShiftIn(ShiftIn(ShiftIn(0, b[o]), b[o + 1]), b[o + 2]), b[o + 3])
  {
    hide ShiftIn;
    FirstTwo(b, o);
    assert Accumulate(b, o, 3) == ShiftIn(Accumulate(b, o, 2), b[o + 2]);
  }

  lemma ReadU16Value(b: seq<byte>, o: nat)
    requires o + 2 <= |b|
    ensures ReadU16BE(b, o) as nat == Value(b[o..o + 2])
  {
    hide ShiftIn, Wide, Value;
    AccumulateValue(b, o, 2);
    FirstTwo(b, o);
    Widen16(b[o], b[o + 1]);
  }

  lemma ReadU32Value(b: seq<byte>, o: nat)
    requires o + 4 <= |b|
    ensures ReadU32BE(b, o) as nat == Value(b[o..o + 4])
  {
    hide ShiftIn, Wide, Value;
    AccumulateValue(b, o, 4);
    FirstFour(b, o);
    Widen32(b[o], b[o + 1], b[o + 2], b[o + 3]);
    WideOfNarrow(FourBytes(b[o], b[o + 1], b[o + 2], b[o + 3]));
  }

  lemma ReadU64Value(b: seq<byte>, o: nat)
    requires o + 8 <= |b|
    ensures ReadU64BE(b, o) as nat == Value(b[o..o + 8])
  {
    hide ShiftIn, Value;
    AccumulateValue(b, o, 8);
  }

  /** What the writers spell out is worth the integer written. */
  lemma WritersKeepValues(v: u16, w: u32, x: u64)
    ensures Value(U16BE(v)) == v as nat && Value(U32BE(w)) == w as nat && Value(U64BE(x)) == x as nat
  {
    hide U16BE, U32BE, U64BE, ReadU16BE, ReadU32BE, ReadU64BE, Value;
    U16RoundTrip(v);
    U32RoundTrip(w);
    U64RoundTrip(x);
    ReadU16Value(U16BE(v), 0);
    ReadU32Value(U32BE(w), 0);
    ReadU64Value(U64BE(x), 0);
    assert U16BE(v)[0..2] == U16BE(v) && U32BE(w)[0..4] == U32BE(w) && U64BE(x)[0..8] == U64BE(x);
  }
}
