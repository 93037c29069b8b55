/**
 Big-endian serialisation of fixed-width integers (include/stgs/ByteUtils.hpp).

 Machine integers are bit-vectors of their own width.  A `float` is carried as its 32-bit
 pattern, which is all the codecs do with it.  The specification functions say which bytes
 an integer occupies; the `ByteBuffer` class is the vector the codecs append to.
 */
module Bytes {

  type byte = bv8
  type u16 = bv16
  type u32 = bv32
  type u64 = bv64

  datatype Option<+T> = None | Some(value: T)

  function Pow2(n: nat): (p: nat)
    ensures p > 0
  {
    if n == 0 then 1 else 2 * Pow2(n - 1)
  }

  // ---------------------------------------------------------------- Specification

  function U16BE(v: u16): (b: seq<byte>)
    ensures |b| == 2
  {
    [((v >> 8) & 0xFF) as byte, (v & 0xFF) as byte]
  }

  function U32BE(v: u32): (b: seq<byte>)
    ensures |b| == 4
  {
    [((v >> 24) & 0xFF) as byte, ((v >> 16) & 0xFF) as byte, ((v >> 8) & 0xFF) as byte, (v & 0xFF) as byte]
  }

  /** `(v >> shift) & 0xFF` for the eight shifts the 64-bit writer uses. */
  function Octet(v: u64, shift: int): byte
    requires 0 <= shift <= 56 && shift % 8 == 0
  {
    if shift == 56 then ((v >> 56) & 0xFF) as byte
    else if shift == 48 then ((v >> 48) & 0xFF) as byte
    else if shift == 40 then ((v >> 40) & 0xFF) as byte
    else if shift == 32 then ((v >> 32) & 0xFF) as byte
    else if shift == 24 then ((v >> 24) & 0xFF) as byte
    else if shift == 16 then ((v >> 16) & 0xFF) as byte
    else if shift == 8 then ((v >> 8) & 0xFF) as byte
    else (v & 0xFF) as byte
  }

  function U64BE(v: u64): (b: seq<byte>)
    ensures |b| == 8
  {
    [Octet(v, 56), Octet(v, 48), Octet(v, 40), Octet(v, 32), Octet(v, 24), Octet(v, 16), Octet(v, 8), Octet(v, 0)]
  }

  function ReadU16BE(b: seq<byte>, offset: nat): u16
    requires offset + 2 <= |b|
  {
    ((b[offset] as u16) << 8) | (b[offset + 1] as u16)
  }

  function ReadU32BE(b: seq<byte>, offset: nat): u32
    requires offset + 4 <= |b|
  {
    ((b[offset] as u32) << 24) | ((b[offset + 1] as u32) << 16) | ((b[offset + 2] as u32) << 8) | (b[offset + 3] as u32)
  }

  /** One turn of the 64-bit reader's loop. */
  function ShiftIn(value: u64, b: byte): u64 { (value << 8) | (b as u64) }

  /** The accumulator of the 64-bit reader after `count` bytes. */
  function Accumulate(b: seq<byte>, offset: nat, count: nat): u64
    requires offset + count <= |b|
  {
    if count == 0 then 0 else ShiftIn(Accumulate(b, offset, count - 1), b[offset + count - 1])
  }

  function ReadU64BE(b: seq<byte>, offset: nat): u64
    requires offset + 8 <= |b|
  {
    Accumulate(b, offset, 8)
  }

  // ---------------------------------------------------------------- Each pair is inverse both ways

  lemma U16RoundTrip(v: u16)
    ensures ReadU16BE(U16BE(v), 0) == v
  {
  }

  lemma U16Slice(b: seq<byte>, offset: nat)
    requires offset + 2 <= |b|
    ensures U16BE(ReadU16BE(b, offset)) == b[offset..offset + 2]
  {
    U16Bits(b[offset], b[offset + 1]);
  }

  lemma U16Bits(h: byte, l: byte)
    ensures var v := ((h as u16) << 8) | (l as u16);
            ((v >> 8) & 0xFF) as byte == h && (v & 0xFF) as byte == l
  {
  }

  lemma U32RoundTrip(v: u32)
    ensures ReadU32BE(U32BE(v), 0) == v
  {
  }

  lemma U32Bits(b0: byte, b1: byte, b2: byte, b3: byte)
    ensures var v := ((b0 as u32) << 24) | ((b1 as u32) << 16) | ((b2 as u32) << 8) | (b3 as u32);
            && ((v >> 24) & 0xFF) as byte == b0 && ((v >> 16) & 0xFF) as byte == b1
            && ((v >> 8) & 0xFF) as byte == b2 && (v & 0xFF) as byte == b3
  {
  }

  lemma U32Slice(b: seq<byte>, offset: nat)
    requires offset + 4 <= |b|
    ensures U32BE(ReadU32BE(b, offset)) == b[offset..offset + 4]
  {
    U32Bits(b[offset], b[offset + 1], b[offset + 2], b[offset + 3]);
  }

  function Pack64(b0: byte, b1: byte, b2: byte, b3: byte, b4: byte, b5: byte, b6: byte, b7: byte): u64 {
    ShiftIn(ShiftIn(ShiftIn(ShiftIn(ShiftIn(ShiftIn(ShiftIn(ShiftIn(0, b0), b1), b2), b3), b4), b5), b6), b7)
  }

  lemma AccumulateIsPack64(b: seq<byte>, o: nat)
    requires o + 8 <= |b|
    ensures ReadU64BE(b, o) == Pack64(b[o], b[o + 1], b[o + 2], b[o + 3], b[o + 4], b[o + 5], b[o + 6], b[o + 7])
  {
    hide ShiftIn;
    assert Accumulate(b, o, 1) == ShiftIn(Accumulate(b, o, 0), b[o]);
    assert Accumulate(b, o, 2) == ShiftIn(Accumulate(b, o, 1), b[o + 1]);
    assert Accumulate(b, o, 3) == ShiftIn(Accumulate(b, o, 2), b[o + 2]);
    assert Accumulate(b, o, 4) == ShiftIn(Accumulate(b, o, 3), b[o + 3]);
    assert Accumulate(b, o, 5) == ShiftIn(Accumulate(b, o, 4), b[o + 4]);
    assert Accumulate(b, o, 6) == ShiftIn(Accumulate(b, o, 5), b[o + 5]);
    assert Accumulate(b, o, 7) == ShiftIn(Accumulate(b, o, 6), b[o + 6]);
    assert Accumulate(b, o, 8) == ShiftIn(Accumulate(b, o, 7), b[o + 7]);
  }

  lemma Pack64Bits(b0: byte, b1: byte, b2: byte, b3: byte, b4: byte, b5: byte, b6: byte, b7: byte)
    ensures U64BE(Pack64(b0, b1, b2, b3, b4, b5, b6, b7)) == [b0, b1, b2, b3, b4, b5, b6, b7]
  {
  }

  lemma Unpack64(v: u64)
    ensures var b := U64BE(v); Pack64(b[0], b[1], b[2], b[3], b[4], b[5], b[6], b[7]) == v
  {
  }

  lemma U64RoundTrip(v: u64)
    ensures ReadU64BE(U64BE(v), 0) == v
  {
    AccumulateIsPack64(U64BE(v), 0);
    Unpack64(v);
  }

  lemma U64Slice(b: seq<byte>, o: nat)
    requires o + 8 <= |b|
    ensures U64BE(ReadU64BE(b, o)) == b[o..o + 8]
  {
    AccumulateIsPack64(b, o);
    Pack64Bits(b[o], b[o + 1], b[o + 2], b[o + 3], b[o + 4], b[o + 5], b[o + 6], b[o + 7]);
  }

  // ---------------------------------------------------------------- Lengths on the wire

  /** The 16-bit pattern of a size, built bit by bit. */
  function Pattern(n: nat): u16
    requires n < 0x1_0000
  {
    if n == 0 then 0 else if n % 2 == 0 then Pattern(n / 2) << 1 else (Pattern(n / 2) << 1) | 1
  }

  lemma {:induction false} PatternValue(n: nat)
    requires n < 0x1_0000
    ensures Pattern(n) as nat == n
  {
    if n > 0 {
      PatternValue(n / 2);
      TopBitClear(Pattern(n / 2));
      Double(Pattern(n / 2));
    } else {
      ZeroValue();
    }
  }

  lemma ZeroValue()
    ensures (0 as u16) as nat == 0
  {
  }

  lemma TopBitClear(w: u16)
    ensures w as nat < 0x8000 ==> w & 0x8000 == 0
  {
  }

  lemma Double(w: u16)
    ensures w & 0x8000 == 0 ==> (w << 1) as nat == 2 * (w as nat) && ((w << 1) | 1) as nat == 2 * (w as nat) + 1
  {
  }

  /** The narrowing cast of a size to a 16-bit field loses nothing below 2^16. */
  lemma NatU16(n: nat)
    requires n < 0x1_0000
    ensures (n as u16) as nat == n
  {
    hide Pattern;
    PatternValue(n);
    U16Nat(Pattern(n));
  }

  lemma U16Nat(w: u16)
    ensures (w as nat) as u16 == w
  {
  }

  /** A size below 2^16 survives the 32-bit length field too. */
  lemma NatU32(n: nat)
    requires n < 0x1_0000
    ensures (n as u32) as nat == n
  {
    hide Pattern;
    PatternValue(n);
    Widen(Pattern(n));
    U32Nat(Pattern(n) as u32);
  }

  lemma Widen(w: u16)
    ensures (w as u32) as nat == w as nat
  {
  }

  lemma U32Nat(w: u32)
    ensures (w as nat) as u32 == w
  {
  }

  // ---------------------------------------------------------------- The buffer the codecs append to

  class ByteBuffer {
    var data: seq<byte>

    constructor ()
      ensures data == []
    {
      data := [];
    }

    method AppendU8(v: byte)
      modifies this
      ensures data == old(data) + [v]
    {
      data := data + [v];
    }

    method AppendU16BE(v: u16)
      modifies this
      ensures data == old(data) + U16BE(v)
    {
      data := data + [((v >> 8) & 0xFF) as byte];
      data := data + [(v & 0xFF) as byte];
    }

    method AppendU32BE(v: u32)
      modifies this
      ensures data == old(data) + U32BE(v)
    {
      data := data + [((v >> 24) & 0xFF) as byte];
      data := data + [((v >> 16) & 0xFF) as byte];
      data := data + [((v >> 8) & 0xFF) as byte];
      data := data + [(v & 0xFF) as byte];
    }

    method AppendU64BE(v: u64)
      modifies this
      ensures data == old(data) + U64BE(v)
    {
      hide Octet;
      var shift: int := 56;
      while shift >= 0
        invariant -8 <= shift <= 56 && shift % 8 == 0
        invariant data == old(data) + U64BE(v)[..7 - shift / 8]
      {
        data := data + [Octet(v, shift)];
        assert U64BE(v)[7 - shift / 8] == Octet(v, shift);
        shift := shift - 8;
      }
    }

    method Append(bytes: seq<byte>)
      modifies this
      ensures data == old(data) + bytes
    {
      data := data + bytes;
    }
  }

  method ReadU64(b: seq<byte>, offset: nat) returns (value: u64)
    requires offset + 8 <= |b|
    ensures value == ReadU64BE(b, offset)
  {
    hide ShiftIn;
    value := 0;
    for i := 0 to 8
      invariant value == Accumulate(b, offset, i)
    {
      ShowShiftIn(value, b[offset + i]);
      value := (value << 8) | (b[offset + i] as u64);
    }
  }

  lemma ShowShiftIn(value: u64, b: byte)
    ensures ShiftIn(value, b) == (value << 8) | (b as u64)
  {
  }
}
