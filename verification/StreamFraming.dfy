/**
 TCP stream framing (src/FrameCodec.cpp, StreamFrameExtractor).

 `Extract` says what one call of `feed` does to the bytes it holds: which frames come out and
 which bytes stay buffered.
 */
module StreamFraming {
  import opened Bytes
  import opened FrameCodec

  const MAGIC: seq<byte> := [0x53, 0x54, 0x47, 0x53]

  predicate MagicAt(b: seq<byte>, i: nat) {
    i + 4 <= |b| && b[i] == 0x53 && b[i + 1] == 0x54 && b[i + 2] == 0x47 && b[i + 3] == 0x53
  }

  /** The first position of the magic, or the length when there is none (std::search). */
  function Search(b: seq<byte>, from: nat): (i: nat)
    requires from <= |b|
    ensures from <= i <= |b|
    ensures i < |b| ==> MagicAt(b, i)
    ensures forall k :: from <= k < i ==> !MagicAt(b, k)
    decreases |b| - from
  {
    if from == |b| then from
    else if MagicAt(b, from) then from
    else Search(b, from + 1)
  }

  datatype Extraction = Extraction(frames: seq<seq<byte>>, rest: seq<byte>)

  function FrameSize(b: seq<byte>): nat
    requires HEADER_SIZE <= |b|
  {
    HEADER_SIZE + PayloadLength(b) + CRC_SIZE
  }

  /** At most the last three bytes: a magic may still be arriving. */
  function Tail(b: seq<byte>): seq<byte> {
    if |b| > 3 then b[|b| - 3..] else b
  }

  function Extract(b: seq<byte>): Extraction
    decreases |b|
  {
    var i := Search(b, 0);
    if i == |b| then Extraction([], Tail(b)) else FromMagic(b[i..])
  }

  /** The rest of a round once the buffer starts with the magic. */
  function FromMagic(b: seq<byte>): Extraction
    requires |b| >= 4
    decreases |b|, 0
  {
    if |b| < HEADER_SIZE then Extraction([], b)
    else if PayloadLength(b) > MAX_PAYLOAD_SIZE then Extract(b[1..])
    else if |b| < FrameSize(b) then Extraction([], b)
    else var later := Extract(b[FrameSize(b)..]);
         Extraction([b[..FrameSize(b)]] + later.frames, later.rest)
  }

  // ---------------------------------------------------------------- The class

  class StreamFrameExtractor {
    var buffer: seq<byte>

    constructor ()
      ensures buffer == []
    {
      buffer := [];
    }

    method Feed(bytes: seq<byte>) returns (frames: seq<seq<byte>>)
      modifies this
      ensures Extraction(frames, buffer) == Extract(old(buffer) + bytes)
    {
      hide PayloadLength, MagicAt;
      buffer := buffer + bytes;
      frames := [];
      ghost var all := buffer;
      while true
        invariant frames + Extract(buffer).frames == Extract(all).frames
        invariant Extract(buffer).rest == Extract(all).rest
        decreases |buffer|
      {
        var it := Search(buffer, 0);
        if it == |buffer| {
          if |buffer| > 3 {
            buffer := buffer[|buffer| - 3..];
          }
          return;
        }
        FoundIsLong(buffer, it);
        ghost var whole := buffer;
        if it != 0 {
          buffer := buffer[it..];
        }
        assert buffer == whole[it..];
        if |buffer| < HEADER_SIZE {
          return;
        }
        var payloadLength := PayloadLength(buffer);
        if payloadLength > MAX_PAYLOAD_SIZE {
          buffer := buffer[1..];
          continue;
        }
        var frameSize := HEADER_SIZE + payloadLength + CRC_SIZE;
        if |buffer| < frameSize {
          return;
        }
        ghost var before := frames;
        frames := frames + [buffer[..frameSize]];
        assert frames + Extract(buffer[frameSize..]).frames
            == before + ([buffer[..frameSize]] + Extract(buffer[frameSize..]).frames);
        buffer := buffer[frameSize..];
      }
    }

    method Clear()
      modifies this
      ensures buffer == []
    {
      buffer := [];
    }

    method BufferedBytes() returns (n: nat)
      ensures n == |buffer|
    {
      n := |buffer|;
    }
  }

  lemma FoundIsLong(b: seq<byte>, i: nat)
    requires i < |b| && MagicAt(b, i)
    ensures i + 4 <= |b|
  {
  }

  // ---------------------------------------------------------------- Searching in longer strings

  lemma MagicShift(b: seq<byte>, k: nat, i: nat)
    requires k <= i && k <= |b|
    ensures MagicAt(b, i) <==> MagicAt(b[k..], i - k)
  {
  }

  lemma MagicExtend(b: seq<byte>, c: seq<byte>, i: nat)
    requires i + 4 <= |b|
    ensures MagicAt(b, i) <==> MagicAt(b + c, i)
  {
  }

  /** Dropping a prefix in which no magic starts changes nothing, if three bytes are left. */
  lemma DropClean(b: seq<byte>, k: nat)
    requires k + 3 <= |b|
    requires forall i :: 0 <= i < k ==> !MagicAt(b, i)
    ensures Extract(b) == Extract(b[k..])
  {
    hide MagicAt, PayloadLength;
    var c := b[k..];
    forall i | k <= i <= |b|
      ensures MagicAt(b, i) <==> MagicAt(c, i - k)
    {
      MagicShift(b, k, i);
    }
    var i, j := Search(b, 0), Search(c, 0);
    if j < |c| {
      assert MagicAt(b, j + k);
      assert i == j + k;
      assert c[j..] == b[i..];
    } else {
      assert i == |b|;
      assert Tail(c) == Tail(b);
    }
  }

  lemma AtMagic(b: seq<byte>)
    requires MagicAt(b, 0)
    ensures |b| >= 4 && Extract(b) == FromMagic(b)
  {
    assert Search(b, 0) == 0;
    assert b[0..] == b;
  }

  // ---------------------------------------------------------------- Fragmentation independence

  function Then(a: Extraction, b: Extraction): Extraction {
    Extraction(a.frames + b.frames, b.rest)
  }

  lemma PayloadLengthLocal(b: seq<byte>, c: seq<byte>)
    requires HEADER_SIZE <= |b|
    ensures PayloadLength(b + c) == PayloadLength(b)
  {
    hide ReadU16BE;
    Read16Local(b, 21);
    Read16Local(b + c, 21);
    assert (b + c)[21..23] == b[21..23];
  }

  /** Cutting the stream anywhere, with the rest carried over, gives the frames of the uncut stream. */
  lemma {:induction false} Fragmentation(x: seq<byte>, y: seq<byte>)
    ensures Extract(x + y) == Then(Extract(x), Extract(Extract(x).rest + y))
    decreases |x|
  {
    hide MagicAt, PayloadLength, Extract, FromMagic;
    var i := Search(x, 0);
    forall k | 0 <= k && k + 4 <= |x|
      ensures MagicAt(x, k) <==> MagicAt(x + y, k)
    {
      MagicExtend(x, y, k);
    }
    if i == |x| {
      NoMagic(x, y);
    } else {
      FoundIsLong(x, i);
      assert forall k :: 0 <= k < i ==> !MagicAt(x + y, k);
      DropClean(x, i);
      DropClean(x + y, i);
      assert (x + y)[i..] == x[i..] + y;
      MagicShift(x, i, i);
      FromMagicFragmentation(x[i..], y);
    }
  }

  lemma NoMagic(x: seq<byte>, y: seq<byte>)
    requires Search(x, 0) == |x|
    ensures Extract(x + y) == Then(Extract(x), Extract(Extract(x).rest + y))
  {
    hide FromMagic, PayloadLength;
    assert Extract(x) == Extraction([], Tail(x));
    if |x| > 3 {
      var k := |x| - 3;
      forall i | 0 <= i < k
        ensures !MagicAt(x + y, i)
      {
        MagicExtend(x, y, i);
      }
      DropClean(x + y, k);
      assert (x + y)[k..] == Tail(x) + y;
    }
  }

  lemma {:induction false} FromMagicFragmentation(x: seq<byte>, y: seq<byte>)
    requires MagicAt(x, 0)
    ensures Extract(x + y) == Then(Extract(x), Extract(Extract(x).rest + y))
    decreases |x|, 0
  {
    hide PayloadLength, Extract;
    AtMagic(x);
    MagicExtend(x, y, 0);
    AtMagic(x + y);
    if |x| >= HEADER_SIZE {
      PayloadLengthLocal(x, y);
      if PayloadLength(x) > MAX_PAYLOAD_SIZE {
        assert (x + y)[1..] == x[1..] + y;
        Fragmentation(x[1..], y);
      } else if |x| >= FrameSize(x) {
        var n := FrameSize(x);
        assert (x + y)[n..] == x[n..] + y && (x + y)[..n] == x[..n];
        Fragmentation(x[n..], y);
        var a, b := Extract(x[n..]), Extract(Extract(x[n..]).rest + y);
        assert [x[..n]] + (a.frames + b.frames) == ([x[..n]] + a.frames) + b.frames;
      }
    }
  }

  /** The frames and the buffer after feeding a list of fragments to a fresh extractor. */
  function FeedAll(buffer: seq<byte>, chunks: seq<seq<byte>>): Extraction
    decreases |chunks|
  {
    if chunks == [] then Extraction([], buffer)
    else
      var first := Extract(buffer + chunks[0]);
      Then(first, FeedAll(first.rest, chunks[1..]))
  }

  function Concat(chunks: seq<seq<byte>>): seq<byte> {
    if chunks == [] then [] else chunks[0] + Concat(chunks[1..])
  }

  /** A buffer that `feed` has left behind holds nothing more to extract. */
  ghost predicate Settled(buffer: seq<byte>) { Extract(buffer) == Extraction([], buffer) }

  lemma {:induction false} RestIsSettled(b: seq<byte>)
    ensures Settled(Extract(b).rest)
    decreases |b|, 1
  {
    hide MagicAt, PayloadLength;
    var i := Search(b, 0);
    if i == |b| {
      var t := Tail(b);
      var k := |b| - |t|;
      assert t == b[k..];
      forall j | 0 <= j <= |t|
        ensures MagicAt(b, j + k) <==> MagicAt(t, j)
      {
        MagicShift(b, k, j + k);
      }
      assert Search(t, 0) == |t|;
    } else {
      FoundIsLong(b, i);
      MagicShift(b, i, i);
      FromMagicSettled(b[i..]);
    }
  }

  lemma {:induction false} FromMagicSettled(b: seq<byte>)
    requires |b| >= 4 && MagicAt(b, 0)
    ensures Settled(FromMagic(b).rest)
    decreases |b|, 0
  {
    hide PayloadLength;
    AtMagic(b);
    if |b| >= HEADER_SIZE {
      if PayloadLength(b) > MAX_PAYLOAD_SIZE {
        RestIsSettled(b[1..]);
      } else if |b| >= FrameSize(b) {
        RestIsSettled(b[FrameSize(b)..]);
      }
    }
  }

  /** However a stream is cut into fragments, the frames are those of the whole stream. */
  lemma {:induction false} ChunkingIsIrrelevant(buffer: seq<byte>, chunks: seq<seq<byte>>)
    requires Settled(buffer)
    ensures FeedAll(buffer, chunks) == Extract(buffer + Concat(chunks))
    decreases |chunks|
  {
    hide Extract;
    if chunks == [] {
      assert buffer + Concat(chunks) == buffer;
    } else {
      var first := Extract(buffer + chunks[0]);
      RestIsSettled(buffer + chunks[0]);
      ChunkingIsIrrelevant(first.rest, chunks[1..]);
      Fragmentation(buffer + chunks[0], Concat(chunks[1..]));
      assert buffer + Concat(chunks) == (buffer + chunks[0]) + Concat(chunks[1..]);
    }
  }

  lemma EmptyIsSettled()
    ensures Settled([])
  {
  }

  // ---------------------------------------------------------------- Bounded buffer

  lemma {:induction false} RestIsBounded(b: seq<byte>)
    ensures |Extract(b).rest| < MAX_FRAME_SIZE
    decreases |b|, 1
  {
    hide MagicAt, PayloadLength;
    var i := Search(b, 0);
    if i < |b| {
      FoundIsLong(b, i);
      FromMagicBounded(b[i..]);
    }
  }

  lemma {:induction false} FromMagicBounded(b: seq<byte>)
    requires |b| >= 4
    ensures |FromMagic(b).rest| < MAX_FRAME_SIZE
    decreases |b|, 0
  {
    hide PayloadLength;
    if |b| >= HEADER_SIZE {
      if PayloadLength(b) > MAX_PAYLOAD_SIZE {
        RestIsBounded(b[1..]);
      } else if |b| >= FrameSize(b) {
        RestIsBounded(b[FrameSize(b)..]);
      }
    }
  }
}
