/**
 What the framing loop recovers from a stream: the declarative reading that
 `StreamFrameExtractor::feed` (src/FrameCodec.cpp) refines, and resynchronisation after noise.
 */
module StreamParsing {
  import opened Bytes
  import opened FrameCodec
  import opened StreamFraming

  // ---------------------------------------------------------------- The declarative reading

  /** A magic that is not followed by an impossible length. */
  predicate LiveAt(b: seq<byte>, p: nat) {
    p <= |b| && MagicAt(b, p) && (|b| - p < HEADER_SIZE || PayloadLength(b[p..]) <= MAX_PAYLOAD_SIZE)
  }

  /** One complete frame as far as framing looks at it: the checksum is not its business. */
  predicate WellFramed(f: seq<byte>) {
    && MIN_FRAME_SIZE <= |f|
    && MagicAt(f, 0)
    && PayloadLength(f) <= MAX_PAYLOAD_SIZE
    && |f| == FrameSize(f)
  }

  /** The four bytes of the magic stand at `i`. */
  predicate Spelt(b: seq<byte>, i: nat) { i + 4 <= |b| && b[i..i + 4] == MAGIC }

  /** A magic is the frame magic in big-endian order. */
  lemma MagicAtIs(b: seq<byte>, i: nat)
    ensures MagicAt(b, i) <==> Spelt(b, i)
    ensures MAGIC == U32BE(FRAME_MAGIC)
  {
    if i + 4 <= |b| {
      assert b[i..i + 4] == [b[i], b[i + 1], b[i + 2], b[i + 3]];
    }
  }

  predicate Incomplete(b: seq<byte>) {
    |b| < HEADER_SIZE || |b| < FrameSize(b)
  }

  ghost predicate NoneLiveBefore(b: seq<byte>, p: nat) {
    forall k :: 0 <= k < p ==> !LiveAt(b, k)
  }

  /** `t` is the end of `b`, as many of its bytes as a magic can lack one of. */
  predicate IsShortTail(t: seq<byte>, b: seq<byte>) {
    && |t| <= |b| && t == b[|b| - |t|..]
    && (|t| == 3 || (|t| < 3 && |t| == |b|))
  }

  lemma ShortTail(t: seq<byte>, b: seq<byte>)
    ensures IsShortTail(t, b) <==> t == Tail(b)
  {
  }

  /**
   `frames` are disjoint substrings of `b` in order, separated by `skips[i]` bytes none of
   which starts a possible frame; `rest` is an incomplete frame or the last three bytes.
   */
  ghost predicate LeftmostParse(b: seq<byte>, skips: seq<nat>, frames: seq<seq<byte>>, rest: seq<byte>)
    decreases |frames|
  {
    && |skips| == |frames| + 1
    && skips[0] <= |b|
    && NoneLiveBefore(b, skips[0])
    && var p := skips[0];
       if frames == [] then
         if p == |b| then IsShortTail(rest, b) else LiveAt(b, p) && Incomplete(b[p..]) && rest == b[p..]
       else
         && WellFramed(frames[0])
         && p + |frames[0]| <= |b|
         && b[p..p + |frames[0]|] == frames[0]
         && LeftmostParse(b[p + |frames[0]|..], skips[1..], frames[1..], rest)
  }

  lemma LiveShift(b: seq<byte>, k: nat, p: nat)
    requires k <= p <= |b|
    ensures LiveAt(b, p) <==> LiveAt(b[k..], p - k)
  {
    hide MagicAt, PayloadLength;
    MagicShift(b, k, p);
    assert b[k..][p - k..] == b[p..];
  }

  /** The loop reaches the first live magic by discarding everything before it. */
  lemma {:induction false} ToFirstLive(b: seq<byte>, p: nat)
    requires p <= |b| && NoneLiveBefore(b, p)
    requires p < |b| ==> LiveAt(b, p)
    ensures p == |b| ==> Extract(b) == Extraction([], Tail(b))
    ensures p < |b| ==> |b| - p >= 4 && Extract(b) == FromMagic(b[p..])
    decreases |b|
  {
    hide MagicAt, PayloadLength;
    var i := Search(b, 0);
    if p < |b| {
      FoundIsLong(b, p);
      assert i <= p;
    }
    if i < |b| && i < p {
      FoundIsLong(b, i);
      assert !LiveAt(b, i);
      var c := b[i + 1..];
      assert b[i..][1..] == c;
      forall k | i + 1 <= k <= |b|
        ensures LiveAt(b, k) <==> LiveAt(c, k - (i + 1))
      {
        LiveShift(b, i + 1, k);
      }
      forall k | 0 <= k < p - (i + 1)
        ensures !LiveAt(c, k)
      {
        assert !LiveAt(b, k + i + 1);
      }
      ToFirstLive(c, p - (i + 1));
      assert c[p - (i + 1)..] == b[p..];
      assert Tail(c) == Tail(b);
    }
  }

  lemma PayloadLengthOfPrefix(b: seq<byte>, n: nat)
    requires HEADER_SIZE <= n <= |b|
    ensures PayloadLength(b[..n]) == PayloadLength(b)
  {
    assert b == b[..n] + b[n..];
    PayloadLengthLocal(b[..n], b[n..]);
  }

  /** A frame at the front of a stream comes out first. */
  lemma FrameInFront(f: seq<byte>, t: seq<byte>)
    requires WellFramed(f)
    ensures LiveAt(f + t, 0) && Extract(f + t) == Then(Extraction([f], []), Extract(t))
  {
    hide MagicAt, PayloadLength;
    MagicExtend(f, t, 0);
    AtMagic(f + t);
    PayloadLengthLocal(f, t);
    assert (f + t)[0..] == f + t;
    assert (f + t)[..|f|] == f && (f + t)[|f|..] == t;
  }

  /** Whatever reads the stream as `LeftmostParse` demands reads what the extractor reads. */
  lemma {:induction false} ParseIsExtract(b: seq<byte>, skips: seq<nat>, frames: seq<seq<byte>>, rest: seq<byte>)
    requires LeftmostParse(b, skips, frames, rest)
    ensures Extract(b) == Extraction(frames, rest)
    decreases |frames|
  {
    hide MagicAt, PayloadLength, Extract, WellFramed, Tail, IsShortTail;
    var p := skips[0];
    ShortTail(rest, b);
    if frames == [] {
      ToFirstLive(b, p);
    } else {
      var f, t := frames[0], b[p + |frames[0]|..];
      assert b[p..] == f + t;
      FrameInFront(f, t);
      LiveShift(b, p, p);
      FrameNotEmpty(f);
      ToFirstLive(b, p);
      FrontIsFromMagic(f + t);
      ParseIsExtract(t, skips[1..], frames[1..], rest);
      assert frames == [f] + frames[1..];
    }
  }

  lemma FrameNotEmpty(f: seq<byte>)
    requires WellFramed(f)
    ensures |f| >= MIN_FRAME_SIZE
  {
  }

  lemma FrontIsFromMagic(b: seq<byte>)
    requires LiveAt(b, 0)
    ensures |b| >= 4 && Extract(b) == FromMagic(b)
  {
    AtMagic(b);
  }

  function FirstLive(b: seq<byte>, from: nat): (p: nat)
    requires from <= |b|
    ensures from <= p <= |b|
    ensures p < |b| ==> LiveAt(b, p)
    ensures forall k :: from <= k < p ==> !LiveAt(b, k)
    decreases |b| - from
  {
    if from == |b| || LiveAt(b, from) then from else FirstLive(b, from + 1)
  }

  /** How many bytes the extractor discards before each frame, and at the end. */
  ghost function Skips(b: seq<byte>): seq<nat>
    decreases |b|
  {
    var p := FirstLive(b, 0);
    if p < |b| && !Incomplete(b[p..]) && FrameSize(b[p..]) > 0
    then [p] + Skips(b[p + FrameSize(b[p..])..])
    else [p]
  }

  /** The extractor's result is such a reading; with the lemma above, the only one. */
  lemma {:induction false} ExtractIsParse(b: seq<byte>)
    ensures LeftmostParse(b, Skips(b), Extract(b).frames, Extract(b).rest)
    decreases |b|
  {
    hide MagicAt, PayloadLength, Extract, WellFramed, LiveAt, Tail, IsShortTail;
    var p := FirstLive(b, 0);
    ToFirstLive(b, p);
    ShortTail(Tail(b), b);
    if p < |b| {
      AtFirstLive(b, p);
      if !Incomplete(b[p..]) {
        ExtractIsParse(b[p + FrameSize(b[p..])..]);
      }
    }
  }

  /** What the extractor makes of a live magic. */
  lemma AtFirstLive(b: seq<byte>, p: nat)
    requires p < |b| && LiveAt(b, p) && |b| - p >= 4
    ensures var c := b[p..];
            if Incomplete(c) then FromMagic(c) == Extraction([], c)
            else
              var n := FrameSize(c);
              && WellFramed(c[..n]) && b[p..p + n] == c[..n] && c[n..] == b[p + n..]
              && FromMagic(c) == Then(Extraction([c[..n]], []), Extract(c[n..]))
  {
    hide MagicAt, PayloadLength, Extract;
    var c := b[p..];
    LiveShift(b, p, p);
    assert c[0..] == c;
    if !Incomplete(c) {
      var n := FrameSize(c);
      PayloadLengthOfPrefix(c, n);
      PrefixIsWellFramed(c, n);
    }
  }

  /**
   Whatever comes out begins with the magic and is as long as its length field says, within the
   bounds of a frame.
   */
  lemma {:induction false} FramesAreFramed(b: seq<byte>)
    ensures forall f :: f in Extract(b).frames ==>
              && 27 <= |f| <= 4123 && f[..4] == U32BE(FRAME_MAGIC)
              && |f| == 27 + ReadU16BE(f, 21) as nat
  {
    hide MagicAt, Extract, ReadU16BE, LeftmostParse;
    ExtractIsParse(b);
    var frames := Extract(b).frames;
    ParsedIsFramed(b, Skips(b), frames, Extract(b).rest);
    forall f | f in frames
      ensures 27 <= |f| <= 4123 && f[..4] == U32BE(FRAME_MAGIC) && |f| == 27 + ReadU16BE(f, 21) as nat
    {
      MagicAtIs(f, 0);
    }
  }

  lemma {:induction false} ParsedIsFramed(b: seq<byte>, skips: seq<nat>, frames: seq<seq<byte>>, rest: seq<byte>)
    requires LeftmostParse(b, skips, frames, rest)
    ensures forall f :: f in frames ==> WellFramed(f)
    decreases |frames|
  {
    hide WellFramed, LiveAt, Incomplete;
    if frames != [] {
      ParsedIsFramed(b[skips[0] + |frames[0]|..], skips[1..], frames[1..], rest);
      assert frames == [frames[0]] + frames[1..];
    }
  }

  lemma PrefixIsWellFramed(c: seq<byte>, n: nat)
    requires HEADER_SIZE <= |c| && LiveAt(c, 0) && n == FrameSize(c) && n <= |c|
    requires PayloadLength(c[..n]) == PayloadLength(c)
    ensures WellFramed(c[..n]) && PayloadLength(c) <= MAX_PAYLOAD_SIZE
  {
    hide PayloadLength;
    assert c[0..] == c;
    assert c == c[..n] + c[n..];
    MagicExtend(c[..n], c[n..], 0);
  }

  /** The extractor and the declarative reading determine each other. */
  lemma ExtractExactly(b: seq<byte>, frames: seq<seq<byte>>, rest: seq<byte>)
    ensures Extract(b) == Extraction(frames, rest) <==> exists skips :: LeftmostParse(b, skips, frames, rest)
  {
    hide Extract, LeftmostParse;
    if Extract(b) == Extraction(frames, rest) {
      ExtractIsParse(b);
    }
    if skips :| LeftmostParse(b, skips, frames, rest) {
      ParseIsExtract(b, skips, frames, rest);
    }
  }

  // ---------------------------------------------------------------- Resynchronisation

  /** No magic starts in the noise, even with the first three bytes of a frame behind it. */
  ghost predicate Clean(noise: seq<byte>) {
    forall i :: 0 <= i < |noise| ==> !Spelt(noise + MAGIC[..3], i)
  }

  lemma NoiseThenFrame(noise: seq<byte>, f: seq<byte>, t: seq<byte>)
    requires Clean(noise) && WellFramed(f)
    ensures Extract(noise + f + t) == Then(Extraction([f], []), Extract(t))
  {
    hide PayloadLength, Extract;
    var b := noise + f + t;
    forall i | 0 <= i < |noise|
      ensures !MagicAt(b, i)
    {
      assert !Spelt(noise + MAGIC[..3], i);
      MagicInNoise(noise, f, t, i);
    }
    FrameNotEmpty(f);
    DropClean(b, |noise|);
    assert b[|noise|..] == f + t;
    FrameInFront(f, t);
  }

  lemma MagicInNoise(noise: seq<byte>, f: seq<byte>, t: seq<byte>, i: nat)
    requires WellFramed(f) && i < |noise|
    ensures MagicAt(noise + f + t, i) ==> Spelt(noise + MAGIC[..3], i)
  {
    hide PayloadLength, MagicAt;
    var b, c := noise + f + t, noise + MAGIC[..3];
    MagicAtIs(b, i);
    MagicAtIs(f, 0);
    assert f[..3] == f[0..4][..3] == MAGIC[..3];
    assert b[..|noise| + 3] == c;
    if MagicAt(b, i) {
      assert b[i..i + 4] == c[i..i + 4];
    }
  }

  function Weave(noises: seq<seq<byte>>, frames: seq<seq<byte>>): seq<byte>
    requires |noises| == |frames|
  {
    if frames == [] then [] else noises[0] + frames[0] + Weave(noises[1..], frames[1..])
  }

  /** Noise between frames costs no frame and adds none. */
  lemma {:induction false} Resynchronisation(noises: seq<seq<byte>>, frames: seq<seq<byte>>, t: seq<byte>)
    requires |noises| == |frames|
    requires forall i :: 0 <= i < |noises| ==> Clean(noises[i])
    requires forall i :: 0 <= i < |frames| ==> WellFramed(frames[i])
    ensures Extract(Weave(noises, frames) + t) == Then(Extraction(frames, []), Extract(t))
    decreases |frames|
  {
    hide Clean, WellFramed, Extract;
    if frames == [] {
      assert Weave(noises, frames) + t == t;
    } else {
      var later := Weave(noises[1..], frames[1..]);
      Resynchronisation(noises[1..], frames[1..], t);
      NoiseThenFrame(noises[0], frames[0], later + t);
      assert Weave(noises, frames) + t == noises[0] + frames[0] + (later + t);
      assert frames == [frames[0]] + frames[1..];
      assert [frames[0]] + (frames[1..] + Extract(t).frames) == frames + Extract(t).frames;
    }
  }

  /** Frames back to back come out exactly, in order, and leave nothing behind. */
  lemma {:induction false} ExactRecovery(frames: seq<seq<byte>>)
    requires forall i :: 0 <= i < |frames| ==> WellFramed(frames[i])
    ensures Extract(Concat(frames)) == Extraction(frames, [])
    decreases |frames|
  {
    hide WellFramed, Extract;
    if frames == [] {
      EmptyIsSettled();
    } else {
      ExactRecovery(frames[1..]);
      FrameInFront(frames[0], Concat(frames[1..]));
      assert frames == [frames[0]] + frames[1..];
    }
  }

  // ---------------------------------------------------------------- Encoded frames are well framed

  lemma WireIsWellFramed(f: TelemetryFrame)
    requires Encodable(f)
    ensures WellFramed(Wire(f))
  {
    hide U16BE, U32BE, U64BE, ReadU16BE, ReadU32BE, ReadU64BE, Header, PayloadLength, IsFinite;
    var b := Wire(f);
    assert b[..HEADER_SIZE] == Header(f);
    HeaderFields(f, b);
    HeaderSlices(f, b);
    MagicAtIs(b, 0);
  }
}
