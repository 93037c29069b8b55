/**
 The STGF replay container (src/Replay.cpp) over an abstract byte sequence.

 A file is an eight-byte header followed by records: a 32-bit length and that many bytes.
 */
module Replay {
  import opened Bytes
  import opened FrameCodec

  const FILE_HEADER: seq<byte> := [0x53, 0x54, 0x47, 0x46, 0, 0, 0, 1]
  const LENGTH_SIZE: nat := 4

  datatype ReadError = UnexpectedEnd | InvalidHeader | TruncatedLength | InvalidLength

  datatype Next = Frame(bytes: seq<byte>) | EndOfFile | Failure(error: ReadError)

  /** Reading a whole file: every frame up to the normal end, or those before an error. */
  datatype Reading = Complete(frames: seq<seq<byte>>) | Broken(before: seq<seq<byte>>, error: ReadError)

  // ---------------------------------------------------------------- The format

  predicate InBounds(f: seq<byte>) { MIN_FRAME_SIZE <= |f| <= MAX_FRAME_SIZE }

  ghost predicate AllInBounds(frames: seq<seq<byte>>) {
    forall i :: 0 <= i < |frames| ==> InBounds(frames[i])
  }

  /** The four bytes that announce a record of `n` bytes. */
  function LengthField(n: nat): (b: seq<byte>)
    requires n <= MAX_FRAME_SIZE
    ensures |b| == LENGTH_SIZE
  {
    U32BE(n as u32)
  }

  function RecordOf(f: seq<byte>): (r: seq<byte>)
    requires InBounds(f)
    ensures |r| == LENGTH_SIZE + |f|
  {
    LengthField(|f|) + f
  }

  ghost function Body(frames: seq<seq<byte>>): seq<byte>
    requires AllInBounds(frames)
  {
    if frames == [] then [] else RecordOf(frames[0]) + Body(frames[1..])
  }

  /** The bytes of a file that holds the given frames. */
  ghost function FileOf(frames: seq<seq<byte>>): seq<byte>
    requires AllInBounds(frames)
  {
    FILE_HEADER + Body(frames)
  }

  function LengthAt(b: seq<byte>): nat
    requires LENGTH_SIZE <= |b|
  {
    ReadU32BE(b, 0) as nat
  }

  lemma LengthOfField(n: nat, t: seq<byte>)
    requires n <= MAX_FRAME_SIZE
    ensures LengthAt(LengthField(n) + t) == n
  {
    hide U32BE, ReadU32BE;
    var b := LengthField(n) + t;
    assert b[0..4] == LengthField(n);
    Read32Local(b, 0);
    U32RoundTrip(n as u32);
    NatU32(n);
  }

  lemma FieldOfLength(b: seq<byte>)
    requires LENGTH_SIZE <= |b| && LengthAt(b) <= MAX_FRAME_SIZE
    ensures LengthField(LengthAt(b)) == b[..LENGTH_SIZE]
  {
    hide U32BE, ReadU32BE;
    U32Slice(b, 0);
    U32Nat(ReadU32BE(b, 0));
  }

  lemma LengthLocal(b: seq<byte>)
    requires LENGTH_SIZE <= |b|
    ensures LengthAt(b[..LENGTH_SIZE]) == LengthAt(b)
  {
    hide ReadU32BE;
    Read32Local(b, 0);
    assert b[..LENGTH_SIZE][0..4] == b[0..4];
    Read32Local(b[..LENGTH_SIZE], 0);
  }

  function Prepend(f: seq<byte>, r: Reading): Reading {
    match r
    case Complete(frames) => Complete([f] + frames)
    case Broken(before, error) => Broken([f] + before, error)
  }

  function ReadRecords(b: seq<byte>): Reading
    decreases |b|
  {
    if b == [] then Complete([])
    else if |b| < LENGTH_SIZE then Broken([], TruncatedLength)
    else if LengthAt(b) < MIN_FRAME_SIZE || LengthAt(b) > MAX_FRAME_SIZE then Broken([], InvalidLength)
    else if |b| < LENGTH_SIZE + LengthAt(b) then Broken([], UnexpectedEnd)
    else
      var n := LENGTH_SIZE + LengthAt(b);
      Prepend(b[LENGTH_SIZE..n], ReadRecords(b[n..]))
  }

  function ReadFile(data: seq<byte>): Reading {
    if |data| < |FILE_HEADER| then Broken([], UnexpectedEnd)
    else if data[..|FILE_HEADER|] != FILE_HEADER then Broken([], InvalidHeader)
    else ReadRecords(data[|FILE_HEADER|..])
  }

  // ---------------------------------------------------------------- The writer and the reader

  class FrameFileWriter {
    var out: seq<byte>
    ghost var written: seq<seq<byte>>

    ghost predicate Valid()
      reads this
    {
      AllInBounds(written) && out == FileOf(written)
    }

    constructor ()
      ensures Valid() && written == []
    {
      out := FILE_HEADER;
      written := [];
      new;
      assert FILE_HEADER + [] == FILE_HEADER;
    }

    /** Refuses a frame outside the size bounds and writes nothing then. */
    method WriteFrame(frame: seq<byte>) returns (ok: bool)
      requires Valid()
      modifies this
      ensures Valid()
      ensures ok <==> InBounds(frame)
      ensures written == if ok then old(written) + [frame] else old(written)
    {
      hide U32BE, Body, LengthField;
      if |frame| < MIN_FRAME_SIZE || |frame| > MAX_FRAME_SIZE {
        return false;
      }
      var length := LengthBuffer(|frame|);
      BodyAppend(written, frame);
      assert out + length.data + frame == FILE_HEADER + (Body(written) + RecordOf(frame));
      out := out + length.data;
      out := out + frame;
      written := written + [frame];
      return true;
    }
  }

  method LengthBuffer(n: nat) returns (length: ByteBuffer)
    requires n <= MAX_FRAME_SIZE
    ensures fresh(length) && length.data == LengthField(n)
  {
    length := new ByteBuffer();
    length.AppendU32BE(n as u32);
  }

  lemma {:induction false} BodyAppend(frames: seq<seq<byte>>, f: seq<byte>)
    requires AllInBounds(frames) && InBounds(f)
    ensures AllInBounds(frames + [f])
    ensures Body(frames + [f]) == Body(frames) + RecordOf(f)
    decreases |frames|
  {
    hide RecordOf;
    if frames == [] {
      assert Body([f]) == RecordOf(f) + Body([]);
    } else {
      assert (frames + [f])[1..] == frames[1..] + [f];
      BodyAppend(frames[1..], f);
    }
  }

  /** An input stream: a short read sets `eof`, and nothing is read after that. */
  class FrameFileReader {
    const data: seq<byte>
    var position: nat
    var eof: bool

    ghost predicate Valid()
      reads this
    {
      position <= |data|
    }

    /** Only reached after `OpenReader` has checked the header. */
    constructor (data: seq<byte>)
      requires |data| >= |FILE_HEADER|
      ensures Valid() && this.data == data && position == |FILE_HEADER| && !eof
    {
      this.data := data;
      position := |FILE_HEADER|;
      eof := false;
    }

    /** std::istream::read and gcount. */
    method Read(size: nat) returns (bytes: seq<byte>)
      requires Valid()
      modifies this
      ensures Valid()
      ensures old(eof) ==> bytes == [] && eof && position == old(position)
      ensures !old(eof) && old(position) + size <= |data| ==>
                bytes == data[old(position)..old(position) + size] && !eof && position == old(position) + size
      ensures !old(eof) && old(position) + size > |data| ==>
                bytes == data[old(position)..] && eof && position == |data|
    {
      if eof {
        return [];
      }
      if position + size <= |data| {
        bytes := data[position..position + size];
        position := position + size;
      } else {
        bytes := data[position..];
        position := |data|;
        eof := true;
      }
    }

    method ReadNext() returns (r: Next)
      requires Valid()
      modifies this
      ensures Valid()
      ensures old(eof) ==> r == EndOfFile
      ensures !old(eof) ==>
                match r
                case EndOfFile => old(position) == |data|
                case Frame(f) => !eof && old(position) < position
                                 && ReadRecords(data[old(position)..]) == Prepend(f, ReadRecords(data[position..]))
                case Failure(e) => ReadRecords(data[old(position)..]) == Broken([], e)
    {
      hide LengthAt;
      ghost var b := data[position..];
      ghost var start := position;
      var lengthBytes := Read(LENGTH_SIZE);
      if lengthBytes == [] && eof {
        return EndOfFile;
      }
      if |lengthBytes| != LENGTH_SIZE {
        return Failure(TruncatedLength);
      }
      assert lengthBytes == b[..LENGTH_SIZE];
      LengthLocal(b);
      var length := LengthAt(lengthBytes);
      if length < MIN_FRAME_SIZE || length > MAX_FRAME_SIZE {
        return Failure(InvalidLength);
      }
      assert position == start + LENGTH_SIZE && !eof;
      var frame := Read(length);
      if |frame| != length {
        return Failure(UnexpectedEnd);
      }
      assert position == start + LENGTH_SIZE + length && !eof;
      assert frame == b[LENGTH_SIZE..LENGTH_SIZE + length];
      assert data[position..] == b[LENGTH_SIZE + length..];
      return Frame(frame);
    }
  }

  method OpenReader(data: seq<byte>) returns (r: FrameFileReader?, error: ReadError)
    ensures r != null <==> FILE_HEADER <= data
    ensures r == null ==> ReadFile(data) == Broken([], error)
    ensures r != null ==> fresh(r) && r.Valid() && !r.eof && r.data == data && r.position == |FILE_HEADER|
                          && ReadFile(data) == ReadRecords(data[r.position..])
  {
    if |data| < |FILE_HEADER| {
      return null, UnexpectedEnd;
    }
    if data[..|FILE_HEADER|] != FILE_HEADER {
      return null, InvalidHeader;
    }
    r := new FrameFileReader(data);
    error := InvalidHeader;
  }

  lemma PrependAll(a: seq<seq<byte>>, f: seq<byte>, r: Reading)
    ensures After(a + [f], r) == After(a, Prepend(f, r))
  {
    match r {
      case Complete(frames) => assert (a + [f]) + frames == a + ([f] + frames);
      case Broken(before, _) => assert (a + [f]) + before == a + ([f] + before);
    }
  }

  /** A reading whose first frames have already been taken. */
  function After(a: seq<seq<byte>>, r: Reading): Reading {
    match r
    case Complete(frames) => Complete(a + frames)
    case Broken(before, error) => Broken(a + before, error)
  }

  /** The replay loop: read until the end or the first error. */
  method Replay(data: seq<byte>) returns (r: Reading)
    ensures r == ReadFile(data)
  {
    hide ReadRecords;
    var reader, error := OpenReader(data);
    if reader == null {
      return Broken([], error);
    }
    var frames: seq<seq<byte>> := [];
    StartAfter(ReadRecords(data[reader.position..]));
    while true
      invariant reader.Valid() && !reader.eof && fresh(reader) && reader.data == data
      invariant After(frames, ReadRecords(data[reader.position..])) == ReadFile(data)
      decreases |data| - reader.position
    {
      ghost var start := reader.position;
      var next := reader.ReadNext();
      match next
      case EndOfFile =>
        EmptyRecords(data[start..]);
        assert frames + [] == frames;
        return Complete(frames);
      case Failure(e) =>
        assert frames + [] == frames;
        return Broken(frames, e);
      case Frame(f) =>
        PrependAll(frames, f, ReadRecords(data[reader.position..]));
        frames := frames + [f];
    }
  }

  lemma EmptyRecords(b: seq<byte>)
    requires b == []
    ensures ReadRecords(b) == Complete([])
  {
  }

  lemma StartAfter(r: Reading)
    ensures After([], r) == r
  {
    match r {
      case Complete(frames) => assert [] + frames == frames;
      case Broken(before, _) => assert [] + before == before;
    }
  }

  // ---------------------------------------------------------------- Round trip and canonicity

  lemma RecordFirst(f: seq<byte>, t: seq<byte>)
    requires InBounds(f)
    ensures ReadRecords(RecordOf(f) + t) == Prepend(f, ReadRecords(t))
  {
    hide LengthField, LengthAt;
    var b := RecordOf(f) + t;
    assert b == LengthField(|f|) + (f + t);
    LengthOfField(|f|, f + t);
    assert b[LENGTH_SIZE..LENGTH_SIZE + |f|] == f;
    assert b[LENGTH_SIZE + |f|..] == t;
  }

  lemma {:induction false} RecordsRoundTrip(frames: seq<seq<byte>>)
    requires AllInBounds(frames)
    ensures ReadRecords(Body(frames)) == Complete(frames)
    decreases |frames|
  {
    hide RecordOf, ReadRecords;
    if frames == [] {
      EmptyRecords(Body(frames));
    } else {
      RecordsRoundTrip(frames[1..]);
      RecordFirst(frames[0], Body(frames[1..]));
    }
  }

  lemma {:induction false} RecordsCanonical(b: seq<byte>)
    requires ReadRecords(b).Complete?
    ensures AllInBounds(ReadRecords(b).frames) && Body(ReadRecords(b).frames) == b
    decreases |b|
  {
    hide LengthField, LengthAt;
    if b != [] {
      var n := LENGTH_SIZE + LengthAt(b);
      var f := b[LENGTH_SIZE..n];
      RecordsCanonical(b[n..]);
      FieldOfLength(b);
      assert b == b[..LENGTH_SIZE] + f + b[n..];
      assert ReadRecords(b).frames[1..] == ReadRecords(b[n..]).frames;
    }
  }

  /** A byte string reads completely exactly when it is the file of the frames it reads as. */
  lemma FormatIsBijective(data: seq<byte>, frames: seq<seq<byte>>)
    ensures ReadFile(data) == Complete(frames) <==> AllInBounds(frames) && data == FileOf(frames)
  {
    hide ReadRecords, Body;
    if ReadFile(data) == Complete(frames) {
      RecordsCanonical(data[|FILE_HEADER|..]);
      assert data == data[..|FILE_HEADER|] + data[|FILE_HEADER|..];
    }
    if AllInBounds(frames) && data == FileOf(frames) {
      RecordsRoundTrip(frames);
      assert data[..|FILE_HEADER|] == FILE_HEADER && data[|FILE_HEADER|..] == Body(frames);
    }
  }

  // ---------------------------------------------------------------- Truncation

  lemma {:induction false} BodySplit(a: seq<seq<byte>>, c: seq<seq<byte>>)
    requires AllInBounds(a) && AllInBounds(c)
    ensures AllInBounds(a + c) && Body(a + c) == Body(a) + Body(c)
    decreases |a|
  {
    hide RecordOf;
    if a == [] {
      assert a + c == c;
    } else {
      assert (a + c)[1..] == a[1..] + c;
      BodySplit(a[1..], c);
    }
  }

  /** Two record lists whose bytes are comparable are comparable. */
  lemma {:induction false} BodyPrefix(a: seq<seq<byte>>, c: seq<seq<byte>>)
    requires AllInBounds(a) && AllInBounds(c)
    requires |Body(a)| <= |Body(c)| && Body(a) == Body(c)[..|Body(a)|]
    ensures |a| <= |c| && a == c[..|a|]
    decreases |a|
  {
    hide RecordOf, Body;
    BodyOfNone();
    if a != [] {
      BodyOfSome(a);
      assert c != [];
      BodyOfSome(c);
      SameFirstRecord(a[0], Body(a[1..]), c[0], Body(c[1..]));
      BodyPrefix(a[1..], c[1..]);
      assert a == [a[0]] + a[1..] && c[..|a|] == [c[0]] + c[1..][..|a| - 1];
    }
  }

  lemma BodyOfNone()
    ensures Body([]) == []
  {
  }

  lemma BodyOfSome(a: seq<seq<byte>>)
    requires AllInBounds(a) && a != []
    ensures AllInBounds(a[1..]) && InBounds(a[0])
    ensures Body(a) == RecordOf(a[0]) + Body(a[1..]) && |Body(a)| > 0
  {
  }

  lemma SameFirstRecord(f: seq<byte>, s: seq<byte>, g: seq<byte>, t: seq<byte>)
    requires InBounds(f) && InBounds(g)
    requires |RecordOf(f) + s| <= |RecordOf(g) + t|
    requires RecordOf(f) + s == (RecordOf(g) + t)[..|RecordOf(f) + s|]
    ensures f == g && |s| <= |t| && s == t[..|s|]
  {
    hide LengthField, LengthAt;
    var a, b := RecordOf(f) + s, RecordOf(g) + t;
    assert a == LengthField(|f|) + (f + s) && b == LengthField(|g|) + (g + t);
    LengthOfField(|f|, f + s);
    LengthOfField(|g|, g + t);
    LengthLocal(a);
    LengthLocal(b);
    assert a[..LENGTH_SIZE] == b[..LENGTH_SIZE];
    var n := LENGTH_SIZE + |f|;
    assert f == a[LENGTH_SIZE..n] && g == b[LENGTH_SIZE..n];
    assert s == a[n..] && t == b[n..];
  }

  /** A prefix of a file reads as the frames that fit when it ends on a record boundary, and fails otherwise. */
  lemma Truncation(frames: seq<seq<byte>>, k: nat)
    requires AllInBounds(frames) && k <= |FileOf(frames)|
    ensures ReadFile(FileOf(frames)[..k]).Complete?
       <==> exists j :: 0 <= j <= |frames| && k == |FileOf(frames[..j])|
    ensures forall j :: 0 <= j <= |frames| && k == |FileOf(frames[..j])| ==>
              ReadFile(FileOf(frames)[..k]) == Complete(frames[..j])
  {
    hide ReadFile, Body;
    var cut := FileOf(frames)[..k];
    forall j | 0 <= j <= |frames| && k == |FileOf(frames[..j])|
      ensures ReadFile(cut) == Complete(frames[..j])
    {
      BodySplit(frames[..j], frames[j..]);
      assert frames == frames[..j] + frames[j..];
      assert cut == FileOf(frames[..j]);
      FormatIsBijective(cut, frames[..j]);
    }
    if ReadFile(cut).Complete? {
      var got := ReadFile(cut).frames;
      FormatIsBijective(cut, got);
      assert Body(got) == cut[|FILE_HEADER|..];
      assert Body(frames) == FileOf(frames)[|FILE_HEADER|..];
      BodyPrefix(got, frames);
      assert k == |FileOf(frames[..|got|])|;
    }
  }
}
