/**
 What the reader of a capture file says of a damaged one (src/Replay.cpp:103-148): which frames it
 has returned by then, and with which error it stops.
 */
module ReplayDamage {
  import opened Bytes
  import opened ByteValues
  import opened FrameCodec
  import opened Replay

  /** Complete records are read first, whatever follows them. */
  lemma {:induction false} RecordsFirst(a: seq<seq<byte>>, t: seq<byte>)
    requires AllInBounds(a)
    ensures ReadRecords(Body(a) + t) == After(a, ReadRecords(t))
    decreases |a|
  {
    hide RecordOf, ReadRecords;
    if a == [] {
      assert Body(a) + t == t;
      StartAfter(ReadRecords(t));
    } else {
      RecordsFirst(a[1..], t);
      RecordFirst(a[0], Body(a[1..]) + t);
      assert Body(a) + t == RecordOf(a[0]) + (Body(a[1..]) + t);
      AfterFirst(a, ReadRecords(t));
    }
  }

  lemma AfterFirst(a: seq<seq<byte>>, r: Reading)
    requires a != []
    ensures Prepend(a[0], After(a[1..], r)) == After(a, r)
  {
    match r {
      case Complete(frames) => assert [a[0]] + (a[1..] + frames) == a + frames;
      case Broken(before, _) => assert [a[0]] + (a[1..] + before) == a + before;
    }
  }

  lemma FileFirst(a: seq<seq<byte>>, t: seq<byte>)
    requires AllInBounds(a)
    ensures ReadFile(FileOf(a) + t) == After(a, ReadRecords(t))
  {
    hide ReadRecords, Body;
    var data := FileOf(a) + t;
    assert data[..|FILE_HEADER|] == FILE_HEADER && data[|FILE_HEADER|..] == Body(a) + t;
    RecordsFirst(a, t);
  }

  // ---------------------------------------------------------------- A cut file

  /** A record of which only `d` bytes are left. */
  lemma CutRecord(f: seq<byte>, d: nat)
    requires InBounds(f) && d < 4 + |f|
    ensures ReadRecords(RecordOf(f)[..d])
         == if d == 0 then Complete([]) else Broken([], if d < 4 then TruncatedLength else UnexpectedEnd)
  {
    hide LengthField, LengthAt;
    if d >= 4 {
      var b := RecordOf(f)[..d];
      assert b == LengthField(|f|) + f[..d - 4];
      LengthOfField(|f|, f[..d - 4]);
    }
  }

  /** The record in which a cut lies, or the number of records when it lies behind them all. */
  lemma {:induction false} RecordAt(frames: seq<seq<byte>>, k: nat) returns (j: nat)
    requires AllInBounds(frames) && k <= |Body(frames)|
    ensures j <= |frames| && |Body(frames[..j])| <= k
    ensures if j == |frames| then k == |Body(frames)| else k < |Body(frames[..j])| + 4 + |frames[j]|
    decreases |frames|
  {
    hide Body, RecordOf;
    BodyOfNone();
    if k == |Body(frames)| {
      assert frames[..|frames|] == frames;
      return |frames|;
    }
    assert frames != [];
    BodyOfSome(frames);
    if k < 4 + |frames[0]| {
      assert frames[..0] == [];
      return 0;
    }
    var i := RecordAt(frames[1..], k - 4 - |frames[0]|);
    j := i + 1;
    BodyOfSome(frames[..j]);
    assert frames[..j][1..] == frames[1..][..i];
  }

  /**
   A file cut anywhere: in the header nothing is read; otherwise all records complete before the cut
   are, and the rest is the normal end, a truncated length or a truncated frame, as the cut lies.
   */
  lemma CutFile(frames: seq<seq<byte>>, k: nat) returns (j: nat)
    requires AllInBounds(frames) && k <= |FileOf(frames)|
    ensures k < 8 ==> ReadFile(FileOf(frames)[..k]) == Broken([], UnexpectedEnd)
    ensures k >= 8 ==>
              && j <= |frames| && |FileOf(frames[..j])| <= k
              && (if j == |frames| then k == |FileOf(frames)| else k < |FileOf(frames[..j])| + 4 + |frames[j]|)
              && var d := k - |FileOf(frames[..j])|;
                 ReadFile(FileOf(frames)[..k])
                   == if d == 0 then Complete(frames[..j])
                      else Broken(frames[..j], if d < 4 then TruncatedLength else UnexpectedEnd)
  {
    hide Body, RecordOf, ReadRecords;
    j := 0;
    if k >= 8 {
      j := RecordAt(frames, k - 8);
      var a, d := frames[..j], k - |FileOf(frames[..j])|;
      var cut := FileOf(frames)[..k];
      assert frames == a + frames[j..];
      BodySplit(a, frames[j..]);
      BodyOfNone();
      if j == |frames| {
        assert cut == FileOf(a) + [];
        FileFirst(a, []);
        EmptyRecords([]);
        assert a + [] == a;
      } else {
        BodyOfSome(frames[j..]);
        assert frames[j..][0] == frames[j];
        var record := RecordOf(frames[j]);
        assert cut == FileOf(a) + record[..d] by {
          assert FileOf(frames) == FileOf(a) + (record + Body(frames[j..][1..]));
        }
        FileFirst(a, record[..d]);
        CutRecord(frames[j], d);
        assert a + [] == a;
      }
    }
  }

  // ---------------------------------------------------------------- A wrong length or header

  /** Behind complete records, a length that no frame can have ends the reading, whatever follows. */
  lemma WrongLength(frames: seq<seq<byte>>, length: seq<byte>, t: seq<byte>)
    requires AllInBounds(frames) && |length| == 4
    requires Value(length) < 27 || Value(length) > 4123
    ensures ReadFile(FileOf(frames) + (length + t)) == Broken(frames, InvalidLength)
  {
    hide Value, ReadU32BE;
    FileFirst(frames, length + t);
    ReadU32Value(length + t, 0);
    assert (length + t)[0..4] == length;
    assert frames + [] == frames;
  }

  /** The header is refused exactly when its eight bytes are there and differ from the format's. */
  lemma WrongHeader(data: seq<byte>)
    ensures ReadFile(data) == Broken([], InvalidHeader)
       <==> |data| >= 8 && data[..8] != [0x53, 0x54, 0x47, 0x46, 0, 0, 0, 1]
  {
    hide ReadRecords;
    if |data| >= 8 {
      NeverInvalidHeader(data[8..]);
    }
  }

  lemma {:induction false} NeverInvalidHeader(b: seq<byte>)
    ensures ReadRecords(b).Broken? ==> ReadRecords(b).error != InvalidHeader
    decreases |b|
  {
    hide LengthAt;
    if |b| >= 4 && InBoundsLength(b) && |b| >= 4 + LengthAt(b) {
      NeverInvalidHeader(b[4 + LengthAt(b)..]);
    }
  }

  predicate InBoundsLength(b: seq<byte>)
    requires |b| >= 4
  {
    MIN_FRAME_SIZE <= LengthAt(b) <= MAX_FRAME_SIZE
  }
}
